/**
  Base-10 conversion between text and unsigned integers, as the configuration
  engine uses it through Go's strconv package: strconv.ParseUint(s, 10, 64) for
  environment values, and strconv.FormatUint(n, 10), which the flag package
  uses for the default text (DefValue) of a uint64 flag.
 */
module Decimal {
  import opened Scalars

  predicate IsDigit(c: char) {
    '0' <= c <= '9'
  }

  predicate AllDigits(s: string) {
    forall i :: 0 <= i < |s| ==> IsDigit(s[i])
  }

  function DigitValue(c: char): (d: nat)
    requires IsDigit(c)
    ensures d < 10
  {
    (c as int) - ('0' as int)
  }

  function DigitChar(d: nat): (c: char)
    requires d < 10
    ensures IsDigit(c) && DigitValue(c) == d
  {
    (('0' as int) + d) as char
  }

  /** The number that the digits `s` denote when appended, left to right, to `acc`. */
  function DecimalFrom(acc: nat, s: string): nat
    requires AllDigits(s)
    decreases |s|
  {
    if s == [] then acc else DecimalFrom(acc * 10 + DigitValue(s[0]), s[1..])
  }

  /** The number a string of decimal digits denotes; leading zeros are allowed. */
  function DecimalValue(s: string): nat
    requires AllDigits(s)
  {
    DecimalFrom(0, s)
  }

  /** The digit loop of strconv.ParseUint for base 10 and 64 bits: a character that is
      not a digit is a syntax error, and an accumulator that would reach 2^64 is a range
      error (reported as soon as it happens, before the rest of the text is looked at).
      Both errors are `None` here. */
  function Scan(s: string, acc: uint64): Option<uint64>
    decreases |s|
  {
    if s == [] then Some(acc)
    else if !IsDigit(s[0]) then None
    else
      var n := acc * 10 + DigitValue(s[0]);
      if n >= UINT64_LIMIT then None else Scan(s[1..], n)
  }

  /** strconv.ParseUint(s, 10, 64): succeeds exactly on non-empty all-digit text whose
      value fits in 64 bits, and then yields that value. Signs, spaces, underscores and
      prefixes such as "0x" are all errors in base 10. */
  function ParseUint(s: string): (r: Option<uint64>)
    ensures r.Some? <==> s != [] && AllDigits(s) && DecimalValue(s) < UINT64_LIMIT
    ensures r.Some? ==> r.value == DecimalValue(s)
  {
    if s == [] then None
    else
      ScanMeaning(s, 0);
      Scan(s, 0)
  }

  /** strconv.FormatUint(n, 10): the shortest decimal text of `n`. */
  function FormatUint(n: nat): (s: string)
    decreases n
  {
    if n < 10 then [DigitChar(n)] else FormatUint(n / 10) + [DigitChar(n % 10)]
  }

  lemma {:induction false} DecimalFromAtLeast(acc: nat, s: string)
    requires AllDigits(s)
    ensures DecimalFrom(acc, s) >= acc
    decreases |s|
  {
    if s != [] {
      assert AllDigits(s[1..]) by {
        forall i | 0 <= i < |s[1..]| ensures IsDigit(s[1..][i]) {
          assert s[1..][i] == s[i + 1];
        }
      }
      DecimalFromAtLeast(acc * 10 + DigitValue(s[0]), s[1..]);
    }
  }

  /** The early range check of `Scan` rejects exactly what overflows in the end. */
  lemma {:induction false} ScanMeaning(s: string, acc: uint64)
    ensures Scan(s, acc) == if AllDigits(s) && DecimalFrom(acc, s) < UINT64_LIMIT
                            then Some(DecimalFrom(acc, s)) else None
    decreases |s|
  {
    if s != [] {
      if !IsDigit(s[0]) {
        assert !AllDigits(s);
      } else {
        var n := acc * 10 + DigitValue(s[0]);
        assert AllDigits(s) <==> AllDigits(s[1..]) by {
          if AllDigits(s[1..]) {
            forall i | 0 <= i < |s| ensures IsDigit(s[i]) {
              if i > 0 { assert s[i] == s[1..][i - 1]; }
            }
          }
          if AllDigits(s) {
            forall i | 0 <= i < |s[1..]| ensures IsDigit(s[1..][i]) {
              assert s[1..][i] == s[i + 1];
            }
          }
        }
        if n >= UINT64_LIMIT {
          if AllDigits(s) {
            DecimalFromAtLeast(n, s[1..]);
          }
        } else {
          ScanMeaning(s[1..], n);
        }
      }
    }
  }

  lemma {:induction false} DecimalFromAppend(acc: nat, s: string, c: char)
    requires AllDigits(s) && IsDigit(c)
    ensures AllDigits(s + [c])
    ensures DecimalFrom(acc, s + [c]) == DecimalFrom(acc, s) * 10 + DigitValue(c)
    decreases |s|
  {
    var t := s + [c];
    assert AllDigits(t) by {
      forall i | 0 <= i < |t| ensures IsDigit(t[i]) {
        if i < |s| { assert t[i] == s[i]; }
      }
    }
    if s == [] {
      assert t[1..] == [];
    } else {
      assert t[0] == s[0] && t[1..] == s[1..] + [c];
      assert AllDigits(s[1..]) by {
        forall i | 0 <= i < |s[1..]| ensures IsDigit(s[1..][i]) {
          assert s[1..][i] == s[i + 1];
        }
      }
      DecimalFromAppend(acc * 10 + DigitValue(s[0]), s[1..], c);
    }
  }

  /** FormatUint writes a non-empty digit string that denotes `n`. */
  lemma {:induction false} FormatUintDenotes(n: nat)
    ensures |FormatUint(n)| > 0 && AllDigits(FormatUint(n))
    ensures DecimalValue(FormatUint(n)) == n
    decreases n
  {
    if n < 10 {
      var s := FormatUint(n);
      assert s == [DigitChar(n)];
      assert s[1..] == [];
      assert DecimalFrom(0, s) == DecimalFrom(DigitValue(s[0]), s[1..]);
    } else {
      FormatUintDenotes(n / 10);
      DecimalFromAppend(0, FormatUint(n / 10), DigitChar(n % 10));
    }
  }

  /** Round trip: parsing the decimal text of a uint64 gives it back. */
  lemma ParseFormatRoundTrip(n: uint64)
    ensures ParseUint(FormatUint(n)) == Some(n)
  {
    FormatUintDenotes(n);
  }

  /** The decimal text of any number from 2^64 up is rejected as out of range. */
  lemma ParseRejectsOverflow(n: nat)
    requires n >= UINT64_LIMIT
    ensures ParseUint(FormatUint(n)) == None
  {
    FormatUintDenotes(n);
  }

  /** Concrete cases: "123" is 123; a sign, a stray letter and the empty text are errors. */
  lemma ParseExamples()
    ensures ParseUint("123") == Some(123)
    ensures ParseUint("007") == Some(7)
    ensures ParseUint("-1") == None
    ensures ParseUint("12a") == None
    ensures ParseUint("") == None
  {
    assert "123"[1..] == "23" && "23"[1..] == "3" && "3"[1..] == "";
    assert DecimalValue("123") == 123;
    assert "007"[1..] == "07" && "07"[1..] == "7" && "7"[1..] == "";
    assert DecimalValue("007") == 7;
    assert !IsDigit("-1"[0]);
    assert !IsDigit("12a"[2]);
  }
}
