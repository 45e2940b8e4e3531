/**
 * Numeric tokens in names: the maximal runs of ASCII digits that
 * `re.findall('\d+', name)` returns, their integer values (`int(text)`) and
 * the decimal text of a counter (an f-string of an `int`).
 */
module Tokens {

  predicate IsDigit(c: char) {
    '0' <= c <= '9'
  }

  predicate AllDigits(t: string) {
    forall i :: 0 <= i < |t| ==> IsDigit(t[i])
  }

  predicate NoDigits(t: string) {
    forall i :: 0 <= i < |t| ==> !IsDigit(t[i])
  }

  /** A numeric token: a non-empty run of digits. */
  predicate IsToken(t: string) {
    |t| > 0 && AllDigits(t)
  }

  predicate HasDigit(s: string) {
    exists i :: 0 <= i < |s| && IsDigit(s[i])
  }

  /** Length of the run of digits at the start of `s`. */
  function RunLength(s: string): (n: nat)
    ensures n <= |s|
    ensures AllDigits(s[..n])
    ensures n < |s| ==> !IsDigit(s[n])
  {
    if s == [] || !IsDigit(s[0]) then 0
    else
      var n := 1 + RunLength(s[1..]);
      assert s[..n] == [s[0]] + s[1..][..n - 1];
      n
  }

  /** The maximal digit runs of `s`, left to right: `re.findall('\d+', s)`. */
  function DigitRuns(s: string): (runs: seq<string>)
    ensures forall k :: 0 <= k < |runs| ==> IsToken(runs[k])
    ensures runs == [] <==> !HasDigit(s)
    decreases |s|
  {
    if s == [] then []
    else if !IsDigit(s[0]) then
      var runs := DigitRuns(s[1..]);
      assert HasDigit(s) <==> HasDigit(s[1..]) by {
        if HasDigit(s) {
          var i :| 0 <= i < |s| && IsDigit(s[i]);
          assert s[1..][i - 1] == s[i];
        }
        if HasDigit(s[1..]) {
          var i :| 0 <= i < |s[1..]| && IsDigit(s[1..][i]);
          assert s[i + 1] == s[1..][i];
        }
      }
      runs
    else
      var n := RunLength(s);
      assert IsDigit(s[0]);
      [s[..n]] + DigitRuns(s[n..])
  }

  /** Index of the first digit of `s`. */
  function FirstDigit(s: string): (i: nat)
    requires HasDigit(s)
    ensures i < |s| && IsDigit(s[i])
    ensures NoDigits(s[..i])
  {
    if IsDigit(s[0]) then 0
    else
      assert HasDigit(s[1..]) by {
        var j :| 0 <= j < |s| && IsDigit(s[j]);
        assert s[1..][j - 1] == s[j];
      }
      var i := 1 + FirstDigit(s[1..]);
      assert s[..i] == [s[0]] + s[1..][..i - 1];
      i
  }

  /** The "first token" of a name: `re.findall('\d+', s)[0]`. */
  function FirstToken(s: string): (t: string)
    requires HasDigit(s)
    ensures IsToken(t)
  {
    DigitRuns(s)[0]
  }

  /**
   * The first token is the maximal digit run that starts at the first digit:
   * `s` is a digit-free prefix, the token, and a rest that does not continue
   * the run.
   */
  lemma {:induction false} FirstTokenAt(s: string)
    requires HasDigit(s)
    ensures var i := FirstDigit(s); var t := FirstToken(s);
            i + |t| <= |s| && s[i..i + |t|] == t && NoDigits(s[..i]) &&
            (i + |t| < |s| ==> !IsDigit(s[i + |t|]))
    decreases |s|
  {
    if IsDigit(s[0]) {
      var n := RunLength(s);
      assert FirstToken(s) == s[..n];
      assert s[0..n] == s[..n];
    } else {
      var s' := s[1..];
      assert HasDigit(s') by {
        var j :| 0 <= j < |s| && IsDigit(s[j]);
        assert s'[j - 1] == s[j];
      }
      FirstTokenAt(s');
      var i' := FirstDigit(s');
      var t := FirstToken(s');
      assert FirstToken(s) == t;
      assert FirstDigit(s) == i' + 1;
      assert s[i' + 1..i' + 1 + |t|] == s'[i'..i' + |t|];
      if i' + 1 + |t| < |s| {
        assert s[i' + 1 + |t|] == s'[i' + |t|];
      }
    }
  }

  function DigitValue(c: char): (d: nat)
    requires IsDigit(c)
    ensures d < 10
  {
    c as int - '0' as int
  }

  function DigitChar(d: nat): (c: char)
    requires d < 10
    ensures IsDigit(c) && DigitValue(c) == d
  {
    ('0' as int + d) as char
  }

  /** Python's `int(t)` for a string of digits (leading zeros allowed). */
  function Value(t: string): nat
    requires AllDigits(t)
  {
    if t == [] then 0 else 10 * Value(t[..|t| - 1]) + DigitValue(t[|t| - 1])
  }

  /** The decimal text of `n`, as `f"{n}"` writes it: no leading zeros. */
  function Decimal(n: nat): (t: string)
    ensures IsToken(t)
    ensures Value(t) == n
    ensures |t| > 1 ==> t[0] != '0'
  {
    if n < 10 then [DigitChar(n)]
    else
      var d := Decimal(n / 10);
      var t := d + [DigitChar(n % 10)];
      assert t[..|t| - 1] == d;
      t
  }

  /** How many characters `Decimal` writes for one-, two- and three-digit numbers. */
  lemma DecimalLength(n: nat)
    ensures n < 10 ==> |Decimal(n)| == 1
    ensures 10 <= n < 100 ==> |Decimal(n)| == 2
    ensures 100 <= n < 1000 ==> |Decimal(n)| == 3
  {
    if n >= 10 {
      DecimalLength(n / 10);
    }
  }

  /** A leading zero does not change the value of a digit string. */
  lemma {:induction false} LeadingZero(t: string)
    requires AllDigits(t)
    ensures Value("0" + t) == Value(t)
    decreases |t|
  {
    if t != [] {
      var t' := "0" + t;
      assert t'[..|t'| - 1] == "0" + t[..|t| - 1];
      LeadingZero(t[..|t| - 1]);
    }
  }

  /** A token of two or more digits that does not start with '0' is at least 10. */
  lemma {:induction false} ValueAtLeastTen(t: string)
    requires IsToken(t) && |t| >= 2 && t[0] != '0'
    ensures Value(t) >= 10
    decreases |t|
  {
    var p := t[..|t| - 1];
    if |p| >= 2 {
      ValueAtLeastTen(p);
    } else {
      assert p == [t[0]];
      assert Value(p) == DigitValue(t[0]);
    }
  }

  /** A token as `f"{n}"` writes numbers: no leading zero unless it is "0" itself. */
  predicate Canonical(t: string) {
    IsToken(t) && (|t| > 1 ==> t[0] != '0')
  }

  /** Reading a canonical token and writing the number back gives the token. */
  lemma {:induction false} DecimalValue(t: string)
    requires Canonical(t)
    ensures Decimal(Value(t)) == t
    decreases |t|
  {
    var p := t[..|t| - 1];
    var c := t[|t| - 1];
    if |t| == 1 {
      assert p == [];
      assert t == [c];
    } else {
      ValueAtLeastTen(t);
      assert p[0] == t[0];
      DecimalValue(p);
      assert Value(t) / 10 == Value(p) && Value(t) % 10 == DigitValue(c);
      assert t == p + [c];
    }
  }

  /** Canonical tokens with the same value are the same text. */
  lemma CanonicalInjective(a: string, b: string)
    requires Canonical(a) && Canonical(b) && Value(a) == Value(b)
    ensures a == b
  {
    DecimalValue(a);
    DecimalValue(b);
  }
}
