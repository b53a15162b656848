/** Numbers written in a positional system, used as termination measures for
    generators that visit vectors in lexicographic or colex order. */
module Positional {

  /** The base-`b` value of `s`, least significant digit first. */
  ghost function Enc(s: seq<int>, b: int): int {
    if s == [] then 0 else s[0] + b * Enc(s[1..], b)
  }

  ghost function Pow(b: int, k: nat): int {
    if k == 0 then 1 else b * Pow(b, k - 1)
  }

  predicate Digits(s: seq<int>, b: int) {
    forall i :: 0 <= i < |s| ==> 0 <= s[i] < b
  }

  lemma {:induction false} EncBound(s: seq<int>, b: int)
    requires b >= 1 && Digits(s, b)
    ensures 0 <= Enc(s, b) < Pow(b, |s|)
  {
    if s != [] {
      assert Digits(s[1..], b);
      EncBound(s[1..], b);
      DigitStep(s[0], b, Enc(s[1..], b), Pow(b, |s| - 1));
    }
  }

  lemma DigitStep(d: int, b: int, e: int, p: int)
    requires 0 <= d < b && 0 <= e < p
    ensures 0 <= d + b * e < b * p
  {
    MulMono(b, e + 1, p);
  }

  lemma MulMono(b: int, x: int, y: int)
    requires b >= 1 && x <= y
    ensures b * x <= b * y
  {
  }

  /** A larger digit at `j` with equal digits above gives a larger value. */
  lemma {:induction false} EncIncreases(s: seq<int>, t: seq<int>, b: int, j: int)
    requires b >= 1 && |s| == |t| && Digits(s, b) && Digits(t, b)
    requires 0 <= j < |s| && s[j] < t[j] && s[j + 1..] == t[j + 1..]
    ensures Enc(s, b) < Enc(t, b)
  {
    var es, et := Enc(s[1..], b), Enc(t[1..], b);
    assert Enc(s, b) == s[0] + b * es && Enc(t, b) == t[0] + b * et;
    if j == 0 {
      assert s[1..] == t[1..];
    } else {
      assert Digits(s[1..], b) && Digits(t[1..], b);
      assert s[1..][j..] == s[j + 1..] && t[1..][j..] == t[j + 1..];
      EncIncreases(s[1..], t[1..], b, j - 1);
      MulStep(b, es, et);
      assert 0 <= s[0] < b && 0 <= t[0];
    }
  }

  lemma MulStep(b: int, x: int, y: int)
    requires b >= 1 && x < y
    ensures b * x + b <= b * y
  {
    MulMono(b, x + 1, y);
    assert b * (x + 1) == b * x + b;
  }

  /** The base-`b` value of `s`, most significant digit first. */
  ghost function EncLex(s: seq<int>, b: int): int {
    if s == [] then 0 else b * EncLex(s[..|s| - 1], b) + s[|s| - 1]
  }

  lemma {:induction false} EncLexBound(s: seq<int>, b: int)
    requires b >= 1 && Digits(s, b)
    ensures 0 <= EncLex(s, b) < Pow(b, |s|)
  {
    if s != [] {
      var init := s[..|s| - 1];
      assert Digits(init, b);
      EncLexBound(init, b);
      DigitStep(s[|s| - 1], b, EncLex(init, b), Pow(b, |s| - 1));
    }
  }

  /** A larger digit at `j` with equal digits before gives a larger value. */
  lemma {:induction false} EncLexIncreases(s: seq<int>, t: seq<int>, b: int, j: int)
    requires b >= 1 && |s| == |t| && Digits(s, b) && Digits(t, b)
    requires 0 <= j < |s| && s[..j] == t[..j] && s[j] < t[j]
    ensures EncLex(s, b) < EncLex(t, b)
  {
    var k := |s| - 1;
    var es, et := EncLex(s[..k], b), EncLex(t[..k], b);
    assert EncLex(s, b) == b * es + s[k] && EncLex(t, b) == b * et + t[k];
    if j == k {
      assert s[..k] == t[..k];
    } else {
      assert Digits(s[..k], b) && Digits(t[..k], b);
      assert s[..k][..j] == s[..j] && t[..k][..j] == t[..j];
      EncLexIncreases(s[..k], t[..k], b, j);
      MulStep(b, es, et);
      assert 0 <= s[k] < b && 0 <= t[k];
    }
  }
}
