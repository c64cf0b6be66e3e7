/** Positional notation over an explicit digit alphabet, as `encode_pure` in pdbCorrection.py
    writes it, with the matching decoder and the length facts hybrid-36 relies on. */
module Radix {
  import opened Dicts

  function Pow(b: nat, e: nat): (r: nat)
    ensures b >= 1 ==> r >= 1
  {
    if e == 0 then 1 else b * Pow(b, e - 1)
  }

  function Reverse<T>(s: seq<T>): (r: seq<T>)
    ensures |r| == |s|
    ensures forall i :: 0 <= i < |s| ==> r[i] == s[|s| - 1 - i]
  {
    seq(|s|, i requires 0 <= i < |s| => s[|s| - 1 - i])
  }

  lemma ReverseSnoc<T>(s: seq<T>, x: T)
    ensures Reverse(s + [x]) == [x] + Reverse(s)
  {
    var l, r := Reverse(s + [x]), [x] + Reverse(s);
    assert |l| == |r|;
    forall i | 0 <= i < |l| ensures l[i] == r[i] {
      if i > 0 {
        assert r[i] == Reverse(s)[i - 1] == s[|s| - i];
      }
    }
  }

  /** The representation of `v` in base `|digits|`, most significant digit first, without
      leading zero digits; zero is the single digit `digits[0]`. */
  function Encode(digits: seq<char>, v: nat): (r: seq<char>)
    requires |digits| >= 2
    ensures |r| >= 1
    decreases v
  {
    if v < |digits| then [digits[v]] else Encode(digits, v / |digits|) + [digits[v % |digits|]]
  }

  /** Every character of an encoding is one of the digits. */
  lemma {:induction false} EncodeInDigits(digits: seq<char>, v: nat)
    requires |digits| >= 2
    ensures forall i :: 0 <= i < |Encode(digits, v)| ==> Encode(digits, v)[i] in digits
    decreases v
  {
    if v >= |digits| {
      DivLess(v, |digits|);
      EncodeInDigits(digits, v / |digits|);
    }
  }

  /** The value of one digit: its position in `digits` (0 for a character that is not a digit). */
  function DigitValue(digits: seq<char>, c: char): (k: nat)
    ensures c in digits ==> k < |digits| && digits[k] == c
  {
    if c in digits then IndexOf(digits, c) else 0
  }

  /** The value of a digit string in base `|digits|`. */
  function Decode(digits: seq<char>, s: seq<char>): nat {
    if s == [] then 0
    else Decode(digits, s[..|s| - 1]) * |digits| + DigitValue(digits, s[|s| - 1])
  }

  lemma DecodeSnoc(digits: seq<char>, s: seq<char>, c: char)
    ensures Decode(digits, s + [c]) == Decode(digits, s) * |digits| + DigitValue(digits, c)
  {
    assert (s + [c])[..|s + [c]| - 1] == s;
  }

  /** Decoding an encoding gives the value back (the digits must be distinct). */
  lemma {:induction false} DecodeEncode(digits: seq<char>, v: nat)
    requires |digits| >= 2 && NoDup(digits)
    ensures Decode(digits, Encode(digits, v)) == v
    decreases v
  {
    if v < |digits| {
      DecodeEncodeDigit(digits, v);
    } else {
      DivLess(v, |digits|);
      DecodeEncode(digits, v / |digits|);
      DecodeEncodeStep(digits, v);
    }
  }

  lemma DecodeEncodeDigit(digits: seq<char>, v: nat)
    requires |digits| >= 2 && NoDup(digits) && v < |digits|
    ensures Decode(digits, Encode(digits, v)) == v
  {
    IndexOfDistinct(digits, v);
    DecodeSnoc(digits, [], digits[v]);
    assert [] + [digits[v]] == Encode(digits, v);
  }

  lemma DecodeEncodeStep(digits: seq<char>, v: nat)
    requires |digits| >= 2 && NoDup(digits) && v >= |digits|
    requires Decode(digits, Encode(digits, v / |digits|)) == v / |digits|
    ensures Decode(digits, Encode(digits, v)) == v
  {
    var n := |digits|;
    var q, m := v / n, v % n;
    IndexOfDistinct(digits, m);
    DecodeSnoc(digits, Encode(digits, q), digits[m]);
    DivMod(v, n);
  }

  /** A zero leading digit only occurs in the encoding of zero. */
  lemma {:induction false} EncodeNoLeadingZero(digits: seq<char>, v: nat)
    requires |digits| >= 2 && NoDup(digits) && v >= 1
    ensures Encode(digits, v)[0] != digits[0]
    decreases v
  {
    if v >= |digits| {
      assert v / |digits| >= 1;
      EncodeNoLeadingZero(digits, v / |digits|);
    }
  }

  lemma DivMod(v: nat, n: nat)
    requires n >= 1
    ensures (v / n) * n + v % n == v && v % n < n
  {
  }

  lemma DivLess(v: nat, n: nat)
    requires n >= 2 && v >= 1
    ensures v / n < v
  {
    DivMod(v, n);
  }

  lemma MulLtCancel(n: nat, a: nat, b: nat)
    requires n * a < n * b
    ensures a < b
  {
  }

  lemma DivBounds(v: nat, n: nat, p: nat)
    requires n >= 1
    ensures p * n <= v ==> p <= v / n
    ensures v < n * p ==> v / n < p
  {
    DivMod(v, n);
    if p * n <= v {
      MulLtCancel(n, p, v / n + 1);
    }
    if v < n * p {
      MulLtCancel(n, v / n, p);
    }
  }

  lemma DivUnique(a: nat, d: nat, q: nat, r: nat)
    requires d >= 1 && a == d * q + r && r < d
    ensures a / d == q
  {
    DivBounds(a, d, q);
    DivBounds(a, d, q + 1);
  }

  lemma MulRegroup(a: nat, b: nat, c: nat, q1: nat, r1: nat, q2: nat, r2: nat)
    requires a == b * q1 + r1 && q1 == c * q2 + r2
    ensures a == (b * c) * q2 + (b * r2 + r1)
  {
    assert b * q1 == b * (c * q2) + b * r2;
  }

  lemma MulLtBound(b: nat, c: nat, r1: nat, r2: nat)
    requires r1 < b && r2 < c
    ensures b * r2 + r1 < b * c
  {
    assert b * r2 <= b * (c - 1);
  }

  lemma DivDiv(a: nat, b: nat, c: nat)
    requires b >= 1 && c >= 1
    ensures a / b / c == a / (b * c)
  {
    var q1, r1 := a / b, a % b;
    var q2, r2 := q1 / c, q1 % c;
    DivMod(a, b);
    DivMod(q1, c);
    MulRegroup(a, b, c, q1, r1, q2, r2);
    MulLtBound(b, c, r1, r2);
    DivUnique(a, b * c, q2, b * r2 + r1);
  }

  /** A value with exactly `k` digits in base `n` is encoded with exactly `k` digits, and the
      leading digit is `v / n^(k-1)`. */
  lemma {:induction false} EncodeLength(digits: seq<char>, v: nat, k: nat)
    requires |digits| >= 2 && k >= 1
    requires Pow(|digits|, k - 1) <= v < Pow(|digits|, k)
    ensures |Encode(digits, v)| == k
    ensures v / Pow(|digits|, k - 1) < |digits|
    ensures Encode(digits, v)[0] == digits[v / Pow(|digits|, k - 1)]
    decreases k
  {
    var n := |digits|;
    if k == 1 {
      assert Pow(n, 0) == 1 && Pow(n, 1) == n;
    } else {
      var p := Pow(n, k - 2);
      assert Pow(n, k - 1) == n * p;
      assert Pow(n, k) == n * Pow(n, k - 1);
      assert v >= n by {
        assert p >= 1;
        assert n * p >= n;
      }
      DivBounds(v, n, p);
      DivBounds(v, n, Pow(n, k - 1));
      EncodeLength(digits, v / n, k - 1);
      DivDiv(v, n, p);
    }
  }

  /** A value below `n^k` (k >= 1) needs at most `k` digits. */
  lemma {:induction false} EncodeLengthAtMost(digits: seq<char>, v: nat, k: nat)
    requires |digits| >= 2 && k >= 1 && v < Pow(|digits|, k)
    ensures |Encode(digits, v)| <= k
    decreases v
  {
    if v >= |digits| {
      ShiftBelowPow(|digits|, v, k);
      EncodeLengthAtMost(digits, v / |digits|, k - 1);
    }
  }

  lemma ShiftBelowPow(n: nat, v: nat, k: nat)
    requires n >= 2 && k >= 1 && n <= v < Pow(n, k)
    ensures k >= 2 && v / n < Pow(n, k - 1) && v / n < v
  {
    DivLess(v, n);
    assert Pow(n, 1) == n;
    assert k != 1;
    assert Pow(n, k) == n * Pow(n, k - 1);
    DivBounds(v, n, Pow(n, k - 1));
  }

  /** The digits still to be produced for `v`: none once `v` reaches zero. */
  function Pending(digits: seq<char>, v: nat): seq<char>
    requires |digits| >= 2
  {
    if v == 0 then [] else Encode(digits, v)
  }

  /** One step of `encode_pure`: with `rest == v // n`, the digit `digits[v - rest * n]` is the
      last digit of the encoding of a positive `v`, preceded by the digits still pending for `rest`. */
  lemma EncodeStep(digits: seq<char>, v: nat, rest: nat)
    requires |digits| >= 2 && v >= 1 && rest == v / |digits|
    ensures rest < v && 0 <= v - rest * |digits| < |digits|
    ensures Encode(digits, v) == Pending(digits, rest) + [digits[v - rest * |digits|]]
  {
    var n := |digits|;
    DivMod(v, n);
    DivLess(v, n);
    if v < n {
      DivUnique(v, n, 0, v);
    } else {
      DivBounds(v, n, 1);
    }
  }

  lemma MoveDigit(whole: seq<char>, front: seq<char>, d: char, done: seq<char>)
    requires whole == front + [d]
    ensures whole + Reverse(done) == front + Reverse(done + [d])
  {
    ReverseSnoc(done, d);
  }

  /** `encode_pure` (pdbCorrection.py:13-25): collects digits least significant first by repeated
      floor division, then reverses them. */
  method EncodePure(digits: seq<char>, value: int) returns (r: seq<char>)
    requires |digits| >= 2
    requires value >= 0
    ensures r == Encode(digits, value)
  {
    if value == 0 {
      return [digits[0]];
    }
    var n := |digits|;
    var result: seq<char> := [];
    var v: nat := value;
    while v != 0
      invariant Encode(digits, value) == Pending(digits, v) + Reverse(result)
      decreases v
    {
      var rest := v / n;
      EncodeStep(digits, v, rest);
      var d := digits[v - rest * n];
      MoveDigit(Encode(digits, v), Pending(digits, rest), d, result);
      result := result + [d];
      v := rest;
    }
    r := Reverse(result);
  }
}
