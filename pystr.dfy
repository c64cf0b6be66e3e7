/** The Python string operations the PDB rewriter is built from: clamped slicing, `strip`,
    `rjust`, `replace(' ', '')`, `str(n)` and `int(s)`, modelled on code points. */
module PyStr {
  import opened Wrappers
  import opened Dicts
  import opened Radix

  /** The ASCII characters from `first` on, `n` of them. */
  function CharRange(first: char, n: nat): (r: string)
    requires first as int + n <= 0xD800
    ensures |r| == n && forall k :: 0 <= k < n ==> r[k] as int == first as int + k
  {
    seq(n, k requires 0 <= k < n => (first as int + k) as char)
  }

  /** The decimal digits `"0123456789"`. */
  const Decimal: string := CharRange('0', 10)

  function Min(a: int, b: int): int {
    if a <= b then a else b
  }

  /** Python `s[i:j]` for non-negative bounds: both ends are clamped to the length, and a
      reversed range is empty. */
  function Slice(s: string, i: nat, j: nat): (r: string)
    ensures |r| == if Min(j, |s|) <= i then 0 else Min(j, |s|) - i
    ensures forall k :: 0 <= k < |r| ==> r[k] == s[i + k]
  {
    var hi := Min(j, |s|);
    if hi <= i then [] else s[i..hi]
  }

  /** Python `s[i:]`. */
  function From(s: string, i: nat): (r: string)
    ensures |s| <= i ==> r == []
    ensures i < |s| ==> r == s[i..]
  {
    Slice(s, i, |s|)
  }

  /** A slice of a prefix-concatenation reads the right-hand part when it starts past the prefix. */
  lemma SliceAfterPrefix(a: string, b: string, i: nat, j: nat)
    requires |a| <= i
    ensures Slice(a + b, i, j) == Slice(b, i - |a|, if j < |a| then 0 else j - |a|)
  {
  }

  /** `a` and `b` agree on their first `n` columns. */
  predicate SamePrefix(a: string, b: string, n: nat) {
    |a| >= n && |b| >= n && a[..n] == b[..n]
  }

  /** Cutting a line after at least `n` columns and appending keeps its first `n` columns. */
  lemma PrefixKept(line: string, m: nat, rest: string, n: nat)
    requires n <= m && n <= |line|
    ensures SamePrefix(line, Slice(line, 0, m) + rest, n)
  {
    var cut := Slice(line, 0, m);
    assert |cut| >= n;
    assert (cut + rest)[..n] == cut[..n];
  }

  /** The characters `str.strip()` removes: Python's whitespace, which includes the ASCII
      separators 0x1c..0x1f and the Unicode space separators. */
  predicate IsSpace(c: char) {
    c == ' ' || ('\t' <= c <= '\r') || ('\U{1c}' <= c <= '\U{1f}') || c == '\U{85}' || c == '\U{a0}'
    || c == '\U{1680}' || ('\U{2000}' <= c <= '\U{200a}') || c == '\U{2028}' || c == '\U{2029}'
    || c == '\U{202f}' || c == '\U{205f}' || c == '\U{3000}'
  }

  /** `s.lstrip()`: the longest suffix that does not start with whitespace. */
  function LStrip(s: string): (r: string)
    ensures |r| <= |s| && r == s[|s| - |r|..]
    ensures forall k :: 0 <= k < |s| - |r| ==> IsSpace(s[k])
    ensures r == [] || !IsSpace(r[0])
  {
    if s != [] && IsSpace(s[0]) then LStrip(s[1..]) else s
  }

  /** `s.rstrip()`: the longest prefix that does not end with whitespace. */
  function RStrip(s: string): (r: string)
    ensures |r| <= |s| && r == s[..|r|]
    ensures forall k :: |r| <= k < |s| ==> IsSpace(s[k])
    ensures r == [] || !IsSpace(r[|r| - 1])
  {
    if s != [] && IsSpace(s[|s| - 1]) then RStrip(s[..|s| - 1]) else s
  }

  /** `s.strip()`: what remains of `s` once the whitespace at both ends is removed. */
  function Strip(s: string): (r: string)
    ensures |r| <= |s|
    ensures r == [] || (!IsSpace(r[0]) && !IsSpace(r[|r| - 1]))
  {
    RStrip(LStrip(s))
  }

  /** `strip` only removes characters: what remains is a piece of the input. */
  lemma StripInside(s: string)
    ensures forall k :: 0 <= k < |Strip(s)| ==> Strip(s)[k] in s
  {
    var l := LStrip(s);
    var r := RStrip(l);
    forall k | 0 <= k < |r| ensures r[k] in s {
      assert r[k] == l[k] == s[|s| - |l| + k];
    }
  }

  /** A string with no whitespace at either end is its own strip, whatever whitespace is added. */
  lemma {:induction false} StripPadded(pad: string, t: string)
    requires forall k :: 0 <= k < |pad| ==> IsSpace(pad[k])
    requires t != [] && !IsSpace(t[0]) && !IsSpace(t[|t| - 1])
    ensures Strip(pad + t) == t
  {
    if pad == [] {
      assert pad + t == t;
    } else {
      assert (pad + t)[1..] == pad[1..] + t;
      StripPadded(pad[1..], t);
    }
  }

  /** `n` copies of `c`. */
  function Repeat(c: char, n: nat): (r: string)
    ensures |r| == n && forall k :: 0 <= k < n ==> r[k] == c
  {
    seq(n, _ => c)
  }

  /** `s.rjust(w, c)`: padded on the left with `c` to at least `w` characters. */
  function RJust(s: string, w: nat, c: char): (r: string)
    ensures |s| <= w ==> |r| == w
    ensures w < |s| ==> r == s
    ensures r[|r| - |s|..] == s
    ensures forall k :: 0 <= k < |r| - |s| ==> r[k] == c
  {
    if w <= |s| then s else Repeat(c, w - |s|) + s
  }

  /** `s.replace(c, '')`. */
  function RemoveChar(s: string, c: char): string {
    if s == [] then [] else (if s[0] == c then [] else [s[0]]) + RemoveChar(s[1..], c)
  }

  /** `s.replace(c, '')` keeps exactly the other characters. */
  lemma {:induction false} RemoveCharSpec(s: string, c: char)
    ensures forall x :: x in RemoveChar(s, c) <==> x in s && x != c
  {
    if s != [] {
      RemoveCharSpec(s[1..], c);
      assert s == [s[0]] + s[1..];
    }
  }

  /** `s.find(c)` for a single character: the first index, or -1. */
  function Find(s: string, c: char): (k: int)
    ensures -1 <= k < |s|
    ensures k == -1 <==> c !in s
    ensures k >= 0 ==> s[k] == c && forall j :: 0 <= j < k ==> s[j] != c
  {
    if c in s then IndexOf(s, c) else -1
  }

  lemma DecimalNoDup()
    ensures NoDup(Decimal)
  {
    IncreasingNoDup(Decimal);
  }

  lemma DecimalLiteral()
    ensures Decimal == "0123456789"
  {
  }

  lemma IncreasingNoDup(s: string)
    requires forall k :: 0 <= k < |s| - 1 ==> s[k] < s[k + 1]
    ensures NoDup(s)
  {
    forall i, j | 0 <= i < j < |s| ensures s[i] < s[j] {
      IncreasingStep(s, i, j);
    }
  }

  lemma {:induction false} IncreasingStep(s: string, i: nat, j: nat)
    requires forall k :: 0 <= k < |s| - 1 ==> s[k] < s[k + 1]
    requires i < j < |s|
    ensures s[i] < s[j]
    decreases j - i
  {
    if i + 1 < j {
      IncreasingStep(s, i + 1, j);
    }
  }

  predicate IsDigit(c: char) {
    '0' <= c <= '9'
  }

  predicate IsUpper(c: char) {
    'A' <= c <= 'Z'
  }

  lemma DigitInDecimal(c: char)
    ensures IsDigit(c) <==> c in Decimal
  {
    if IsDigit(c) {
      assert Decimal[c as int - '0' as int] == c;
    }
  }

  /** `str(n)` for a non-negative integer. */
  function NatToString(n: nat): (r: string)
    ensures r != [] && forall k :: 0 <= k < |r| ==> IsDigit(r[k])
  {
    var r := Encode(Decimal, n);
    assert forall k :: 0 <= k < |r| ==> IsDigit(r[k]) by {
      EncodeInDigits(Decimal, n);
      forall k | 0 <= k < |r| ensures IsDigit(r[k]) {
        DigitInDecimal(r[k]);
      }
    }
    r
  }

  /** `str(n)`. */
  function IntToString(n: int): (r: string)
    ensures r != [] && (r[0] == '-' <==> n < 0)
    ensures forall k :: 0 < k < |r| ==> IsDigit(r[k])
    ensures n >= 0 ==> IsDigit(r[0])
  {
    if n < 0 then "-" + NatToString(-n) else NatToString(n)
  }

  /** The digits of an integer literal as `int` accepts them: ASCII digits, single underscores
      between digits allowed. */
  predicate WellFormedDigits(s: string) {
    s != [] && IsDigit(s[0]) && IsDigit(s[|s| - 1])
    && (forall k :: 0 <= k < |s| ==> IsDigit(s[k]) || s[k] == '_')
    && (forall k :: 0 <= k < |s| - 1 && s[k] == '_' ==> s[k + 1] != '_')
  }

  function DigitsValue(s: string): (r: Option<nat>)
    ensures r.Some? <==> WellFormedDigits(s)
  {
    if WellFormedDigits(s) then Some(Decode(Decimal, RemoveChar(s, '_'))) else None
  }

  /** Python `int(s)` in base 10: surrounding whitespace is ignored, an optional sign is taken,
      and anything else is a `ValueError` (`None` here). */
  function ParseInt(s: string): Option<int> {
    ParseSigned(Strip(s))
  }

  /** An optionally signed run of digits. */
  function ParseSigned(t: string): Option<int> {
    if t == [] then None
    else
      var body := if t[0] == '-' || t[0] == '+' then t[1..] else t;
      match DigitsValue(body)
      case None => None
      case Some(v) => Some(if t[0] == '-' then -(v as int) else v as int)
  }

  lemma NatToStringValue(n: nat)
    ensures DigitsValue(NatToString(n)) == Some(n)
  {
    var s := NatToString(n);
    RemoveNoChar(s, '_');
    DecimalNoDup();
    DecodeEncode(Decimal, n);
  }

  lemma {:induction false} RemoveNoChar(s: string, c: char)
    requires c !in s
    ensures RemoveChar(s, c) == s
  {
    if s != [] {
      RemoveNoChar(s[1..], c);
    }
  }

  lemma ParseSignedNegative(d: string, n: nat)
    requires DigitsValue(d) == Some(n)
    ensures ParseSigned("-" + d) == Some(-(n as int))
  {
    var t := "-" + d;
    assert t[0] == '-';
    assert t[1..] == d;
  }

  /** Right-justifying with spaces only adds whitespace in front. */
  lemma StripRJust(s: string, w: nat)
    requires s != [] && !IsSpace(s[0]) && !IsSpace(s[|s| - 1])
    ensures Strip(RJust(s, w, ' ')) == s
  {
    var padded := RJust(s, w, ' ');
    var pad := padded[..|padded| - |s|];
    assert padded == pad + s;
    StripPadded(pad, s);
  }

  /** `int(str(n)) == n`, also when `str(n)` is right-justified with spaces. */
  lemma ParseIntToString(n: int, w: nat)
    ensures ParseInt(RJust(IntToString(n), w, ' ')) == Some(n)
  {
    if n < 0 {
      ParseNegativeToString(n, w);
    } else {
      ParseNatToString(n, w);
    }
  }

  lemma ParseNatToString(n: int, w: nat)
    requires n >= 0
    ensures ParseInt(RJust(IntToString(n), w, ' ')) == Some(n)
  {
    var m: nat := n;
    var s := NatToString(m);
    assert IntToString(n) == s;
    StripRJust(s, w);
    NatToStringValue(m);
    ParseSignedDigits(s, m);
  }

  lemma ParseSignedDigits(t: string, n: nat)
    requires t != [] && IsDigit(t[0]) && DigitsValue(t) == Some(n)
    ensures ParseSigned(t) == Some(n as int)
  {
  }

  lemma ParseNegativeToString(n: int, w: nat)
    requires n < 0
    ensures ParseInt(RJust(IntToString(n), w, ' ')) == Some(n)
  {
    var m: nat := -n;
    var d := NatToString(m);
    var s := "-" + d;
    assert IntToString(n) == s;
    StripRJust(s, w);
    NatToStringValue(m);
    ParseSignedNegative(d, m);
  }
}
