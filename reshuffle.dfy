/** The order `reshuffle_pdb` (pdbCorrection.py:64-75) puts records in: every record that is not an
    ATOM record first, as it came, then the ATOM records sorted by segment (columns 72..76) and
    residue number (columns 22..27), keeping the input order among equal keys as Python's sort
    does. */
module Reshuffle {
  import opened Wrappers
  import opened PyStr

  /** The sort key `(x[72:76], int(x[22:27].strip()))`. */
  datatype Key = Key(seg: string, num: int)

  /** The key of a record, `None` where `int` raises `ValueError`. */
  function KeyOf(line: string): Option<Key> {
    match ParseInt(Strip(Slice(line, 22, 27)))
    case None => None
    case Some(n) => Some(Key(Slice(line, 72, 76), n))
  }

  predicate IsAtom(line: string) {
    Slice(line, 0, 6) == "ATOM  "
  }

  /** The ATOM records, in input order. */
  function Atoms(lines: seq<string>): (r: seq<string>)
    ensures |r| <= |lines|
  {
    if lines == [] then []
    else Atoms(lines[..|lines| - 1]) + (if IsAtom(lines[|lines| - 1]) then [lines[|lines| - 1]] else [])
  }

  /** The other records, in input order. */
  function Others(lines: seq<string>): (r: seq<string>)
    ensures |r| <= |lines|
  {
    if lines == [] then []
    else Others(lines[..|lines| - 1]) + (if IsAtom(lines[|lines| - 1]) then [] else [lines[|lines| - 1]])
  }

  /** Splitting loses and invents nothing. */
  lemma {:induction false} SplitPermutes(lines: seq<string>)
    ensures multiset(Others(lines)) + multiset(Atoms(lines)) == multiset(lines)
  {
    if lines != [] {
      var pre := lines[..|lines| - 1];
      var x := lines[|lines| - 1];
      SplitPermutes(pre);
      assert lines == pre + [x];
      assert multiset(lines) == multiset(pre) + multiset{x};
      if IsAtom(x) {
        assert Atoms(lines) == Atoms(pre) + [x] && Others(lines) == Others(pre);
      } else {
        assert Atoms(lines) == Atoms(pre) && Others(lines) == Others(pre) + [x];
      }
    }
  }

  /** `Atoms` keeps only ATOM records. */
  lemma {:induction false} AtomsAreAtoms(lines: seq<string>)
    ensures forall k :: 0 <= k < |Atoms(lines)| ==> IsAtom(Atoms(lines)[k])
  {
    if lines != [] {
      AtomsAreAtoms(lines[..|lines| - 1]);
    }
  }

  /** `Others` keeps only the other records. */
  lemma {:induction false} OthersAreOthers(lines: seq<string>)
    ensures forall k :: 0 <= k < |Others(lines)| ==> !IsAtom(Others(lines)[k])
  {
    if lines != [] {
      OthersAreOthers(lines[..|lines| - 1]);
    }
  }

  // ----- Python's ordering of strings and of keys -----

  /** `a < b` on `str`: lexicographic by code point, a proper prefix first. */
  predicate StrLess(a: string, b: string)
    decreases |a|
  {
    if a == [] then b != []
    else if b == [] then false
    else if a[0] != b[0] then a[0] < b[0]
    else StrLess(a[1..], b[1..])
  }

  lemma {:induction false} StrLessIrreflexive(a: string)
    ensures !StrLess(a, a)
  {
    if a != [] {
      StrLessIrreflexive(a[1..]);
    }
  }

  lemma {:induction false} StrLessTotal(a: string, b: string)
    ensures a == b || StrLess(a, b) || StrLess(b, a)
  {
    if a != [] && b != [] && a[0] == b[0] {
      StrLessTotal(a[1..], b[1..]);
      if a[1..] == b[1..] {
        assert a == [a[0]] + a[1..] && b == [b[0]] + b[1..];
      }
    }
  }

  lemma {:induction false} StrLessTransitive(a: string, b: string, c: string)
    requires StrLess(a, b) && StrLess(b, c)
    ensures StrLess(a, c)
  {
    if a != [] && a[0] == b[0] && b[0] == c[0] {
      StrLessTransitive(a[1..], b[1..], c[1..]);
    }
  }

  lemma StrLessAsymmetric(a: string, b: string)
    requires StrLess(a, b)
    ensures !StrLess(b, a)
  {
    if StrLess(b, a) {
      StrLessTransitive(a, b, a);
      StrLessIrreflexive(a);
    }
  }

  /** Tuple comparison of two keys. */
  predicate KeyLess(a: Key, b: Key) {
    StrLess(a.seg, b.seg) || (a.seg == b.seg && a.num < b.num)
  }

  /** `KeyLess` is a strict weak order whose equivalence is equality: irreflexive, transitive and
      total on distinct keys. */
  lemma KeyOrder(a: Key, b: Key, c: Key)
    ensures !KeyLess(a, a)
    ensures KeyLess(a, b) && KeyLess(b, c) ==> KeyLess(a, c)
    ensures a == b || KeyLess(a, b) || KeyLess(b, a)
  {
    StrLessIrreflexive(a.seg);
    StrLessTotal(a.seg, b.seg);
    if StrLess(a.seg, b.seg) && StrLess(b.seg, c.seg) {
      StrLessTransitive(a.seg, b.seg, c.seg);
    }
    if KeyLess(a, b) && KeyLess(b, c) && a.seg == c.seg && !(a.num < c.num) {
      if StrLess(a.seg, b.seg) {
        StrLessAsymmetric(a.seg, b.seg);
      }
    }
  }

  // ----- stable sort -----

  type Keyed = (Key, string)

  predicate Sorted(s: seq<Keyed>) {
    forall i, j :: 0 <= i < j < |s| ==> !KeyLess(s[j].0, s[i].0)
  }

  /** Insert `x` after every entry whose key is not greater than its own. */
  function Insert(x: Keyed, s: seq<Keyed>): (r: seq<Keyed>)
    ensures multiset(r) == multiset(s) + multiset{x}
    ensures |r| == |s| + 1
  {
    if s == [] then [x]
    else if KeyLess(x.0, s[0].0) then [x] + s
    else
      assert s == [s[0]] + s[1..];
      [s[0]] + Insert(x, s[1..])
  }

  /** `list.sort(key=...)` on records whose keys are already computed: insertion of each record, in
      input order, into the sorted prefix. */
  function SortByKey(s: seq<Keyed>): (r: seq<Keyed>)
    ensures multiset(r) == multiset(s)
  {
    if s == [] then []
    else
      assert s == s[..|s| - 1] + [s[|s| - 1]];
      Insert(s[|s| - 1], SortByKey(s[..|s| - 1]))
  }

  lemma SortedTail(s: seq<Keyed>)
    requires Sorted(s) && s != []
    ensures Sorted(s[1..])
  {
    forall i, j | 0 <= i < j < |s[1..]| ensures !KeyLess(s[1..][j].0, s[1..][i].0) {
      assert s[1..][j] == s[j + 1] && s[1..][i] == s[i + 1];
    }
  }

  /** A key below the first of a sorted sequence is below all of them. */
  lemma BelowAll(x: Keyed, s: seq<Keyed>)
    requires Sorted(s) && s != [] && KeyLess(x.0, s[0].0)
    ensures forall i :: 0 <= i < |s| ==> KeyLess(x.0, s[i].0)
  {
    forall i | 0 <= i < |s| ensures KeyLess(x.0, s[i].0) {
      if i > 0 {
        KeyOrder(s[0].0, s[i].0, s[0].0);
        KeyOrder(x.0, s[0].0, s[i].0);
      }
    }
  }

  lemma {:induction false} InsertSorted(x: Keyed, s: seq<Keyed>)
    requires Sorted(s)
    ensures Sorted(Insert(x, s))
  {
    if s == [] {
    } else if KeyLess(x.0, s[0].0) {
      var r := [x] + s;
      forall i, j | 0 <= i < j < |r| ensures !KeyLess(r[j].0, r[i].0) {
        if i == 0 {
          KeyOrder(x.0, s[0].0, r[j].0);
          KeyOrder(r[j].0, x.0, s[0].0);
          KeyOrder(s[0].0, r[j].0, x.0);
        }
      }
    } else {
      SortedTail(s);
      var rest := Insert(x, s[1..]);
      InsertSorted(x, s[1..]);
      forall j | 0 <= j < |rest| ensures !KeyLess(rest[j].0, s[0].0) {
        assert rest[j] in multiset(rest);
        if rest[j] != x {
          assert rest[j] in multiset(s[1..]);
          var i :| 0 <= i < |s[1..]| && s[1..][i] == rest[j];
          assert s[i + 1] == rest[j];
        }
      }
      var r := [s[0]] + rest;
      forall i, j | 0 <= i < j < |r| ensures !KeyLess(r[j].0, r[i].0) {
        if i > 0 {
          assert r[i] == rest[i - 1] && r[j] == rest[j - 1];
        }
      }
    }
  }

  /** The records come out in key order. */
  lemma {:induction false} SortByKeySorted(s: seq<Keyed>)
    ensures Sorted(SortByKey(s))
  {
    if s != [] {
      SortByKeySorted(s[..|s| - 1]);
      InsertSorted(s[|s| - 1], SortByKey(s[..|s| - 1]));
    }
  }

  /** The records with key `k`, in order. */
  function WithKey(s: seq<Keyed>, k: Key): (r: seq<Keyed>)
    ensures |r| <= |s|
  {
    if s == [] then []
    else WithKey(s[..|s| - 1], k) + (if s[|s| - 1].0 == k then [s[|s| - 1]] else [])
  }

  lemma {:induction false} WithKeyAppend(a: seq<Keyed>, b: seq<Keyed>, k: Key)
    ensures WithKey(a + b, k) == WithKey(a, k) + WithKey(b, k)
    decreases |b|
  {
    if b == [] {
      assert a + b == a;
    } else {
      var b' := b[..|b| - 1];
      assert (a + b)[..|a + b| - 1] == a + b';
      WithKeyAppend(a, b', k);
    }
  }

  lemma WithKeyOne(x: Keyed, k: Key)
    ensures WithKey([x], k) == if x.0 == k then [x] else []
  {
    assert [x][..0] == [];
  }

  /** No record with a key greater than `x`'s has `x`'s key. */
  lemma {:induction false} WithKeyAbove(s: seq<Keyed>, x: Keyed)
    requires forall i :: 0 <= i < |s| ==> KeyLess(x.0, s[i].0)
    ensures WithKey(s, x.0) == []
  {
    if s != [] {
      WithKeyAbove(s[..|s| - 1], x);
      KeyOrder(x.0, x.0, x.0);
    }
  }

  /** Inserting into a sorted sequence puts `x` after every record with its key. */
  lemma {:induction false} InsertWithKey(x: Keyed, s: seq<Keyed>, k: Key)
    requires Sorted(s)
    ensures WithKey(Insert(x, s), k) == WithKey(s, k) + (if x.0 == k then [x] else [])
  {
    var wx := if x.0 == k then [x] else [];
    WithKeyOne(x, k);
    if s == [] {
      assert Insert(x, s) == [x];
      assert WithKey(s, k) == [];
      assert WithKey(Insert(x, s), k) == [] + wx;
    } else if KeyLess(x.0, s[0].0) {
      assert Insert(x, s) == [x] + s;
      InsertFront(x, s, k);
    } else {
      var t := s[1..];
      assert s == [s[0]] + t;
      SortedTail(s);
      InsertWithKey(x, t, k);
      WithKeyAppend([s[0]], Insert(x, t), k);
      WithKeyAppend([s[0]], t, k);
      var w0 := WithKey([s[0]], k);
      assert WithKey(Insert(x, s), k) == w0 + (WithKey(t, k) + wx);
      assert WithKey(s, k) == w0 + WithKey(t, k);
      Assoc(w0, WithKey(t, k), wx);
    }
  }

  lemma Assoc(a: seq<Keyed>, b: seq<Keyed>, c: seq<Keyed>)
    ensures a + (b + c) == (a + b) + c
  {
  }

  /** The case of `InsertWithKey` where `x` goes in front. */
  lemma InsertFront(x: Keyed, s: seq<Keyed>, k: Key)
    requires Sorted(s) && s != [] && KeyLess(x.0, s[0].0)
    ensures WithKey([x] + s, k) == WithKey(s, k) + (if x.0 == k then [x] else [])
  {
    WithKeyAppend([x], s, k);
    WithKeyOne(x, k);
    if x.0 == k {
      BelowAll(x, s);
      WithKeyAbove(s, x);
      assert WithKey([x] + s, k) == [x] + [];
    } else {
      assert WithKey([x] + s, k) == [] + WithKey(s, k);
    }
  }

  /** The sort is stable: for every key, the records with that key come out in input order. */
  lemma {:induction false} SortByKeyStable(s: seq<Keyed>, k: Key)
    ensures WithKey(SortByKey(s), k) == WithKey(s, k)
  {
    if s != [] {
      var pre := s[..|s| - 1];
      SortByKeyStable(pre, k);
      SortByKeySorted(pre);
      InsertWithKey(s[|s| - 1], SortByKey(pre), k);
    }
  }

  /** The records of keyed entries. */
  function Lines(s: seq<Keyed>): (r: seq<string>)
    ensures |r| == |s| && forall i :: 0 <= i < |s| ==> r[i] == s[i].1
  {
    seq(|s|, i requires 0 <= i < |s| => s[i].1)
  }

  /** Each ATOM record with its key, when every key is defined. */
  function KeyAll(lines: seq<string>): (r: Option<seq<Keyed>>)
    ensures r.Some? <==> forall i :: 0 <= i < |lines| ==> KeyOf(lines[i]).Some?
    ensures r.Some? ==> |r.value| == |lines| && forall i :: 0 <= i < |lines| ==> r.value[i] == (KeyOf(lines[i]).value, lines[i])
  {
    if forall i :: 0 <= i < |lines| ==> KeyOf(lines[i]).Some? then
      Some(seq(|lines|, i requires 0 <= i < |lines| => (KeyOf(lines[i]).value, lines[i])))
    else None
  }

  /** `reshuffle_pdb`: the other records, then the ATOM records sorted; `ValueError` when an ATOM
      record's residue field is not an integer. */
  function Reshuffled(lines: seq<string>): Result<seq<string>> {
    match KeyAll(Atoms(lines))
    case None => Err(ValueError)
    case Some(keyed) => Ok(Others(lines) + Lines(SortByKey(keyed)))
  }

  lemma LinesAppend(a: seq<Keyed>, b: seq<Keyed>)
    ensures Lines(a + b) == Lines(a) + Lines(b)
  {
  }

  lemma LinesSnoc(s: seq<Keyed>)
    requires s != []
    ensures Lines(s) == Lines(s[..|s| - 1]) + [s[|s| - 1].1]
  {
  }

  /** Inserting a keyed record adds its record to the records. */
  lemma {:induction false} InsertLines(x: Keyed, s: seq<Keyed>)
    ensures multiset(Lines(Insert(x, s))) == multiset(Lines(s)) + multiset{x.1}
  {
    assert Lines([x]) == [x.1];
    if s != [] {
      var h := [s[0]];
      assert Lines(h) == [s[0].1];
      assert s == h + s[1..];
      LinesAppend(h, s[1..]);
      if KeyLess(x.0, s[0].0) {
        LinesAppend([x], s);
      } else {
        InsertLines(x, s[1..]);
        LinesAppend(h, Insert(x, s[1..]));
      }
    }
  }

  /** Sorting keyed records permutes their records. */
  lemma {:induction false} SortByKeyLines(s: seq<Keyed>)
    ensures multiset(Lines(SortByKey(s))) == multiset(Lines(s))
  {
    if s != [] {
      var pre, x := s[..|s| - 1], s[|s| - 1];
      var sorted := SortByKey(pre);
      assert SortByKey(s) == Insert(x, sorted);
      SortByKeyLines(pre);
      InsertLines(x, sorted);
      assert Lines(s) == Lines(pre) + [x.1] by {
        LinesSnoc(s);
      }
      assert multiset(Lines(s)) == multiset(Lines(pre)) + multiset{x.1};
    }
  }

  /** Keying records and dropping the keys gives the records back. */
  lemma KeyAllLines(lines: seq<string>)
    requires KeyAll(lines).Some?
    ensures Lines(KeyAll(lines).value) == lines
  {
  }

  /** The sorted ATOM records are the ATOM records, permuted. */
  lemma SortedAtoms(lines: seq<string>)
    requires Reshuffled(lines).Ok?
    ensures var keyed := KeyAll(Atoms(lines)).value;
      Reshuffled(lines).value == Others(lines) + Lines(SortByKey(keyed))
      && multiset(Lines(SortByKey(keyed))) == multiset(Atoms(lines))
  {
    var keyed := KeyAll(Atoms(lines)).value;
    SortByKeyLines(keyed);
    KeyAllLines(Atoms(lines));
  }

  /** The reshuffled records are a permutation of the input. */
  lemma ReshuffledPermutes(lines: seq<string>)
    requires Reshuffled(lines).Ok?
    ensures multiset(Reshuffled(lines).value) == multiset(lines)
  {
    SortedAtoms(lines);
    SplitPermutes(lines);
  }

  /** A permutation of ATOM records holds only ATOM records. */
  lemma PermutedAtoms(s: seq<string>, atoms: seq<string>)
    requires multiset(s) == multiset(atoms)
    requires forall k :: 0 <= k < |atoms| ==> IsAtom(atoms[k])
    ensures forall i :: 0 <= i < |s| ==> IsAtom(s[i])
  {
    forall i | 0 <= i < |s| ensures IsAtom(s[i]) {
      assert s[i] in multiset(atoms);
    }
  }

  /** The records that are not ATOM records come first, in input order. */
  lemma ReshuffledOthersFirst(lines: seq<string>)
    requires Reshuffled(lines).Ok?
    ensures |Others(lines)| <= |Reshuffled(lines).value|
    ensures Reshuffled(lines).value[..|Others(lines)|] == Others(lines)
  {
    SortedAtoms(lines);
  }

  /** After them come ATOM records only. */
  lemma ReshuffledAtomsLast(lines: seq<string>)
    requires Reshuffled(lines).Ok?
    ensures forall i :: |Others(lines)| <= i < |Reshuffled(lines).value| ==> IsAtom(Reshuffled(lines).value[i])
  {
    var sorted := Lines(SortByKey(KeyAll(Atoms(lines)).value));
    SortedAtoms(lines);
    AtomsAreAtoms(lines);
    PermutedAtoms(sorted, Atoms(lines));
  }

  /** The ATOM records come out in key order, stably. */
  lemma ReshuffledAtomsOrdered(lines: seq<string>, k: Key)
    requires Reshuffled(lines).Ok?
    ensures var keyed := KeyAll(Atoms(lines)).value;
      Reshuffled(lines).value[|Others(lines)|..] == Lines(SortByKey(keyed))
      && Sorted(SortByKey(keyed)) && WithKey(SortByKey(keyed), k) == WithKey(keyed, k)
  {
    var keyed := KeyAll(Atoms(lines)).value;
    SortByKeySorted(keyed);
    SortByKeyStable(keyed, k);
    assert Reshuffled(lines).value == Others(lines) + Lines(SortByKey(keyed));
  }
}
