/** The inputs of the linker (linker.py:35-38): the design lattice the Design provider exposes and
    the fitted structure the Fit provider exposes, fully materialised.  Object references between
    design bases are written as design-ids. */
module DesignModel {
  import opened Wrappers
  import opened Dicts

  /** A design base's identity, `base.id`. */
  type BaseId = int
  /** A global residue index of the fitted structure (a fit-id). */
  type FitId = int

  /** A lattice address `(h, p, is_scaf)`. */
  datatype Address = Address(h: int, p: int, isScaf: bool)

  /** A design base: its id, helix, position and strand role, its strand neighbours `up` and
      `down`, its Watson-Crick partner `across` (`None` where there is no such base) and the index
      of the design strand it belongs to. */
  datatype Base = Base(
    id: BaseId,
    h: int,
    p: int,
    isScaf: bool,
    up: Option<BaseId>,
    down: Option<BaseId>,
    across: Option<BaseId>,
    strand: int)

  /** The Design provider: every base by id, the scaffold and the staples as ordered lists of
      bases, `stapleorder` (staple index to fit segment), the skip positions `Dhp_skips`, the
      helices with their lattice row and column, the helix at a lattice row and column, the base
      at a lattice address (`Dhps_base`), and the colour of a design strand. */
  datatype Design = Design(
    bases: map<BaseId, Base>,
    scaffold: seq<BaseId>,
    staples: seq<seq<BaseId>>,
    stapleOrder: seq<int>,
    skips: set<(int, int)>,
    helices: map<int, (int, int)>,
    helixAt: map<(int, int), int>,
    baseAt: map<Address, BaseId>,
    icolor: int -> int)

  /** A staple segment of the fit: the global indices of its residues, in design order, and its
      `segindex`. */
  datatype Segment = Segment(residues: seq<FitId>, segindex: int)

  /** The Fit provider: the scaffold residues, the staple segments, and the first letter of each
      residue's name. */
  datatype Fit = Fit(scaffold: seq<FitId>, staples: seq<Segment>, letter: FitId -> char)

  function AddressOf(b: Base): Address {
    Address(b.h, b.p, b.isScaf)
  }

  predicate InDesign(d: Design, x: Option<BaseId>) {
    x.None? || x.value in d.bases
  }

  /** The staples as one list of bases. */
  function Flatten(ss: seq<seq<BaseId>>): seq<BaseId> {
    if ss == [] then [] else ss[0] + Flatten(ss[1..])
  }

  lemma {:induction false} FlattenMember(ss: seq<seq<BaseId>>, x: BaseId)
    ensures x in Flatten(ss) <==> exists i :: 0 <= i < |ss| && x in ss[i]
  {
    if ss != [] {
      FlattenMember(ss[1..], x);
      if x in Flatten(ss[1..]) {
        var i :| 0 <= i < |ss[1..]| && x in ss[1..][i];
        assert x in ss[i + 1];
      }
      if exists i :: 0 <= i < |ss| && x in ss[i] {
        var i :| 0 <= i < |ss| && x in ss[i];
        if i > 0 {
          assert x in ss[1..][i - 1];
        }
      }
    }
  }

  /** `design.allbases`: the scaffold followed by the staples. */
  function AllBases(d: Design): seq<BaseId> {
    d.scaffold + Flatten(d.staples)
  }

  /** No base occurs twice among the staples. */
  predicate StaplesDistinct(d: Design) {
    forall i, k, j, l ::
      (0 <= i < |d.staples| && 0 <= k < |d.staples[i]| && 0 <= j < |d.staples| && 0 <= l < |d.staples[j]|
       && (i != j || k != l)) ==> d.staples[i][k] != d.staples[j][l]
  }

  /** Every design base lies on exactly one strand: the scaffold or a single staple, once. */
  predicate StrandsPartition(d: Design) {
    NoDup(d.scaffold)
    && (forall k :: 0 <= k < |d.scaffold| ==> d.scaffold[k] in d.bases)
    && (forall i, k :: 0 <= i < |d.staples| && 0 <= k < |d.staples[i]| ==>
          d.staples[i][k] in d.bases && d.staples[i][k] !in d.scaffold)
    && StaplesDistinct(d)
    && (forall id :: id in d.bases ==> id in d.scaffold || exists i :: 0 <= i < |d.staples| && id in d.staples[i])
  }

  /** The object graph the Design provider hands over: every reference names a base of the
      design, `up` and `down` are inverse links, `Dhps_base` finds a base at its own address, every
      base's helix has a lattice cell, and the strands partition the bases. */
  predicate WellFormed(d: Design) {
    (forall id {:trigger d.bases[id]} :: id in d.bases ==>
       d.bases[id].id == id && d.bases[id].h in d.helices
       && InDesign(d, d.bases[id].up) && InDesign(d, d.bases[id].down) && InDesign(d, d.bases[id].across))
    && (forall id {:trigger d.bases[d.bases[id].up.value]} ::
          id in d.bases && d.bases[id].up.Some? ==> d.bases[d.bases[id].up.value].down == Some(id))
    && (forall id {:trigger d.bases[d.bases[id].down.value]} ::
          id in d.bases && d.bases[id].down.Some? ==> d.bases[d.bases[id].down.value].up == Some(id))
    && (forall a :: a in d.baseAt ==> d.baseAt[a] in d.bases && AddressOf(d.bases[d.baseAt[a]]) == a)
    && StrandsPartition(d)
  }

  /** The neighbours and the partner of a base of a well-formed design are bases of the design. */
  lemma LinksInDesign(d: Design, id: BaseId)
    requires WellFormed(d) && id in d.bases
    ensures InDesign(d, d.bases[id].up) && InDesign(d, d.bases[id].down) && InDesign(d, d.bases[id].across)
  {
  }

  /** Every scaffold base is a base of the design. */
  predicate ScaffoldIn(d: Design) {
    forall k :: 0 <= k < |d.scaffold| ==> d.scaffold[k] in d.bases
  }

  /** Every staple base is a base of the design. */
  predicate StaplesIn(d: Design) {
    forall i, k :: 0 <= i < |d.staples| && 0 <= k < |d.staples[i]| ==> d.staples[i][k] in d.bases
  }

  lemma WellFormedStrandsIn(d: Design)
    requires WellFormed(d)
    ensures ScaffoldIn(d) && StaplesIn(d) && StaplesDistinct(d) && NoDup(d.scaffold)
  {
  }

  /** Every base of a well-formed design is listed once in `allbases`. */
  lemma AllBasesSpec(d: Design)
    requires WellFormed(d)
    ensures NoDup(AllBases(d))
    ensures forall x :: x in AllBases(d) <==> x in d.bases
    ensures forall j :: 0 <= j < |AllBases(d)| ==> AllBases(d)[j] in d.bases
  {
    var all := AllBases(d);
    forall x ensures x in all <==> x in d.bases {
      FlattenMember(d.staples, x);
    }
    FlattenNoDup(d);
    forall i, j | 0 <= i < j < |all| ensures all[i] != all[j] {
      var n := |d.scaffold|;
      if i < n && j >= n {
        FlattenMember(d.staples, all[j]);
        assert all[j] in Flatten(d.staples);
        var s :| 0 <= s < |d.staples| && all[j] in d.staples[s];
        assert all[i] in d.scaffold;
      } else if i >= n {
        assert all[i] == Flatten(d.staples)[i - n] && all[j] == Flatten(d.staples)[j - n];
      }
    }
  }

  lemma FlattenNoDup(d: Design)
    requires StrandsPartition(d)
    ensures NoDup(Flatten(d.staples))
  {
    FlattenDistinct(d.staples);
  }

  /** Lists that are duplicate-free one by one and pairwise disjoint flatten without duplicates. */
  lemma {:induction false} FlattenDistinct(ss: seq<seq<BaseId>>)
    requires forall i, k, j, l ::
      0 <= i < |ss| && 0 <= k < |ss[i]| && 0 <= j < |ss| && 0 <= l < |ss[j]| && (i != j || k != l) ==> ss[i][k] != ss[j][l]
    ensures NoDup(Flatten(ss))
  {
    if ss != [] {
      var rest := ss[1..];
      forall i, k, j, l | 0 <= i < |rest| && 0 <= k < |rest[i]| && 0 <= j < |rest| && 0 <= l < |rest[j]| && (i != j || k != l)
        ensures rest[i][k] != rest[j][l]
      {
        assert rest[i] == ss[i + 1] && rest[j] == ss[j + 1];
      }
      FlattenDistinct(rest);
      var f := Flatten(ss);
      var n := |ss[0]|;
      forall a, b | 0 <= a < b < |f| ensures f[a] != f[b] {
        if b < n {
          assert ss[0][a] != ss[0][b];
        } else if a < n {
          FlattenMember(rest, f[b]);
          var s :| 0 <= s < |rest| && f[b] in rest[s];
          var l :| 0 <= l < |rest[s]| && rest[s][l] == f[b];
          assert ss[0][a] != ss[s + 1][l];
        } else {
          assert f[a] == Flatten(rest)[a - n] && f[b] == Flatten(rest)[b - n];
        }
      }
    }
  }

  /** Python's `h % 2 == 1`; `%` floors in Python and is Euclidean here, which agree for the
      divisor 2, so a negative odd helix is odd too. */
  predicate OddHelix(h: int) {
    h % 2 == 1
  }

  function Abs(x: int): nat {
    if x < 0 then -x else x
  }

  /** `n` steps along the strand, towards `up` or `down`; `None` once a link is missing. */
  function Walk(d: Design, b: BaseId, up: bool, n: nat): (r: Option<BaseId>)
    requires WellFormed(d) && b in d.bases
    ensures InDesign(d, r)
    decreases n
  {
    if n == 0 then Some(b)
    else
      var next := if up then d.bases[b].up else d.bases[b].down;
      if next.None? then None else Walk(d, next.value, up, n - 1)
  }

  /** One more step after `n` steps. */
  lemma {:induction false} WalkSnoc(d: Design, b: BaseId, up: bool, n: nat)
    requires WellFormed(d) && b in d.bases
    ensures Walk(d, b, up, n + 1) ==
      match Walk(d, b, up, n)
      case None => None
      case Some(e) => Walk(d, e, up, 1)
    decreases n
  {
    if n > 0 {
      var next := if up then d.bases[b].up else d.bases[b].down;
      if next.Some? {
        WalkSnoc(d, next.value, up, n - 1);
      }
    }
  }

  /** Walking `m + n` steps is walking `m` steps and then `n` more. */
  lemma {:induction false} WalkAdd(d: Design, b: BaseId, up: bool, m: nat, n: nat)
    requires WellFormed(d) && b in d.bases
    ensures Walk(d, b, up, m + n) ==
      match Walk(d, b, up, m)
      case None => None
      case Some(e) => Walk(d, e, up, n)
    decreases m
  {
    if m > 0 {
      var next := if up then d.bases[b].up else d.bases[b].down;
      if next.Some? {
        WalkAdd(d, next.value, up, m - 1, n);
      }
    }
  }

  /** Walking back the way one came returns to the start: `up` and `down` are inverse links. */
  lemma {:induction false} WalkBack(d: Design, b: BaseId, up: bool, n: nat)
    requires WellFormed(d) && b in d.bases
    requires Walk(d, b, up, n).Some?
    ensures Walk(d, Walk(d, b, up, n).value, !up, n) == Some(b)
    decreases n
  {
    if n > 0 {
      var next := (if up then d.bases[b].up else d.bases[b].down).value;
      var e := Walk(d, b, up, n).value;
      WalkBack(d, next, up, n - 1);
      assert Walk(d, e, !up, n - 1) == Some(next);
      WalkSnoc(d, e, !up, n - 1);
      assert (if !up then d.bases[next].up else d.bases[next].down) == Some(b);
    }
  }

  /** The direction `_get_n_strand` finally walks in (linker.py:252-255): `direct`, flipped for
      a negative step count, and flipped again on an odd helix outside the local convention. */
  function Heading(up: bool, steps: int, h: int, local: bool): bool {
    var u := if steps < 0 then !up else up;
    if OddHelix(h) && !local then !u else u
  }

  /** The number of skip positions among `p + dir`, `p + 2 dir`, ..., `p + n dir` on helix `h`. */
  function SkipsPassed(skips: set<(int, int)>, h: int, p: int, dir: int, n: nat): (r: nat)
    ensures r <= n
  {
    if n == 0 then 0 else SkipsPassed(skips, h, p, dir, n - 1) + (if (h, p + n * dir) in skips then 1 else 0)
  }

  /** The position `_get_n_helix` looks at: `n` steps of `dir`, one more per skip passed, and one
      more if that lands on a skip. */
  function Landing(skips: set<(int, int)>, h: int, p: int, dir: int, n: nat): int {
    var q := p + dir * (n + SkipsPassed(skips, h, p, dir, n));
    if (h, q) in skips then q + dir else q
  }

  /** Skips only ever push the landing position further along the step direction. */
  lemma LandingBeyond(skips: set<(int, int)>, h: int, p: int, dir: int, n: nat)
    ensures dir > 0 ==> Landing(skips, h, p, dir, n) >= p + dir * n
    ensures dir < 0 ==> Landing(skips, h, p, dir, n) <= p + dir * n
    ensures SkipsPassed(skips, h, p, dir, n) == 0 && (h, p + dir * n) !in skips ==>
              Landing(skips, h, p, dir, n) == p + dir * n
  {
    var s := SkipsPassed(skips, h, p, dir, n);
    assert dir * (n + s) == dir * n + dir * s;
    if dir > 0 {
      assert dir * s >= 0;
    } else if dir < 0 {
      assert dir * s <= 0;
    }
  }

  /** `_get_n_helix` (linker.py:263-282): the base `steps` positions along the same helix and
      strand role, skipping skip positions.  A zero `direct` with a non-zero step count makes
      `range` raise `ValueError`. */
  function HelixStep(d: Design, b: BaseId, direct: int, steps: int): (r: Result<Option<BaseId>>)
    requires WellFormed(d) && b in d.bases
    ensures r.Err? <==> steps != 0 && direct == 0
    ensures r.Err? ==> r.error == ValueError
    ensures steps == 0 ==> r == Ok(Some(b))
    ensures r.Ok? && r.value.Some? ==>
      r.value.value in d.bases && d.bases[r.value.value].h == d.bases[b].h
      && d.bases[r.value.value].isScaf == d.bases[b].isScaf
  {
    if steps == 0 then Ok(Some(b))
    else
      var dir := if steps < 0 then -direct else direct;
      if dir == 0 then Err(ValueError)
      else
        var base := d.bases[b];
        var a := Address(base.h, Landing(d.skips, base.h, base.p, dir, Abs(steps)), base.isScaf);
        if a in d.baseAt then Ok(Some(d.baseAt[a])) else Ok(None)
  }

  /** Where a helix step lands in terms of positions: at least `|steps|` positions along the
      step's direction, exactly there when no skip is in the way. */
  lemma HelixStepPosition(d: Design, b: BaseId, direct: int, steps: int)
    requires WellFormed(d) && b in d.bases && steps != 0
    requires HelixStep(d, b, direct, steps).Ok? && HelixStep(d, b, direct, steps).value.Some?
    ensures var dir := if steps < 0 then -direct else direct;
      var q := d.bases[HelixStep(d, b, direct, steps).value.value].p;
      var p := d.bases[b].p;
      (dir > 0 ==> q >= p + dir * Abs(steps)) && (dir < 0 ==> q <= p + dir * Abs(steps))
      && (SkipsPassed(d.skips, d.bases[b].h, p, dir, Abs(steps)) == 0 && (d.bases[b].h, p + dir * Abs(steps)) !in d.skips
          ==> q == p + dir * Abs(steps))
  {
    var dir := if steps < 0 then -direct else direct;
    LandingBeyond(d.skips, d.bases[b].h, d.bases[b].p, dir, Abs(steps));
  }
}
