/** What the phases of `Linker` (linker.py) compute, as functions of the design, the fit and the
    maps built by earlier phases.  The class in linker.dfy runs the phases step by step and is
    proved to agree with these definitions. */
module LinkerSpec {
  import opened Wrappers
  import opened Dicts
  import opened DesignModel

  /** A crossover's classification. */
  datatype CoType = Full | Half | End

  /** `BasePair(sc, st, hp)` (basepair.py:24-36) as `_get_bp` builds it: the scaffold and staple
      residues of a lattice square, either of which may be missing, and its helix and position. */
  datatype BasePair = BasePair(sc: Option<FitId>, st: Option<FitId>, hp: (int, int)) {
    /** `is_ds`: both residues are present. */
    predicate IsDs() {
      sc.Some? && st.Some?
    }
  }

  /** A `Crossover`: the base pairs at the four bases A, B, C, D around the strand's jump (`Ps`),
      the base pairs two positions further out on each leg (`Ls`), the tag, and whether the jump
      is on the scaffold. */
  datatype Crossover = Crossover(ps: seq<Option<BasePair>>, ls: seq<Option<BasePair>>, typ: CoType, isScaf: bool)

  /** What the later phases read: the design, `DidFid` and the symmetrised base-pair map. */
  datatype Env = Env(d: Design, didFid: map<BaseId, FitId>, pairs: map<FitId, FitId>)

  /** The design is well formed and `DidFid` covers it, as after a successful `_link`. */
  predicate EnvOk(env: Env) {
    WellFormed(env.d) && env.d.bases.Keys <= env.didFid.Keys
  }

  /** An unordered pair of distinct design bases, the `frozenset` of a crossover edge. */
  type Edge = set<BaseId>

  predicate IsEdge(d: Design, e: Edge) {
    |e| == 2 && forall x :: x in e ==> x in d.bases
  }

  // ----- base pairs (linker.py:231-245) -----

  /** The candidate entries of `_identify_bp`'s comprehension over the scaffold bases `s`: each
      base's fit-id, with its partner's fit-id where the base has a partner. */
  function PairEntries(d: Design, didFid: map<BaseId, FitId>, s: seq<BaseId>): (r: seq<(FitId, Option<FitId>)>)
    requires WellFormed(d) && d.bases.Keys <= didFid.Keys
    requires forall k :: 0 <= k < |s| ==> s[k] in d.bases
    ensures |r| == |s|
  {
    seq(|s|, k requires 0 <= k < |s| =>
      var across := d.bases[s[k]].across;
      LinksInDesign(d, s[k]);
      (didFid[s[k]], if across.Some? then Some(didFid[across.value]) else None))
  }

  /** `_identify_bp` (linker.py:231-245): the scaffold is visited in order, so a later base with the
      same fit-id overwrites an earlier one. */
  function BasePairs(d: Design, didFid: map<BaseId, FitId>, s: seq<BaseId>): map<FitId, FitId>
    requires WellFormed(d) && d.bases.Keys <= didFid.Keys
    requires forall k :: 0 <= k < |s| ==> s[k] in d.bases
  {
    DictComp(PairEntries(d, didFid, s))
  }

  /** The keys of `Fbp` are exactly the fit-ids of the scaffold bases that have a partner, and a
      scaffold base whose fit-id no later partnered base shares is bound to its partner's fit-id. */
  lemma BasePairsSpec(d: Design, didFid: map<BaseId, FitId>, s: seq<BaseId>)
    requires WellFormed(d) && d.bases.Keys <= didFid.Keys
    requires forall k :: 0 <= k < |s| ==> s[k] in d.bases
    ensures var m := BasePairs(d, didFid, s);
      (forall f :: f in m <==> exists k :: 0 <= k < |s| && d.bases[s[k]].across.Some? && didFid[s[k]] == f)
      && (forall k :: 0 <= k < |s| && d.bases[s[k]].across.Some?
            && (forall j :: k < j < |s| && d.bases[s[j]].across.Some? ==> didFid[s[j]] != didFid[s[k]])
            ==> d.bases[s[k]].across.value in didFid && m[didFid[s[k]]] == didFid[d.bases[s[k]].across.value])
  {
    var e := PairEntries(d, didFid, s);
    DictCompSpec(e);
    forall f | f in BasePairs(d, didFid, s)
      ensures exists k :: 0 <= k < |s| && d.bases[s[k]].across.Some? && didFid[s[k]] == f
    {
      var k :| 0 <= k < |e| && e[k].0 == f && e[k].1.Some?;
    }
    forall k | 0 <= k < |s| && d.bases[s[k]].across.Some?
      ensures d.bases[s[k]].across.value in didFid && didFid[s[k]] in BasePairs(d, didFid, s)
      ensures (forall j :: k < j < |s| && d.bases[s[j]].across.Some? ==> didFid[s[j]] != didFid[s[k]])
              ==> BasePairs(d, didFid, s)[didFid[s[k]]] == didFid[d.bases[s[k]].across.value]
    {
      LinksInDesign(d, s[k]);
      assert e[k].0 == didFid[s[k]] && e[k].1 == Some(didFid[d.bases[s[k]].across.value]);
      assert forall j :: 0 <= j < |s| ==> e[j].0 == didFid[s[j]] && (e[j].1.Some? <==> d.bases[s[j]].across.Some?);
    }
  }

  /** `_get_bp` (linker.py:284-297): the base pair at base `b`, its own residue on its own side and
      its partner's residue, looked up in the symmetrised map, on the other. */
  function GetBp(env: Env, b: Option<BaseId>): (r: Option<BasePair>)
    requires EnvOk(env) && InDesign(env.d, b)
    ensures r.Some? <==> b.Some?
    ensures b.Some? ==>
      var base := env.d.bases[b.value];
      var fid := env.didFid[b.value];
      r.value.hp == (base.h, base.p)
      && (if base.isScaf then r.value.sc == Some(fid) else r.value.st == Some(fid))
      && (r.value.IsDs() <==> fid in env.pairs)
      && (fid in env.pairs ==> (if base.isScaf then r.value.st else r.value.sc) == Some(env.pairs[fid]))
  {
    if b.None? then None
    else
      var base := env.d.bases[b.value];
      var fid := env.didFid[b.value];
      var wc := if fid in env.pairs then Some(env.pairs[fid]) else None;
      Some(BasePair(if base.isScaf then Some(fid) else wc, if base.isScaf then wc else Some(fid), (base.h, base.p)))
  }

  // ----- sequence context (linker.py:40-85) -----

  /** The letter one strand walk contributes: `N` where the strand has ended, `X` where the
      neighbour is on another helix, else the first letter of the neighbour's residue name. */
  function ContextChar(env: Env, letter: FitId -> char, b: BaseId, nb: Option<BaseId>): char
    requires EnvOk(env) && b in env.d.bases && InDesign(env.d, nb)
  {
    if nb.None? then 'N'
    else if env.d.bases[nb.value].h != env.d.bases[b].h then 'X'
    else letter(env.didFid[nb.value])
  }

  /** The base `_eval_sequence` looks at for position `k` of a context: `k` steps `down` the strand
      in the local convention, `-k` steps in the global one. */
  function ContextBase(d: Design, b: BaseId, k: nat, local: bool): Option<BaseId>
    requires WellFormed(d) && b in d.bases
  {
    Walk(d, b, Heading(false, if local then k as int else -(k as int), d.bases[b].h, local), k)
  }

  /** The sequence context of `b` over `steps + 1` positions, position 0 being `b` itself. */
  function Context(env: Env, letter: FitId -> char, b: BaseId, steps: nat, local: bool): seq<char>
    requires EnvOk(env) && b in env.d.bases
  {
    seq(steps + 1, k requires 0 <= k <= steps => ContextChar(env, letter, b, ContextBase(env.d, b, k, local)))
  }

  /** Every context has `steps + 1` letters, each `N`, `X` or the letter of a base on the same helix. */
  lemma ContextShape(env: Env, letter: FitId -> char, b: BaseId, steps: nat, local: bool)
    requires EnvOk(env) && b in env.d.bases
    ensures var s := Context(env, letter, b, steps, local);
      |s| == steps + 1
      && forall k :: 0 <= k <= steps ==>
           s[k] == 'N' || s[k] == 'X'
           || exists x :: x in env.d.bases && env.d.bases[x].h == env.d.bases[b].h && s[k] == letter(env.didFid[x])
  {
    var s := Context(env, letter, b, steps, local);
    forall k | 0 <= k <= steps
      ensures s[k] == 'N' || s[k] == 'X'
        || exists x :: x in env.d.bases && env.d.bases[x].h == env.d.bases[b].h && s[k] == letter(env.didFid[x])
    {
      var nb := ContextBase(env.d, b, k, local);
      if nb.Some? && env.d.bases[nb.value].h == env.d.bases[b].h {
        var x := nb.value;
        assert x in env.d.bases && env.d.bases[x].h == env.d.bases[b].h && s[k] == letter(env.didFid[x]);
      }
    }
  }

  /** Position 0 of either context is the base's own letter. */
  lemma ContextStart(env: Env, letter: FitId -> char, b: BaseId, steps: nat, local: bool)
    requires EnvOk(env) && b in env.d.bases
    ensures Context(env, letter, b, steps, local)[0] == letter(env.didFid[b])
  {
  }

  /** How the two conventions relate: on an odd helix the global context is the local one (the
      negative step count and the odd helix flip the direction twice); on an even helix the global
      context walks `up` the strand where the local one walks `down`. */
  lemma GlobalContext(env: Env, letter: FitId -> char, b: BaseId, steps: nat)
    requires EnvOk(env) && b in env.d.bases
    ensures OddHelix(env.d.bases[b].h) ==> Context(env, letter, b, steps, false) == Context(env, letter, b, steps, true)
    ensures !OddHelix(env.d.bases[b].h) ==>
      forall k :: 0 <= k <= steps ==>
        Context(env, letter, b, steps, false)[k] == ContextChar(env, letter, b, Walk(env.d, b, true, k))
        && Context(env, letter, b, steps, true)[k] == ContextChar(env, letter, b, Walk(env.d, b, false, k))
  {
    var g, l := Context(env, letter, b, steps, false), Context(env, letter, b, steps, true);
    forall k | 0 <= k <= steps
      ensures OddHelix(env.d.bases[b].h) ==> g[k] == l[k]
      ensures !OddHelix(env.d.bases[b].h) ==> g[k] == ContextChar(env, letter, b, Walk(env.d, b, true, k))
    {
      if k == 0 {
        assert ContextBase(env.d, b, 0, false) == Some(b) == ContextBase(env.d, b, 0, true);
      }
    }
  }

  /** A context read backwards: a base `k` steps down the local context has this base `k` steps up. */
  lemma ContextWalkBack(env: Env, b: BaseId, k: nat)
    requires EnvOk(env) && b in env.d.bases
    requires ContextBase(env.d, b, k, true).Some?
    ensures Walk(env.d, ContextBase(env.d, b, k, true).value, true, k) == Some(b)
  {
    WalkBack(env.d, b, false, k);
  }

  /** The contexts `_eval_sequence` stores, one per base of `allbases` under its fit-id. */
  function Contexts(env: Env, letter: FitId -> char, steps: nat, local: bool): map<FitId, seq<char>>
    requires EnvOk(env)
  {
    AllBasesSpec(env.d);
    DictComp(Entries(env.didFid, ContextMap(env, letter, steps, local), AllBases(env.d)))
  }

  /** The context of every base. */
  function ContextMap(env: Env, letter: FitId -> char, steps: nat, local: bool): (r: map<BaseId, seq<char>>)
    requires EnvOk(env)
    ensures r.Keys == env.d.bases.Keys
  {
    map b | b in env.d.bases :: Context(env, letter, b, steps, local)
  }

  /** The stored contexts are keyed by the fit-ids of the design's bases, each holding the context
      of a base with that fit-id; when no two bases share a fit-id, each base's own. */
  /** The base whose value each stored fit-id holds. */
  lemma ContextsSource(env: Env, letter: FitId -> char, steps: nat, local: bool) returns (src: map<FitId, BaseId>)
    requires EnvOk(env)
    ensures var m := Contexts(env, letter, steps, local);
      m.Keys == src.Keys && (forall b :: b in env.d.bases ==> env.didFid[b] in m)
      && (forall f :: f in src ==> src[f] in env.d.bases && env.didFid[src[f]] == f && m[f] == Context(env, letter, src[f], steps, local))
      && (Injective(env.didFid) ==> forall b :: b in env.d.bases ==> m[env.didFid[b]] == Context(env, letter, b, steps, local))
  {
    AllBasesSpec(env.d);
    src := KeyedBy(env.didFid, ContextMap(env, letter, steps, local), AllBases(env.d));
  }

  lemma ContextsSpec(env: Env, letter: FitId -> char, steps: nat, local: bool)
    requires EnvOk(env)
    ensures var m := Contexts(env, letter, steps, local);
      (forall f :: f in m <==> exists b :: b in env.d.bases && env.didFid[b] == f)
      && (forall f :: f in m ==>
            exists b :: b in env.d.bases && env.didFid[b] == f && m[f] == Context(env, letter, b, steps, local))
      && (Injective(env.didFid) ==>
            forall b :: b in env.d.bases ==> env.didFid[b] in m && m[env.didFid[b]] == Context(env, letter, b, steps, local))
  {
    var src := ContextsSource(env, letter, steps, local);
    var m := Contexts(env, letter, steps, local);
    forall f | f in m ensures exists b :: b in env.d.bases && env.didFid[b] == f && m[f] == Context(env, letter, b, steps, local) {
      assert src[f] in env.d.bases;
    }
  }

  // ----- helix neighbours (linker.py:87-125) -----

  /** `is_occupied_helix`: a helix sits at lattice cell `rc` and has a scaffold or a staple base at
      position `p`. */
  predicate Occupied(d: Design, rc: (int, int), p: int) {
    rc in d.helixAt && (Address(d.helixAt[rc], p, true) in d.baseAt || Address(d.helixAt[rc], p, false) in d.baseAt)
  }

  function Count(c: bool): nat {
    if c then 1 else 0
  }

  /** The four lattice cells `radius` rows above and below and `radius` columns left and right of
      `(row, col)`, in the order `_eval_FidHelixneighbors` visits them. */
  function Cells(row: int, col: int, radius: int): seq<(int, int)> {
    [(row - radius, col), (row + radius, col), (row, col - radius), (row, col + radius)]
  }

  /** The number of occupied helices among `cells` at position `p`. */
  function CountOccupied(d: Design, cells: seq<(int, int)>, p: int): (n: nat)
    ensures n <= |cells|
  {
    if cells == [] then 0 else CountOccupied(d, cells[..|cells| - 1], p) + Count(Occupied(d, cells[|cells| - 1], p))
  }

  /** The helix-neighbour profile of base `b`: the counts at radii `1 .. steps`. */
  function NeighborCounts(d: Design, b: BaseId, steps: nat): (r: seq<int>)
    requires WellFormed(d) && b in d.bases
    ensures |r| == steps && forall k :: 0 <= k < steps ==> 0 <= r[k] <= 4
  {
    var base := d.bases[b];
    var rc := d.helices[base.h];
    seq(steps, k requires 0 <= k < steps => CountOccupied(d, Cells(rc.0, rc.1, k + 1), base.p) as int)
  }

  /** `FidHN`: one profile per base of `allbases` under its fit-id. */
  function Profiles(env: Env, steps: nat): map<FitId, seq<int>>
    requires EnvOk(env)
  {
    AllBasesSpec(env.d);
    DictComp(Entries(env.didFid, ProfileMap(env, steps), AllBases(env.d)))
  }

  /** The helix-neighbour profile of every base. */
  function ProfileMap(env: Env, steps: nat): (r: map<BaseId, seq<int>>)
    requires EnvOk(env)
    ensures r.Keys == env.d.bases.Keys
  {
    map b | b in env.d.bases :: NeighborCounts(env.d, b, steps)
  }

  /** The profiles are keyed by the fit-ids of the design's bases, each holding the profile of a
      base with that fit-id; when no two bases share a fit-id, each base's own. */
  /** The base whose value each stored fit-id holds. */
  lemma ProfilesSource(env: Env, steps: nat) returns (src: map<FitId, BaseId>)
    requires EnvOk(env)
    ensures var m := Profiles(env, steps);
      m.Keys == src.Keys && (forall b :: b in env.d.bases ==> env.didFid[b] in m)
      && (forall f :: f in src ==> src[f] in env.d.bases && env.didFid[src[f]] == f && m[f] == NeighborCounts(env.d, src[f], steps))
      && (Injective(env.didFid) ==> forall b :: b in env.d.bases ==> m[env.didFid[b]] == NeighborCounts(env.d, b, steps))
  {
    AllBasesSpec(env.d);
    src := KeyedBy(env.didFid, ProfileMap(env, steps), AllBases(env.d));
  }

  lemma ProfilesSpec(env: Env, steps: nat)
    requires EnvOk(env)
    ensures var m := Profiles(env, steps);
      (forall f :: f in m <==> exists b :: b in env.d.bases && env.didFid[b] == f)
      && (forall f :: f in m ==>
            exists b :: b in env.d.bases && env.didFid[b] == f && m[f] == NeighborCounts(env.d, b, steps))
      && (Injective(env.didFid) ==>
            forall b :: b in env.d.bases ==> env.didFid[b] in m && m[env.didFid[b]] == NeighborCounts(env.d, b, steps))
  {
    var src := ProfilesSource(env, steps);
    var m := Profiles(env, steps);
    forall f | f in m ensures exists b :: b in env.d.bases && env.didFid[b] == f && m[f] == NeighborCounts(env.d, b, steps) {
      assert src[f] in env.d.bases;
    }
  }

  /** A count of four cells is 4 exactly when all four are occupied, and 0 exactly when none is. */
  lemma CountFour(d: Design, cells: seq<(int, int)>, p: int)
    requires |cells| == 4
    ensures CountOccupied(d, cells, p) == 4 <==> forall i :: 0 <= i < 4 ==> Occupied(d, cells[i], p)
    ensures CountOccupied(d, cells, p) == 0 <==> forall i :: 0 <= i < 4 ==> !Occupied(d, cells[i], p)
  {
    var c1, c2, c3 := cells[..1], cells[..2], cells[..3];
    assert c1[..0] == [] && c2[..1] == c1 && c3[..2] == c2 && cells[..3] == c3;
    assert CountOccupied(d, c1, p) == Count(Occupied(d, cells[0], p));
    assert CountOccupied(d, c2, p) == CountOccupied(d, c1, p) + Count(Occupied(d, cells[1], p));
    assert CountOccupied(d, c3, p) == CountOccupied(d, c2, p) + Count(Occupied(d, cells[2], p));
    assert CountOccupied(d, cells, p) == Count(Occupied(d, cells[0], p)) + Count(Occupied(d, cells[1], p))
      + Count(Occupied(d, cells[2], p)) + Count(Occupied(d, cells[3], p));
  }

  /** A base counts 4 at radius `k + 1` exactly when all four cells at that radius hold helices
      occupied at its position, and 0 exactly when none does. */
  lemma NeighborCountExtremes(d: Design, b: BaseId, steps: nat, k: nat)
    requires WellFormed(d) && b in d.bases && k < steps
    ensures var base := d.bases[b];
      var rc := d.helices[base.h];
      var cells := Cells(rc.0, rc.1, k + 1);
      (NeighborCounts(d, b, steps)[k] == 4 <==> forall i :: 0 <= i < 4 ==> Occupied(d, cells[i], base.p))
      && (NeighborCounts(d, b, steps)[k] == 0 <==> forall i :: 0 <= i < 4 ==> !Occupied(d, cells[i], base.p))
  {
    var base := d.bases[b];
    var rc := d.helices[base.h];
    CountFour(d, Cells(rc.0, rc.1, k + 1), base.p);
  }

  // ----- crossovers (linker.py:299-374) -----

  /** `is_co`: the neighbour exists and lies on another helix. */
  predicate IsCo(d: Design, b: BaseId, nb: Option<BaseId>)
    requires b in d.bases && InDesign(d, nb)
  {
    nb.Some? && d.bases[nb.value].h != d.bases[b].h
  }

  /** The one crossover edge the collection loop records for base `b` (linker.py:348-353): the
      `up` neighbour if that is a crossover, else the `down` neighbour if that is. */
  function CoEdge(d: Design, b: BaseId): (r: Option<Edge>)
    requires WellFormed(d) && b in d.bases
    ensures r.Some? ==> IsEdge(d, r.value) && b in r.value
  {
    var base := d.bases[b];
    if IsCo(d, b, base.up) then Some({b, base.up.value})
    else if IsCo(d, b, base.down) then Some({b, base.down.value})
    else None
  }

  /** `co_subparts` after the collection loop. */
  function Candidates(d: Design): (r: set<Edge>)
    requires WellFormed(d)
    ensures forall e :: e in r ==> IsEdge(d, e)
  {
    set b | b in d.bases && CoEdge(d, b).Some? :: CoEdge(d, b).value
  }

  /** A strand link from `b` up to `u` across two helices. */
  predicate CrossLink(d: Design, b: BaseId, u: BaseId)
    requires b in d.bases
  {
    d.bases[b].up == Some(u) && u in d.bases && d.bases[u].h != d.bases[b].h
  }

  /** Although each base records at most one edge (the `break`), the candidates are exactly the
      strand links that jump between helices: the base at the lower end of a link records it when
      the upper end has already recorded another. */
  lemma CandidatesSpec(d: Design, e: Edge)
    requires WellFormed(d)
    ensures e in Candidates(d) <==> exists b, u :: b in d.bases && CrossLink(d, b, u) && e == {b, u}
  {
    if e in Candidates(d) {
      var b :| b in d.bases && CoEdge(d, b) == Some(e);
      var base := d.bases[b];
      if IsCo(d, b, base.up) {
        assert CrossLink(d, b, base.up.value);
      } else {
        var w := base.down.value;
        assert d.bases[w].up == Some(b);
        assert CrossLink(d, w, b) && e == {w, b};
      }
    }
    if exists b, u :: b in d.bases && CrossLink(d, b, u) && e == {b, u} {
      var b, u :| b in d.bases && CrossLink(d, b, u) && e == {b, u};
      assert CoEdge(d, b) == Some(e);
    }
  }

  /** The lattice positions of the bases that exist among `bs`, in order. */
  function Positions(d: Design, bs: seq<Option<BaseId>>): (r: seq<(int, int)>)
    requires forall i :: 0 <= i < |bs| ==> InDesign(d, bs[i])
    ensures |r| <= |bs|
  {
    if bs == [] then []
    else
      var rest := Positions(d, bs[1..]);
      assert InDesign(d, bs[0]);
      if bs[0].Some? then [Pos(d, bs[0].value)] + rest else rest
  }

  /** The lattice position `(h, p)` of a base. */
  function Pos(d: Design, b: BaseId): (int, int)
    requires b in d.bases
  {
    (d.bases[b].h, d.bases[b].p)
  }

  /** The positions of the four crossover bases: A, then B if it exists, C, then D if it exists. */
  lemma PositionsFour(d: Design, a: BaseId, bB: Option<BaseId>, c: BaseId, bD: Option<BaseId>)
    requires a in d.bases && c in d.bases && InDesign(d, bB) && InDesign(d, bD)
    ensures Positions(d, [Some(a), bB, Some(c), bD]) == [Pos(d, a)] + Positions(d, [bB]) + [Pos(d, c)] + Positions(d, [bD])
  {
    assert [bB][1..] == [] && [bD][1..] == [];
    var tail := Positions(d, [Some(c), bD]);
    assert tail == [Pos(d, c)] + Positions(d, [bD]) by {
      assert [Some(c), bD][1..] == [bD];
    }
    assert Positions(d, [bB, Some(c), bD]) == Positions(d, [bB]) + tail by {
      assert [bB, Some(c), bD][1..] == [Some(c), bD];
    }
    assert [Some(a), bB, Some(c), bD][1..] == [bB, Some(c), bD];
  }

  /** The record key of a crossover: sorted, holding A's and C's positions, and one position per
      base that exists. */
  lemma KeyFacts(d: Design, a: BaseId, bB: Option<BaseId>, c: BaseId, bD: Option<BaseId>)
    requires a in d.bases && c in d.bases && InDesign(d, bB) && InDesign(d, bD)
    ensures var key := SortPairs(Positions(d, [Some(a), bB, Some(c), bD]));
      SortedPairs(key) && Pos(d, a) in key && Pos(d, c) in key
      && |key| == 2 + Count(bB.Some?) + Count(bD.Some?)
  {
    var pos := Positions(d, [Some(a), bB, Some(c), bD]);
    PositionsFour(d, a, bB, c, bD);
    PositionsOne(d, bB);
    PositionsOne(d, bD);
    assert pos[0] == Pos(d, a) && pos[1 + Count(bB.Some?)] == Pos(d, c);
    SortPairsKeeps(pos, Pos(d, a), Pos(d, c));
  }

  lemma PositionsOne(d: Design, b: Option<BaseId>)
    requires InDesign(d, b)
    ensures |Positions(d, [b])| == Count(b.Some?)
  {
    assert [b][1..] == [];
  }

  /** Sorting keeps the length and every element. */
  lemma SortPairsKeeps(s: seq<(int, int)>, x: (int, int), y: (int, int))
    requires x in s && y in s
    ensures |SortPairs(s)| == |s| && x in SortPairs(s) && y in SortPairs(s)
  {
    var r := SortPairs(s);
    assert |r| == |multiset(r)| == |multiset(s)| == |s|;
    assert x in multiset(r) && y in multiset(r);
  }

  /** Python's ordering of `(h, p)` tuples. */
  predicate PairLe(a: (int, int), b: (int, int)) {
    a.0 < b.0 || (a.0 == b.0 && a.1 <= b.1)
  }

  predicate SortedPairs(s: seq<(int, int)>) {
    forall i, j :: 0 <= i < j < |s| ==> PairLe(s[i], s[j])
  }

  function InsertPair(x: (int, int), s: seq<(int, int)>): (r: seq<(int, int)>)
    ensures multiset(r) == multiset(s) + multiset{x}
  {
    if s == [] then [x]
    else if PairLe(x, s[0]) then [x] + s
    else
      assert s == [s[0]] + s[1..];
      [s[0]] + InsertPair(x, s[1..])
  }

  lemma {:induction false} InsertPairSorted(x: (int, int), s: seq<(int, int)>)
    requires SortedPairs(s)
    ensures SortedPairs(InsertPair(x, s))
  {
    if s != [] && !PairLe(x, s[0]) {
      var rest := InsertPair(x, s[1..]);
      InsertPairSorted(x, s[1..]);
      forall j | 0 <= j < |rest| ensures PairLe(s[0], rest[j]) {
        assert rest[j] in multiset(rest);
        if rest[j] != x {
          assert rest[j] in multiset(s[1..]);
          var l :| 0 <= l < |s[1..]| && s[1..][l] == rest[j];
          assert s[l + 1] == rest[j];
        }
      }
    }
  }

  /** `sorted(co_pos)`: the positions in ascending order, each kept as often as it occurs.  These
      two facts determine the list, so the record key `str(sorted(co_pos))` is determined too. */
  function SortPairs(s: seq<(int, int)>): (r: seq<(int, int)>)
    ensures SortedPairs(r) && multiset(r) == multiset(s)
  {
    if s == [] then []
    else
      assert s == [s[0]] + s[1..];
      var rest := SortPairs(s[1..]);
      InsertPairSorted(s[0], rest);
      InsertPair(s[0], rest)
  }

  /** The flanking bases of edge `(a, c)` (linker.py:357-361): the direction `a` steps along its
      helix away from its other strand neighbour, and the bases B and D one such step from `a` and
      from `c`.  A missing other neighbour raises `AttributeError` (`bN.p` on `None`), a zero
      step raises `ValueError` inside `_get_n_helix`. */
  function Flank(d: Design, a: BaseId, c: BaseId): (r: Result<(int, Option<BaseId>, Option<BaseId>)>)
    requires WellFormed(d) && a in d.bases && c in d.bases
    ensures r.Ok? ==> r.value.0 != 0 && InDesign(d, r.value.1) && InDesign(d, r.value.2)
    ensures r.Ok? && r.value.1.Some? ==> d.bases[r.value.1.value].h == d.bases[a].h
    ensures r.Ok? && r.value.2.Some? ==> d.bases[r.value.2.value].h == d.bases[c].h
  {
    var A := d.bases[a];
    var coUp := A.up == Some(c);
    var n := if coUp then A.down else A.up;
    if n.None? then Err(AttributeError)
    else
      var direct := A.p - d.bases[n.value].p;
      if direct == 0 then Err(ValueError)
      else Ok((direct, HelixStep(d, a, direct, 1).value, HelixStep(d, c, direct, 1).value))
  }

  /** `get_co_leg`: two steps along the helix from a base that may be missing. */
  function Leg(d: Design, b: Option<BaseId>, direct: int): (r: Option<BaseId>)
    requires WellFormed(d) && InDesign(d, b) && direct != 0
    ensures InDesign(d, r)
  {
    if b.None? then None else HelixStep(d, b.value, direct, 2).value
  }

  /** The outcome of one pass of the classification loop: the record key, the crossover, and the
      pending edges left. */
  datatype Resolution = Resolution(key: seq<(int, int)>, co: Crossover, pending: set<Edge>)

  /** One pass of the classification loop for the popped edge `(a, c)`, with `pending` the edges
      still pending after the pop (linker.py:356-374 with `get_co`, linker.py:318-345). */
  function Resolve(env: Env, pending: set<Edge>, a: BaseId, c: BaseId): (r: Result<Resolution>)
    requires EnvOk(env) && a in env.d.bases && c in env.d.bases
    ensures r.Ok? ==> r.value.pending <= pending
  {
    match Flank(env.d, a, c)
    case Err(e) => Err(e)
    case Ok((direct, bB, bD)) =>
      var full := bB.Some? && bD.Some? && {bB.value, bD.value} in pending;
      var typ := if full then Full else if bB.Some? && bD.Some? then Half else End;
      var d := env.d;
      var ps := [GetBp(env, Some(a)), GetBp(env, bB), GetBp(env, Some(c)), GetBp(env, bD)];
      var ls := [GetBp(env, Leg(d, Some(a), -direct)), GetBp(env, Leg(d, bB, direct)),
                 GetBp(env, Leg(d, Some(c), -direct)), GetBp(env, Leg(d, bD, direct))];
      var key := SortPairs(Positions(d, [Some(a), bB, Some(c), bD]));
      Ok(Resolution(key, Crossover(ps, ls, typ, d.bases[a].isScaf),
                    if full then pending - {{bB.value, bD.value}} else pending))
  }

  /** The classification rule: `full` exactly when `{B, D}` is still pending, and then that edge
      leaves the worklist with this one; otherwise `half` when B and D both exist, else `end`,
      and the worklist is untouched. */
  lemma ResolveTag(env: Env, pending: set<Edge>, a: BaseId, c: BaseId)
    requires EnvOk(env) && a in env.d.bases && c in env.d.bases
    requires Resolve(env, pending, a, c).Ok?
    ensures var r := Resolve(env, pending, a, c).value;
      var f := Flank(env.d, a, c).value;
      var bB, bD := f.1, f.2;
      (r.co.typ == Full <==> bB.Some? && bD.Some? && {bB.value, bD.value} in pending)
      && (r.co.typ == Half <==> bB.Some? && bD.Some? && {bB.value, bD.value} !in pending)
      && (r.co.typ == End <==> bB.None? || bD.None?)
      && (r.co.typ == Full ==> r.pending == pending - {{bB.value, bD.value}})
      && (r.co.typ != Full ==> r.pending == pending)
      && r.co.isScaf == env.d.bases[a].isScaf
  {
  }

  /** The record of a crossover: the sorted positions of A and C and of B and D where they exist,
      and the base pairs at A and C with A's and C's own residues. */
  lemma ResolveRecord(env: Env, pending: set<Edge>, a: BaseId, c: BaseId)
    requires EnvOk(env) && a in env.d.bases && c in env.d.bases
    requires Resolve(env, pending, a, c).Ok?
    ensures var r := Resolve(env, pending, a, c).value;
      var f := Flank(env.d, a, c).value;
      var pa, pc := Pos(env.d, a), Pos(env.d, c);
      SortedPairs(r.key) && pa in r.key && pc in r.key
      && |r.key| == 2 + Count(f.1.Some?) + Count(f.2.Some?)
      && |r.co.ps| == 4 && |r.co.ls| == 4
      && r.co.ps[0].Some? && r.co.ps[0].value.hp == pa && r.co.ps[2].Some? && r.co.ps[2].value.hp == pc
  {
    var f := Flank(env.d, a, c).value;
    KeyFacts(env.d, a, f.1, c, f.2);
  }

  /** The classification loop's state: the pending edges and the records written so far. */
  datatype CoState = CoState(pending: set<Edge>, fco: map<seq<(int, int)>, Crossover>)

  /** One pass of the classification loop popping edge `{a, c}` unpacked as `(a, c)`: `None`
      when that edge is not pending. */
  function Pass(env: Env, s: CoState, a: BaseId, c: BaseId): Option<Result<CoState>>
    requires EnvOk(env)
  {
    if {a, c} !in s.pending || a == c || a !in env.d.bases || c !in env.d.bases then None
    else
      match Resolve(env, s.pending - {{a, c}}, a, c)
      case Err(e) => Some(Err(e))
      case Ok(r) => Some(Ok(CoState(r.pending, s.fco[r.key := r.co])))
  }

  /** The classification loop run with the edges popped in the order `picks`: `None` when `picks`
      is not a possible order; an exception ends the run. */
  function Drain(env: Env, st: CoState, picks: seq<(BaseId, BaseId)>): Option<Result<CoState>>
    requires EnvOk(env)
    decreases |picks|
  {
    if picks == [] then Some(Ok(st))
    else
      match Pass(env, st, picks[0].0, picks[0].1)
      case None => None
      case Some(Err(e)) => if |picks| == 1 then Some(Err(e)) else None
      case Some(Ok(next)) => Drain(env, next, picks[1..])
  }

  /** Runs compose: after a prefix that ends normally, the rest runs from where it stopped. */
  lemma {:induction false} DrainAppend(env: Env, st: CoState, p: seq<(BaseId, BaseId)>, q: seq<(BaseId, BaseId)>)
    requires EnvOk(env) && Drain(env, st, p).Some? && Drain(env, st, p).value.Ok?
    ensures Drain(env, st, p + q) == Drain(env, Drain(env, st, p).value.value, q)
    decreases |p|
  {
    if p == [] {
      assert p + q == q;
    } else {
      assert (p + q)[0] == p[0] && (p + q)[1..] == p[1..] + q;
      var next := Pass(env, st, p[0].0, p[0].1).value.value;
      DrainAppend(env, next, p[1..], q);
    }
  }

  /** One more pass after a run that ended normally. */
  lemma DrainSnoc(env: Env, st: CoState, picks: seq<(BaseId, BaseId)>, a: BaseId, c: BaseId)
    requires EnvOk(env) && Drain(env, st, picks).Some? && Drain(env, st, picks).value.Ok?
    ensures Drain(env, st, picks + [(a, c)]) == Pass(env, Drain(env, st, picks).value.value, a, c)
  {
    DrainAppend(env, st, picks, [(a, c)]);
    assert [(a, c)][1..] == [];
  }

  /** Every pass of a possible run but the last ends normally. */
  lemma {:induction false} DrainPrefixOk(env: Env, st: CoState, picks: seq<(BaseId, BaseId)>, i: nat)
    requires EnvOk(env) && Drain(env, st, picks).Some? && i < |picks|
    ensures Drain(env, st, picks[..i]).Some? && Drain(env, st, picks[..i]).value.Ok?
    decreases i
  {
    if i > 0 {
      var pass := Pass(env, st, picks[0].0, picks[0].1);
      var next := pass.value.value;
      DrainPrefixOk(env, next, picks[1..], i - 1);
      assert picks[..i][0] == picks[0] && picks[..i][1..] == picks[1..][..i - 1];
    } else {
      assert picks[..i] == [];
    }
  }

  /** A possible run splits at any pass. */
  lemma DrainPrefix(env: Env, st: CoState, picks: seq<(BaseId, BaseId)>, i: nat)
    requires EnvOk(env) && Drain(env, st, picks).Some? && i < |picks|
    ensures Drain(env, st, picks[..i]).Some? && Drain(env, st, picks[..i]).value.Ok?
    ensures Drain(env, st, picks) == Drain(env, Drain(env, st, picks[..i]).value.value, picks[i..])
  {
    DrainPrefixOk(env, st, picks, i);
    DrainAppend(env, st, picks[..i], picks[i..]);
    assert picks[..i] + picks[i..] == picks;
  }

  /** Every pending edge is popped at most once: the popped edges were pending and are pairwise
      distinct, and a run can pop no more edges than were pending. */
  lemma {:induction false} DrainPopsOnce(env: Env, st: CoState, picks: seq<(BaseId, BaseId)>)
    requires EnvOk(env) && Drain(env, st, picks).Some?
    ensures forall i :: 0 <= i < |picks| ==> {picks[i].0, picks[i].1} in st.pending
    ensures forall i, j :: 0 <= i < j < |picks| ==> {picks[i].0, picks[i].1} != {picks[j].0, picks[j].1}
    ensures Drain(env, st, picks).value.Ok? ==>
      Drain(env, st, picks).value.value.pending <= st.pending
      && |Drain(env, st, picks).value.value.pending| + |picks| <= |st.pending|
    decreases |picks|
  {
    if picks != [] {
      var (a, c) := picks[0];
      var e := {a, c};
      var pass := Pass(env, st, a, c).value;
      if pass.Ok? {
        var next := pass.value;
        DrainPopsOnce(env, next, picks[1..]);
        assert e !in next.pending && next.pending <= st.pending - {e};
        forall i | 0 <= i < |picks| ensures {picks[i].0, picks[i].1} in st.pending {
          if i > 0 {
            assert picks[i] == picks[1..][i - 1];
          }
        }
        forall i, j | 0 <= i < j < |picks| ensures {picks[i].0, picks[i].1} != {picks[j].0, picks[j].1} {
          assert picks[j] == picks[1..][j - 1];
          if i > 0 {
            assert picks[i] == picks[1..][i - 1];
          }
        }
        if Drain(env, st, picks).value.Ok? {
          SubsetCard(next.pending, st.pending - {e});
        }
      }
    }
  }

  lemma SubsetCard<T>(a: set<T>, b: set<T>)
    requires a <= b
    ensures |a| <= |b|
  {
    assert b == a + (b - a);
  }

  /** A full crossover's partner edge is never classified on its own: when the pass that pops
      `{A, C}` finds `{B, D}` pending, no later pass pops `{B, D}`. */
  lemma DrainFullPartner(env: Env, st: CoState, picks: seq<(BaseId, BaseId)>, i: nat, bB: BaseId, bD: BaseId)
    requires EnvOk(env) && Drain(env, st, picks).Some? && i < |picks|
    requires picks[i].0 in env.d.bases && picks[i].1 in env.d.bases
    requires Flank(env.d, picks[i].0, picks[i].1).Ok?
    requires Flank(env.d, picks[i].0, picks[i].1).value.1 == Some(bB)
    requires Flank(env.d, picks[i].0, picks[i].1).value.2 == Some(bD)
    requires Drain(env, st, picks[..i]).Some? && Drain(env, st, picks[..i]).value.Ok?
    requires {bB, bD} in Drain(env, st, picks[..i]).value.value.pending - {{picks[i].0, picks[i].1}}
    ensures forall j :: i < j < |picks| ==> {picks[j].0, picks[j].1} != {bB, bD}
  {
    DrainPrefix(env, st, picks, i);
    var s := Drain(env, st, picks[..i]).value.value;
    var (a, c) := picks[i];
    assert picks[i..][0] == picks[i] && picks[i..][1..] == picks[i + 1..];
    var pass := Pass(env, s, a, c).value;
    if pass.Ok? && i + 1 < |picks| {
      var next := pass.value;
      assert Drain(env, next, picks[i + 1..]).Some?;
      DrainPopsOnce(env, next, picks[i + 1..]);
      assert {bB, bD} !in next.pending;
      forall j | i < j < |picks| ensures {picks[j].0, picks[j].1} != {bB, bD} {
        assert picks[j] == picks[i + 1..][j - i - 1];
      }
    }
  }

  // ----- nicks (linker.py:376-401) -----

  /** `is_nick(candidate, base)`: same helix, at most two positions apart (the skip tolerance), not
      the same base, and both fit-ids among the values of `Fbp`. */
  predicate IsNick(env: Env, fbp: map<FitId, FitId>, candidate: BaseId, base: BaseId)
    requires EnvOk(env) && candidate in env.d.bases && base in env.d.bases
  {
    var c, b := env.d.bases[candidate], env.d.bases[base];
    c.h == b.h && Abs(b.p - c.p) <= 2 && candidate != base
    && env.didFid[base] in fbp.Values && env.didFid[candidate] in fbp.Values
  }

  /** The end base the comprehension leaves bound to `start`: the last candidate in `ends` that
      forms a nick with it. */
  function LastNickEnd(env: Env, fbp: map<FitId, FitId>, start: BaseId, ends: seq<BaseId>): (r: Option<nat>)
    requires EnvOk(env) && start in env.d.bases && forall k :: 0 <= k < |ends| ==> ends[k] in env.d.bases
    ensures r.Some? ==>
      r.value < |ends| && IsNick(env, fbp, ends[r.value], start)
      && forall j :: r.value < j < |ends| ==> !IsNick(env, fbp, ends[j], start)
    ensures r.None? ==> forall j :: 0 <= j < |ends| ==> !IsNick(env, fbp, ends[j], start)
  {
    if ends == [] then None
    else if IsNick(env, fbp, ends[|ends| - 1], start) then Some(|ends| - 1)
    else LastNickEnd(env, fbp, start, ends[..|ends| - 1])
  }

  /** The fit-id the comprehension binds to `start`'s fit-id: that of its last nick partner. */
  function NickOf(env: Env, fbp: map<FitId, FitId>, start: BaseId, ends: seq<BaseId>): Option<FitId>
    requires EnvOk(env) && start in env.d.bases && forall k :: 0 <= k < |ends| ==> ends[k] in env.d.bases
  {
    var j := LastNickEnd(env, fbp, start, ends);
    if j.Some? then Some(env.didFid[ends[j.value]]) else None
  }

  /** The candidate entries of the nick comprehension for the start bases `starts`: each start's
      fit-id, with the fit-id of its last nick partner among `ends`.  The comprehension's inner loop
      writes the same key once per partner, so only the last partner survives it. */
  function NickEntries(env: Env, fbp: map<FitId, FitId>, starts: seq<BaseId>, ends: seq<BaseId>): (r: seq<(FitId, Option<FitId>)>)
    requires EnvOk(env)
    requires forall k :: 0 <= k < |starts| ==> starts[k] in env.d.bases
    requires forall k :: 0 <= k < |ends| ==> ends[k] in env.d.bases
    ensures |r| == |starts|
  {
    seq(|starts|, k requires 0 <= k < |starts| => (env.didFid[starts[k]], NickOf(env, fbp, starts[k], ends)))
  }

  /** `Fnicks` for the start bases `starts` against the end bases `ends`. */
  function NickMap(env: Env, fbp: map<FitId, FitId>, starts: seq<BaseId>, ends: seq<BaseId>): map<FitId, FitId>
    requires EnvOk(env)
    requires forall k :: 0 <= k < |starts| ==> starts[k] in env.d.bases
    requires forall k :: 0 <= k < |ends| ==> ends[k] in env.d.bases
  {
    DictComp(NickEntries(env, fbp, starts, ends))
  }

  /** A nick entry exists exactly for the fit-id of a start base that forms a nick with some end
      base (`LastNickEnd` finds the partner); a start base whose fit-id no later start shares is
      bound to its last nick partner. */
  lemma NickMapSpec(env: Env, fbp: map<FitId, FitId>, starts: seq<BaseId>, ends: seq<BaseId>)
    requires EnvOk(env)
    requires forall k :: 0 <= k < |starts| ==> starts[k] in env.d.bases
    requires forall k :: 0 <= k < |ends| ==> ends[k] in env.d.bases
    ensures var m := NickMap(env, fbp, starts, ends);
      (forall f :: f in m <==>
         exists k :: 0 <= k < |starts| && env.didFid[starts[k]] == f && NickOf(env, fbp, starts[k], ends).Some?)
      && (forall k :: 0 <= k < |starts| && NickOf(env, fbp, starts[k], ends).Some?
            && (forall j :: k < j < |starts| ==> env.didFid[starts[j]] != env.didFid[starts[k]])
            ==> m[env.didFid[starts[k]]] == NickOf(env, fbp, starts[k], ends).value)
  {
    var e := NickEntries(env, fbp, starts, ends);
    DictCompSpec(e);
    assert forall k :: 0 <= k < |starts| ==> e[k] == (env.didFid[starts[k]], NickOf(env, fbp, starts[k], ends));
  }

  /** The 5' ends of the staples, `[s[0] for s in design.staples]`. */
  function StartBases(d: Design): (r: seq<BaseId>)
    requires WellFormed(d) && forall i :: 0 <= i < |d.staples| ==> |d.staples[i]| > 0
    ensures |r| == |d.staples| && forall k :: 0 <= k < |r| ==> r[k] in d.bases && r[k] == d.staples[k][0]
  {
    seq(|d.staples|, i requires 0 <= i < |d.staples| => d.staples[i][0])
  }

  /** The 3' ends of the staples, `[s[-1] for s in design.staples]`. */
  function EndBases(d: Design): (r: seq<BaseId>)
    requires WellFormed(d) && forall i :: 0 <= i < |d.staples| ==> |d.staples[i]| > 0
    ensures |r| == |d.staples| && forall k :: 0 <= k < |r| ==> r[k] in d.bases && r[k] == d.staples[k][|d.staples[k]| - 1]
  {
    seq(|d.staples|, i requires 0 <= i < |d.staples| => d.staples[i][|d.staples[i]| - 1])
  }

  /** `_identify_nicks`. */
  function Nicks(env: Env, fbp: map<FitId, FitId>): map<FitId, FitId>
    requires EnvOk(env) && forall i :: 0 <= i < |env.d.staples| ==> |env.d.staples[i]| > 0
  {
    NickMap(env, fbp, StartBases(env.d), EndBases(env.d))
  }

  /** Termini on different helices, or more than two positions apart, never form a nick, and a
      nick joins two base-paired termini. */
  lemma NickNeeds(env: Env, fbp: map<FitId, FitId>, start: BaseId, ends: seq<BaseId>)
    requires EnvOk(env) && start in env.d.bases && forall k :: 0 <= k < |ends| ==> ends[k] in env.d.bases
    requires LastNickEnd(env, fbp, start, ends).Some?
    ensures var e := ends[LastNickEnd(env, fbp, start, ends).value];
      env.d.bases[e].h == env.d.bases[start].h && -2 <= env.d.bases[e].p - env.d.bases[start].p <= 2
      && e != start && env.didFid[e] in fbp.Values && env.didFid[start] in fbp.Values
  {
  }
}
