/** The `Linker` class (linker.py): it links every design base to its residue in the fitted
    structure and then derives, phase by phase, the base pairs, crossovers, nicks, sequence
    contexts and helix-neighbour profiles, each phase storing its result in a field. */
module Linking {
  import opened Wrappers
  import opened Dicts
  import opened DesignModel
  import opened LinkerSpec

  /** Python `s[i]` on a list: negative indices count from the end; `None` for an index out of
      range, where Python raises `IndexError`. */
  function PyIndex<T>(s: seq<T>, i: int): (r: Option<T>)
    ensures r.Some? <==> -|s| <= i < |s|
    ensures r.Some? ==> r.value == s[if i < 0 then i + |s| else i]
  {
    if 0 <= i < |s| then Some(s[i]) else if -|s| <= i < 0 then Some(s[i + |s|]) else None
  }

  /** `[ids.index(x) for x in ids]`: each element's first position. */
  function FirstIndices(ids: seq<BaseId>): (r: seq<nat>)
    ensures |r| == |ids|
  {
    seq(|ids|, k requires 0 <= k < |ids| => IndexOf(ids, ids[k]))
  }

  /** On a strand, where ids are distinct, every base's first position is its own. */
  lemma FirstIndicesDistinct(ids: seq<BaseId>)
    requires NoDup(ids)
    ensures FirstIndices(ids) == seq(|ids|, k => k)
  {
    forall k | 0 <= k < |ids| ensures FirstIndices(ids)[k] == k {
      IndexOfDistinct(ids, k);
    }
  }

  /** A base's lattice address, tagged as a scaffold or a staple address. */
  function Tagged(b: Base, scaf: bool): Address {
    Address(b.h, b.p, scaf)
  }

  /** The two maps one linking step builds: `DidFid` and `DhpsDid`. */
  datatype Links = Links(didFid: map<BaseId, FitId>, dhpsDid: map<Address, BaseId>)

  // ----- scaffold (linker.py:160-181) -----

  /** `link_scaffold`: positions in the design scaffold index the fit scaffold's residues (a NumPy
      fancy index, which raises `IndexError` when a position is out of range), and every scaffold
      address names its base. */
  function LinkScaffold(d: Design, f: Fit): Result<Links>
    requires ScaffoldIn(d)
  {
    var ids := d.scaffold;
    var local := FirstIndices(ids);
    if exists k :: 0 <= k < |local| && local[k] >= |f.scaffold| then Err(IndexError)
    else
      var global := seq(|local|, k requires 0 <= k < |local| => f.scaffold[local[k]]);
      var addrs := seq(|ids|, k requires 0 <= k < |ids| => Tagged(d.bases[ids[k]], true));
      Ok(Links(ZipMap(ids, global), ZipMap(addrs, ids)))
  }

  /** The maps `link_scaffold` returns, as a relation: the k-th scaffold base is linked to the
      k-th fit scaffold residue, and the scaffold addresses lead back to scaffold bases. */
  ghost predicate ScaffoldLinks(d: Design, f: Fit, l: Links)
    requires ScaffoldIn(d) && |d.scaffold| <= |f.scaffold|
  {
    (forall x :: x in l.didFid <==> x in d.scaffold)
    && (forall k :: 0 <= k < |d.scaffold| ==> l.didFid[d.scaffold[k]] == f.scaffold[k])
    && ScaffoldAddrs(d, l.dhpsDid)
  }

  ghost predicate ScaffoldAddrs(d: Design, m: map<Address, BaseId>)
    requires ScaffoldIn(d)
  {
    (forall a :: a in m <==> exists k :: 0 <= k < |d.scaffold| && a == Tagged(d.bases[d.scaffold[k]], true))
    && (forall a :: a in m ==> m[a] in d.scaffold && Tagged(d.bases[m[a]], true) == a)
  }

  /** Linking the scaffold fails, with an `IndexError`, exactly when the design scaffold is
      longer than the fit's. */
  lemma LinkScaffoldFails(d: Design, f: Fit)
    requires ScaffoldIn(d) && NoDup(d.scaffold)
    ensures LinkScaffold(d, f).Ok? <==> |d.scaffold| <= |f.scaffold|
    ensures LinkScaffold(d, f).Err? ==> LinkScaffold(d, f).error == IndexError
  {
    FirstIndicesDistinct(d.scaffold);
    if |d.scaffold| > |f.scaffold| {
      assert FirstIndices(d.scaffold)[|d.scaffold| - 1] >= |f.scaffold|;
    }
  }

  /** The scaffold's address map. */
  lemma ScaffoldAddrsSpec(d: Design)
    requires ScaffoldIn(d)
    ensures var ids := d.scaffold;
      ScaffoldAddrs(d, ZipMap(seq(|ids|, k requires 0 <= k < |ids| => Tagged(d.bases[ids[k]], true)), ids))
  {
    var ids := d.scaffold;
    var addrs := seq(|ids|, k requires 0 <= k < |ids| => Tagged(d.bases[ids[k]], true));
    ZipMapSpec(addrs, ids);
    var m := ZipMap(addrs, ids);
    forall a ensures a in m <==> exists k :: 0 <= k < |ids| && a == Tagged(d.bases[ids[k]], true) {
      if exists k :: 0 <= k < |ids| && a == Tagged(d.bases[ids[k]], true) {
        var k :| 0 <= k < |ids| && a == Tagged(d.bases[ids[k]], true);
        assert a == addrs[k];
      }
    }
    forall a | a in m ensures m[a] in ids && Tagged(d.bases[m[a]], true) == a {
      var j :| 0 <= j < |addrs| && addrs[j] == a && m[a] == ids[j];
    }
  }

  /** Otherwise it builds the maps `ScaffoldLinks` describes. */
  lemma LinkScaffoldSpec(d: Design, f: Fit)
    requires ScaffoldIn(d) && NoDup(d.scaffold) && |d.scaffold| <= |f.scaffold|
    ensures LinkScaffold(d, f).Ok? && ScaffoldLinks(d, f, LinkScaffold(d, f).value)
  {
    LinkScaffoldFails(d, f);
    ScaffoldAddrsSpec(d);
    var ids := d.scaffold;
    FirstIndicesDistinct(ids);
    var local := FirstIndices(ids);
    var global := seq(|local|, k requires 0 <= k < |local| => f.scaffold[local[k]]);
    assert global == f.scaffold[..|ids|];
    assert LinkScaffold(d, f).value.didFid == ZipMap(ids, f.scaffold[..|ids|]);
    ScaffoldFids(ids, f.scaffold);
  }

  /** Distinct scaffold bases zipped with the fit scaffold's first residues. */
  lemma ScaffoldFids(ids: seq<BaseId>, fs: seq<FitId>)
    requires NoDup(ids) && |ids| <= |fs|
    ensures forall x :: x in ZipMap(ids, fs[..|ids|]) <==> x in ids
    ensures forall k :: 0 <= k < |ids| ==> ids[k] in ZipMap(ids, fs[..|ids|]) && ZipMap(ids, fs[..|ids|])[ids[k]] == fs[k]
  {
    ZipMapSpec(ids, fs[..|ids|]);
    forall k | 0 <= k < |ids| ensures ids[k] in ZipMap(ids, fs[..|ids|]) && ZipMap(ids, fs[..|ids|])[ids[k]] == fs[k] {
      ZipMapDistinct(ids, fs[..|ids|], k);
    }
  }

  // ----- staples (linker.py:183-224) -----

  /** The fit segment staple `i` is linked to, `fit.staples[stapleorder[i]]`; `None` where either
      index is out of range. */
  function SegmentOf(d: Design, f: Fit, i: nat): Option<Segment>
    requires i < |d.staples|
  {
    if i < |d.stapleOrder| then PyIndex(f.staples, d.stapleOrder[i]) else None
  }

  /** Staple `i` links without an `IndexError`: it is not empty (its first base gives the colour),
      it has a segment, and that segment has a residue for each of its bases. */
  predicate StapleLinkable(d: Design, f: Fit, i: nat)
    requires i < |d.staples|
  {
    |d.staples[i]| > 0 && SegmentOf(d, f, i).Some? && |d.staples[i]| <= |SegmentOf(d, f, i).value.residues|
  }

  /** The first `n` staples link. */
  predicate StaplesLinkable(d: Design, f: Fit, n: nat)
    requires n <= |d.staples|
  {
    forall i {:trigger SegmentOf(d, f, i)} {:trigger StapleLinkable(d, f, i)} :: 0 <= i < n ==> StapleLinkable(d, f, i)
  }

  /** `_link` succeeds. */
  predicate Linkable(d: Design, f: Fit) {
    |d.scaffold| <= |f.scaffold| && StaplesLinkable(d, f, |d.staples|)
  }

  /** The colour `link_staples` records for staple `i`: that of the design strand of its first base. */
  function StapleColor(d: Design, i: nat): int
    requires i < |d.staples| && |d.staples[i]| > 0
  {
    var b := d.staples[i][0];
    if b in d.bases then d.icolor(d.bases[b].strand) else 0
  }

  /** `DidFid` after the first `n` staples: exactly their bases, the k-th base of staple `i`
      linked to the k-th residue of its segment. */
  ghost predicate StapleFids(d: Design, f: Fit, n: nat, m: map<BaseId, FitId>)
    requires n <= |d.staples| && StaplesLinkable(d, f, n)
  {
    (forall x :: x in m <==> exists i, k :: 0 <= i < n && 0 <= k < |d.staples[i]| && x == d.staples[i][k])
    && (forall i, k :: 0 <= i < n && 0 <= k < |d.staples[i]| ==>
          d.staples[i][k] in m && m[d.staples[i][k]] == SegmentOf(d, f, i).value.residues[k])
  }

  /** `DhpsDid` after the first `n` staples: exactly their addresses, each leading back to a base of
      those staples at that address. */
  ghost predicate StapleAddrs(d: Design, n: nat, m: map<Address, BaseId>)
    requires StaplesIn(d) && n <= |d.staples|
  {
    (forall a :: a in m <==>
       exists i, k :: 0 <= i < n && 0 <= k < |d.staples[i]| && a == Tagged(d.bases[d.staples[i][k]], false))
    && (forall a :: a in m ==>
          exists i, k :: 0 <= i < n && 0 <= k < |d.staples[i]| && m[a] == d.staples[i][k]
                         && Tagged(d.bases[d.staples[i][k]], false) == a)
  }

  /** The colour map after the first `n` staples: exactly their segments' `segindex`es, each
      carrying the colour of a staple linked to it. */
  ghost predicate StapleColors(d: Design, f: Fit, n: nat, color: map<int, int>)
    requires n <= |d.staples| && StaplesLinkable(d, f, n)
  {
    (forall s :: s in color <==> exists i :: 0 <= i < n && SegmentOf(d, f, i).value.segindex == s)
    && (forall s :: s in color ==>
          exists i :: 0 <= i < n && SegmentOf(d, f, i).value.segindex == s && color[s] == StapleColor(d, i))
  }

  /** The maps `link_staples` has built after its first `n` staples. */
  ghost predicate StaplesLinked(d: Design, f: Fit, n: nat, l: Links, color: map<int, int>)
    requires StaplesIn(d) && n <= |d.staples| && StaplesLinkable(d, f, n)
  {
    StapleFids(d, f, n, l.didFid) && StapleAddrs(d, n, l.dhpsDid) && StapleColors(d, f, n, color)
  }

  /** `[get_resid(seg_id, r) for r in local]`: the residues of segment `segId` at positions `local`. */
  function StapleResidues(f: Fit, segId: int, local: seq<nat>): (r: Result<seq<FitId>>)
    ensures r.Ok? ==> |r.value| == |local|
  {
    if local == [] then Ok([])
    else
      match PyIndex(f.staples, segId)
      case None => Err(IndexError)
      case Some(seg) =>
        if exists k :: 0 <= k < |local| && local[k] >= |seg.residues| then Err(IndexError)
        else Ok(seq(|local|, k requires 0 <= k < |local| => seg.residues[local[k]]))
  }

  /** For a staple that links, the comprehension picks the first residues of its segment. */
  lemma StapleResiduesPrefix(d: Design, f: Fit, n: nat)
    requires StaplesDistinct(d) && n < |d.staples| && n < |d.stapleOrder| && StapleLinkable(d, f, n)
    ensures StapleResidues(f, d.stapleOrder[n], FirstIndices(d.staples[n]))
            == Ok(SegmentOf(d, f, n).value.residues[..|d.staples[n]|])
  {
    var staple := d.staples[n];
    var seg := SegmentOf(d, f, n).value;
    forall a, b | 0 <= a < b < |staple| ensures staple[a] != staple[b] {
      assert d.staples[n][a] != d.staples[n][b];
    }
    FirstIndicesDistinct(staple);
    var local := FirstIndices(staple);
    if local != [] {
      assert PyIndex(f.staples, d.stapleOrder[n]) == Some(seg);
      assert !exists k :: 0 <= k < |local| && local[k] >= |seg.residues|;
      assert seq(|local|, k requires 0 <= k < |local| => seg.residues[local[k]]) == seg.residues[..|staple|];
    }
  }

  /** A staple that is not empty links exactly when the residue comprehension succeeds. */
  lemma StapleResiduesLinkable(d: Design, f: Fit, n: nat)
    requires StaplesDistinct(d) && n < |d.staples| && n < |d.stapleOrder| && |d.staples[n]| > 0
    ensures StapleResidues(f, d.stapleOrder[n], FirstIndices(d.staples[n])).Ok? <==> StapleLinkable(d, f, n)
  {
    var staple := d.staples[n];
    forall a, b | 0 <= a < b < |staple| ensures staple[a] != staple[b] {
      assert d.staples[n][a] != d.staples[n][b];
    }
    FirstIndicesDistinct(staple);
    var local := FirstIndices(staple);
    var seg := PyIndex(f.staples, d.stapleOrder[n]);
    if seg.Some? && |staple| > |seg.value.residues| {
      assert local[|staple| - 1] >= |seg.value.residues|;
    }
  }

  /** Staple `n`'s entries extend `DidFid` for the first `n` staples to the first `n + 1`. */
  lemma StapleFidsStep(d: Design, f: Fit, n: nat, m: map<BaseId, FitId>)
    requires StaplesDistinct(d) && n < |d.staples| && StaplesLinkable(d, f, n + 1)
    requires StapleFids(d, f, n, m)
    ensures StapleFids(d, f, n + 1, m + ZipMap(d.staples[n], SegmentOf(d, f, n).value.residues[..|d.staples[n]|]))
  {
    var staple := d.staples[n];
    var res := SegmentOf(d, f, n).value.residues[..|staple|];
    var z := ZipMap(staple, res);
    assert NoDup(staple) by {
      forall a, b | 0 <= a < b < |staple| ensures staple[a] != staple[b] {
        assert d.staples[n][a] != d.staples[n][b];
      }
    }
    ZipMapSpec(staple, res);
    var m' := m + z;
    forall x ensures x in m' <==> exists i, k :: 0 <= i < n + 1 && 0 <= k < |d.staples[i]| && x == d.staples[i][k] {
      if x in z {
        var k :| 0 <= k < |staple| && staple[k] == x;
        assert x == d.staples[n][k];
      }
    }
    forall i, k | 0 <= i < n + 1 && 0 <= k < |d.staples[i]|
      ensures d.staples[i][k] in m' && m'[d.staples[i][k]] == SegmentOf(d, f, i).value.residues[k]
    {
      if i == n {
        ZipMapDistinct(staple, res, k);
      } else {
        assert d.staples[i][k] !in z by {
          forall j | 0 <= j < |staple| ensures staple[j] != d.staples[i][k] {
            assert d.staples[n][j] != d.staples[i][k];
          }
        }
      }
    }
  }

  /** The addresses of staple `n`'s bases extend `DhpsDid` for the first `n` staples. */
  lemma StapleAddrsStep(d: Design, n: nat, m: map<Address, BaseId>)
    requires StaplesIn(d) && n < |d.staples|
    requires StapleAddrs(d, n, m)
    ensures var staple := d.staples[n];
      StapleAddrs(d, n + 1, m + ZipMap(seq(|staple|, k requires 0 <= k < |staple| => Tagged(d.bases[staple[k]], false)), staple))
  {
    var staple := d.staples[n];
    var addrs := seq(|staple|, k requires 0 <= k < |staple| => Tagged(d.bases[staple[k]], false));
    StapleAddrKeys(d, n, m, addrs);
    StapleAddrValues(d, n, m, addrs);
    assert StapleAddrs(d, n + 1, m + ZipMap(addrs, staple));
  }

  /** The keys half of `StapleAddrsStep`. */
  lemma StapleAddrKeys(d: Design, n: nat, m: map<Address, BaseId>, addrs: seq<Address>)
    requires StaplesIn(d) && n < |d.staples| && StapleAddrs(d, n, m)
    requires |addrs| == |d.staples[n]|
    requires forall k :: 0 <= k < |addrs| ==> addrs[k] == Tagged(d.bases[d.staples[n][k]], false)
    ensures forall a :: a in m + ZipMap(addrs, d.staples[n]) <==>
      exists i, k :: 0 <= i < n + 1 && 0 <= k < |d.staples[i]| && a == Tagged(d.bases[d.staples[i][k]], false)
  {
    var staple := d.staples[n];
    var z := ZipMap(addrs, staple);
    ZipMapSpec(addrs, staple);
    forall a ensures a in m + z <==>
        exists i, k :: 0 <= i < n + 1 && 0 <= k < |d.staples[i]| && a == Tagged(d.bases[d.staples[i][k]], false)
    {
      if a in z {
        var k :| 0 <= k < |addrs| && addrs[k] == a;
        assert a == Tagged(d.bases[d.staples[n][k]], false);
      }
      if exists k :: 0 <= k < |staple| && a == Tagged(d.bases[d.staples[n][k]], false) {
        var k :| 0 <= k < |staple| && a == Tagged(d.bases[d.staples[n][k]], false);
        assert a == addrs[k];
      }
    }
  }

  /** The values half of `StapleAddrsStep`. */
  lemma StapleAddrValues(d: Design, n: nat, m: map<Address, BaseId>, addrs: seq<Address>)
    requires StaplesIn(d) && n < |d.staples| && StapleAddrs(d, n, m)
    requires |addrs| == |d.staples[n]|
    requires forall k :: 0 <= k < |addrs| ==> addrs[k] == Tagged(d.bases[d.staples[n][k]], false)
    ensures var m' := m + ZipMap(addrs, d.staples[n]);
      forall a :: a in m' ==>
        exists i, k :: 0 <= i < n + 1 && 0 <= k < |d.staples[i]| && m'[a] == d.staples[i][k]
                       && Tagged(d.bases[d.staples[i][k]], false) == a
  {
    var staple := d.staples[n];
    var z := ZipMap(addrs, staple);
    ZipMapSpec(addrs, staple);
    var m' := m + z;
    forall a | a in m'
      ensures exists i, k :: 0 <= i < n + 1 && 0 <= k < |d.staples[i]| && m'[a] == d.staples[i][k]
                             && Tagged(d.bases[d.staples[i][k]], false) == a
    {
      if a in z {
        var k :| 0 <= k < |addrs| && addrs[k] == a && z[a] == staple[k];
        assert m'[a] == d.staples[n][k];
      }
    }
  }

  /** One more linkable staple extends all three maps of the first `n` staples. */
  lemma StapleStep(d: Design, f: Fit, n: nat, l: Links, color: map<int, int>)
    requires StaplesIn(d) && StaplesDistinct(d) && n < |d.staples|
    requires StaplesLinkable(d, f, n) && StapleLinkable(d, f, n) && StaplesLinked(d, f, n, l, color)
    ensures StaplesLinkable(d, f, n + 1)
    ensures var staple := d.staples[n];
      StaplesLinked(d, f, n + 1,
        Links(l.didFid + ZipMap(staple, SegmentOf(d, f, n).value.residues[..|staple|]),
              l.dhpsDid + ZipMap(seq(|staple|, k requires 0 <= k < |staple| => Tagged(d.bases[staple[k]], false)), staple)),
        color[SegmentOf(d, f, n).value.segindex := StapleColor(d, n)])
  {
    assert StaplesLinkable(d, f, n + 1);
    StapleFidsStep(d, f, n, l.didFid);
    StapleAddrsStep(d, n, l.dhpsDid);
    StapleColorsStep(d, f, n, color);
  }

  /** Staple `n`'s colour entry extends the colour map for the first `n` staples. */
  lemma StapleColorsStep(d: Design, f: Fit, n: nat, color: map<int, int>)
    requires n < |d.staples| && StaplesLinkable(d, f, n + 1)
    requires StapleColors(d, f, n, color)
    ensures StapleColors(d, f, n + 1, color[SegmentOf(d, f, n).value.segindex := StapleColor(d, n)])
  {
    var color' := color[SegmentOf(d, f, n).value.segindex := StapleColor(d, n)];
    forall s | s in color'
      ensures exists i :: 0 <= i < n + 1 && SegmentOf(d, f, i).value.segindex == s && color'[s] == StapleColor(d, i)
    {
      if s == SegmentOf(d, f, n).value.segindex {
        assert SegmentOf(d, f, n).value.segindex == s && color'[s] == StapleColor(d, n);
      }
    }
  }

  /** Every design base lies on the scaffold or on exactly one staple, at exactly one position. */
  lemma StrandPosition(d: Design, x: BaseId)
    requires StrandsPartition(d) && x in d.bases && x !in d.scaffold
    ensures exists i, k :: 0 <= i < |d.staples| && 0 <= k < |d.staples[i]| && d.staples[i][k] == x
  {
    var i :| 0 <= i < |d.staples| && x in d.staples[i];
    var k :| 0 <= k < |d.staples[i]| && d.staples[i][k] == x;
  }

  /** The combined `DidFid` `_link` stores links every design base: each scaffold base to the fit
      scaffold residue at its position, each staple base to the residue at its position in its
      staple's segment. */
  lemma LinkCovers(d: Design, f: Fit, sc: Links, st: Links)
    requires StrandsPartition(d) && Linkable(d, f)
    requires ScaffoldLinks(d, f, sc) && StapleFids(d, f, |d.staples|, st.didFid)
    ensures (sc.didFid + st.didFid).Keys == d.bases.Keys
    ensures forall k :: 0 <= k < |d.scaffold| ==> (sc.didFid + st.didFid)[d.scaffold[k]] == f.scaffold[k]
    ensures forall i, k :: 0 <= i < |d.staples| && 0 <= k < |d.staples[i]| ==>
              (sc.didFid + st.didFid)[d.staples[i][k]] == SegmentOf(d, f, i).value.residues[k]
  {
    var all := sc.didFid + st.didFid;
    forall x ensures x in all <==> x in d.bases {
      if x in d.bases && x !in d.scaffold {
        StrandPosition(d, x);
      }
    }
    forall k | 0 <= k < |d.scaffold| ensures all[d.scaffold[k]] == f.scaffold[k] {
      NotStaple(d, f, st.didFid, d.scaffold[k]);
    }
  }

  /** A scaffold base has no staple fit-id. */
  lemma NotStaple(d: Design, f: Fit, m: map<BaseId, FitId>, x: BaseId)
    requires StrandsPartition(d) && StaplesLinkable(d, f, |d.staples|) && StapleFids(d, f, |d.staples|, m)
    requires x in d.scaffold
    ensures x !in m
  {
    forall i, k | 0 <= i < |d.staples| && 0 <= k < |d.staples[i]| ensures x != d.staples[i][k] {
    }
  }

  /** The combined `DhpsDid` finds every design base at its address, tagged scaffold or staple
      by the strand the base lies on, and holds no other address. */
  lemma LinkAddresses(d: Design, f: Fit, sc: Links, st: Links)
    requires StrandsPartition(d) && Linkable(d, f)
    requires ScaffoldLinks(d, f, sc) && StapleAddrs(d, |d.staples|, st.dhpsDid)
    ensures forall x :: x in d.bases ==> Tagged(d.bases[x], x in d.scaffold) in (sc.dhpsDid + st.dhpsDid)
    ensures forall a :: a in (sc.dhpsDid + st.dhpsDid) ==>
              var x := (sc.dhpsDid + st.dhpsDid)[a]; x in d.bases && Tagged(d.bases[x], x in d.scaffold) == a
  {
    forall x | x in d.bases ensures Tagged(d.bases[x], x in d.scaffold) in (sc.dhpsDid + st.dhpsDid) {
      if x in d.scaffold {
        var k :| 0 <= k < |d.scaffold| && d.scaffold[k] == x;
        assert Tagged(d.bases[d.scaffold[k]], true) in sc.dhpsDid;
      } else {
        StrandPosition(d, x);
        var i, k :| 0 <= i < |d.staples| && 0 <= k < |d.staples[i]| && d.staples[i][k] == x;
        assert Tagged(d.bases[d.staples[i][k]], false) in st.dhpsDid;
      }
    }
    forall a | a in (sc.dhpsDid + st.dhpsDid)
      ensures var x := (sc.dhpsDid + st.dhpsDid)[a]; x in d.bases && Tagged(d.bases[x], x in d.scaffold) == a
    {
      if a in st.dhpsDid {
        var i, k :| 0 <= i < |d.staples| && 0 <= k < |d.staples[i]| && st.dhpsDid[a] == d.staples[i][k]
                    && Tagged(d.bases[d.staples[i][k]], false) == a;
      }
    }
  }

  /** What the later phases need of `_link`'s maps: every design base is linked. */
  ghost predicate Covers(d: Design, didFid: map<BaseId, FitId>) {
    WellFormed(d) && d.bases.Keys <= didFid.Keys
  }

  /** The outcome of `create_linkage`. */
  datatype Linkage = Linkage(
    fbp: map<FitId, FitId>,
    didFid: map<BaseId, FitId>,
    dhpsDid: map<Address, BaseId>,
    dcolor: map<int, int>,
    fco: map<seq<(int, int)>, Crossover>,
    fnicks: map<FitId, FitId>,
    fidSeqLocal: map<FitId, string>,
    fidSeqGlobal: map<FitId, string>,
    fidHN: map<FitId, seq<int>>,
    fit: Fit,
    skips: set<(int, int)>)

  /** `co_subparts.pop()` and `a, c = co_subparts_item`: some pending edge, unpacked in some order. */
  method PopEdge(pending: set<Edge>) returns (a: BaseId, c: BaseId)
    requires pending != {} && forall e :: e in pending ==> |e| == 2
    ensures {a, c} in pending && a != c
  {
    // a set that is not empty has a member
    assert (forall e :: e !in pending) ==> pending == {};
    var e :| e in pending;
    assert |e| == 2;
    assert (forall x :: x !in e) ==> e == {};
    var x :| x in e;
    var rest := e - {x};
    assert |rest| == 1;
    assert (forall y :: y !in rest) ==> rest == {};
    var y :| y in rest;
    EdgeOf(e, x, y);
    a, c := x, y;
  }

  /** One more pass of the classification loop after a run that left `pending` and `fco`. */
  lemma PassStep(env: Env, st0: CoState, picks: seq<(BaseId, BaseId)>, pending: set<Edge>,
                 fco: map<seq<(int, int)>, Crossover>, a: BaseId, c: BaseId)
    requires EnvOk(env) && Drain(env, st0, picks) == Some(Ok(CoState(pending, fco)))
    requires {a, c} in pending && a != c && a in env.d.bases && c in env.d.bases
    ensures Drain(env, st0, picks + [(a, c)]) ==
      match Resolve(env, pending - {{a, c}}, a, c)
      case Err(e) => Some(Err(e))
      case Ok(r) => Some(Ok(CoState(r.pending, fco[r.key := r.co])))
  {
    DrainSnoc(env, st0, picks, a, c);
  }

  /** A run that raised on its last pass: the passes before it ran through and left `fco` as the
      crossover records, which the exception does not undo. */
  ghost predicate StoppedWith(env: Env, st0: CoState, picks: seq<(BaseId, BaseId)>, fco: map<seq<(int, int)>, Crossover>)
    requires EnvOk(env)
  {
    |picks| > 0
    && var before := Drain(env, st0, picks[..|picks| - 1]);
    before.Some? && before.value.Ok? && before.value.value.fco == fco
  }

  /** The classification loop of `_identify_crossover` (linker.py:355-374): pops pending edges
      in some order, unpacks each into `(a, c)` in some order and records its crossover, until no
      edge is pending or a pass raises.  `picks` is the order taken; on an exception `fco` holds
      the records written before the failing pass. */
  method Classify(env: Env, pending0: set<Edge>, fco0: map<seq<(int, int)>, Crossover>)
    returns (err: Option<PyError>, fco: map<seq<(int, int)>, Crossover>, ghost picks: seq<(BaseId, BaseId)>)
    requires EnvOk(env) && forall e :: e in pending0 ==> IsEdge(env.d, e)
    ensures Drain(env, CoState(pending0, fco0), picks) == Some(if err.None? then Ok(CoState({}, fco)) else Err(err.value))
    ensures err.Some? ==> StoppedWith(env, CoState(pending0, fco0), picks, fco)
  {
    ghost var st0 := CoState(pending0, fco0);
    var pending := pending0;
    fco := fco0;
    picks := [];
    while pending != {}
      invariant forall e :: e in pending ==> IsEdge(env.d, e)
      invariant Drain(env, st0, picks) == Some(Ok(CoState(pending, fco)))
      decreases |pending|
    {
      var a, c := PopEdge(pending);
      assert a in env.d.bases && c in env.d.bases by {
        assert IsEdge(env.d, {a, c});
      }
      PassStep(env, st0, picks, pending, fco, a, c);
      ghost var before := picks;
      picks := picks + [(a, c)];
      pending := pending - {{a, c}};
      var res := Resolve(env, pending, a, c);
      if res.Err? {
        assert picks[..|picks| - 1] == before;
        return Some(res.error), fco, picks;
      }
      SubsetCard(res.value.pending, pending);
      fco := fco[res.value.key := res.value.co];
      pending := res.value.pending;
    }
    err := None;
  }

  /** Linking needs every staple to have a first base. */
  lemma LinkableNonEmpty(d: Design, f: Fit)
    requires Linkable(d, f)
    ensures forall i :: 0 <= i < |d.staples| ==> |d.staples[i]| > 0
  {
    forall i | 0 <= i < |d.staples| ensures |d.staples[i]| > 0 {
      assert StapleLinkable(d, f, i);
    }
  }

  /** A two-element set holding `a` and another element `c` is `{a, c}`. */
  lemma EdgeOf(e: Edge, a: BaseId, c: BaseId)
    requires |e| == 2 && a in e && c in e && c != a
    ensures e == {a, c}
  {
    assert {a, c} <= e && |{a, c}| == 2;
    assert |e - {a, c}| == |e| - |{a, c}| == 0;
  }

  class Linker {
    const design: Design
    const fit: Fit
    var DidFid: map<BaseId, FitId>
    var DhpsDid: map<Address, BaseId>
    var Dcolor: map<int, int>
    var Fbp: map<FitId, FitId>
    var Fco: map<seq<(int, int)>, Crossover>
    var Fnicks: map<FitId, FitId>
    var FidSeqLocal: map<FitId, string>
    var FidSeqGlobal: map<FitId, string>
    var FidHN: map<FitId, seq<int>>

    /** A linker over a loaded design and fit, with every map empty. */
    constructor(design: Design, fit: Fit)
      ensures this.design == design && this.fit == fit
      ensures DidFid == map[] && DhpsDid == map[] && Dcolor == map[] && Fbp == map[] && Fco == map[]
      ensures Fnicks == map[] && FidSeqLocal == map[] && FidSeqGlobal == map[] && FidHN == map[]
    {
      this.design := design;
      this.fit := fit;
      DidFid, DhpsDid, Dcolor, Fbp, Fco := map[], map[], map[], map[], map[];
      Fnicks, FidSeqLocal, FidSeqGlobal, FidHN := map[], map[], map[], map[];
    }

    /** `link_staples`: the staples in order, each linked to the segment `stapleorder` names. */
    method LinkStaples() returns (r: Result<(Links, map<int, int>)>)
      requires StaplesIn(design) && StaplesDistinct(design)
      ensures r.Ok? <==> StaplesLinkable(design, fit, |design.staples|)
      ensures r.Err? ==> r.error == IndexError
      ensures r.Ok? ==> StaplesLinked(design, fit, |design.staples|, r.value.0, r.value.1)
    {
      var l := Links(map[], map[]);
      var color: map<int, int> := map[];
      var i := 0;
      while i < |design.staples|
        invariant 0 <= i <= |design.staples|
        invariant StaplesLinkable(design, fit, i)
        invariant StaplesLinked(design, fit, i, l, color)
      {
        if i >= |design.stapleOrder| {
          assert !StapleLinkable(design, fit, i);
          return Err(IndexError);
        }
        var segId := design.stapleOrder[i];
        var staple := design.staples[i];
        var local := FirstIndices(staple);
        var global := StapleResidues(fit, segId, local);
        if global.Err? {
          assert !StapleLinkable(design, fit, i) by {
            if |staple| > 0 {
              StapleResiduesLinkable(design, fit, i);
            }
          }
          return Err(IndexError);
        }
        if |staple| == 0 {
          assert !StapleLinkable(design, fit, i);
          return Err(IndexError);
        }
        StapleResiduesLinkable(design, fit, i);
        var seg := PyIndex(fit.staples, segId).value;
        StapleResiduesPrefix(design, fit, i);
        StapleStep(design, fit, i, l, color);
        var addrs := seq(|staple|, k requires 0 <= k < |staple| => Tagged(design.bases[staple[k]], false));
        color := color[seg.segindex := StapleColor(design, i)];
        l := Links(l.didFid + ZipMap(staple, global.value), l.dhpsDid + ZipMap(addrs, staple));
        i := i + 1;
      }
      return Ok((l, color));
    }

    /** The maps `_link` stores: the scaffold's links `sc` overlaid with the staples' links `st`,
        and the staple colours. */
    ghost predicate LinkedAs(sc: Links, st: Links)
      reads this`DidFid, this`DhpsDid, this`Dcolor
    {
      ScaffoldIn(design) && StaplesIn(design) && Linkable(design, fit)
      && ScaffoldLinks(design, fit, sc) && StaplesLinked(design, fit, |design.staples|, st, Dcolor)
      && DidFid == sc.didFid + st.didFid && DhpsDid == sc.dhpsDid + st.dhpsDid
    }

    /** `_link`: the scaffold, then the staples; the stored maps are the scaffold's overlaid with
        the staples'.  Either step's `IndexError` leaves every field as it was. */
    method Link() returns (err: Option<PyError>, ghost sc: Links, ghost st: Links)
      requires WellFormed(design)
      modifies this`DidFid, this`DhpsDid, this`Dcolor
      ensures err.None? <==> Linkable(design, fit)
      ensures err.Some? ==> err.value == IndexError && unchanged(this)
      ensures err.None? ==> LinkedAs(sc, st) && Covers(design, DidFid)
    {
      WellFormedStrandsIn(design);
      var r := LinkBoth();
      if r.Err? {
        return Some(r.error), Links(map[], map[]), Links(map[], map[]);
      }
      sc, st := r.value.0, r.value.1;
      DidFid := r.value.0.didFid + r.value.1.didFid;
      DhpsDid := r.value.0.dhpsDid + r.value.1.dhpsDid;
      Dcolor := r.value.2;
      err := None;
    }

    /** The maps `_link` stores: the scaffold's, the staples' and the colours, or the
        `IndexError` of the first step that raises one. */
    method LinkBoth() returns (r: Result<(Links, Links, map<int, int>)>)
      requires WellFormed(design)
      ensures r.Ok? <==> Linkable(design, fit)
      ensures r.Err? ==> r.error == IndexError
      ensures r.Ok? ==>
        ScaffoldLinks(design, fit, r.value.0) && StaplesLinked(design, fit, |design.staples|, r.value.1, r.value.2)
        && Covers(design, r.value.0.didFid + r.value.1.didFid)
    {
      WellFormedStrandsIn(design);
      LinkScaffoldFails(design, fit);
      var rsc := LinkScaffold(design, fit);
      if rsc.Err? {
        return Err(rsc.error);
      }
      var rst := LinkStaples();
      if rst.Err? {
        return Err(rst.error);
      }
      LinkScaffoldSpec(design, fit);
      LinkCovers(design, fit, rsc.value, rst.value.0);
      r := Ok((rsc.value, rst.value.0, rst.value.1));
    }

    /** The state every phase after `_link` relies on: a well-formed design whose every base is
        linked. */
    ghost predicate Linked()
      reads this`DidFid
    {
      Covers(design, DidFid) && Linkable(design, fit)
      && forall i :: 0 <= i < |design.staples| ==> |design.staples[i]| > 0
    }

    /** What `_identify_crossover` leaves behind: popping the candidate edges in the order `picks`,
        starting from the records `fco0`, with the base pairs symmetrised through the inversion
        `inv` of `Fbp`, empties the worklist with the records in `Fco` when `err` is `None`; otherwise
        it raises `err` on its last pass, and `Fco` holds the records of the passes before. */
    ghost predicate Crossed(inv: map<FitId, FitId>, picks: seq<(BaseId, BaseId)>,
                            fco0: map<seq<(int, int)>, Crossover>, err: Option<PyError>)
      reads this`DidFid, this`Fbp, this`Fco
    {
      IsInverse(Fbp, inv)
      && var env := Env(design, DidFid, Symmetrize(Fbp, inv));
      EnvOk(env)
      && Drain(env, CoState(Candidates(design), fco0), picks)
         == Some(if err.None? then Ok(CoState({}, Fco)) else Err(err.value))
      && (err.Some? ==> StoppedWith(env, CoState(Candidates(design), fco0), picks, Fco))
    }

    /** What `_identify_nicks`, `_eval_sequence` and `_eval_FidHelixneighbors` over `steps` steps
        leave behind: the nick map, both context maps laid over `local0` and `global0`, and a fresh
        profile map. */
    ghost predicate Described(steps: nat, local0: map<FitId, string>, global0: map<FitId, string>)
      requires Linked()
      reads this`DidFid, this`Fbp, this`Fnicks, this`FidSeqLocal, this`FidSeqGlobal, this`FidHN
    {
      var env := Env(design, DidFid, map[]);
      Fnicks == Nicks(env, Fbp)
      && FidSeqLocal == local0 + Contexts(env, fit.letter, steps, true)
      && FidSeqGlobal == global0 + Contexts(env, fit.letter, steps, false)
      && FidHN == Profiles(env, steps)
    }

    /** `_identify_bp`. */
    method IdentifyBp()
      requires Linked()
      modifies this`Fbp
      ensures Fbp == BasePairs(design, DidFid, design.scaffold)
    {
      Fbp := BasePairs(design, DidFid, design.scaffold);
    }

    /** `_get_n_strand` (linker.py:247-261): `|steps|` steps along the strand, in the direction
        `Heading` settles on. */
    method GetNStrand(b: BaseId, up: bool, steps: int, local: bool) returns (r: Option<BaseId>)
      requires WellFormed(design) && b in design.bases
      ensures r == Walk(design, b, Heading(up, steps, design.bases[b].h, local), Abs(steps))
    {
      if steps == 0 {
        return Some(b);
      }
      var dirUp := up;
      if steps < 0 {
        dirUp := !dirUp;
      }
      if design.bases[b].h % 2 == 1 && !local {
        dirUp := !dirUp;
      }
      var cur := b;
      var n := 0;
      while n < Abs(steps)
        invariant 0 <= n <= Abs(steps) && cur in design.bases
        invariant Walk(design, b, dirUp, n) == Some(cur)
      {
        WalkSnoc(design, b, dirUp, n);
        var next := if dirUp then design.bases[cur].up else design.bases[cur].down;
        if next.None? {
          WalkAdd(design, b, dirUp, n + 1, Abs(steps) - n - 1);
          return None;
        }
        cur := next.value;
        n := n + 1;
      }
      return Some(cur);
    }

    /** `_get_n_helix` (linker.py:263-282): the skip count is accumulated over the positions
        `direct, 2 direct, ..., steps * direct` that `range` yields. */
    method GetNHelix(b: BaseId, direct: int, steps: int) returns (r: Result<Option<BaseId>>)
      requires WellFormed(design) && b in design.bases
      ensures r == HelixStep(design, b, direct, steps)
    {
      if steps == 0 {
        return Ok(Some(b));
      }
      var base := design.bases[b];
      var n, dir := steps, direct;
      if n < 0 {
        n, dir := Abs(n), -dir;
      }
      if dir == 0 {
        return Err(ValueError);
      }
      var skips := 0;
      var m := 1;
      while m <= n
        invariant 1 <= m <= n + 1
        invariant skips == SkipsPassed(design.skips, base.h, base.p, dir, m - 1)
      {
        if (base.h, base.p + m * dir) in design.skips {
          skips := skips + 1;
        }
        m := m + 1;
      }
      var q := base.p + dir * (n + skips);
      if (base.h, q) in design.skips {
        q := q + dir;
      }
      var a := Address(base.h, q, base.isScaf);
      if a in design.baseAt {
        return Ok(Some(design.baseAt[a]));
      }
      return Ok(None);
    }

    /** The collection loop of `_identify_crossover` (linker.py:347-353): for every base in
        `allbases`, the first of `up` and `down` that crosses to another helix. */
    method CollectCandidates() returns (pending: set<Edge>)
      requires WellFormed(design)
      ensures pending == Candidates(design)
    {
      var all := AllBases(design);
      AllBasesSpec(design);
      pending := {};
      var k := 0;
      while k < |all|
        invariant 0 <= k <= |all|
        invariant forall e :: e in pending <==> exists j :: 0 <= j < k && CoEdge(design, all[j]) == Some(e)
      {
        var b := all[k];
        var up := GetNStrand(b, true, 1, true);
        assert up == design.bases[b].up;
        if IsCo(design, b, up) {
          pending := pending + {{b, up.value}};
        } else {
          var down := GetNStrand(b, false, 1, true);
          assert down == design.bases[b].down;
          if IsCo(design, b, down) {
            pending := pending + {{b, down.value}};
          }
        }
        k := k + 1;
      }
      forall e ensures e in pending <==> e in Candidates(design) {
        if e in Candidates(design) {
          var b :| b in design.bases && CoEdge(design, b) == Some(e);
          var j :| 0 <= j < |all| && all[j] == b;
        }
      }
    }

    /** `_identify_crossover`: the candidate edges are popped in an order the model leaves open
        (`picks`, with each edge's bases in the order they were unpacked) and classified; the
        base-pair map is symmetrised once with an inversion `inv` of `Fbp`, as `_get_bp` does on
        every call.  The run that order describes ends with no edge pending and the records in
        `Fco`, or with the exception a pass raised. */
    method IdentifyCrossover() returns (err: Option<PyError>, ghost inv: map<FitId, FitId>, ghost picks: seq<(BaseId, BaseId)>)
      requires Covers(design, DidFid)
      modifies this`Fco
      ensures IsInverse(Fbp, inv)
      ensures Drain(Env(design, DidFid, Symmetrize(Fbp, inv)), CoState(Candidates(design), old(Fco)), picks)
              == Some(if err.None? then Ok(CoState({}, Fco)) else Err(err.value))
      ensures err.Some? ==>
        StoppedWith(Env(design, DidFid, Symmetrize(Fbp, inv)), CoState(Candidates(design), old(Fco)), picks, Fco)
    {
      var fbpInv := Invert(Fbp);
      inv := fbpInv;
      var pairs := Symmetrize(Fbp, fbpInv);
      var pending := CollectCandidates();
      var fco;
      err, fco, picks := Classify(Env(design, DidFid, pairs), pending, Fco);
      Fco := fco;
    }

    /** `_identify_nicks` (linker.py:376-401). */
    method IdentifyNicks()
      requires Linked()
      modifies this`Fnicks
      ensures Fnicks == Nicks(Env(design, DidFid, map[]), Fbp)
    {
      Fnicks := Nicks(Env(design, DidFid, map[]), Fbp);
    }

    /** One sequence context of `_eval_sequence` (linker.py:48-82): the local one walks `0 .. steps`
        steps, the global one `0, -1, .. -steps`. */
    method SequenceContext(b: BaseId, steps: nat, local: bool) returns (s: string)
      requires Linked() && b in design.bases
      ensures s == Context(Env(design, DidFid, map[]), fit.letter, b, steps, local)
    {
      ghost var env := Env(design, DidFid, map[]);
      s := "";
      var stp := 0;
      while stp <= steps
        invariant 0 <= stp <= steps + 1 && |s| == stp
        invariant forall k :: 0 <= k < stp ==> s[k] == ContextChar(env, fit.letter, b, ContextBase(design, b, k, local))
      {
        var nb := GetNStrand(b, false, if local then stp else -stp, local);
        assert nb == ContextBase(design, b, stp, local);
        var ch: char;
        if nb.None? {
          ch := 'N';
        } else if design.bases[nb.value].h != design.bases[b].h {
          ch := 'X';
        } else {
          ch := fit.letter(DidFid[nb.value]);
        }
        s := s + [ch];
        stp := stp + 1;
      }
    }

    /** `_eval_sequence`: both contexts of every base of `allbases`, stored under its fit-id into
        the maps already there; a later base with the same fit-id overwrites an earlier one. */
    method EvalSequence(steps: nat)
      requires Linked()
      modifies this`FidSeqLocal, this`FidSeqGlobal
      ensures FidSeqLocal == old(FidSeqLocal) + Contexts(Env(design, DidFid, map[]), fit.letter, steps, true)
      ensures FidSeqGlobal == old(FidSeqGlobal) + Contexts(Env(design, DidFid, map[]), fit.letter, steps, false)
    {
      FidSeqLocal, FidSeqGlobal := StoreContexts(steps, FidSeqLocal, FidSeqGlobal);
    }

    /** The loop of `_eval_sequence` (linker.py:40-85) over `allbases`, writing into `local0`
        and `global0`. */
    method StoreContexts(steps: nat, local0: map<FitId, string>, global0: map<FitId, string>)
      returns (seqLocal: map<FitId, string>, seqGlobal: map<FitId, string>)
      requires Linked()
      ensures seqLocal == local0 + Contexts(Env(design, DidFid, map[]), fit.letter, steps, true)
      ensures seqGlobal == global0 + Contexts(Env(design, DidFid, map[]), fit.letter, steps, false)
    {
      ghost var env := Env(design, DidFid, map[]);
      var all := AllBases(design);
      AllBasesSpec(design);
      ghost var eL := Entries(DidFid, ContextMap(env, fit.letter, steps, true), all);
      ghost var eG := Entries(DidFid, ContextMap(env, fit.letter, steps, false), all);
      seqLocal, seqGlobal := local0, global0;
      var k := 0;
      while k < |all|
        invariant 0 <= k <= |all|
        invariant seqLocal == local0 + DictComp(eL[..k])
        invariant seqGlobal == global0 + DictComp(eG[..k])
      {
        var b := all[k];
        var local := SequenceContext(b, steps, true);
        var global := SequenceContext(b, steps, false);
        DictCompExtend(local0, eL, k);
        DictCompExtend(global0, eG, k);
        seqLocal := seqLocal[DidFid[b] := local];
        seqGlobal := seqGlobal[DidFid[b] := global];
        k := k + 1;
      }
      assert eL[..k] == eL && eG[..k] == eG;
    }

    /** The helix-neighbour profile of `_eval_FidHelixneighbors` (linker.py:105-125) for one base. */
    method NeighborProfile(b: BaseId, steps: nat) returns (nh: seq<int>)
      requires WellFormed(design) && b in design.bases
      ensures nh == NeighborCounts(design, b, steps)
    {
      var base := design.bases[b];
      var row, col := design.helices[base.h].0, design.helices[base.h].1;
      nh := [];
      var stp := 1;
      while stp <= steps
        invariant 1 <= stp <= steps + 1 && |nh| == stp - 1
        invariant forall k :: 0 <= k < stp - 1 ==> nh[k] == CountOccupied(design, Cells(row, col, k + 1), base.p) as int
      {
        var cells := Cells(row, col, stp);
        var number := 0;
        var j := 0;
        while j < 4
          invariant 0 <= j <= 4
          invariant number == CountOccupied(design, cells[..j], base.p)
        {
          assert cells[..j + 1][..j] == cells[..j];
          if cells[j] in design.helixAt
             && (Address(design.helixAt[cells[j]], base.p, true) in design.baseAt
                 || Address(design.helixAt[cells[j]], base.p, false) in design.baseAt) {
            number := number + 1;
          }
          j := j + 1;
        }
        assert cells[..4] == cells;
        nh := nh + [number];
        stp := stp + 1;
      }
    }

    /** `_eval_FidHelixneighbors`: a fresh map holding the profile of every base of `allbases`
        under its fit-id. */
    method EvalHelixNeighbors(steps: nat)
      requires Linked()
      modifies this`FidHN
      ensures FidHN == Profiles(Env(design, DidFid, map[]), steps)
    {
      FidHN := StoreProfiles(steps);
    }

    /** The loop of `_eval_FidHelixneighbors` (linker.py:104-125) over `allbases`, writing into a
        fresh map. */
    method StoreProfiles(steps: nat) returns (hn: map<FitId, seq<int>>)
      requires Linked()
      ensures hn == Profiles(Env(design, DidFid, map[]), steps)
    {
      ghost var env := Env(design, DidFid, map[]);
      var all := AllBases(design);
      AllBasesSpec(design);
      ghost var e := Entries(DidFid, ProfileMap(env, steps), all);
      hn := map[];
      var k := 0;
      while k < |all|
        invariant 0 <= k <= |all|
        invariant hn == map[] + DictComp(e[..k])
      {
        var b := all[k];
        var nh := NeighborProfile(b, steps);
        DictCompExtend(map[], e, k);
        hn := hn[DidFid[b] := nh];
        k := k + 1;
      }
      assert e[..k] == e;
    }

    /** `_identify_bp` then `_identify_crossover`. */
    method PairAndCross() returns (err: Option<PyError>, ghost inv: map<FitId, FitId>, ghost picks: seq<(BaseId, BaseId)>)
      requires Linked()
      modifies this`Fbp, this`Fco
      ensures Fbp == BasePairs(design, DidFid, design.scaffold) && Crossed(inv, picks, old(Fco), err)
    {
      IdentifyBp();
      err, inv, picks := IdentifyCrossover();
    }

    /** `_identify_nicks`, `_eval_sequence` and `_eval_FidHelixneighbors` over `steps` steps. */
    method Describe(steps: nat)
      requires Linked()
      modifies this`Fnicks, this`FidSeqLocal, this`FidSeqGlobal, this`FidHN
      ensures Described(steps, old(FidSeqLocal), old(FidSeqGlobal))
    {
      ghost var env := Env(design, DidFid, map[]);
      IdentifyNicks();
      EvalSequence(steps);
      assert Fnicks == Nicks(env, Fbp);
      EvalHelixNeighbors(steps);
      assert FidSeqLocal == old(FidSeqLocal) + Contexts(env, fit.letter, steps, true);
      assert FidSeqGlobal == old(FidSeqGlobal) + Contexts(env, fit.letter, steps, false);
    }

    /** The phases of `create_linkage` after `_link`: the base pairs, the crossovers, then (when
        no crossover pass raised) the nicks, the sequence contexts and the helix-neighbour
        profiles over `steps` steps. */
    method Analyse(steps: nat) returns (err: Option<PyError>, ghost inv: map<FitId, FitId>, ghost picks: seq<(BaseId, BaseId)>)
      requires Linked()
      modifies this`Fbp, this`Fco, this`Fnicks, this`FidSeqLocal, this`FidSeqGlobal, this`FidHN
      ensures Fbp == BasePairs(design, DidFid, design.scaffold) && Crossed(inv, picks, old(Fco), err)
      ensures err.None? ==> Described(steps, old(FidSeqLocal), old(FidSeqGlobal))
    {
      err, inv, picks := PairAndCross();
      if err.Some? {
        return;
      }
      Describe(steps);
    }

    /** `create_linkage`: the phases in order, with the default five steps for the contexts and
        the profiles; a failing phase ends the run with its exception. */
    method CreateLinkage()
      returns (r: Result<Linkage>, ghost sc: Links, ghost st: Links, ghost inv: map<FitId, FitId>, ghost picks: seq<(BaseId, BaseId)>)
      requires WellFormed(design)
      modifies this
      ensures !Linkable(design, fit) ==> r == Err(IndexError) && unchanged(this)
      ensures Linkable(design, fit) ==> LinkedAs(sc, st)
      ensures Linkable(design, fit) ==>
        Linked() && Fbp == BasePairs(design, DidFid, design.scaffold)
        && Crossed(inv, picks, old(Fco), if r.Ok? then None else Some(r.error))
      ensures r.Ok? ==>
        Linked() && Described(5, old(FidSeqLocal), old(FidSeqGlobal))
        && r.value == Linkage(Fbp, DidFid, DhpsDid, Dcolor, Fco, Fnicks, FidSeqLocal, FidSeqGlobal, FidHN, fit, design.skips)
    {
      var err;
      err, sc, st := Link();
      if err.Some? {
        return Err(err.value), sc, st, map[], [];
      }
      LinkableNonEmpty(design, fit);
      err, inv, picks := Analyse(5);
      if err.Some? {
        return Err(err.value), sc, st, inv, picks;
      }
      r := Ok(Linkage(Fbp, DidFid, DhpsDid, Dcolor, Fco, Fnicks, FidSeqLocal, FidSeqGlobal, FidHN, fit, design.skips));
    }
  }
}
