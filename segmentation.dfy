/** Motif categorisation `_categorise_lists` (segmentation.py:122-205): from the linkage maps it
    collects the crossovers, with the fit-ids of their bases and base partners, and the nicks, each
    together with the fit-ids found within `plus` positions on the same helix and strand type.
    Dictionaries and sets are walked in an order a map or set does not record; each loop here
    takes its elements in an arbitrary order and logs that order in ghost out-parameters, and every
    property is stated for every order. */
module Segmentation {
  import opened Wrappers
  import opened Dicts
  import opened DesignModel

  /** The crossover record `dict_coid[x]` of a fit-id: `type[0]`, `type[1]` where the record has
      one, the partner `co` and `co_index`. */
  datatype CoEntry = CoEntry(typ: string, dou: Option<FitId>, co: FitId, coIndex: int)

  /** The linkage maps `_categorise_lists` reads. */
  datatype Topology = Topology(
    bp: map<FitId, FitId>,
    idid: map<BaseId, FitId>,
    hpid: map<Address, BaseId>,
    coid: map<FitId, CoEntry>,
    nicks: map<FitId, FitId>)

  /** The maps built at the start of `_categorise_lists` (segmentation.py:124-126) together with the
      topology and `plus`: `dict_FidDid`, `dict_DidDhps`, the inversion of `dict_bp` and
      `dict_bpFULL`. */
  datatype Env = Env(
    topo: Topology,
    plus: int,
    fidDid: map<FitId, BaseId>,
    didDhps: map<BaseId, Address>,
    invBp: map<FitId, FitId>,
    full: map<FitId, FitId>)

  predicate Prepared(env: Env) {
    IsInverse(env.topo.idid, env.fidDid) && IsInverse(env.topo.hpid, env.didDhps)
    && IsInverse(env.topo.bp, env.invBp) && env.full == Symmetrize(env.topo.bp, env.invBp)
  }

  /** A crossover tuple: the fit-ids, then `co_index` and the type. */
  datatype CoTuple = CoTuple(ids: seq<FitId>, coIndex: int, typ: string)

  /** The number of entries of the Python tuple. */
  function Size(t: CoTuple): nat {
    |t.ids| + 2
  }

  /** A nick `(id1, id2, partner of id1, partner of id2)`. */
  datatype Nick = Nick(id1: FitId, id2: FitId, partner1: FitId, partner2: FitId)

  function NickIds(n: Nick): seq<FitId> {
    [n.id1, n.id2, n.partner1, n.partner2]
  }

  // ----- partners -----

  /** `dict_bpFULL` holds every base pair both ways when `dict_bp` pairs each scaffold fit-id with
      its own staple fit-id. */
  lemma FullBothWays(bp: map<FitId, FitId>, inv: map<FitId, FitId>, k: FitId)
    requires Injective(bp) && bp.Keys !! bp.Values && IsInverse(bp, inv) && k in bp
    ensures var full := Symmetrize(bp, inv);
      k in full && bp[k] in full && full[k] == bp[k] && full[bp[k]] == k
  {
    SymmetrizeInvolution(bp, inv, k);
    InverseOfInjective(bp, inv, k);
  }

  // ----- double- and single-stranded fit-ids -----

  /** The loop over `dict_bp` (segmentation.py:131-133): every fit-id that takes part in a base pair.
      The single-stranded fit-ids are the values of `dict_idid` not among them. */
  method DoubleStranded(bp: map<FitId, FitId>) returns (ds: set<FitId>)
    ensures ds == bp.Keys + bp.Values
  {
    ds := {};
    var todo := bp.Keys;
    while todo != {}
      invariant todo <= bp.Keys
      invariant ds <= bp.Keys + bp.Values
      invariant forall k :: k in bp && k !in todo ==> k in ds && bp[k] in ds
      decreases todo
    {
      assert (forall y :: y !in todo) ==> todo == {};
      var k :| k in todo;
      ds := ds + {k, bp[k]};
      todo := todo - {k};
    }
    forall x | x in bp.Keys + bp.Values ensures x in ds {
      if x !in bp {
        var k := KeyFor(bp, x);
      }
    }
  }

  /** `id_ss` is exactly the fit-ids of `dict_idid` that pair with nothing. */
  lemma SingleStrandedExact(topo: Topology, ds: set<FitId>, x: FitId)
    requires ds == topo.bp.Keys + topo.bp.Values
    ensures x in topo.idid.Values - ds <==> x in topo.idid.Values && x !in topo.bp && x !in topo.bp.Values
  {
  }

  // ----- the fit-ids around a fit-id -----

  /** `range(-plus, plus)` has this many elements. */
  function Span(plus: int): nat {
    if plus > 0 then 2 * plus else 0
  }

  /** The fit-id at a lattice address, if the address has a base and the base a residue. */
  function Found(env: Env, x: Address): (r: seq<FitId>)
    ensures |r| <= 1
  {
    if x in env.topo.hpid && env.topo.hpid[x] in env.topo.idid then [env.topo.idid[env.topo.hpid[x]]] else []
  }

  /** The fit-ids found at positions `a.p + lo .. a.p + hi - 1` of `a`'s helix and strand type, in
      order; positions without a base or residue are passed over (the `except KeyError`). */
  function Window(env: Env, a: Address, lo: int, hi: int): (r: seq<FitId>)
    ensures |r| <= if hi > lo then hi - lo else 0
    decreases hi - lo
  {
    if hi <= lo then [] else Window(env, a, lo, hi - 1) + Found(env, Address(a.h, a.p + hi - 1, a.isScaf))
  }

  /** The window holds exactly the fit-ids of existing positions in range, same helix and strand type. */
  lemma {:induction false} WindowExact(env: Env, a: Address, lo: int, hi: int, y: FitId)
    ensures y in Window(env, a, lo, hi) <==>
      exists q :: a.p + lo <= q < a.p + hi && Found(env, Address(a.h, q, a.isScaf)) == [y]
    decreases hi - lo
  {
    if hi > lo {
      WindowExact(env, a, lo, hi - 1, y);
      var last := Address(a.h, a.p + hi - 1, a.isScaf);
      if y in Found(env, last) {
        assert Found(env, last) == [y];
      }
    }
  }

  /** `h, p, is_scaf = dict_DidDhps[dict_FidDid[x]]`. */
  function Locate(env: Env, x: FitId): Result<Address> {
    if x in env.fidDid && env.fidDid[x] in env.didDhps then Ok(env.didDhps[env.fidDid[x]]) else Err(KeyError)
  }

  /** The windows of several fit-ids, one after the other; `KeyError` where a fit-id has no lattice
      address. */
  function Windows(env: Env, ids: seq<FitId>): (r: Result<seq<FitId>>)
    ensures r.Err? ==> r.error == KeyError
    ensures r.Ok? ==> |r.value| <= |ids| * Span(env.plus)
  {
    if ids == [] then Ok([])
    else
      var pre := Windows(env, ids[..|ids| - 1]);
      if pre.Err? then pre
      else
        match Locate(env, ids[|ids| - 1])
        case Err(e) => Err(e)
        case Ok(a) => Ok(pre.value + Window(env, a, -env.plus, env.plus))
  }

  /** The windows fail exactly when one of the fit-ids has no lattice address. */
  lemma {:induction false} WindowsErr(env: Env, ids: seq<FitId>)
    ensures Windows(env, ids).Err? <==> exists k :: 0 <= k < |ids| && Locate(env, ids[k]).Err?
  {
    if ids != [] {
      var pre := ids[..|ids| - 1];
      WindowsErr(env, pre);
      if exists k :: 0 <= k < |pre| && Locate(env, pre[k]).Err? {
        var k :| 0 <= k < |pre| && Locate(env, pre[k]).Err?;
        assert ids[k] == pre[k];
      }
      if exists k :: 0 <= k < |ids| && Locate(env, ids[k]).Err? {
        var k :| 0 <= k < |ids| && Locate(env, ids[k]).Err?;
        if k < |pre| {
          assert pre[k] == ids[k];
        }
      }
    }
  }

  /** `for x in tup: ... for i in range(-plus, plus): try: tup_plus.append(...)`
      (segmentation.py:166-177 and 194-203): the fit-ids around each fit-id in turn. */
  method WindowsOf(env: Env, ids: seq<FitId>) returns (r: Result<seq<FitId>>)
    ensures r == Windows(env, ids)
  {
    var acc: seq<FitId> := [];
    for k := 0 to |ids|
      invariant Windows(env, ids[..k]) == Ok(acc)
    {
      assert ids[..k + 1][..k] == ids[..k];
      var a := Locate(env, ids[k]);
      if a.Err? {
        WindowsErr(env, ids);
        return Err(KeyError);
      }
      acc := AppendWindow(env, a.value, acc);
    }
    assert ids[..|ids|] == ids;
    r := Ok(acc);
  }

  /** The inner loop over `range(-plus, plus)`: the fit-ids around `a` appended to `acc`. */
  method AppendWindow(env: Env, a: Address, acc: seq<FitId>) returns (r: seq<FitId>)
    ensures r == acc + Window(env, a, -env.plus, env.plus)
  {
    r := acc;
    var i := -env.plus;
    while i < env.plus
      invariant -env.plus <= i && (i <= env.plus || i == -env.plus)
      invariant r == acc + Window(env, a, -env.plus, i)
      decreases env.plus - i
    {
      var x := Address(a.h, a.p + i, a.isScaf);
      if x in env.topo.hpid && env.topo.hpid[x] in env.topo.idid {
        r := r + [env.topo.idid[env.topo.hpid[x]]];
      }
      i := i + 1;
    }
  }

  // ----- crossovers -----

  /** The tuple `_categorise_lists` builds for a crossover base it has not seen yet
      (segmentation.py:145-164): the base, the co partner and, for a double crossover, `dou` and its
      partner, each followed by its base-pair partner; `KeyError` for a missing partner or record
      and `IndexError` for a double crossover without `type[1]`. */
  function Group(env: Env, b: FitId): Result<CoTuple> {
    var full := env.full;
    if b !in env.topo.coid then Err(KeyError)
    else
      var e := env.topo.coid[b];
      if e.co !in full || b !in full then Err(KeyError)
      else if e.typ != "double" then Ok(CoTuple([b, full[b], e.co, full[e.co]], e.coIndex, e.typ))
      else if e.dou.None? then Err(IndexError)
      else if e.dou.value !in env.topo.coid then Err(KeyError)
      else
        var dou := e.dou.value;
        var douCo := env.topo.coid[dou].co;
        if douCo !in full || dou !in full then Err(KeyError)
        else Ok(CoTuple([b, full[b], e.co, full[e.co], dou, full[dou], douCo, full[douCo]], e.coIndex, e.typ))
  }

  /** The fit-ids a tuple marks as done: the base and its co partner, and `dou` and its co partner
      for a double crossover. */
  function Marks(t: CoTuple): set<FitId> {
    if |t.ids| >= 8 then {t.ids[0], t.ids[2], t.ids[4], t.ids[6]}
    else if |t.ids| >= 4 then {t.ids[0], t.ids[2]}
    else {}
  }

  /** A crossover tuple has 10 entries for a double crossover and 6 otherwise, the last two being
      `co_index` and the type of the base's record; the base and its partners are all marked. */
  lemma GroupShape(env: Env, b: FitId)
    requires Group(env, b).Ok?
    ensures var t := Group(env, b).value; var e := env.topo.coid[b];
      Size(t) == (if e.typ == "double" then 10 else 6) && t.coIndex == e.coIndex && t.typ == e.typ
      && t.ids[0] == b && t.ids[2] == e.co && t.ids[1] == env.full[b] && t.ids[3] == env.full[e.co]
      && b in Marks(t) && e.co in Marks(t)
      && (e.typ == "double" ==>
            e.dou.Some? && e.dou.value in env.topo.coid
            && t.ids[4] == e.dou.value && t.ids[6] == env.topo.coid[e.dou.value].co
            && Marks(t) == {b, e.co, e.dou.value, env.topo.coid[e.dou.value].co})
      && (e.typ != "double" ==> Marks(t) == {b, e.co})
  {
  }

  /** `tuple(tup_plus)`: the windows of the tuple's fit-ids, then `co_index` and the type. */
  function PlusOf(env: Env, t: CoTuple): Result<CoTuple> {
    match Windows(env, t.ids)
    case Err(e) => Err(e)
    case Ok(w) => Ok(CoTuple(w, t.coIndex, t.typ))
  }

  /** The extended tuple carries the same two tags and at most `2 * plus` fit-ids per fit-id of the
      tuple. */
  lemma PlusShape(env: Env, t: CoTuple)
    requires PlusOf(env, t).Ok?
    ensures var p := PlusOf(env, t).value;
      p.coIndex == t.coIndex && p.typ == t.typ && |p.ids| <= |t.ids| * Span(env.plus)
  {
  }

  /** The ids marked by the first `n` tuples. */
  function UnionMarks(order: seq<CoTuple>): set<FitId> {
    if order == [] then {} else UnionMarks(order[..|order| - 1]) + Marks(order[|order| - 1])
  }

  lemma {:induction false} UnionMarksMember(order: seq<CoTuple>, x: FitId)
    ensures x in UnionMarks(order) <==> exists i :: 0 <= i < |order| && x in Marks(order[i])
  {
    if order != [] {
      var pre := order[..|order| - 1];
      UnionMarksMember(pre, x);
      if exists i :: 0 <= i < |pre| && x in Marks(pre[i]) {
        var i :| 0 <= i < |pre| && x in Marks(pre[i]);
        assert order[i] == pre[i];
      }
      if exists i :: 0 <= i < |order| && x in Marks(order[i]) {
        var i :| 0 <= i < |order| && x in Marks(order[i]);
        if i < |pre| {
          assert pre[i] == order[i];
        }
      }
    }
  }

  /** The crossovers taken so far, in the order taken: the base each started from, its tuple and its
      extended tuple; no base marked by an earlier crossover starts a later one. */
  ghost predicate CoLog(env: Env, init: set<FitId>, starts: seq<FitId>, order: seq<CoTuple>, plusOrder: seq<CoTuple>) {
    |starts| == |order| == |plusOrder|
    && (forall i :: 0 <= i < |order| ==>
          starts[i] in init && Group(env, starts[i]) == Ok(order[i]) && PlusOf(env, order[i]) == Ok(plusOrder[i]))
    && (forall i, j :: 0 <= i < j < |order| ==> starts[j] !in Marks(order[i]))
  }

  /** What the crossover loop leaves: every base of `id_co_init` is marked by some crossover, and
      `id_co` and `id_coplus` hold the tuples taken. */
  ghost predicate Crossed(env: Env, init: set<FitId>, idCo: set<CoTuple>, idCoPlus: set<CoTuple>,
                    starts: seq<FitId>, order: seq<CoTuple>, plusOrder: seq<CoTuple>) {
    CoLog(env, init, starts, order, plusOrder)
    && (forall b :: b in init ==> b in UnionMarks(order))
    && (forall t :: t in idCo <==> t in order)
    && (forall t :: t in idCoPlus <==> t in plusOrder)
  }

  /** A crossover base whose tuple or extended tuple cannot be built. */
  predicate Failing(env: Env, b: FitId) {
    Group(env, b).Err? || PlusOf(env, Group(env, b).value).Err?
  }

  /** The crossover loop (segmentation.py:139-181) over `id_co_init` in an arbitrary order. */
  method Crossovers(env: Env, init: set<FitId>)
    returns (r: Result<(set<CoTuple>, set<CoTuple>)>, ghost starts: seq<FitId>, ghost order: seq<CoTuple>,
             ghost plusOrder: seq<CoTuple>)
    ensures r.Ok? ==> Crossed(env, init, r.value.0, r.value.1, starts, order, plusOrder)
    ensures r.Err? ==> (r.error == KeyError || r.error == IndexError) && exists b :: b in init && Failing(env, b)
  {
    var idCo: set<CoTuple> := {};
    var idCoPlus: set<CoTuple> := {};
    var done: set<FitId> := {};
    var todo := init;
    starts, order, plusOrder := [], [], [];
    while todo != {}
      invariant todo <= init
      invariant CoLog(env, init, starts, order, plusOrder)
      invariant done == UnionMarks(order)
      invariant forall b :: b in init && b !in todo ==> b in done
      invariant forall t :: t in idCo <==> t in order
      invariant forall t :: t in idCoPlus <==> t in plusOrder
      decreases todo
    {
      assert (forall y :: y !in todo) ==> todo == {};
      var base :| base in todo;
      todo := todo - {base};
      if base !in done {
        var tup := Group(env, base);
        if tup.Err? {
          assert Failing(env, base);
          return Err(tup.error), starts, order, plusOrder;
        }
        GroupShape(env, base);
        var tupPlus := WindowsOf(env, tup.value.ids);
        if tupPlus.Err? {
          assert Failing(env, base);
          return Err(tupPlus.error), starts, order, plusOrder;
        }
        var t := tup.value;
        var p := CoTuple(tupPlus.value, t.coIndex, t.typ);
        forall i | 0 <= i < |order| ensures base !in Marks(order[i]) {
          UnionMarksMember(order, base);
        }
        done := done + Marks(t);
        idCo := idCo + {t};
        idCoPlus := idCoPlus + {p};
        ghost var prev := order;
        starts, order, plusOrder := starts + [base], order + [t], plusOrder + [p];
        assert order[..|order| - 1] == prev;
      }
    }
    r := Ok((idCo, idCoPlus));
  }

  // ----- nicks -----

  /** The nicks taken so far, in the order taken: each is a nick of `dict_nicks` with both partners,
      and no fit-id seen as an end of an earlier nick starts a later one. */
  ghost predicate NickLog(env: Env, order: seq<Nick>) {
    (forall i :: 0 <= i < |order| ==>
       order[i].id1 in env.topo.nicks && order[i].id2 == env.topo.nicks[order[i].id1]
       && order[i].id1 in env.full && order[i].id2 in env.full
       && order[i].partner1 == env.full[order[i].id1] && order[i].partner2 == env.full[order[i].id2])
    && (forall i, j :: 0 <= i < j < |order| ==> order[j].id1 != order[i].id1 && order[j].id1 != order[i].id2)
  }

  /** What the nick loop leaves: every start of a nick is an end of some nick taken, and `id_nick`
      holds the nicks taken. */
  ghost predicate Nicked(env: Env, idNick: set<Nick>, order: seq<Nick>) {
    NickLog(env, order)
    && (forall k :: k in env.topo.nicks ==> exists i :: 0 <= i < |order| && (k == order[i].id1 || k == order[i].id2))
    && (forall n :: n in idNick <==> n in order)
  }

  /** The nick loop (segmentation.py:183-190) over `dict_nicks` in an arbitrary order. */
  method Nicks(env: Env) returns (r: Result<set<Nick>>, ghost order: seq<Nick>)
    ensures r.Ok? ==> Nicked(env, r.value, order)
    ensures r.Err? ==>
              r.error == KeyError && exists k :: k in env.topo.nicks && (k !in env.full || env.topo.nicks[k] !in env.full)
  {
    var nicks := env.topo.nicks;
    var done: set<FitId> := {};
    var idNick: set<Nick> := {};
    var todo := nicks.Keys;
    order := [];
    while todo != {}
      invariant todo <= nicks.Keys
      invariant NickLog(env, order)
      invariant forall k :: k in done <==> exists i :: 0 <= i < |order| && (k == order[i].id1 || k == order[i].id2)
      invariant forall k :: k in nicks && k !in todo ==> k in done
      invariant forall n :: n in idNick <==> n in order
      decreases todo
    {
      assert (forall y :: y !in todo) ==> todo == {};
      var id1 :| id1 in todo;
      todo := todo - {id1};
      var id2 := nicks[id1];
      if id1 !in done {
        done := done + {id1, id2};
        if id1 !in env.full || id2 !in env.full {
          return Err(KeyError), order;
        }
        var n := Nick(id1, id2, env.full[id1], env.full[id2]);
        idNick := idNick + {n};
        ghost var prev := order;
        order := order + [n];
        forall k | k in done ensures exists i :: 0 <= i < |order| && (k == order[i].id1 || k == order[i].id2) {
          if k != id1 && k != id2 {
            var i :| 0 <= i < |prev| && (k == prev[i].id1 || k == prev[i].id2);
            assert order[i] == prev[i];
          } else {
            assert order[|prev|] == n;
          }
        }
      }
    }
    r := Ok(idNick);
  }

  /** The windows of the nicks, in the order taken: one list per nick, fit-ids only. */
  ghost predicate NickWindowed(env: Env, idNick: set<Nick>, plus: seq<seq<FitId>>, order: seq<Nick>) {
    |plus| == |order| && NoDup(order)
    && (forall n :: n in idNick <==> n in order)
    && forall i :: 0 <= i < |order| ==> Windows(env, NickIds(order[i])) == Ok(plus[i])
  }

  /** The loop over `id_nick` (segmentation.py:192-204) in an arbitrary order. */
  method NickWindows(env: Env, idNick: set<Nick>) returns (r: Result<seq<seq<FitId>>>, ghost order: seq<Nick>)
    ensures r.Ok? ==> NickWindowed(env, idNick, r.value, order)
    ensures r.Err? ==> r.error == KeyError && exists n :: n in idNick && Windows(env, NickIds(n)).Err?
  {
    var plus: seq<seq<FitId>> := [];
    var todo := idNick;
    order := [];
    while todo != {}
      invariant todo <= idNick
      invariant |plus| == |order| && NoDup(order)
      invariant forall n :: n in idNick <==> n in order || n in todo
      invariant forall n :: n in todo ==> n !in order
      invariant forall i :: 0 <= i < |order| ==> Windows(env, NickIds(order[i])) == Ok(plus[i])
      decreases todo
    {
      assert (forall y :: y !in todo) ==> todo == {};
      var nick :| nick in todo;
      todo := todo - {nick};
      var tupPlus := WindowsOf(env, NickIds(nick));
      if tupPlus.Err? {
        return Err(KeyError), order;
      }
      plus := plus + [tupPlus.value];
      order := order + [nick];
    }
    r := Ok(plus);
  }

  /** Each nick's list has at most `2 * plus` fit-ids for each of its four fit-ids. */
  lemma NickWindowBound(env: Env, idNick: set<Nick>, plus: seq<seq<FitId>>, order: seq<Nick>, i: nat)
    requires NickWindowed(env, idNick, plus, order) && i < |plus|
    ensures |plus[i]| <= 4 * Span(env.plus)
  {
    assert |NickIds(order[i])| == 4;
  }

  // ----- the whole -----

  /** The four results of `_categorise_lists`. */
  datatype Categories = Categories(
    idCo: set<CoTuple>,
    idCoPlus: set<CoTuple>,
    idNick: set<Nick>,
    idNickPlus: seq<seq<FitId>>)

  /** The orders the loops took their elements in. */
  datatype Orders = Orders(starts: seq<FitId>, co: seq<CoTuple>, coPlus: seq<CoTuple>, nicks: seq<Nick>, nickPlus: seq<Nick>)

  /** The crossover bases `_categorise_lists` starts from: those of `dict_coid` that are not
      single-stranded. */
  function CoInit(topo: Topology, ss: set<FitId>): (init: set<FitId>)
    ensures forall b :: b in init <==> b in topo.coid && b !in ss
  {
    set b | b in topo.coid && b !in ss
  }

  /** `_categorise_lists` (segmentation.py:122-205). */
  method CategoriseLists(topo: Topology, plus: int)
    returns (r: Result<Categories>, ghost env: Env, ghost ss: set<FitId>, ghost orders: Orders)
    ensures env.topo == topo && env.plus == plus && Prepared(env)
    ensures forall x :: x in ss <==> x in topo.idid.Values && x !in topo.bp && x !in topo.bp.Values
    ensures r.Ok? ==>
      Crossed(env, CoInit(topo, ss), r.value.idCo, r.value.idCoPlus, orders.starts, orders.co, orders.coPlus)
      && Nicked(env, r.value.idNick, orders.nicks)
      && NickWindowed(env, r.value.idNick, r.value.idNickPlus, orders.nickPlus)
    ensures r.Err? ==> r.error == KeyError || r.error == IndexError
  {
    var fidDid := Invert(topo.idid);
    var didDhps := Invert(topo.hpid);
    var invBp := Invert(topo.bp);
    var full := Symmetrize(topo.bp, invBp);
    var e := Env(topo, plus, fidDid, didDhps, invBp, full);
    env := e;
    var ds := DoubleStranded(topo.bp);
    var idSs := topo.idid.Values - ds;
    ss := idSs;
    forall x ensures x in ss <==> x in topo.idid.Values && x !in topo.bp && x !in topo.bp.Values {
      SingleStrandedExact(topo, ds, x);
    }
    var init := CoInit(topo, idSs);
    orders := Orders([], [], [], [], []);
    var co, starts, coOrder, plusOrder := Crossovers(e, init);
    if co.Err? {
      return Err(co.error), env, ss, orders;
    }
    var idNick, nickOrder := Nicks(e);
    if idNick.Err? {
      return Err(idNick.error), env, ss, orders;
    }
    var idNickPlus, nickPlusOrder := NickWindows(e, idNick.value);
    if idNickPlus.Err? {
      return Err(idNickPlus.error), env, ss, orders;
    }
    orders := Orders(starts, coOrder, plusOrder, nickOrder, nickPlusOrder);
    r := Ok(Categories(co.value.0, co.value.1, idNick.value, idNickPlus.value));
  }

  /** Every crossover base is taken into exactly one tuple: distinct tuples start from distinct
      bases, and every base of `id_co_init` is marked by a tuple. */
  lemma CrossoverOnce(env: Env, init: set<FitId>, starts: seq<FitId>, order: seq<CoTuple>, plusOrder: seq<CoTuple>, i: nat, j: nat)
    requires CoLog(env, init, starts, order, plusOrder) && i < j < |order|
    ensures starts[i] != starts[j] && order[i] != order[j]
  {
    GroupShape(env, starts[i]);
    GroupShape(env, starts[j]);
  }

  /** The starts of the crossovers taken exclude every single-stranded fit-id. */
  lemma CrossoverStartsDouble(topo: Topology, ss: set<FitId>, env: Env, starts: seq<FitId>,
                              order: seq<CoTuple>, plusOrder: seq<CoTuple>, i: nat)
    requires CoLog(env, CoInit(topo, ss), starts, order, plusOrder) && i < |starts|
    ensures starts[i] !in ss && starts[i] in topo.coid
  {
  }
}
