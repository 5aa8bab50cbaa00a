/** Unification variables as an index-addressed union-find arena (src/tp/uvar.rs), together with
    `Type::view` (src/tp/mod.rs), which needs the arena to see through resolved variables. */
module UVars {
  import opened Wrappers
  import opened TVars
  import opened Types

  /** The first id handed out by `UVar::new`: the counter starts at 64 and is bumped before use. */
  const FIRST_UVAR_ID: nat := 65

  /** A node of the arena; `Link(next)` points at another node of the same class. */
  datatype UVarData = Unresolved(id: nat) | Link(next: nat) | Resolved(tp: Type)

  /** Proof bookkeeping carried next to the nodes (never read by the compiled code):
      - `rank` grows strictly along every link, so following links terminates;
      - `numeric` records whether a node was created for a `NumericUVar`;
      - `steps`/`ends` measure how many resolved classes `view` may pass through
        from a resolved root (see `ChainAt`). */
  datatype Ghosts = Ghosts(rank: seq<nat>, maxRank: nat, numeric: seq<bool>, steps: seq<nat>, ends: seq<Option<nat>>)

  ghost predicate LinksOk(ns: seq<UVarData>, g: Ghosts)
  {
    && |g.rank| == |ns| && |g.numeric| == |ns| && |g.steps| == |ns| && |g.ends| == |ns|
    && (forall i :: 0 <= i < |ns| ==> g.rank[i] <= g.maxRank)
    && (forall i :: 0 <= i < |ns| && ns[i].Link? ==>
          ns[i].next < |ns| && g.rank[i] < g.rank[ns[i].next] && g.numeric[i] == g.numeric[ns[i].next])
  }

  /** The representative of node `i`: the end of its link chain. */
  function Root(ns: seq<UVarData>, ghost g: Ghosts, i: nat): (r: nat)
    requires LinksOk(ns, g) && i < |ns|
    ensures r < |ns| && !ns[r].Link?
    ensures g.numeric[r] == g.numeric[i]
    ensures ns[i].Link? ==> g.rank[r] > g.rank[i]
    ensures !ns[i].Link? ==> r == i
    decreases g.maxRank - g.rank[i]
  {
    if ns[i].Link? then Root(ns, g, ns[i].next) else i
  }

  /** The root depends only on the links, not on the rank witness. */
  lemma {:induction false} RootIndependent(ns: seq<UVarData>, g1: Ghosts, g2: Ghosts, i: nat)
    requires LinksOk(ns, g1) && LinksOk(ns, g2) && i < |ns|
    ensures Root(ns, g1, i) == Root(ns, g2, i)
    decreases g1.maxRank - g1.rank[i]
  {
    if ns[i].Link? {
      RootIndependent(ns, g1, g2, ns[i].next);
    }
  }

  /** Every unification variable mentioned by `t` is a node of the arena, wrapped in the
      constructor that created it (`UVar` for plain nodes, `NumericUVar` for numeric ones). */
  ghost predicate Wf(t: Type, num: seq<bool>)
  {
    match t
    case UVar(x) => x < |num| && !num[x]
    case NumericUVar(x) => x < |num| && num[x]
    case Tuple(items) => forall k :: 0 <= k < |items| ==> Wf(items[k], num)
    case Array(_, e) => Wf(e, num)
    case Fun(args, ret) => (forall k :: 0 <= k < |args| ==> Wf(args[k], num)) && Wf(ret, num)
    case Ptr(p) => Wf(p, num)
    case MutPtr(p) => Wf(p, num)
    case TypeApp(_, _, args) => forall k :: 0 <= k < |args| ==> Wf(args[k], num)
    case _ => true
  }

  lemma {:induction false} WfExtend(t: Type, num: seq<bool>, more: seq<bool>)
    requires Wf(t, num)
    ensures Wf(t, num + more)
  {
    match t
    case Tuple(items) =>
      forall k | 0 <= k < |items| ensures Wf(items[k], num + more) { WfExtend(items[k], num, more); }
    case Array(_, e) => WfExtend(e, num, more);
    case Fun(args, ret) =>
      forall k | 0 <= k < |args| ensures Wf(args[k], num + more) { WfExtend(args[k], num, more); }
      WfExtend(ret, num, more);
    case Ptr(p) => WfExtend(p, num, more);
    case MutPtr(p) => WfExtend(p, num, more);
    case TypeApp(_, _, args) =>
      forall k | 0 <= k < |args| ensures Wf(args[k], num + more) { WfExtend(args[k], num, more); }
    case _ =>
  }

  function TopNode(t: Type): Option<nat>
  {
    match t
    case UVar(x) => Some(x)
    case NumericUVar(x) => Some(x)
    case _ => None
  }

  ghost predicate ChainShaped(ns: seq<UVarData>, g: Ghosts)
  {
    && LinksOk(ns, g)
    && (forall q :: 0 <= q < |ns| && g.ends[q].Some? ==> g.ends[q].value < |ns| && g.numeric[g.ends[q].value])
  }

  /** The open numeric class that the view chain from `q` currently stops at, if any. */
  ghost function OpenEnd(ns: seq<UVarData>, g: Ghosts, q: nat): Option<nat>
    requires ChainShaped(ns, g) && q < |ns|
  {
    match g.ends[q]
    case None => None
    case Some(y) => var m := Root(ns, g, y); if ns[m].Resolved? then None else Some(m)
  }

  /** How many resolved classes `view` passes through after reaching root `q`. */
  ghost function GDepth(ns: seq<UVarData>, g: Ghosts, q: nat): nat
    requires ChainShaped(ns, g) && q < |ns|
  {
    g.steps[q] + match g.ends[q]
      case None => 0
      case Some(y) => var m := Root(ns, g, y); if ns[m].Resolved? then g.steps[m] else 0
  }

  /** How many resolved classes `view` passes through from `t`. */
  ghost function TDepth(ns: seq<UVarData>, g: Ghosts, t: Type): nat
    requires ChainShaped(ns, g) && Wf(t, g.numeric)
  {
    match TopNode(t)
    case None => 0
    case Some(x) => var r := Root(ns, g, x); if ns[r].Resolved? then 1 + GDepth(ns, g, r) else 0
  }

  /** The chain measure of a resolved root agrees with the type stored in it. */
  ghost predicate ChainAt(ns: seq<UVarData>, g: Ghosts, r: nat)
    requires ChainShaped(ns, g) && r < |ns| && ns[r].Resolved? && Wf(ns[r].tp, g.numeric)
  {
    match TopNode(ns[r].tp)
    case None => GDepth(ns, g, r) == 0 && OpenEnd(ns, g, r) == None
    case Some(x) =>
      var rx := Root(ns, g, x);
      if ns[rx].Resolved? then GDepth(ns, g, r) == 1 + GDepth(ns, g, rx) && OpenEnd(ns, g, r) == OpenEnd(ns, g, rx)
      else GDepth(ns, g, r) == 1 && OpenEnd(ns, g, r) == Some(rx)
  }

  ghost predicate ValidState(ns: seq<UVarData>, g: Ghosts)
  {
    && ChainShaped(ns, g)
    && (forall i :: 0 <= i < |ns| && ns[i].Unresolved? ==> ns[i].id == FIRST_UVAR_ID + i)
    && (forall i :: 0 <= i < |ns| && ns[i].Resolved? ==> Wf(ns[i].tp, g.numeric))
    && (forall i :: 0 <= i < |ns| && ns[i].Resolved? && g.numeric[i] ==> g.ends[i] == None)
    && (forall i :: 0 <= i < |ns| && ns[i].Resolved? ==> ChainAt(ns, g, i))
  }

  lemma ChainStep(ns: seq<UVarData>, g: Ghosts, r: nat)
    requires ValidState(ns, g) && r < |ns| && ns[r].Resolved?
    ensures TDepth(ns, g, ns[r].tp) < 1 + GDepth(ns, g, r)
  {
    assert ChainAt(ns, g, r);
  }

  /** `Type::view`: a unification variable whose class is resolved shows the view of the type
      it was resolved to; anything else is returned as it is, wrapper included. */
  function ViewIn(ns: seq<UVarData>, ghost g: Ghosts, t: Type): (v: Type)
    requires ValidState(ns, g) && Wf(t, g.numeric)
    ensures Wf(v, g.numeric)
    ensures TopNode(v).Some? ==> !ns[Root(ns, g, TopNode(v).value)].Resolved?
    ensures TopNode(t).None? ==> v == t
    ensures TopNode(t).Some? && !ns[Root(ns, g, TopNode(t).value)].Resolved? ==> v == t
    decreases TDepth(ns, g, t)
  {
    match t
    case UVar(x) =>
      var r := Root(ns, g, x);
      if ns[r].Resolved? then ChainStep(ns, g, r); ViewIn(ns, g, ns[r].tp) else t
    case NumericUVar(x) =>
      var r := Root(ns, g, x);
      if ns[r].Resolved? then ChainStep(ns, g, r); ViewIn(ns, g, ns[r].tp) else t
    case _ => t
  }

  /** Two states hold the same classes: every node has the same root, and no root changed. */
  ghost predicate SameClasses(ns1: seq<UVarData>, ns2: seq<UVarData>, g: Ghosts)
  {
    && LinksOk(ns1, g) && LinksOk(ns2, g) && |ns1| == |ns2|
    && (forall k :: 0 <= k < |ns1| ==> Root(ns2, g, k) == Root(ns1, g, k))
    && (forall k :: 0 <= k < |ns1| && !ns1[k].Link? ==> ns2[k] == ns1[k])
  }

  lemma SameClassesRefl(ns: seq<UVarData>, g: Ghosts)
    requires LinksOk(ns, g)
    ensures SameClasses(ns, ns, g)
  {
  }

  lemma SameClassesTrans(ns1: seq<UVarData>, ns2: seq<UVarData>, ns3: seq<UVarData>, g: Ghosts)
    requires SameClasses(ns1, ns2, g) && SameClasses(ns2, ns3, g)
    ensures SameClasses(ns1, ns3, g)
  {
    forall k | 0 <= k < |ns1| && !ns1[k].Link?
      ensures ns3[k] == ns1[k]
    {
      assert Root(ns1, g, k) == k;
      assert !ns2[k].Link?;
    }
  }

  /** Pointing a linked node straight at its root keeps every class (path compression). */
  lemma {:induction false} RelinkRoots(ns: seq<UVarData>, g: Ghosts, i: nat, k: nat)
    requires LinksOk(ns, g) && i < |ns| && ns[i].Link? && k < |ns|
    ensures LinksOk(ns[i := Link(Root(ns, g, i))], g)
    ensures Root(ns[i := Link(Root(ns, g, i))], g, k) == Root(ns, g, k)
    decreases g.maxRank - g.rank[k]
  {
    var ns' := ns[i := Link(Root(ns, g, i))];
    assert LinksOk(ns', g);
    if k == i {
      assert Root(ns', g, Root(ns, g, i)) == Root(ns, g, i);
    } else if ns[k].Link? {
      RelinkRoots(ns, g, i, ns[k].next);
    }
  }

  lemma RelinkSameClasses(ns: seq<UVarData>, g: Ghosts, i: nat)
    requires LinksOk(ns, g) && i < |ns| && ns[i].Link?
    ensures SameClasses(ns, ns[i := Link(Root(ns, g, i))], g)
  {
    forall k | 0 <= k < |ns|
      ensures Root(ns[i := Link(Root(ns, g, i))], g, k) == Root(ns, g, k)
    {
      RelinkRoots(ns, g, i, k);
    }
    RelinkRoots(ns, g, i, i);
  }

  lemma SameClassesChain(ns1: seq<UVarData>, ns2: seq<UVarData>, g: Ghosts)
    requires SameClasses(ns1, ns2, g) && ChainShaped(ns1, g)
    ensures ChainShaped(ns2, g)
    ensures forall q :: 0 <= q < |ns1| ==> GDepth(ns2, g, q) == GDepth(ns1, g, q) && OpenEnd(ns2, g, q) == OpenEnd(ns1, g, q)
    ensures forall t :: Wf(t, g.numeric) ==> TDepth(ns2, g, t) == TDepth(ns1, g, t)
  {
    forall q | 0 <= q < |ns1|
      ensures GDepth(ns2, g, q) == GDepth(ns1, g, q) && OpenEnd(ns2, g, q) == OpenEnd(ns1, g, q)
    {
      if g.ends[q].Some? {
        var m := Root(ns1, g, g.ends[q].value);
        assert !ns1[m].Link?;
      }
    }
    forall t | Wf(t, g.numeric)
      ensures TDepth(ns2, g, t) == TDepth(ns1, g, t)
    {
      if TopNode(t).Some? {
        var r := Root(ns1, g, TopNode(t).value);
        assert !ns1[r].Link?;
      }
    }
  }

  lemma SameClassesValid(ns1: seq<UVarData>, ns2: seq<UVarData>, g: Ghosts)
    requires SameClasses(ns1, ns2, g) && ValidState(ns1, g)
    ensures ValidState(ns2, g)
  {
    SameClassesChain(ns1, ns2, g);
    forall i | 0 <= i < |ns2| && !ns2[i].Link?
      ensures ns1[i] == ns2[i]
    {
      assert Root(ns2, g, i) == i;
    }
    forall i | 0 <= i < |ns2| && ns2[i].Resolved?
      ensures ChainAt(ns2, g, i)
    {
      assert ChainAt(ns1, g, i);
      if TopNode(ns1[i].tp).Some? {
        var rx := Root(ns1, g, TopNode(ns1[i].tp).value);
        assert !ns1[rx].Link?;
      }
    }
  }

  lemma {:induction false} SameClassesView(ns1: seq<UVarData>, ns2: seq<UVarData>, g: Ghosts, t: Type)
    requires SameClasses(ns1, ns2, g) && ValidState(ns1, g) && Wf(t, g.numeric)
    ensures ValidState(ns2, g)
    ensures ViewIn(ns2, g, t) == ViewIn(ns1, g, t)
    decreases TDepth(ns1, g, t)
  {
    SameClassesValid(ns1, ns2, g);
    if TopNode(t).Some? {
      var r := Root(ns1, g, TopNode(t).value);
      assert !ns1[r].Link?;
      if ns1[r].Resolved? {
        ChainStep(ns1, g, r);
        SameClassesView(ns1, ns2, g, ns1[r].tp);
      }
    }
  }

  /** Along a chain that stops at an open class, `view` shows that class's numeric variable. */
  lemma {:induction false} OpenEndView(ns: seq<UVarData>, g: Ghosts, q: nat)
    requires ValidState(ns, g) && q < |ns| && ns[q].Resolved? && OpenEnd(ns, g, q).Some?
    ensures ViewIn(ns, g, ns[q].tp).NumericUVar?
    ensures Root(ns, g, ViewIn(ns, g, ns[q].tp).node) == OpenEnd(ns, g, q).value
    decreases GDepth(ns, g, q)
  {
    assert ChainAt(ns, g, q);
    var x := TopNode(ns[q].tp).value;
    var rx := Root(ns, g, x);
    if ns[rx].Resolved? {
      OpenEndView(ns, g, rx);
    } else {
      var y := g.ends[q].value;
      assert g.numeric[y] && Root(ns, g, y) == rx;
    }
  }

  /** Two node sequences with the same links have the same roots. */
  lemma {:induction false} RootSameLinks(ns1: seq<UVarData>, g1: Ghosts, ns2: seq<UVarData>, g2: Ghosts, i: nat)
    requires LinksOk(ns1, g1) && LinksOk(ns2, g2) && |ns1| == |ns2| && i < |ns1|
    requires forall k :: 0 <= k < |ns1| ==> (ns1[k].Link? <==> ns2[k].Link?)
    requires forall k :: 0 <= k < |ns1| && ns1[k].Link? ==> ns1[k].next == ns2[k].next
    ensures Root(ns2, g2, i) == Root(ns1, g1, i)
    decreases g1.maxRank - g1.rank[i]
  {
    if ns1[i].Link? {
      RootSameLinks(ns1, g1, ns2, g2, ns1[i].next);
    }
  }

  /** The chain bookkeeping given to a root when it is resolved to `t`. */
  ghost function NewChain(ns: seq<UVarData>, g: Ghosts, t: Type): (nat, Option<nat>)
    requires ValidState(ns, g) && Wf(t, g.numeric)
  {
    match TopNode(t)
    case None => (0, None)
    case Some(x) =>
      var rx := Root(ns, g, x);
      if ns[rx].Resolved? then (1 + GDepth(ns, g, rx), if OpenEnd(ns, g, rx).Some? then g.ends[rx] else None)
      else (1, Some(x))
  }

  /** What the callers of `resolve` guarantee: a numeric class is only resolved to a type that
      views as a type variable, any other class to a type that does not view as an open `UVar`. */
  ghost predicate ResolvableTo(ns: seq<UVarData>, g: Ghosts, r: nat, t: Type)
    requires ValidState(ns, g) && r < |ns| && Wf(t, g.numeric)
  {
    var v := ViewIn(ns, g, t);
    if g.numeric[r] then v.Var? || v.NamedVar? else !v.UVar?
  }

  ghost function ResolvedGhosts(ns: seq<UVarData>, g: Ghosts, r: nat, t: Type): (g': Ghosts)
    requires ValidState(ns, g) && r < |ns| && Wf(t, g.numeric)
  {
    var c := NewChain(ns, g, t);
    g.(steps := g.steps[r := c.0], ends := g.ends[r := c.1])
  }

  lemma ResolveLinks(ns: seq<UVarData>, g: Ghosts, r: nat, t: Type)
    requires ValidState(ns, g) && r < |ns| && ns[r].Unresolved? && Wf(t, g.numeric)
    ensures LinksOk(ns[r := Resolved(t)], ResolvedGhosts(ns, g, r, t))
    ensures forall k :: 0 <= k < |ns| ==> Root(ns[r := Resolved(t)], ResolvedGhosts(ns, g, r, t), k) == Root(ns, g, k)
  {
    var ns' := ns[r := Resolved(t)];
    var g' := ResolvedGhosts(ns, g, r, t);
    assert LinksOk(ns', g');
    forall k | 0 <= k < |ns| ensures Root(ns', g', k) == Root(ns, g, k) {
      RootSameLinks(ns, g, ns', g', k);
    }
  }

  /** What the guarantee of the caller tells about the new root's chain. */
  lemma NewChainFacts(ns: seq<UVarData>, g: Ghosts, r: nat, t: Type)
    requires ValidState(ns, g) && r < |ns| && ns[r].Unresolved? && Wf(t, g.numeric) && ResolvableTo(ns, g, r, t)
    ensures var c := NewChain(ns, g, t);
      && (g.numeric[r] ==> c.1 == None)
      && (c.1.Some? ==> c.1.value < |ns| && g.numeric[c.1.value])
    ensures TopNode(t).Some? ==> Root(ns, g, TopNode(t).value) != r
    ensures TopNode(t).Some? && ns[Root(ns, g, TopNode(t).value)].Resolved? ==>
      OpenEnd(ns, g, Root(ns, g, TopNode(t).value)) != Some(r)
  {
    var v := ViewIn(ns, g, t);
    if TopNode(t).Some? {
      var x := TopNode(t).value;
      var rx := Root(ns, g, x);
      if ns[rx].Resolved? {
        assert v == ViewIn(ns, g, ns[rx].tp);
        if OpenEnd(ns, g, rx).Some? {
          OpenEndView(ns, g, rx);
          assert !g.numeric[r];
          var y := g.ends[rx].value;
          assert g.numeric[y];
        }
      } else {
        assert v == t;
        assert !g.numeric[r];
        assert g.numeric[x];
      }
    }
  }

  /** Resolving the open root `r` adds the new root's depth to every chain that stopped at `r`. */
  lemma ResolveShift(ns: seq<UVarData>, g: Ghosts, r: nat, t: Type, q: nat)
    requires ValidState(ns, g) && r < |ns| && ns[r].Unresolved? && Wf(t, g.numeric)
    requires q < |ns| && q != r
    requires LinksOk(ns[r := Resolved(t)], ResolvedGhosts(ns, g, r, t))
    requires forall k :: 0 <= k < |ns| ==> Root(ns[r := Resolved(t)], ResolvedGhosts(ns, g, r, t), k) == Root(ns, g, k)
    requires ChainShaped(ns[r := Resolved(t)], ResolvedGhosts(ns, g, r, t))
    ensures GDepth(ns[r := Resolved(t)], ResolvedGhosts(ns, g, r, t), q)
      == GDepth(ns, g, q) + (if OpenEnd(ns, g, q) == Some(r) then NewChain(ns, g, t).0 else 0)
    ensures OpenEnd(ns[r := Resolved(t)], ResolvedGhosts(ns, g, r, t), q)
      == if OpenEnd(ns, g, q) == Some(r) then None else OpenEnd(ns, g, q)
  {
    var ns' := ns[r := Resolved(t)];
    var g' := ResolvedGhosts(ns, g, r, t);
    assert g'.ends[q] == g.ends[q] && g'.steps[q] == g.steps[q];
    if g.ends[q].Some? {
      var y := g.ends[q].value;
      var m := Root(ns, g, y);
      assert Root(ns', g', y) == m;
      if m == r {
        assert OpenEnd(ns, g, q) == Some(r);
        assert g'.steps[m] == NewChain(ns, g, t).0;
      } else {
        assert ns'[m] == ns[m] && g'.steps[m] == g.steps[m];
      }
    }
  }

  lemma ResolveChainNew(ns: seq<UVarData>, g: Ghosts, r: nat, t: Type)
    requires ValidState(ns, g) && r < |ns| && ns[r].Unresolved? && Wf(t, g.numeric) && ResolvableTo(ns, g, r, t)
    requires LinksOk(ns[r := Resolved(t)], ResolvedGhosts(ns, g, r, t))
    requires forall k :: 0 <= k < |ns| ==> Root(ns[r := Resolved(t)], ResolvedGhosts(ns, g, r, t), k) == Root(ns, g, k)
    requires ChainShaped(ns[r := Resolved(t)], ResolvedGhosts(ns, g, r, t))
    ensures ChainAt(ns[r := Resolved(t)], ResolvedGhosts(ns, g, r, t), r)
  {
    NewChainFacts(ns, g, r, t);
    if TopNode(t).Some? {
      var rx := Root(ns, g, TopNode(t).value);
      if ns[rx].Resolved? {
        ResolveShift(ns, g, r, t, rx);
      }
    }
  }

  lemma ResolveChainOld(ns: seq<UVarData>, g: Ghosts, r: nat, t: Type, q: nat)
    requires ValidState(ns, g) && r < |ns| && ns[r].Unresolved? && Wf(t, g.numeric) && ResolvableTo(ns, g, r, t)
    requires LinksOk(ns[r := Resolved(t)], ResolvedGhosts(ns, g, r, t))
    requires forall k :: 0 <= k < |ns| ==> Root(ns[r := Resolved(t)], ResolvedGhosts(ns, g, r, t), k) == Root(ns, g, k)
    requires ChainShaped(ns[r := Resolved(t)], ResolvedGhosts(ns, g, r, t))
    requires q < |ns| && q != r && ns[q].Resolved?
    ensures ChainAt(ns[r := Resolved(t)], ResolvedGhosts(ns, g, r, t), q)
  {
    NewChainFacts(ns, g, r, t);
    assert ChainAt(ns, g, q);
    ResolveShift(ns, g, r, t, q);
    if TopNode(ns[q].tp).Some? {
      var rx := Root(ns, g, TopNode(ns[q].tp).value);
      if rx == r {
        var y := g.ends[q].value;
        assert Root(ns, g, y) == r;
        assert g.numeric[r];
      } else if ns[rx].Resolved? {
        ResolveShift(ns, g, r, t, rx);
      }
    }
  }

  lemma ResolveValid(ns: seq<UVarData>, g: Ghosts, r: nat, t: Type)
    requires ValidState(ns, g) && r < |ns| && ns[r].Unresolved? && Wf(t, g.numeric) && ResolvableTo(ns, g, r, t)
    ensures ValidState(ns[r := Resolved(t)], ResolvedGhosts(ns, g, r, t))
    ensures forall k :: 0 <= k < |ns| ==> Root(ns[r := Resolved(t)], ResolvedGhosts(ns, g, r, t), k) == Root(ns, g, k)
  {
    var ns' := ns[r := Resolved(t)];
    var g' := ResolvedGhosts(ns, g, r, t);
    ResolveLinks(ns, g, r, t);
    NewChainFacts(ns, g, r, t);
    assert ChainShaped(ns', g');
    forall q | 0 <= q < |ns'| && ns'[q].Resolved?
      ensures ChainAt(ns', g', q)
    {
      if q == r {
        ResolveChainNew(ns, g, r, t);
      } else {
        ResolveChainOld(ns, g, r, t, q);
      }
    }
  }

  function Max(a: nat, b: nat): nat
  {
    if a < b then b else a
  }

  /** The bookkeeping after linking root `r1` under root `r2`: `r2` now ranks above `r1`. */
  ghost function LinkedGhosts(g: Ghosts, r1: nat, r2: nat): Ghosts
    requires r1 < |g.rank| && r2 < |g.rank|
  {
    g.(rank := g.rank[r2 := Max(g.rank[r2], g.rank[r1] + 1)], maxRank := Max(g.maxRank, g.rank[r1] + 1))
  }

  /** Where a node's root goes when root `r1` is linked under root `r2`. */
  function Relabel(k: nat, r1: nat, r2: nat): nat
  {
    if k == r1 then r2 else k
  }

  lemma {:induction false} UnionRoots(ns: seq<UVarData>, g: Ghosts, r1: nat, r2: nat, k: nat)
    requires LinksOk(ns, g) && r1 < |ns| && r2 < |ns| && r1 != r2 && !ns[r1].Link? && !ns[r2].Link?
    requires g.numeric[r1] == g.numeric[r2] && k < |ns|
    ensures LinksOk(ns[r1 := Link(r2)], LinkedGhosts(g, r1, r2))
    ensures Root(ns[r1 := Link(r2)], LinkedGhosts(g, r1, r2), k) == Relabel(Root(ns, g, k), r1, r2)
    decreases g.maxRank - g.rank[k]
  {
    var ns' := ns[r1 := Link(r2)];
    var g' := LinkedGhosts(g, r1, r2);
    assert LinksOk(ns', g');
    if ns[k].Link? {
      UnionRoots(ns, g, r1, r2, ns[k].next);
    }
  }

  lemma UnionValid(ns: seq<UVarData>, g: Ghosts, r1: nat, r2: nat)
    requires ValidState(ns, g) && r1 < |ns| && r2 < |ns| && r1 != r2
    requires ns[r1].Unresolved? && ns[r2].Unresolved? && g.numeric[r1] == g.numeric[r2]
    ensures ValidState(ns[r1 := Link(r2)], LinkedGhosts(g, r1, r2))
    ensures forall k :: 0 <= k < |ns| ==>
      Root(ns[r1 := Link(r2)], LinkedGhosts(g, r1, r2), k) == Relabel(Root(ns, g, k), r1, r2)
  {
    var ns' := ns[r1 := Link(r2)];
    var g' := LinkedGhosts(g, r1, r2);
    forall k | 0 <= k < |ns|
      ensures Root(ns', g', k) == Relabel(Root(ns, g, k), r1, r2)
    {
      UnionRoots(ns, g, r1, r2, k);
    }
    UnionRoots(ns, g, r1, r2, r1);
    assert ChainShaped(ns', g');
    forall q | 0 <= q < |ns'| && ns'[q].Resolved?
      ensures ChainAt(ns', g', q)
    {
      UnionChainAt(ns, g, r1, r2, q);
    }
  }

  /** Linking two open roots changes no chain measure, and an open end that was `r1` is now `r2`. */
  lemma UnionDepths(ns: seq<UVarData>, g: Ghosts, r1: nat, r2: nat, q: nat)
    requires ValidState(ns, g) && r1 < |ns| && r2 < |ns| && r1 != r2
    requires ns[r1].Unresolved? && ns[r2].Unresolved? && g.numeric[r1] == g.numeric[r2] && q < |ns|
    ensures ChainShaped(ns[r1 := Link(r2)], LinkedGhosts(g, r1, r2))
    ensures GDepth(ns[r1 := Link(r2)], LinkedGhosts(g, r1, r2), q) == GDepth(ns, g, q)
    ensures OpenEnd(ns[r1 := Link(r2)], LinkedGhosts(g, r1, r2), q) ==
      if OpenEnd(ns, g, q) == Some(r1) then Some(r2) else OpenEnd(ns, g, q)
  {
    UnionRoots(ns, g, r1, r2, r1);
    if g.ends[q].Some? {
      UnionRoots(ns, g, r1, r2, g.ends[q].value);
    }
  }

  /** Linking two open roots keeps the chain measure of every resolved root in step. */
  lemma UnionChainAt(ns: seq<UVarData>, g: Ghosts, r1: nat, r2: nat, q: nat)
    requires ValidState(ns, g) && r1 < |ns| && r2 < |ns| && r1 != r2
    requires ns[r1].Unresolved? && ns[r2].Unresolved? && g.numeric[r1] == g.numeric[r2]
    requires q < |ns| && ns[q].Resolved?
    ensures ChainShaped(ns[r1 := Link(r2)], LinkedGhosts(g, r1, r2))
    ensures ChainAt(ns[r1 := Link(r2)], LinkedGhosts(g, r1, r2), q)
  {
    var ns' := ns[r1 := Link(r2)];
    var g' := LinkedGhosts(g, r1, r2);
    assert ChainAt(ns, g, q);
    UnionDepths(ns, g, r1, r2, q);
    if TopNode(ns[q].tp).Some? {
      var x := TopNode(ns[q].tp).value;
      var rx := Root(ns, g, x);
      UnionRoots(ns, g, r1, r2, x);
      UnionDepths(ns, g, r1, r2, rx);
      assert ns'[Relabel(rx, r1, r2)].Resolved? == ns[rx].Resolved?;
    }
  }

  /** A new node at the end of the arena leaves every old node's class alone. */
  lemma {:induction false} ExtendRoots(ns: seq<UVarData>, g: Ghosts, d: UVarData, g': Ghosts, k: nat)
    requires LinksOk(ns, g) && !d.Link? && LinksOk(ns + [d], g') && k < |ns|
    requires g'.rank[..|ns|] == g.rank
    ensures Root(ns + [d], g', k) == Root(ns, g, k)
    decreases g.maxRank - g.rank[k]
  {
    if ns[k].Link? {
      ExtendRoots(ns, g, d, g', ns[k].next);
    }
  }

  ghost function ExtendedGhosts(g: Ghosts, numeric: bool): Ghosts
  {
    Ghosts(g.rank + [0], g.maxRank, g.numeric + [numeric], g.steps + [0], g.ends + [None])
  }

  lemma ExtendChain(ns: seq<UVarData>, g: Ghosts, numeric: bool, q: nat)
    requires ValidState(ns, g) && q < |ns|
    requires ChainShaped(ns + [Unresolved(FIRST_UVAR_ID + |ns|)], ExtendedGhosts(g, numeric))
    requires forall k :: 0 <= k < |ns| ==> Root(ns + [Unresolved(FIRST_UVAR_ID + |ns|)], ExtendedGhosts(g, numeric), k) == Root(ns, g, k)
    ensures GDepth(ns + [Unresolved(FIRST_UVAR_ID + |ns|)], ExtendedGhosts(g, numeric), q) == GDepth(ns, g, q)
    ensures OpenEnd(ns + [Unresolved(FIRST_UVAR_ID + |ns|)], ExtendedGhosts(g, numeric), q) == OpenEnd(ns, g, q)
  {
    var ns' := ns + [Unresolved(FIRST_UVAR_ID + |ns|)];
    var g' := ExtendedGhosts(g, numeric);
    assert g'.ends[q] == g.ends[q] && g'.steps[q] == g.steps[q];
    if g.ends[q].Some? {
      var y := g.ends[q].value;
      var m := Root(ns, g, y);
      assert Root(ns', g', y) == m;
      assert ns'[m] == ns[m] && g'.steps[m] == g.steps[m];
    }
  }

  lemma ExtendChainAt(ns: seq<UVarData>, g: Ghosts, numeric: bool, q: nat)
    requires ValidState(ns, g) && q < |ns| && ns[q].Resolved?
    requires ChainShaped(ns + [Unresolved(FIRST_UVAR_ID + |ns|)], ExtendedGhosts(g, numeric))
    requires forall k :: 0 <= k < |ns| ==> Root(ns + [Unresolved(FIRST_UVAR_ID + |ns|)], ExtendedGhosts(g, numeric), k) == Root(ns, g, k)
    requires Wf(ns[q].tp, g.numeric + [numeric])
    ensures ChainAt(ns + [Unresolved(FIRST_UVAR_ID + |ns|)], ExtendedGhosts(g, numeric), q)
  {
    assert ChainAt(ns, g, q);
    ExtendChain(ns, g, numeric, q);
    if TopNode(ns[q].tp).Some? {
      var rx := Root(ns, g, TopNode(ns[q].tp).value);
      ExtendChain(ns, g, numeric, rx);
    }
  }

  lemma ExtendValid(ns: seq<UVarData>, g: Ghosts, numeric: bool)
    requires ValidState(ns, g)
    ensures ValidState(ns + [Unresolved(FIRST_UVAR_ID + |ns|)], ExtendedGhosts(g, numeric))
    ensures forall k :: 0 <= k < |ns| ==> Root(ns + [Unresolved(FIRST_UVAR_ID + |ns|)], ExtendedGhosts(g, numeric), k) == Root(ns, g, k)
  {
    var d := Unresolved(FIRST_UVAR_ID + |ns|);
    var ns' := ns + [d];
    var g' := ExtendedGhosts(g, numeric);
    assert LinksOk(ns', g');
    forall k | 0 <= k < |ns| ensures Root(ns', g', k) == Root(ns, g, k) {
      ExtendRoots(ns, g, d, g', k);
    }
    assert ChainShaped(ns', g');
    forall i | 0 <= i < |ns| && ns[i].Resolved? ensures Wf(ns[i].tp, g'.numeric) {
      WfExtend(ns[i].tp, g.numeric, [numeric]);
    }
    forall q | 0 <= q < |ns'| && ns'[q].Resolved?
      ensures ChainAt(ns', g', q)
    {
      ExtendChainAt(ns, g, numeric, q);
    }
  }

  /** `UVar::occurs` evaluated on one arena state, with `fuel` bounding the depth of nested
      calls: a call nested deeper than that stands for the stack overflow the source runs
      into on a cyclic type, and yields None. */
  function OccursIn(ns: seq<UVarData>, ghost g: Ghosts, x: nat, t: Type, fuel: nat): (r: Option<bool>)
    requires ValidState(ns, g) && Wf(t, g.numeric)
    decreases fuel, 1, 0
  {
    if fuel == 0 then None else OccursOf(ns, g, x, ViewIn(ns, g, t), fuel)
  }

  /** The match of `occurs` on a type already viewed. */
  function OccursOf(ns: seq<UVarData>, ghost g: Ghosts, x: nat, v: Type, fuel: nat): (r: Option<bool>)
    requires ValidState(ns, g) && Wf(v, g.numeric) && fuel > 0
    decreases fuel, 0, 0
  {
    match v
    case Var(_) => Some(false)
    case NamedVar(_, _) => Some(false)
    case Unknown => Some(false)
    case UVar(y) => Some(x == y)
    case NumericUVar(y) => Some(x == y)
    case Fun(args, ret) =>
      var a := AnyOccurs(ns, g, x, args, fuel - 1);
      if a == Some(false) then OccursIn(ns, g, x, ret, fuel - 1) else a
    case Ptr(p) => OccursIn(ns, g, x, p, fuel - 1)
    case MutPtr(p) => OccursIn(ns, g, x, p, fuel - 1)
    case Array(_, e) => OccursIn(ns, g, x, e, fuel - 1)
    case Tuple(items) => AnyOccurs(ns, g, x, items, fuel - 1)
    case TypeApp(_, _, items) => AnyOccurs(ns, g, x, items, fuel - 1)
  }

  /** `ts.iter().any(|t| occurs(t))`: left to right, stopping at the first hit. */
  function AnyOccurs(ns: seq<UVarData>, ghost g: Ghosts, x: nat, ts: seq<Type>, fuel: nat): (r: Option<bool>)
    requires ValidState(ns, g) && forall k :: 0 <= k < |ts| ==> Wf(ts[k], g.numeric)
    decreases fuel, 2, |ts|
  {
    if ts == [] then Some(false)
    else
      var h := OccursIn(ns, g, x, ts[0], fuel);
      if h == Some(false) then AnyOccurs(ns, g, x, ts[1..], fuel) else h
  }

  /** `occurs` answers the same on two states that hold the same classes, so the path
      compression it performs along the way does not change its answer. */
  lemma {:induction false} SameClassesOccurs(ns1: seq<UVarData>, ns2: seq<UVarData>, g: Ghosts, x: nat, t: Type, fuel: nat)
    requires SameClasses(ns1, ns2, g) && ValidState(ns1, g) && Wf(t, g.numeric)
    ensures ValidState(ns2, g)
    ensures OccursIn(ns2, g, x, t, fuel) == OccursIn(ns1, g, x, t, fuel)
    decreases fuel, 1, 0
  {
    SameClassesView(ns1, ns2, g, t);
    if fuel > 0 {
      SameClassesOccursOf(ns1, ns2, g, x, ViewIn(ns1, g, t), fuel);
    }
  }

  lemma {:induction false} SameClassesOccursOf(ns1: seq<UVarData>, ns2: seq<UVarData>, g: Ghosts, x: nat, v: Type, fuel: nat)
    requires SameClasses(ns1, ns2, g) && ValidState(ns1, g) && Wf(v, g.numeric) && fuel > 0
    ensures ValidState(ns2, g)
    ensures OccursOf(ns2, g, x, v, fuel) == OccursOf(ns1, g, x, v, fuel)
    decreases fuel, 0, 0
  {
    SameClassesValid(ns1, ns2, g);
    match v
    case Fun(args, ret) =>
      SameClassesAnyOccurs(ns1, ns2, g, x, args, fuel - 1);
      SameClassesOccurs(ns1, ns2, g, x, ret, fuel - 1);
    case Ptr(p) => SameClassesOccurs(ns1, ns2, g, x, p, fuel - 1);
    case MutPtr(p) => SameClassesOccurs(ns1, ns2, g, x, p, fuel - 1);
    case Array(_, e) => SameClassesOccurs(ns1, ns2, g, x, e, fuel - 1);
    case Tuple(items) => SameClassesAnyOccurs(ns1, ns2, g, x, items, fuel - 1);
    case TypeApp(_, _, items) => SameClassesAnyOccurs(ns1, ns2, g, x, items, fuel - 1);
    case _ =>
  }

  lemma {:induction false} SameClassesAnyOccurs(ns1: seq<UVarData>, ns2: seq<UVarData>, g: Ghosts, x: nat, ts: seq<Type>, fuel: nat)
    requires SameClasses(ns1, ns2, g) && ValidState(ns1, g)
    requires forall k :: 0 <= k < |ts| ==> Wf(ts[k], g.numeric)
    ensures ValidState(ns2, g)
    ensures AnyOccurs(ns2, g, x, ts, fuel) == AnyOccurs(ns1, g, x, ts, fuel)
    decreases fuel, 2, |ts|
  {
    SameClassesValid(ns1, ns2, g);
    if ts != [] {
      SameClassesOccurs(ns1, ns2, g, x, ts[0], fuel);
      SameClassesAnyOccurs(ns1, ns2, g, x, ts[1..], fuel);
    }
  }

  /** `occurs` compares nodes, not classes: a type showing another node of `x`'s class
      does not count as an occurrence. */
  lemma OccursComparesNodes(ns: seq<UVarData>, g: Ghosts, x: nat, y: nat, fuel: nat)
    requires ValidState(ns, g) && x < |ns| && y < |ns| && !g.numeric[y] && x != y
    requires !ns[Root(ns, g, y)].Resolved? && fuel > 0
    ensures OccursIn(ns, g, x, UVar(y), fuel) == Some(false)
    ensures OccursIn(ns, g, y, UVar(y), fuel) == Some(true)
  {
  }

  /** `occurs` looks through pointers: a variable under `*T` or `*mut T` occurs in the pointer type. */
  lemma OccursThroughPointers(ns: seq<UVarData>, g: Ghosts, x: nat, p: Type, fuel: nat)
    requires ValidState(ns, g) && Wf(p, g.numeric) && fuel > 0
    ensures OccursIn(ns, g, x, Ptr(p), fuel) == OccursIn(ns, g, x, p, fuel - 1)
    ensures OccursIn(ns, g, x, MutPtr(p), fuel) == OccursIn(ns, g, x, p, fuel - 1)
  {
  }

  /** The union-find arena of all unification variables, with the static `COUNTER` of
      `UVar::new` as an explicit field. */
  class Arena {
    var nodes: seq<UVarData>
    var counter: nat
    ghost var g: Ghosts

    ghost predicate Valid()
      reads this
    {
      ValidState(nodes, g) && counter == FIRST_UVAR_ID - 1 + |nodes|
    }

    constructor ()
      ensures Valid() && nodes == [] && counter == FIRST_UVAR_ID - 1
    {
      nodes := [];
      counter := FIRST_UVAR_ID - 1;
      g := Ghosts([], 0, [], [], []);
    }

    /** `UVar::new`: bumps the counter and adds an unresolved node carrying the new value.
        `numeric` records which wrapper (`UVar` or `NumericUVar`) the caller puts around it. */
    method New(ghost numeric: bool) returns (x: nat)
      requires Valid()
      modifies this
      ensures Valid()
      ensures counter == old(counter) + 1
      ensures x == old(|nodes|) && nodes == old(nodes) + [Unresolved(counter)]
      ensures g.numeric == old(g.numeric) + [numeric]
      ensures forall k :: 0 <= k < old(|nodes|) ==> Root(nodes, g, k) == old(Root(nodes, g, k))
    {
      ghost var ns, g0 := nodes, g;
      ExtendValid(ns, g0, numeric);
      x := |nodes|;
      counter := counter + 1;
      assert counter == FIRST_UVAR_ID + |ns|;
      nodes := nodes + [Unresolved(counter)];
      g := ExtendedGhosts(g, numeric);
      assert nodes == ns + [Unresolved(FIRST_UVAR_ID + |ns|)] && g == ExtendedGhosts(g0, numeric);
    }

    /** `UVar::id`: the id of the unresolved node at the end of the link chain. */
    function Id(i: nat): (r: Option<nat>)
      reads this
      requires Valid() && i < |nodes|
      ensures r.Some? <==> nodes[Root(nodes, g, i)].Unresolved?
      ensures r.Some? ==> r.value == FIRST_UVAR_ID + Root(nodes, g, i)
      decreases g.maxRank - g.rank[i]
    {
      match nodes[i]
      case Unresolved(id) => Some(id)
      case Link(j) => Id(j)
      case Resolved(_) => None
    }

    /** `UVar::try_resolved`: looks at node `i` only, without following links. */
    function TryResolved(i: nat): (r: Option<Type>)
      reads this
      requires Valid() && i < |nodes|
      ensures r.Some? <==> nodes[i].Resolved?
      ensures r.Some? ==> nodes[i] == Resolved(r.value)
    {
      if nodes[i].Resolved? then Some(nodes[i].tp) else None
    }

    /** `UVar::find`: the root of node `i`, linking `i` (and every node on its chain) straight to it. */
    method Find(i: nat) returns (r: nat)
      requires Valid() && i < |nodes|
      modifies this
      ensures Valid() && g == old(g) && counter == old(counter)
      ensures SameClasses(old(nodes), nodes, g)
      ensures r == Root(old(nodes), g, i) && !nodes[r].Link?
      ensures old(nodes[i]).Link? ==> nodes[i] == Link(r)
      decreases g.maxRank - g.rank[i]
    {
      if nodes[i].Link? {
        ghost var before := nodes;
        r := Find(nodes[i].next);
        assert Root(before, g, i) != i;
        assert Root(nodes, g, i) != i;
        assert r == Root(nodes, g, i);
        ghost var mid := nodes;
        RelinkSameClasses(nodes, g, i);
        SameClassesValid(nodes, nodes[i := Link(r)], g);
        nodes := nodes[i := Link(r)];
        SameClassesTrans(before, mid, nodes, g);
      } else {
        r := i;
        SameClassesRefl(nodes, g);
      }
    }

    /** `UVar::union`: links the root of `a` under the root of `b` when they differ. The callers
        only union two open classes of the same flavour. */
    method Union(a: nat, b: nat)
      requires Valid() && a < |nodes| && b < |nodes|
      requires !nodes[Root(nodes, g, a)].Resolved? && !nodes[Root(nodes, g, b)].Resolved?
      requires g.numeric[a] == g.numeric[b]
      modifies this
      ensures Valid() && counter == old(counter) && |nodes| == old(|nodes|) && g.numeric == old(g.numeric)
      ensures g.steps == old(g.steps) && g.ends == old(g.ends)
      ensures old(Root(nodes, g, a)) == old(Root(nodes, g, b)) ==> SameClasses(old(nodes), nodes, g) && g == old(g)
      ensures old(Root(nodes, g, a)) != old(Root(nodes, g, b)) ==> nodes[old(Root(nodes, g, a))] == Link(old(Root(nodes, g, b)))
      ensures forall k :: 0 <= k < |nodes| ==>
        Root(nodes, g, k) == Relabel(old(Root(nodes, g, k)), old(Root(nodes, g, a)), old(Root(nodes, g, b)))
      ensures forall k :: 0 <= k < |nodes| && !old(nodes[k]).Link? && k != old(Root(nodes, g, a)) ==> nodes[k] == old(nodes[k])
    {
      ghost var ns0 := nodes;
      var r1 := Find(a);
      ghost var ns1 := nodes;
      var r2 := Find(b);
      SameClassesTrans(ns0, ns1, nodes, g);
      if r1 != r2 {
        ghost var ns2 := nodes;
        assert nodes[r1].Unresolved? && nodes[r2].Unresolved?;
        UnionValid(nodes, g, r1, r2);
        nodes := nodes[r1 := Link(r2)];
        g := LinkedGhosts(g, r1, r2);
        forall k | 0 <= k < |nodes|
          ensures Root(nodes, g, k) == Relabel(Root(ns0, old(g), k), r1, r2)
        {
          assert Root(ns2, old(g), k) == Root(ns0, old(g), k);
        }
      }
    }

    /** `UVar::resolve`: the root of `x` becomes `Resolved(t)`; `ok` is false where the
        source panics because the root is already resolved. */
    method Resolve(x: nat, t: Type) returns (ok: bool)
      requires Valid() && x < |nodes| && Wf(t, g.numeric)
      requires !nodes[Root(nodes, g, x)].Resolved? ==> ResolvableTo(nodes, g, Root(nodes, g, x), t)
      modifies this
      ensures Valid() && counter == old(counter) && |nodes| == old(|nodes|) && g.numeric == old(g.numeric)
      ensures ok <==> !old(nodes[Root(nodes, g, x)]).Resolved?
      ensures !ok ==> SameClasses(old(nodes), nodes, g) && g == old(g)
      ensures ok ==> nodes[old(Root(nodes, g, x))] == Resolved(t)
      ensures forall k :: 0 <= k < |nodes| ==> Root(nodes, g, k) == old(Root(nodes, g, k))
      ensures forall k :: 0 <= k < |nodes| && !old(nodes[k]).Link? && k != old(Root(nodes, g, x)) ==> nodes[k] == old(nodes[k])
    {
      ghost var ns0 := nodes;
      var r := Find(x);
      if nodes[r].Resolved? {
        ok := false;
        return;
      }
      ok := true;
      SameClassesView(ns0, nodes, g, t);
      ghost var ns1 := nodes;
      ResolveValid(nodes, g, r, t);
      g := ResolvedGhosts(nodes, g, r, t);
      nodes := nodes[r := Resolved(t)];
      forall k | 0 <= k < |nodes|
        ensures Root(nodes, g, k) == Root(ns0, old(g), k)
      {
        assert Root(ns1, old(g), k) == Root(ns0, old(g), k);
      }
    }

    /** `Type::view` with its path compression. */
    method View(t: Type) returns (v: Type)
      requires Valid() && Wf(t, g.numeric)
      modifies this
      ensures Valid() && g == old(g) && counter == old(counter)
      ensures SameClasses(old(nodes), nodes, g)
      ensures v == ViewIn(old(nodes), g, t)
      decreases TDepth(nodes, g, t)
    {
      match t
      case UVar(x) =>
        v := ViewNode(t, x);
      case NumericUVar(x) =>
        v := ViewNode(t, x);
      case _ =>
        v := t;
        SameClassesRefl(nodes, g);
    }

    method ViewNode(t: Type, x: nat) returns (v: Type)
      requires Valid() && Wf(t, g.numeric) && TopNode(t) == Some(x)
      modifies this
      ensures Valid() && g == old(g) && counter == old(counter)
      ensures SameClasses(old(nodes), nodes, g)
      ensures v == ViewIn(old(nodes), g, t)
      decreases TDepth(nodes, g, t), 0
    {
      ghost var ns0 := nodes;
      var r := Find(x);
      SameClassesChain(ns0, nodes, g);
      SameClassesView(ns0, nodes, g, t);
      if nodes[r].Resolved? {
        ChainStep(nodes, g, r);
        ghost var ns1 := nodes;
        v := View(nodes[r].tp);
        SameClassesTrans(ns0, ns1, nodes, g);
        SameClassesView(ns0, ns1, g, t);
      } else {
        v := t;
      }
    }

    /** `UVar::occurs` for node `x`, with the path compression of the views it takes. */
    method Occurs(x: nat, t: Type, fuel: nat) returns (r: Option<bool>)
      requires Valid() && Wf(t, g.numeric)
      modifies this
      ensures Valid() && g == old(g) && counter == old(counter)
      ensures SameClasses(old(nodes), nodes, g)
      ensures r == OccursIn(old(nodes), g, x, t, fuel)
      decreases fuel, 1
    {
      if fuel == 0 {
        SameClassesRefl(nodes, g);
        return None;
      }
      ghost var ns0 := nodes;
      var v := View(t);
      SameClassesView(ns0, nodes, g, t);
      r := OccursViewed(x, v, fuel, ns0);
    }

    method OccursViewed(x: nat, v: Type, fuel: nat, ghost ns0: seq<UVarData>) returns (r: Option<bool>)
      requires Valid() && Wf(v, g.numeric) && fuel > 0 && SameClasses(ns0, nodes, g) && ValidState(ns0, g)
      modifies this
      ensures Valid() && g == old(g) && counter == old(counter)
      ensures SameClasses(ns0, nodes, g)
      ensures r == OccursOf(ns0, g, x, v, fuel)
      decreases fuel, 0
    {
      if v.Fun? {
        r := OccursFunArm(x, v, fuel, ns0);
      } else if v.Ptr? || v.MutPtr? || v.Array? {
        r := OccursChild(x, if v.Array? then v.elem else v.pointee, fuel - 1, ns0);
      } else if v.Tuple? || v.TypeApp? {
        r := OccursAnyFrom(x, if v.Tuple? then v.items else v.args, fuel - 1, ns0);
      } else {
        SameClassesRefl(nodes, g);
        r := if v.UVar? || v.NumericUVar? then Some(x == v.node) else Some(false);
      }
    }

    /** The function arm: the arguments first, then the return type. */
    method OccursFunArm(x: nat, v: Type, fuel: nat, ghost ns0: seq<UVarData>) returns (r: Option<bool>)
      requires Valid() && Wf(v, g.numeric) && fuel > 0 && SameClasses(ns0, nodes, g) && ValidState(ns0, g) && v.Fun?
      modifies this
      ensures Valid() && g == old(g) && counter == old(counter)
      ensures SameClasses(ns0, nodes, g)
      ensures r == OccursOf(ns0, g, x, v, fuel)
      decreases fuel - 1, 5
    {
      r := OccursAnyFrom(x, v.args, fuel - 1, ns0);
      if r == Some(false) {
        r := OccursChild(x, v.ret, fuel - 1, ns0);
      }
    }

    method OccursAnyFrom(x: nat, ts: seq<Type>, fuel: nat, ghost ns0: seq<UVarData>) returns (r: Option<bool>)
      requires Valid() && SameClasses(ns0, nodes, g) && ValidState(ns0, g)
      requires forall k :: 0 <= k < |ts| ==> Wf(ts[k], g.numeric)
      modifies this
      ensures Valid() && g == old(g) && counter == old(counter)
      ensures SameClasses(ns0, nodes, g)
      ensures r == AnyOccurs(ns0, g, x, ts, fuel)
      decreases fuel, 4
    {
      ghost var ns1 := nodes;
      r := OccursAny(x, ts, fuel);
      SameClassesTrans(ns0, ns1, nodes, g);
      SameClassesAnyOccurs(ns0, ns1, g, x, ts, fuel);
    }

    method OccursChild(x: nat, t: Type, fuel: nat, ghost ns0: seq<UVarData>) returns (r: Option<bool>)
      requires Valid() && Wf(t, g.numeric) && SameClasses(ns0, nodes, g) && ValidState(ns0, g)
      modifies this
      ensures Valid() && g == old(g) && counter == old(counter)
      ensures SameClasses(ns0, nodes, g) && SameClasses(old(nodes), nodes, g)
      ensures r == OccursIn(ns0, g, x, t, fuel)
      decreases fuel, 2
    {
      ghost var ns1 := nodes;
      r := Occurs(x, t, fuel);
      SameClassesTrans(ns0, ns1, nodes, g);
      SameClassesOccurs(ns0, ns1, g, x, t, fuel);
    }

    /** `ts.iter().any(|t| x.occurs(t))`. */
    method OccursAny(x: nat, ts: seq<Type>, fuel: nat) returns (r: Option<bool>)
      requires Valid() && forall k :: 0 <= k < |ts| ==> Wf(ts[k], g.numeric)
      modifies this
      ensures Valid() && g == old(g) && counter == old(counter)
      ensures SameClasses(old(nodes), nodes, g)
      ensures r == AnyOccurs(old(nodes), g, x, ts, fuel)
      decreases fuel, 3
    {
      ghost var ns0 := nodes;
      SameClassesRefl(nodes, g);
      var i := 0;
      r := Some(false);
      while i < |ts|
        invariant 0 <= i <= |ts| && Valid() && g == old(g) && counter == old(counter)
        invariant SameClasses(ns0, nodes, g)
        invariant AnyOccurs(ns0, g, x, ts, fuel) == AnyOccurs(ns0, g, x, ts[i..], fuel)
        decreases |ts| - i
      {
        assert ts[i..][0] == ts[i] && ts[i..][1..] == ts[i + 1..];
        var h := OccursChild(x, ts[i], fuel, ns0);
        if h != Some(false) {
          return h;
        }
        i := i + 1;
      }
      assert ts[i..] == [];
    }
  }
}
