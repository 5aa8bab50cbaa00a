/** The dependency graph over type variables and Kahn's topological sort
    (src/symtable/type_sort.rs:26-79). */
module TypeGraph {
  import opened Wrappers
  import opened TVars

  /** A dependency graph: each type variable maps to the type variables it depends on. */
  type Graph = map<TVar, set<TVar>>

  /** `graph` has an edge from `f` to `to`: `f` depends on `to`. */
  predicate Edge(graph: Graph, f: TVar, to: TVar)
  {
    f in graph && to in graph[f]
  }

  /** `rev` holds exactly the reversed edges leaving the nodes in `done`. */
  ghost predicate Reversed(rev: Graph, graph: Graph, done: set<TVar>)
  {
    && (forall to, f :: to in rev && f in rev[to] ==> f in done && Edge(graph, f, to))
    && (forall f, to :: f in done && Edge(graph, f, to) ==> to in rev && f in rev[to])
  }

  /** `reverse_graph`: every node of the graph gets an entry, and the entry of a node is the
      set of nodes with an edge to it; a node that is only an edge target gets an entry too. */
  method ReverseGraph(graph: Graph) returns (rev: Graph)
    ensures graph.Keys <= rev.Keys
    ensures forall to :: to in rev ==> to in graph || rev[to] != {}
    ensures forall to, f :: to in rev && f in rev[to] ==> Edge(graph, f, to)
    ensures forall f, to :: Edge(graph, f, to) ==> to in rev && f in rev[to]
  {
    rev := EmptyEntries(graph);
    ghost var done: set<TVar> := {};
    var froms := graph.Keys;
    while froms != {}
      invariant froms <= graph.Keys && done == graph.Keys - froms
      invariant graph.Keys <= rev.Keys
      invariant forall to :: to in rev ==> to in graph || rev[to] != {}
      invariant Reversed(rev, graph, done)
      decreases |froms|
    {
      var from :| from in froms;
      ghost var rev0 := rev;
      rev := AddReversedEdges(rev, from, done, graph);
      forall to | to in rev && to !in graph
        ensures rev[to] != {}
      {
        if to in rev0 {
          var f :| f in rev0[to];
          assert f in rev[to];
        } else {
          assert from in rev[to];
        }
      }
      froms := froms - {from};
      done := done + {from};
    }
  }

  /** The first loop of `reverse_graph`: an empty entry for every node. */
  method EmptyEntries(graph: Graph) returns (rev: Graph)
    ensures rev.Keys == graph.Keys
    ensures forall to :: to in rev ==> rev[to] == {}
  {
    rev := map[];
    var keys := graph.Keys;
    while keys != {}
      invariant keys <= graph.Keys
      invariant rev.Keys == graph.Keys - keys
      invariant forall to :: to in rev ==> rev[to] == {}
      decreases |keys|
    {
      var k :| k in keys;
      rev := rev[k := {}];
      keys := keys - {k};
    }
  }

  /** `rev` holds the reversed edges leaving `done`, plus those from `from` to `added`. */
  ghost predicate ReversedSoFar(rev: Graph, graph: Graph, done: set<TVar>, from: TVar, added: set<TVar>)
  {
    && (forall to, f :: to in rev && f in rev[to] ==> (f in done && Edge(graph, f, to)) || (f == from && to in added))
    && (forall f, to :: (f in done && Edge(graph, f, to)) || (f == from && to in added) ==> to in rev && f in rev[to])
  }

  lemma ReversedSoFarStart(rev: Graph, graph: Graph, done: set<TVar>, from: TVar)
    requires Reversed(rev, graph, done)
    ensures ReversedSoFar(rev, graph, done, from, {})
  {
  }

  lemma ReversedSoFarStep(rev: Graph, graph: Graph, done: set<TVar>, from: TVar, added: set<TVar>, to: TVar)
    requires ReversedSoFar(rev, graph, done, from, added)
    ensures ReversedSoFar(rev[to := (if to in rev then rev[to] else {}) + {from}], graph, done, from, added + {to})
  {
    var rev' := rev[to := (if to in rev then rev[to] else {}) + {from}];
    forall t, f | t in rev' && f in rev'[t]
      ensures (f in done && Edge(graph, f, t)) || (f == from && t in added + {to})
    {
      if t != to || f != from {
        assert t in rev && f in rev[t];
      }
    }
    forall f, t | (f in done && Edge(graph, f, t)) || (f == from && t in added + {to})
      ensures t in rev' && f in rev'[t]
    {
      if t != to || f != from {
        assert t in rev && f in rev[t];
      }
    }
    assert ReversedSoFar(rev', graph, done, from, added + {to});
  }

  lemma ReversedSoFarEnd(rev: Graph, graph: Graph, done: set<TVar>, from: TVar)
    requires from in graph && ReversedSoFar(rev, graph, done, from, graph[from])
    ensures Reversed(rev, graph, done + {from})
  {
  }

  /** The state of the inner loop of `reverse_graph` after the targets `added` of `from`. */
  ghost predicate InnerLoop(rev: Graph, rev0: Graph, graph: Graph, done: set<TVar>, from: TVar, added: set<TVar>)
  {
    && (forall k :: k in rev <==> k in rev0 || k in added)
    && (forall to :: to in rev0 ==> rev0[to] <= rev[to])
    && (forall to :: to in rev && to !in rev0 ==> from in rev[to])
    && ReversedSoFar(rev, graph, done, from, added)
  }

  lemma InnerLoopStep(rev: Graph, rev0: Graph, graph: Graph, done: set<TVar>, from: TVar, added: set<TVar>, to: TVar)
    requires InnerLoop(rev, rev0, graph, done, from, added)
    ensures InnerLoop(rev[to := (if to in rev then rev[to] else {}) + {from}], rev0, graph, done, from, added + {to})
  {
    ReversedSoFarStep(rev, graph, done, from, added, to);
  }

  /** The inner loop of `reverse_graph` for one node: `from` joins the entry of each of its
      targets, and a missing entry is created. */
  method AddReversedEdges(rev0: Graph, from: TVar, ghost done: set<TVar>, graph: Graph)
    returns (rev: Graph)
    requires from in graph && from !in done && Reversed(rev0, graph, done)
    ensures forall k :: k in rev <==> k in rev0 || k in graph[from]
    ensures forall to :: to in rev0 ==> rev0[to] <= rev[to]
    ensures forall to :: to in rev && to !in rev0 ==> from in rev[to]
    ensures Reversed(rev, graph, done + {from})
  {
    rev := rev0;
    var todo := graph[from];
    ReversedSoFarStart(rev, graph, done, from);
    while todo != {}
      invariant todo <= graph[from]
      invariant InnerLoop(rev, rev0, graph, done, from, graph[from] - todo)
      decreases |todo|
    {
      var to :| to in todo;
      InnerLoopStep(rev, rev0, graph, done, from, graph[from] - todo, to);
      var entry := if to in rev then rev[to] else {};
      rev := rev[to := entry + {from}];
      assert graph[from] - (todo - {to}) == (graph[from] - todo) + {to};
      todo := todo - {to};
    }
    assert graph[from] - todo == graph[from];
    ReversedSoFarEnd(rev, graph, done, from);
  }

  // ---------------------------------------------------------------------------------------
  // topo_sort

  /** `rev` is the reverse of `g`, as `ReverseGraph` promises. */
  ghost predicate IsReverse(rev: Graph, g: Graph)
  {
    && (forall k :: k in g ==> k in rev)
    && (forall v :: v in rev ==> v in g || rev[v] != {})
    && (forall v, u :: v in rev && u in rev[v] ==> Edge(g, u, v))
    && (forall u, v :: Edge(g, u, v) ==> v in rev && u in rev[v])
  }

  /** Each in-degree counts the dependents of a node that are not yet emitted. */
  ghost predicate Counts(indeg: map<TVar, nat>, rev: Graph, emitted: set<TVar>)
  {
    && (forall k :: k in indeg <==> k in rev)
    && (forall v {:trigger indeg[v]} :: v in indeg ==> indeg[v] == |rev[v] - emitted|)
  }

  /** The queue holds distinct nodes that are not emitted and whose dependents all are. */
  ghost predicate QueueOk(q: seq<TVar>, rev: Graph, emitted: set<TVar>)
  {
    && (forall i :: 0 <= i < |q| ==> q[i] in rev && q[i] !in emitted && rev[q[i]] <= emitted)
    && (forall i, j :: 0 <= i < j < |q| ==> q[i] != q[j])
  }

  /** Every node that is ready (all its dependents emitted) is emitted or queued. */
  ghost predicate Complete(q: seq<TVar>, rev: Graph, emitted: set<TVar>)
  {
    forall v :: v in rev && v !in emitted && rev[v] <= emitted ==> v in q
  }

  /** The order emits distinct keys of `g`, each after all of its dependents. */
  ghost predicate OrderOk(order: seq<TVar>, g: Graph, rev: Graph, emitted: set<TVar>)
  {
    && (forall i :: 0 <= i < |order| ==> order[i] in g && order[i] in emitted)
    && (forall v :: v in emitted ==> v in order)
    && (forall i, j :: 0 <= i < j < |order| ==> order[i] != order[j])
    && (forall v :: v in emitted ==> v in rev && rev[v] <= emitted)
    && (forall i, j :: 0 <= i < |order| && 0 <= j < |order| && Edge(g, order[i], order[j]) ==> i < j)
  }

  /** The state of Kahn's loop between two iterations. */
  ghost predicate Kahn(g: Graph, rev: Graph, indeg: map<TVar, nat>, q: seq<TVar>, order: seq<TVar>, emitted: set<TVar>)
  {
    && IsReverse(rev, g)
    && Counts(indeg, rev, emitted)
    && QueueOk(q, rev, emitted)
    && Complete(q, rev, emitted)
    && OrderOk(order, g, rev, emitted)
  }

  /** The first loop of `topo_sort`: the in-degree of a node is the number of its dependents. */
  method InDegrees(rev: Graph) returns (indeg: map<TVar, nat>)
    ensures forall k :: k in indeg <==> k in rev
    ensures forall v :: v in indeg ==> indeg[v] == |rev[v]|
  {
    indeg := map[];
    var todo := rev.Keys;
    while todo != {}
      invariant forall k :: k in indeg <==> k in rev && k !in todo
      invariant forall v :: v in indeg ==> indeg[v] == |rev[v]|
      decreases todo
    {
      var v :| v in todo;
      indeg := indeg[v := |rev[v]|];
      todo := todo - {v};
    }
  }

  /** The second loop of `topo_sort`: queue every key of the graph that nobody depends on. */
  method Seeds(g: Graph, indeg: map<TVar, nat>) returns (q: seq<TVar>)
    requires forall k :: k in g ==> k in indeg
    ensures forall i :: 0 <= i < |q| ==> q[i] in g && indeg[q[i]] == 0
    ensures forall i, j :: 0 <= i < j < |q| ==> q[i] != q[j]
    ensures forall k :: k in g && indeg[k] == 0 ==> k in q
  {
    q := [];
    var todo := g.Keys;
    while todo != {}
      invariant forall i :: 0 <= i < |q| ==> q[i] in g && q[i] !in todo && indeg[q[i]] == 0
      invariant forall i, j :: 0 <= i < j < |q| ==> q[i] != q[j]
      invariant forall k :: k in g && k !in todo && indeg[k] == 0 ==> k in q
      invariant forall k :: k in todo ==> k in g
      decreases todo
    {
      var k :| k in todo;
      if indeg[k] == 0 {
        q := q + [k];
      }
      todo := todo - {k};
    }
  }

  lemma EmptyMinus(s: set<TVar>)
    ensures s - {} == s
  {
  }

  lemma KahnStart(g: Graph, rev: Graph, indeg: map<TVar, nat>, q: seq<TVar>)
    requires IsReverse(rev, g)
    requires forall k :: k in indeg <==> k in rev
    requires forall v :: v in indeg ==> indeg[v] == |rev[v]|
    requires forall i :: 0 <= i < |q| ==> q[i] in g && indeg[q[i]] == 0
    requires forall i, j :: 0 <= i < j < |q| ==> q[i] != q[j]
    requires forall k :: k in g && indeg[k] == 0 ==> k in q
    ensures Kahn(g, rev, indeg, q, [], {})
  {
    forall v | v in rev
      ensures rev[v] - {} == rev[v]
    {
      EmptyMinus(rev[v]);
    }
    forall v | v in rev && rev[v] <= {}
      ensures v in q
    {
      assert rev[v] == {};
    }
  }

  /** Removing one more emitted dependent lowers the count by one, exactly for the targets
      of the newly emitted node. */
  lemma CountStep(s: set<TVar>, emitted: set<TVar>, u: TVar)
    requires u !in emitted
    ensures |s - emitted| == |s - (emitted + {u})| + (if u in s then 1 else 0)
  {
    if u in s {
      assert s - emitted == (s - (emitted + {u})) + {u};
    } else {
      assert s - emitted == s - (emitted + {u});
    }
  }

  /** The state of the inner loop of `topo_sort` after emitting `u`: the targets in `todo`
      still count `u`. */
  ghost predicate Inner(g: Graph, rev: Graph, indeg: map<TVar, nat>, q: seq<TVar>, emitted: set<TVar>,
                        u: TVar, todo: set<TVar>)
  {
    && u in g && u in emitted && todo <= g[u]
    && (forall v :: v in todo ==> v !in emitted)
    && (forall k :: k in indeg <==> k in rev)
    && (forall v {:trigger indeg[v]} :: v in indeg ==> indeg[v] == |rev[v] - emitted| + (if v in todo then 1 else 0))
    && QueueOk(q, rev, emitted)
    && (forall i :: 0 <= i < |q| ==> q[i] !in todo)
    && (forall v :: v in rev && v !in emitted && rev[v] <= emitted && v !in todo ==> v in q)
  }

  lemma InnerStart(g: Graph, rev: Graph, indeg: map<TVar, nat>, q: seq<TVar>, emitted: set<TVar>, u: TVar)
    requires IsReverse(rev, g) && Counts(indeg, rev, emitted) && u in g
    requires QueueOk([u] + q, rev, emitted) && Complete([u] + q, rev, emitted)
    requires forall v :: v in emitted ==> v in rev && rev[v] <= emitted
    ensures Inner(g, rev, indeg, q, emitted + {u}, u, g[u])
    ensures u !in emitted && rev[u] <= emitted
  {
    InnerStartQueue(rev, q, emitted, u);
    TargetsFresh(g, rev, emitted, u);
    InnerStartCounts(g, rev, indeg, emitted, u);
    InnerStartComplete(rev, q, emitted, u, g[u]);
    NotTargets(g, rev, q, u);
  }

  /** The targets of a ready node are neither emitted nor the node itself. */
  lemma TargetsFresh(g: Graph, rev: Graph, emitted: set<TVar>, u: TVar)
    requires IsReverse(rev, g) && u in g && u in rev && u !in emitted && rev[u] <= emitted
    requires forall v :: v in emitted ==> v in rev && rev[v] <= emitted
    ensures forall v :: v in g[u] ==> v !in emitted + {u}
  {
    forall v | v in g[u]
      ensures v !in emitted + {u}
    {
      assert Edge(g, u, v);
    }
  }

  /** Nodes that `u` is not a dependent of are not among its targets. */
  lemma NotTargets(g: Graph, rev: Graph, q: seq<TVar>, u: TVar)
    requires IsReverse(rev, g) && u in g
    requires forall i :: 0 <= i < |q| ==> q[i] in rev && u !in rev[q[i]]
    ensures forall i :: 0 <= i < |q| ==> q[i] !in g[u]
  {
    forall i | 0 <= i < |q|
      ensures q[i] !in g[u]
    {
      if q[i] in g[u] {
        assert Edge(g, u, q[i]);
      }
    }
  }

  /** Popping `u` off the queue and emitting it leaves a valid queue. */
  lemma InnerStartQueue(rev: Graph, q: seq<TVar>, emitted: set<TVar>, u: TVar)
    requires QueueOk([u] + q, rev, emitted)
    ensures QueueOk(q, rev, emitted + {u})
    ensures u in rev && u !in emitted && rev[u] <= emitted
    ensures forall i :: 0 <= i < |q| ==> u !in rev[q[i]]
  {
    var q0 := [u] + q;
    assert u == q0[0];
    forall i | 0 <= i < |q|
      ensures q[i] in rev && q[i] !in emitted + {u} && rev[q[i]] <= emitted + {u} && u !in rev[q[i]]
    {
      assert q[i] == q0[i + 1];
    }
    forall i, j | 0 <= i < j < |q|
      ensures q[i] != q[j]
    {
      assert q[i] == q0[i + 1] && q[j] == q0[j + 1];
    }
  }

  /** Emitting `u` readies no node outside its targets that was not already queued. */
  lemma InnerStartComplete(rev: Graph, q: seq<TVar>, emitted: set<TVar>, u: TVar, targets: set<TVar>)
    requires Complete([u] + q, rev, emitted)
    requires forall v :: v in rev && u in rev[v] ==> v in targets
    ensures forall v :: v in rev && v !in emitted + {u} && rev[v] <= emitted + {u} && v !in targets ==> v in q
  {
    forall v | v in rev && v !in emitted + {u} && rev[v] <= emitted + {u} && v !in targets
      ensures v in q
    {
      assert rev[v] <= emitted;
      var q0 := [u] + q;
      assert v in q0;
      var i :| 0 <= i < |q0| && q0[i] == v;
      assert q[i - 1] == v;
    }
  }

  lemma InnerStartCounts(g: Graph, rev: Graph, indeg: map<TVar, nat>, emitted: set<TVar>, u: TVar)
    requires IsReverse(rev, g) && Counts(indeg, rev, emitted) && u in g && u !in emitted
    ensures forall v :: v in indeg ==> indeg[v] == |rev[v] - (emitted + {u})| + (if v in g[u] then 1 else 0)
  {
    forall v | v in indeg
      ensures indeg[v] == |rev[v] - (emitted + {u})| + (if v in g[u] then 1 else 0)
    {
      CountStep(rev[v], emitted, u);
    }
  }

  /** Emitting a ready node keeps the order valid. */
  lemma OrderStep(g: Graph, rev: Graph, order: seq<TVar>, emitted: set<TVar>, u: TVar)
    requires IsReverse(rev, g) && OrderOk(order, g, rev, emitted)
    requires u in g && u !in emitted && rev[u] <= emitted
    ensures OrderOk(order + [u], g, rev, emitted + {u})
  {
    var order' := order + [u];
    forall i, j | 0 <= i < |order'| && 0 <= j < |order'| && Edge(g, order'[i], order'[j])
      ensures i < j
    {
      if j < |order| && i == |order| {
        assert false;
      }
    }
    forall v | v in emitted + {u}
      ensures v in order'
    {
      if v != u {
        assert v in order;
      }
    }
  }

  /** A target still to be processed is a non-emitted node that still counts `u`. */
  lemma InnerTarget(g: Graph, rev: Graph, indeg: map<TVar, nat>, q: seq<TVar>,
                    emitted: set<TVar>, u: TVar, todo: set<TVar>, v: TVar)
    requires IsReverse(rev, g) && Inner(g, rev, indeg, q, emitted, u, todo) && v in todo
    ensures v in rev && v !in emitted && v in indeg && indeg[v] > 0
    ensures indeg[v] == 1 <==> rev[v] <= emitted
  {
    assert Edge(g, u, v);
    assert indeg[v] == |rev[v] - emitted| + 1;
    ReadyWhenZero(rev[v], emitted);
  }

  lemma ReadyWhenZero(s: set<TVar>, emitted: set<TVar>)
    ensures |s - emitted| == 0 <==> s <= emitted
  {
    if s <= emitted {
      assert s - emitted == {};
    } else {
      var x :| x in s && x !in emitted;
      assert x in s - emitted;
    }
  }

  /** The last count of `v` drops: it becomes ready and joins the queue. */
  lemma InnerPush(g: Graph, rev: Graph, indeg: map<TVar, nat>, q: seq<TVar>, emitted: set<TVar>,
                  u: TVar, todo: set<TVar>, v: TVar)
    requires Inner(g, rev, indeg, q, emitted, u, todo) && v in todo
    requires v in rev && v !in emitted && rev[v] <= emitted && v in indeg && indeg[v] == 1
    ensures Inner(g, rev, indeg[v := indeg[v] - 1], q + [v], emitted, u, todo - {v})
  {
    ReadyWhenZero(rev[v], emitted);
  }

  /** A count of `v` drops but others remain: the queue is unchanged. */
  lemma InnerKeep(g: Graph, rev: Graph, indeg: map<TVar, nat>, q: seq<TVar>, emitted: set<TVar>,
                  u: TVar, todo: set<TVar>, v: TVar)
    requires Inner(g, rev, indeg, q, emitted, u, todo) && v in todo
    requires v in rev && v in indeg && indeg[v] > 1 && !(rev[v] <= emitted)
    ensures Inner(g, rev, indeg[v := indeg[v] - 1], q, emitted, u, todo - {v})
  {
    var indeg' := indeg[v := indeg[v] - 1];
    forall w | w in rev && w !in emitted && rev[w] <= emitted && w !in todo - {v}
      ensures w in q
    {
    }
  }

  /** With every target processed, the counts, the queue and its completeness are those
      of the outer loop. */
  lemma InnerEnd(g: Graph, rev: Graph, indeg: map<TVar, nat>, q: seq<TVar>, emitted: set<TVar>, u: TVar)
    requires Inner(g, rev, indeg, q, emitted, u, {})
    ensures Counts(indeg, rev, emitted) && QueueOk(q, rev, emitted) && Complete(q, rev, emitted)
  {
  }

  /** The inner loop of `topo_sort` for the node `u` just emitted: each of its targets loses
      one from its in-degree and is queued when that reaches zero. */
  method ProcessEdges(g: Graph, ghost rev: Graph, indeg0: map<TVar, nat>, q0: seq<TVar>, u: TVar,
                      ghost order: seq<TVar>, ghost emitted: set<TVar>)
    returns (indeg: map<TVar, nat>, q: seq<TVar>)
    requires Kahn(g, rev, indeg0, [u] + q0, order, emitted) && u in g
    ensures Kahn(g, rev, indeg, q, order + [u], emitted + {u})
  {
    InnerStart(g, rev, indeg0, q0, emitted, u);
    OrderStep(g, rev, order, emitted, u);
    indeg, q := indeg0, q0;
    var todo := g[u];
    while todo != {}
      invariant Inner(g, rev, indeg, q, emitted + {u}, u, todo)
      decreases todo
    {
      var v :| v in todo;
      InnerTarget(g, rev, indeg, q, emitted + {u}, u, todo, v);
      ghost var prev := indeg;
      indeg := indeg[v := indeg[v] - 1];
      if indeg[v] == 0 {
        InnerPush(g, rev, prev, q, emitted + {u}, u, todo, v);
        q := q + [v];
      } else {
        InnerKeep(g, rev, prev, q, emitted + {u}, u, todo, v);
      }
      todo := todo - {v};
    }
    InnerEnd(g, rev, indeg, q, emitted + {u}, u);
  }

  /** The third loop of `topo_sort`: the nodes whose in-degree never reached zero. */
  method LeftOver(indeg: map<TVar, nat>) returns (left: seq<TVar>)
    ensures forall v :: v in left <==> v in indeg && indeg[v] > 0
    ensures forall i, j :: 0 <= i < j < |left| ==> left[i] != left[j]
  {
    left := [];
    var todo := indeg.Keys;
    while todo != {}
      invariant forall v :: v in left <==> v in indeg && v !in todo && indeg[v] > 0
      invariant forall i, j :: 0 <= i < j < |left| ==> left[i] != left[j]
      decreases todo
    {
      var v :| v in todo;
      if indeg[v] > 0 {
        left := left + [v];
      }
      todo := todo - {v};
    }
  }

  /** A ranking in which every node comes before the nodes it depends on witnesses that `g`
      has no cycle. */
  ghost predicate Ranked(g: Graph, rank: map<TVar, nat>)
  {
    forall u, v :: Edge(g, u, v) ==> u in rank && v in rank && rank[u] < rank[v]
  }

  ghost predicate Acyclic(g: Graph)
  {
    exists rank :: Ranked(g, rank)
  }

  /** `v` is one of the nodes in `left`. */
  ghost predicate Listed(left: seq<TVar>, v: TVar)
  {
    v in left
  }

  /** Every node in `left` has a dependent in `left`. */
  ghost predicate EachHasDependent(g: Graph, left: seq<TVar>)
  {
    forall v :: Listed(left, v) ==> exists u :: u in left && Edge(g, u, v)
  }

  /** In a ranked graph no non-empty set of nodes gives each of its members a dependent
      inside the set: following dependents would descend through the ranks forever. */
  lemma {:induction false} NoDependentCycle(g: Graph, rank: map<TVar, nat>, left: seq<TVar>, n: nat)
    requires Ranked(g, rank)
    requires EachHasDependent(g, left)
    ensures forall v :: v in left ==> v in rank && rank[v] >= n
  {
    if n > 0 {
      NoDependentCycle(g, rank, left, n - 1);
    }
    forall v | v in left
      ensures v in rank && rank[v] >= n
    {
      assert Listed(left, v);
      var u :| u in left && Edge(g, u, v);
    }
  }

  /** So Kahn's algorithm leaves nothing over in a graph without cycles. */
  lemma NothingLeft(g: Graph, left: seq<TVar>)
    requires Acyclic(g)
    requires EachHasDependent(g, left)
    ensures left == []
  {
    if left != [] {
      var rank :| Ranked(g, rank);
      NoDependentCycle(g, rank, left, 0);
      assert left[0] in left;
      NoDependentCycle(g, rank, left, rank[left[0]] + 1);
    }
  }

  /** `order` lists distinct keys of `g`, each after every node that depends on it and
      with all of those dependents listed; `left` lists, without repeats, every other key
      or target of `g`, each with a dependent that is also left over; and in a graph
      without cycles nothing is left over. */
  ghost predicate TopoSorted(g: Graph, order: seq<TVar>, left: seq<TVar>)
  {
    && (forall i :: 0 <= i < |order| ==> order[i] in g)
    && (forall i, j :: 0 <= i < j < |order| ==> order[i] != order[j])
    && (forall i, j :: 0 <= i < |order| && 0 <= j < |order| && Edge(g, order[i], order[j]) ==> i < j)
    && (forall i, u :: 0 <= i < |order| && Edge(g, u, order[i]) ==> u in order)
    && (forall i, j :: 0 <= i < j < |left| ==> left[i] != left[j])
    && (forall i :: 0 <= i < |left| ==> left[i] !in order)
    && EachHasDependent(g, left)
    && (forall k :: k in g && k !in order ==> k in left)
    && (forall u, v :: Edge(g, u, v) && v !in order ==> v in left)
    && (left == [] <==> |order| == |g|)
    && (Acyclic(g) ==> left == [] && forall k :: k in g ==> k in order)
  }

  /** `topo_sort`: Kahn's algorithm over the reverse graph. The result is the emitted order,
      in which every node comes after all the nodes that depend on it, and the nodes left
      over, each of which has a left-over dependent (they lie on a cycle or depend on one).
      A dequeued node that is not a key of the graph panics at its lookup. */
  method TopoSort(depTree: Graph) returns (r: Panicking<(seq<TVar>, seq<TVar>)>)
    ensures r.Panic? ==> exists u, v :: Edge(depTree, u, v) && v !in depTree
    ensures (forall u, v :: Edge(depTree, u, v) ==> v in depTree) ==> r.Value?
    ensures r.Value? ==> TopoSorted(depTree, r.value.0, r.value.1)
  {
    var rev := ReverseGraph(depTree);
    var indeg := InDegrees(rev);
    var q := Seeds(depTree, indeg);
    KahnStart(depTree, rev, indeg, q);
    var order: seq<TVar> := [];
    ghost var emitted: set<TVar> := {};
    while q != []
      invariant Kahn(depTree, rev, indeg, q, order, emitted)
      decreases rev.Keys - emitted
    {
      PopFront(q);
      var node := q[0];
      q := q[1..];
      if node !in depTree {
        assert rev[node] != {};
        var u :| u in rev[node];
        return Panic("called `Option::unwrap()` on a `None` value");
      }
      indeg, q := ProcessEdges(depTree, rev, indeg, q, node, order, emitted);
      order := order + [node];
      emitted := emitted + {node};
    }
    var left := LeftOver(indeg);
    KahnEnd(depTree, rev, indeg, order, emitted, left);
    r := Value((order, left));
  }

  lemma PopFront(q: seq<TVar>)
    requires q != []
    ensures q == [q[0]] + q[1..]
  {
  }

  lemma KahnEnd(g: Graph, rev: Graph, indeg: map<TVar, nat>, order: seq<TVar>, emitted: set<TVar>, left: seq<TVar>)
    requires Kahn(g, rev, indeg, [], order, emitted)
    requires forall v :: v in left <==> v in indeg && indeg[v] > 0
    requires forall i, j :: 0 <= i < j < |left| ==> left[i] != left[j]
    ensures TopoSorted(g, order, left)
  {
    LeftIsStuck(rev, indeg, order, emitted, left);
    StuckIsLeft(rev, indeg, order, emitted, left);
    LeftHasDependent(g, rev, indeg, emitted, left);
    DistinctCount(order, g.Keys);
    if left != [] {
      assert Listed(left, left[0]);
      var u :| u in left && Edge(g, u, left[0]);
      assert u in g && u !in order;
    }
    forall i, u | 0 <= i < |order| && Edge(g, u, order[i])
      ensures u in order
    {
      assert u in rev[order[i]];
    }
    if Acyclic(g) {
      NothingLeft(g, left);
    }
  }

  /** A node left over still counts a dependent, so it was never emitted. */
  lemma LeftIsStuck(rev: Graph, indeg: map<TVar, nat>, order: seq<TVar>, emitted: set<TVar>, left: seq<TVar>)
    requires Counts(indeg, rev, emitted)
    requires forall v :: v in emitted ==> v in rev && rev[v] <= emitted
    requires forall i :: 0 <= i < |order| ==> order[i] in emitted
    requires forall v :: v in left <==> v in indeg && indeg[v] > 0
    ensures forall i :: 0 <= i < |left| ==> left[i] !in order && left[i] !in emitted
  {
    forall i | 0 <= i < |left|
      ensures left[i] !in order && left[i] !in emitted
    {
      var v := left[i];
      assert v in left;
      assert indeg[v] == |rev[v] - emitted|;
      ReadyWhenZero(rev[v], emitted);
    }
  }

  /** After the last step, a node that was not emitted still has a dependent left. */
  lemma StuckIsLeft(rev: Graph, indeg: map<TVar, nat>, order: seq<TVar>, emitted: set<TVar>, left: seq<TVar>)
    requires Counts(indeg, rev, emitted) && Complete([], rev, emitted)
    requires forall v :: v in emitted ==> v in order
    requires forall v :: v in left <==> v in indeg && indeg[v] > 0
    ensures forall v :: v in rev && v !in order ==> v in left
  {
    forall v | v in rev && v !in order
      ensures v in left
    {
      assert v !in emitted;
      assert indeg[v] == |rev[v] - emitted|;
      ReadyWhenZero(rev[v], emitted);
    }
  }

  /** Each node left over has a dependent that was not emitted, which is left over too. */
  lemma LeftHasDependent(g: Graph, rev: Graph, indeg: map<TVar, nat>, emitted: set<TVar>, left: seq<TVar>)
    requires IsReverse(rev, g) && Counts(indeg, rev, emitted) && Complete([], rev, emitted)
    requires forall v :: v in left <==> v in indeg && indeg[v] > 0
    ensures EachHasDependent(g, left)
  {
    forall v | Listed(left, v)
      ensures exists u :: u in left && Edge(g, u, v)
    {
      assert indeg[v] == |rev[v] - emitted|;
      ReadyWhenZero(rev[v], emitted);
      var u :| u in rev[v] && u !in emitted;
      assert Edge(g, u, v);
      assert u in rev;
      assert indeg[u] == |rev[u] - emitted|;
      ReadyWhenZero(rev[u], emitted);
    }
  }

  /** The distinct elements of `s`, drawn from `keys`, number `|keys|` exactly when they
      cover `keys`. */
  lemma DistinctCount(s: seq<TVar>, keys: set<TVar>)
    requires forall i :: 0 <= i < |s| ==> s[i] in keys
    requires forall i, j :: 0 <= i < j < |s| ==> s[i] != s[j]
    ensures |s| == |keys| <==> forall k :: k in keys ==> k in s
  {
    var elems := set i | 0 <= i < |s| :: s[i];
    DistinctCard(s);
    assert keys == elems + (keys - elems);
    if |s| == |keys| {
      assert keys - elems == {};
      forall k | k in keys
        ensures k in s
      {
        assert k in elems;
      }
    }
    if forall k :: k in keys ==> k in s {
      forall k | k in keys
        ensures k in elems
      {
        var i :| 0 <= i < |s| && s[i] == k;
      }
      assert keys - elems == {};
    }
  }

  /** A sequence without repeats has as many distinct elements as it has entries. */
  lemma {:induction false} DistinctCard(s: seq<TVar>)
    requires forall i, j :: 0 <= i < j < |s| ==> s[i] != s[j]
    ensures |set i | 0 <= i < |s| :: s[i]| == |s|
  {
    if s != [] {
      var s' := s[..|s| - 1];
      DistinctCard(s');
      var e := s[|s| - 1];
      var elems' := set i | 0 <= i < |s'| :: s'[i];
      assert (set i | 0 <= i < |s| :: s[i]) == elems' + {e};
      assert e !in elems';
    }
  }
}
