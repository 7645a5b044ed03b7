/** `_propagate_soft_delete_recursive`: soft-deleting a row soft-deletes, level
  * by level, the live rows that point at it through one-to-many relations of
  * soft-deletable models. Rows are identified as the walk's `visited` set
  * identifies them, by model name and primary key; the relations of each row
  * are given as a graph. */
module Propagation {
  import opened Common

  /** `(model.__name__, str(instance.pk))`. */
  datatype Node = Node(model: string, pk: int)

  /** For each row, one list per reverse one-to-many relation of its model
    * whose related model is soft-deletable: the rows on the other side. */
  type Graph = map<Node, seq<seq<Node>>>

  /** The `deleted_at` column of every row. */
  type Stamps = map<Node, Option<Time>>

  /** Every row related to `p` through any of its relations. */
  ghost function Kids(g: Graph, p: Node): set<Node> {
    if p in g then set j, c | 0 <= j < |g[p]| && c in g[p][j] :: c else {}
  }

  lemma {:induction false} KidsOf(g: Graph, p: Node, j: int, c: Node)
    requires p in g && 0 <= j < |g[p]| && c in g[p][j]
    ensures c in Kids(g, p)
  {
  }

  /** `m` is related to one of `parents`. */
  ghost predicate KidOfAny(g: Graph, m: Node, parents: seq<Node>) {
    exists j :: 0 <= j < |parents| && m in Kids(g, parents[j])
  }

  /** Each row of the trail after the first is related to an earlier one: the
    * trail is the order in which the walk entered rows. */
  ghost predicate Chain(g: Graph, t: seq<Node>) {
    forall k :: 0 < k < |t| ==> KidOfAny(g, t[k], t[..k])
  }

  /** From `d0` to `d1` only live rows changed, and each became deleted at
    * `now` and is related to one of `parents`. */
  ghost predicate Grew(g: Graph, d0: Stamps, d1: Stamps, now: Time, parents: set<Node>) {
    d1.Keys == d0.Keys
    && forall m :: m in d0 ==>
         (d0[m].Some? ==> d1[m] == d0[m])
         && (d1[m] != d0[m] ==> d1[m] == Some(now) && exists p :: p in parents && m in Kids(g, p))
  }

  /** Every row that changed from `d0` to `d1` was entered by the walk. */
  ghost predicate Entered(d0: Stamps, d1: Stamps, out: set<Node>) {
    forall m :: m in d0 && m in d1 && d1[m] != d0[m] ==> m in out
  }

  /** The rows the walk entered, in order, are exactly those of `out` not
    * already in `visited`, and each after the first is related to an
    * earlier one. */
  ghost predicate Trail(g: Graph, trail: seq<Node>, out: set<Node>, visited: set<Node>) {
    Chain(g, trail) && forall m :: m in trail <==> m in out && m !in visited
  }

  /** Every row related to `p` is deleted in `d`. */
  ghost predicate AllStamped(g: Graph, d: Stamps, p: Node) {
    forall c :: c in Kids(g, p) ==> c in d && d[c].Some?
  }

  /** The rows related to `nodes[from..]` are all deleted in `d`. */
  ghost predicate Swept(g: Graph, d: Stamps, nodes: seq<Node>, from: int) {
    forall k :: 0 <= from <= k < |nodes| ==> AllStamped(g, d, nodes[k])
  }

  lemma {:induction false} ChainAppend(g: Graph, t: seq<Node>, s: seq<Node>)
    requires Chain(g, t) && Chain(g, s)
    requires |s| > 0 ==> KidOfAny(g, s[0], t)
    ensures Chain(g, t + s)
  {
    var ts := t + s;
    forall k | 0 < k < |ts|
      ensures KidOfAny(g, ts[k], ts[..k])
    {
      if k < |t| {
        assert ts[..k] == t[..k];
        assert KidOfAny(g, t[k], t[..k]);
      } else if k == |t| {
        assert ts[..k] == t;
      } else {
        var k' := k - |t|;
        assert KidOfAny(g, s[k'], s[..k']);
        var j :| 0 <= j < k' && s[k'] in Kids(g, s[..k'][j]);
        assert ts[..k][j + |t|] == s[j];
      }
    }
  }

  /** Appending the trail of a call that started from `outB` (and entered a
    * row related to the first row of `t`) to the trail `t` of the rows
    * entered since `visited`. */
  lemma {:induction false} TrailStep(g: Graph, t: seq<Node>, s: seq<Node>, visited: set<Node>,
                                     outB: set<Node>, outA: set<Node>)
    requires Trail(g, t, outB, visited) && Trail(g, s, outA, outB)
    requires |t| > 0 && (|s| > 0 ==> s[0] in Kids(g, t[0]))
    requires visited <= outB <= outA
    ensures Trail(g, t + s, outA, visited)
  {
    if |s| > 0 {
      assert KidOfAny(g, s[0], t);
    }
    ChainAppend(g, t, s);
  }

  /** Changes compose, and the set of parents may grow. */
  lemma {:induction false} GrewStep(g: Graph, d0: Stamps, d1: Stamps, d2: Stamps, now: Time,
                                    p1: set<Node>, p2: set<Node>, p: set<Node>)
    requires Grew(g, d0, d1, now, p1) && Grew(g, d1, d2, now, p2) && p1 <= p && p2 <= p
    ensures Grew(g, d0, d2, now, p)
  {
    forall m | m in d0 && d2[m] != d0[m]
      ensures d2[m] == Some(now) && exists q :: q in p && m in Kids(g, q)
    {
      if d1[m] != d0[m] {
        var q :| q in p1 && m in Kids(g, q);
        assert q in p;
      } else {
        var q :| q in p2 && m in Kids(g, q);
        assert q in p;
      }
    }
  }

  /** Deleted rows stay deleted, so what was swept stays swept. */
  lemma {:induction false} SweptStays(g: Graph, d0: Stamps, d1: Stamps, now: Time, parents: set<Node>,
                                      nodes: seq<Node>, from: int)
    requires Grew(g, d0, d1, now, parents) && Swept(g, d0, nodes, from)
    ensures Swept(g, d1, nodes, from)
  {
    forall k, c | 0 <= from <= k < |nodes| && c in Kids(g, nodes[k])
      ensures c in d1 && d1[c].Some?
    {
      assert AllStamped(g, d0, nodes[k]);
    }
  }

  lemma {:induction false} SweptAppend(g: Graph, d: Stamps, t: seq<Node>, s: seq<Node>, from: int)
    requires Swept(g, d, t, from) && Swept(g, d, s, 0) && 0 <= from <= |t|
    ensures Swept(g, d, t + s, from)
  {
    forall k | from <= k < |t + s|
      ensures AllStamped(g, d, (t + s)[k])
    {
      if k < |t| {
        assert (t + s)[k] == t[k];
      } else {
        assert (t + s)[k] == s[k - |t|];
      }
    }
  }

  /** The rows and their `deleted_at` columns. */
  class RowStore {
    const graph: Graph
    var stamps: Stamps

    ghost predicate Valid()
      reads this
    {
      stamps.Keys == graph.Keys
      && forall p :: p in graph ==> Kids(graph, p) <= graph.Keys
    }

    constructor (graph0: Graph, stamps0: Stamps)
      requires stamps0.Keys == graph0.Keys
      requires forall p :: p in graph0 ==> Kids(graph0, p) <= graph0.Keys
      ensures Valid() && graph == graph0 && stamps == stamps0
    {
      graph := graph0;
      stamps := stamps0;
    }
  }

  /** The live rows of `rel`, in order: `filter(deleted_at__isnull=True)`. */
  function Alive(d: Stamps, rel: seq<Node>): (r: seq<Node>)
    ensures forall c :: c in r <==> c in rel && c in d && d[c].None?
  {
    Filter(rel, (c: Node) => c in d && d[c].None?)
  }

  /** `related_queryset.update(deleted_at=now)`. */
  method StampAll(store: RowStore, rel: seq<Node>, now: Time)
    requires store.Valid()
    requires forall c :: c in rel ==> c in store.graph
    modifies store
    ensures store.Valid()
    ensures store.stamps.Keys == old(store.stamps).Keys
    ensures forall m :: m in store.stamps ==>
              store.stamps[m] == if m in rel then Some(now) else old(store.stamps)[m]
  {
    var i := 0;
    while i < |rel|
      invariant 0 <= i <= |rel|
      invariant store.Valid()
      invariant store.stamps.Keys == old(store.stamps).Keys
      invariant forall m :: m in store.stamps ==>
                  store.stamps[m] == if m in rel[..i] then Some(now) else old(store.stamps)[m]
    {
      assert rel[..i + 1] == rel[..i] + [rel[i]];
      store.stamps := store.stamps[rel[i] := Some(now)];
      i := i + 1;
    }
    assert rel[..i] == rel;
  }

  /** The state of a walk that started from the stamps `d0` with the set
    * `visited`: `out` is the grown set, `trail` extends `trail0` with the rows
    * entered since, rows changed only as `Grew` allows and only rows that
    * were entered, and the rows related to `trail[from..]` are all deleted. */
  ghost predicate WalkInv(g: Graph, d0: Stamps, d: Stamps, now: Time, visited: set<Node>, out: set<Node>,
                          trail0: seq<Node>, trail: seq<Node>) {
    visited <= out <= g.Keys
    && |trail| >= |trail0| && trail[..|trail0|] == trail0
    && Trail(g, trail, out, visited)
    && Grew(g, d0, d, now, out - visited)
    && Entered(d0, d, out)
    && Swept(g, d, trail, |trail0|)
  }

  /** Two stretches of the same walk make one. */
  lemma {:induction false} WalkCompose(g: Graph, d0: Stamps, dB: Stamps, dA: Stamps, now: Time, visited: set<Node>,
                                       outB: set<Node>, outA: set<Node>, t0: seq<Node>, tB: seq<Node>, tA: seq<Node>)
    requires WalkInv(g, d0, dB, now, visited, outB, t0, tB) && WalkInv(g, dB, dA, now, visited, outA, tB, tA)
    ensures WalkInv(g, d0, dA, now, visited, outA, t0, tA)
  {
    assert tA[..|t0|] == tA[..|tB|][..|t0|];
    GrewStep(g, d0, dB, dA, now, outB - visited, outA - visited, outA - visited);
    SweptStays(g, dB, dA, now, outA - visited, tB, |t0|);
    assert tA[..|tB|] == tB;
    SweptJoin(g, dA, tA, |t0|, |tB|);
    forall m | m in d0 && m in dA && dA[m] != d0[m]
      ensures m in outA
    {
      if m in dB && dB[m] != d0[m] {
        assert m in outB;
      }
    }
  }

  /** The first half of one relation of the row `n`: stamp the live rows
    * related to `n` through `rel` and return them in order. */
  method StampLive(store: RowStore, n: Node, rel: seq<Node>, now: Time) returns (alive: seq<Node>)
    requires store.Valid() && n in store.graph && rel in store.graph[n]
    modifies store
    ensures store.Valid()
    ensures forall c :: c in alive ==> c in Kids(store.graph, n)
    ensures Grew(store.graph, old(store.stamps), store.stamps, now, {n})
    ensures forall m :: m in old(store.stamps) && m in store.stamps && store.stamps[m] != old(store.stamps)[m] ==>
              m in alive
    ensures forall c :: c in rel ==> c in store.stamps && store.stamps[c].Some?
  {
    var j :| 0 <= j < |store.graph[n]| && store.graph[n][j] == rel;
    forall c | c in rel
      ensures c in Kids(store.graph, n)
    {
      KidsOf(store.graph, n, j, c);
    }
    alive := Alive(store.stamps, rel);
    StampAll(store, alive, now);
  }

  /** Stamping the live rows of one relation, then descending into all of
    * them, is one stretch of the walk. */
  lemma {:induction false} RelationDone(g: Graph, d0: Stamps, d1: Stamps, d2: Stamps, now: Time, n: Node,
                                        alive: seq<Node>, visited: set<Node>, out0: set<Node>, out: set<Node>,
                                        trail0: seq<Node>, trail: seq<Node>)
    requires n in out0 && n !in visited && out0 <= out
    requires Grew(g, d0, d1, now, {n})
    requires forall m :: m in d0 && m in d1 && d1[m] != d0[m] ==> m in alive
    requires forall c :: c in alive ==> c in out
    requires WalkInv(g, d1, d2, now, visited, out, trail0, trail)
    ensures WalkInv(g, d0, d2, now, visited, out, trail0, trail)
  {
    GrewStep(g, d0, d1, d2, now, {n}, out - visited, out - visited);
    forall m | m in d0 && m in d2 && d2[m] != d0[m]
      ensures m in out
    {
      if m in d1 && d1[m] != d0[m] {
        assert m in alive;
      }
    }
  }

  /** One relation of the row `n`: stamp its live rows, then descend into
    * each of them with the shared `visited` set (`out0` on entry). */
  method PropagateRelation(store: RowStore, n: Node, rel: seq<Node>, ghost visited: set<Node>,
                           out0: set<Node>, ghost trail0: seq<Node>, now: Time)
    returns (out: set<Node>, ghost trail: seq<Node>)
    requires store.Valid() && n in store.graph && rel in store.graph[n]
    requires n !in visited && visited + {n} <= out0 <= store.graph.Keys
    requires |trail0| > 0 && trail0[0] == n && Trail(store.graph, trail0, out0, visited)
    modifies store
    decreases store.graph.Keys - visited, 1
    ensures store.Valid() && out0 <= out
    ensures WalkInv(store.graph, old(store.stamps), store.stamps, now, visited, out, trail0, trail)
    ensures forall c :: c in rel ==> c in store.stamps && store.stamps[c].Some?
  {
    var alive := StampLive(store, n, rel, now);
    ghost var stamped := store.stamps;
    out, trail := Descend(store, n, alive, visited, out0, trail0, now);
    RelationDone(store.graph, old(store.stamps), stamped, store.stamps, now, n, alive, visited, out0, out, trail0, trail);
    forall c | c in rel
      ensures c in store.stamps && store.stamps[c].Some?
    {
      assert stamped[c].Some?;
    }
  }

  /** The second half of one relation of the row `n`: recurse into each of
    * the freshly stamped rows `alive`, threading the `visited` set. */
  method Descend(store: RowStore, n: Node, alive: seq<Node>, ghost visited: set<Node>,
                 out0: set<Node>, ghost trail0: seq<Node>, now: Time)
    returns (out: set<Node>, ghost trail: seq<Node>)
    requires store.Valid() && n in store.graph
    requires forall c :: c in alive ==> c in Kids(store.graph, n)
    requires n !in visited && visited + {n} <= out0 <= store.graph.Keys
    requires |trail0| > 0 && trail0[0] == n && Trail(store.graph, trail0, out0, visited)
    modifies store
    decreases store.graph.Keys - visited, 0
    ensures store.Valid() && out0 <= out
    ensures WalkInv(store.graph, old(store.stamps), store.stamps, now, visited, out, trail0, trail)
    ensures forall c :: c in alive ==> c in out
  {
    out, trail := out0, trail0;
    assert trail[..|trail0|] == trail0;
    var i := 0;
    while i < |alive|
      invariant 0 <= i <= |alive|
      invariant store.Valid() && out0 <= out
      invariant WalkInv(store.graph, old(store.stamps), store.stamps, now, visited, out, trail0, trail)
      invariant forall k :: 0 <= k < i ==> alive[k] in out
    {
      ghost var before, outBefore, trailBefore := store.stamps, out, trail;
      ghost var sub;
      out, sub := Propagate(store, alive[i], out, now);
      DescendStep(store.graph, old(store.stamps), before, store.stamps, now, n, alive[i], visited,
                  outBefore, out, trail0, trailBefore, sub);
      trail := trailBefore + sub;
      forall k | 0 <= k < i + 1
        ensures alive[k] in out
      {
        if k < i {
          assert alive[k] in outBefore;
        }
      }
      i := i + 1;
    }
  }

  /** One recursive call of `Descend` keeps its loop invariant. */
  lemma {:induction false} DescendStep(g: Graph, d0: Stamps, dB: Stamps, dA: Stamps, now: Time, n: Node, c: Node,
                                       visited: set<Node>, outB: set<Node>, outA: set<Node>,
                                       trail0: seq<Node>, trailB: seq<Node>, sub: seq<Node>)
    requires c in Kids(g, n) && |trail0| > 0 && trail0[0] == n
    requires WalkInv(g, d0, dB, now, visited, outB, trail0, trailB)
    requires WalkInv(g, dB, dA, now, outB, outA, [], sub)
    requires c !in outB ==> |sub| > 0 && sub[0] == c
    requires c in outB ==> sub == []
    ensures WalkInv(g, d0, dA, now, visited, outA, trail0, trailB + sub)
  {
    assert trailB[0] == trailB[..|trail0|][0] == n;
    TrailStep(g, trailB, sub, visited, outB, outA);
    assert (trailB + sub)[..|trail0|] == trailB[..|trail0|];
    assert (trailB + sub)[..|trailB|] == trailB;
    assert WalkInv(g, dB, dA, now, visited, outA, trailB, trailB + sub) by {
      GrewStep(g, dB, dB, dA, now, {}, outA - outB, outA - visited);
      SweptAppend(g, dA, [], sub, 0);
      assert [] + sub == sub;
      forall k | |trailB| <= k < |trailB + sub|
        ensures AllStamped(g, dA, (trailB + sub)[k])
      {
        assert (trailB + sub)[k] == sub[k - |trailB|];
      }
    }
    WalkCompose(g, d0, dB, dA, now, visited, outB, outA, trail0, trailB, trailB + sub);
  }

  /** Rows swept as a prefix and as the rest are swept as a whole. */
  lemma {:induction false} SweptJoin(g: Graph, d: Stamps, t: seq<Node>, from: int, mid: int)
    requires 0 <= from <= mid <= |t|
    requires Swept(g, d, t[..mid], from) && Swept(g, d, t, mid)
    ensures Swept(g, d, t, from)
  {
    forall k | from <= k < |t|
      ensures AllStamped(g, d, t[k])
    {
      if k < mid {
        assert t[..mid][k] == t[k];
      }
    }
  }

  /** `_propagate_soft_delete_recursive(instance, model, visited)`: nothing
    * when the row was visited; otherwise mark it visited and propagate
    * through each of its relations in turn. Returns the grown `visited` set
    * and, as a proof aid, the rows entered in order. */
  method Propagate(store: RowStore, n: Node, visited: set<Node>, now: Time)
    returns (out: set<Node>, ghost trail: seq<Node>)
    requires store.Valid() && n in store.graph && visited <= store.graph.Keys
    modifies store
    decreases store.graph.Keys - visited, 2
    ensures store.Valid() && n in out
    ensures n in visited ==> out == visited && trail == [] && store.stamps == old(store.stamps)
    ensures n !in visited ==> |trail| > 0 && trail[0] == n
    ensures WalkInv(store.graph, old(store.stamps), store.stamps, now, visited, out, [], trail)
  {
    if n in visited {
      WalkBegin(store.graph, store.stamps, now, visited, n);
      return visited, [];
    }
    out := visited + {n};
    trail := [n];
    WalkBegin(store.graph, store.stamps, now, visited, n);
    var relations := store.graph[n];
    var r := 0;
    while r < |relations|
      invariant 0 <= r <= |relations|
      invariant store.Valid() && n in out && n !in visited
      invariant WalkInv(store.graph, old(store.stamps), store.stamps, now, visited, out, [n], trail)
      invariant RelationsSwept(store.graph, store.stamps, n, r)
    {
      ghost var before, outBefore, trailBefore := store.stamps, out, trail;
      WalkHead(store.graph, old(store.stamps), store.stamps, now, visited, out, n, trail);
      out, trail := PropagateRelation(store, n, relations[r], visited, out, trail, now);
      WalkCompose(store.graph, old(store.stamps), before, store.stamps, now, visited, outBefore, out, [n], trailBefore, trail);
      RelationsSweptStep(store.graph, before, store.stamps, now, out - visited, n, r);
      r := r + 1;
    }
    WalkStart(store.graph, old(store.stamps), store.stamps, now, visited, out, n, trail);
  }

  /** The rows of the first `r` relations of `n` are all deleted in `d`. */
  ghost predicate RelationsSwept(g: Graph, d: Stamps, n: Node, r: int) {
    n in g && forall j, c :: 0 <= j < r && j < |g[n]| && c in g[n][j] ==> c in d && d[c].Some?
  }

  lemma {:induction false} RelationsSweptStep(g: Graph, d0: Stamps, d1: Stamps, now: Time, parents: set<Node>, n: Node, r: int)
    requires RelationsSwept(g, d0, n, r) && Grew(g, d0, d1, now, parents) && 0 <= r < |g[n]|
    requires forall c :: c in g[n][r] ==> c in d1 && d1[c].Some?
    ensures RelationsSwept(g, d1, n, r + 1)
  {
    forall j, c | 0 <= j < r + 1 && j < |g[n]| && c in g[n][j]
      ensures c in d1 && d1[c].Some?
    {
      if j < r {
        assert d0[c].Some?;
      }
    }
  }

  /** An empty walk, and a walk that has entered only `n`. */
  lemma {:induction false} WalkBegin(g: Graph, d: Stamps, now: Time, visited: set<Node>, n: Node)
    requires n in g && visited <= g.Keys
    ensures Grew(g, d, d, now, {})
    ensures WalkInv(g, d, d, now, visited, visited, [], [])
    ensures n !in visited ==> WalkInv(g, d, d, now, visited, visited + {n}, [n], [n])
                              && RelationsSwept(g, d, n, 0)
  {
    assert [n][..1] == [n];
  }

  /** The facts `PropagateRelation` needs about a walk that started at `n`. */
  lemma {:induction false} WalkHead(g: Graph, d0: Stamps, d: Stamps, now: Time, visited: set<Node>, out: set<Node>,
                                    n: Node, trail: seq<Node>)
    requires WalkInv(g, d0, d, now, visited, out, [n], trail)
    ensures |trail| > 0 && trail[0] == n && Trail(g, trail, out, visited) && visited + {n} <= out <= g.Keys
  {
    assert trail[0] == trail[..1][0];
  }

  /** Once every relation of `n` is swept, the walk from `n` is swept from
    * its first row on. */
  lemma {:induction false} WalkStart(g: Graph, d0: Stamps, d: Stamps, now: Time, visited: set<Node>, out: set<Node>,
                                     n: Node, trail: seq<Node>)
    requires n in g && WalkInv(g, d0, d, now, visited, out, [n], trail)
    requires RelationsSwept(g, d, n, |g[n]|)
    ensures WalkInv(g, d0, d, now, visited, out, [], trail)
  {
    assert trail[0] == trail[..1][0] == n;
    forall k | 0 <= k < |trail|
      ensures AllStamped(g, d, trail[k])
    {
      if k == 0 {
        forall c | c in Kids(g, n)
          ensures c in d && d[c].Some?
        {
          var j, c' :| 0 <= j < |g[n]| && c' in g[n][j] && c' == c;
        }
      }
    }
  }

  /** With an empty `visited` set to start from, the walk is closed: every
    * row related to a row it entered that was live before is itself entered
    * and deleted. */
  lemma {:induction false} WalkIsClosed(g: Graph, d0: Stamps, d1: Stamps, now: Time, out: set<Node>, trail: seq<Node>)
    requires Trail(g, trail, out, {}) && Entered(d0, d1, out) && Swept(g, d1, trail, 0) && d1.Keys == d0.Keys
    ensures forall k, c :: 0 <= k < |trail| && c in Kids(g, trail[k]) && c in d0 && d0[c].None? ==>
              c in trail && d1[c].Some?
  {
    forall k, c | 0 <= k < |trail| && c in Kids(g, trail[k]) && c in d0 && d0[c].None?
      ensures c in trail && d1[c].Some?
    {
      assert AllStamped(g, d1, trail[k]);
    }
  }
}
