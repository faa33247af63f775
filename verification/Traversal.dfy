/**
 Depth-first traversal of a finite manifest graph, in two forms: the recursive
 post-order that marks a node on entry, and the explicit stack of Process/Store
 frames that the mirror engine runs. Nodes are manifest digests and the graph
 maps each digest to its child digests, in document order.
 */
module Traversal {
  type Graph = map<string, seq<string>>

  ghost predicate Closed(g: Graph) {
    forall n, c :: n in g && c in g[n] ==> c in g
  }

  /** What a traversal leaves behind: the marked nodes and the order of the puts it made. */
  datatype Visit = Visit(seen: set<string>, order: seq<string>)

  ghost function Dfs(g: Graph, n: string, seen: set<string>): (r: Visit)
    requires Closed(g) && n in g && seen <= g.Keys
    ensures seen <= r.seen <= g.Keys
    decreases g.Keys - seen, 0
  {
    if n in seen then Visit(seen, [])
    else
      var kids := DfsAll(g, g[n], seen + {n});
      Visit(kids.seen, kids.order + [n])
  }

  ghost function DfsAll(g: Graph, ns: seq<string>, seen: set<string>): (r: Visit)
    requires Closed(g) && seen <= g.Keys && forall n :: n in ns ==> n in g
    ensures seen <= r.seen <= g.Keys
    decreases g.Keys - seen, 1, |ns|
  {
    if ns == [] then Visit(seen, [])
    else
      var first := Dfs(g, ns[0], seen);
      var rest := DfsAll(g, ns[1..], first.seen);
      Visit(rest.seen, first.order + rest.order)
  }

  // ---- Which nodes a traversal puts ----

  lemma {:induction false} DfsPutsExactlyTheNewNodes(g: Graph, n: string, seen: set<string>)
    requires Closed(g) && n in g && seen <= g.Keys
    ensures var r := Dfs(g, n, seen);
            && n in r.seen
            && (forall x :: x in r.order <==> x in r.seen && x !in seen)
            && (forall x, c :: x in r.order && c in g[x] ==> c in r.seen)
    decreases g.Keys - seen, 0
  {
    if n !in seen {
      DfsAllPutsExactlyTheNewNodes(g, g[n], seen + {n});
    }
  }

  lemma {:induction false} DfsAllPutsExactlyTheNewNodes(g: Graph, ns: seq<string>, seen: set<string>)
    requires Closed(g) && seen <= g.Keys && forall n :: n in ns ==> n in g
    ensures var r := DfsAll(g, ns, seen);
            && (forall n :: n in ns ==> n in r.seen)
            && (forall x :: x in r.order <==> x in r.seen && x !in seen)
            && (forall x, c :: x in r.order && c in g[x] ==> c in r.seen)
    decreases g.Keys - seen, 1, |ns|
  {
    if ns != [] {
      var first := Dfs(g, ns[0], seen);
      DfsPutsExactlyTheNewNodes(g, ns[0], seen);
      DfsAllPutsExactlyTheNewNodes(g, ns[1..], first.seen);
    }
  }

  // ---- Everything reachable is put ----

  ghost predicate IsPath(g: Graph, p: seq<string>) {
    && p != []
    && (forall i :: 0 <= i < |p| ==> p[i] in g)
    && (forall i :: 0 <= i < |p| - 1 ==> p[i + 1] in g[p[i]])
  }

  ghost predicate Reachable(g: Graph, root: string, n: string) {
    exists p :: IsPath(g, p) && p[0] == root && p[|p| - 1] == n
  }

  /** On every finite graph, cyclic or not, a traversal from scratch puts exactly the reachable nodes, once each. */
  lemma DfsPutsExactlyTheReachable(g: Graph, root: string)
    requires Closed(g) && root in g
    ensures forall n :: Reachable(g, root, n) <==> n in Dfs(g, root, {}).order
    ensures NoRepeats(Dfs(g, root, {}).order)
  {
    var r := Dfs(g, root, {});
    DfsPutsExactlyTheNewNodes(g, root, {});
    forall n | Reachable(g, root, n) ensures n in r.order {
      var p :| IsPath(g, p) && p[0] == root && p[|p| - 1] == n;
      PathStaysInside(g, r.seen, p, |p| - 1);
    }
    forall n | n in r.order ensures Reachable(g, root, n) {
      assert IsPath(g, [root]);
      DfsOrderIsReachable(g, root, root, {}, n);
    }
    DfsNeverRepeats(g, root, {});
  }

  lemma {:induction false} PathStaysInside(g: Graph, inside: set<string>, p: seq<string>, i: nat)
    requires IsPath(g, p) && i < |p| && p[0] in inside
    requires forall x, c :: x in inside && x in g && c in g[x] ==> c in inside
    ensures p[i] in inside
  {
    if i > 0 {
      PathStaysInside(g, inside, p, i - 1);
      assert p[i - 1 + 1] in g[p[i - 1]];
    }
  }

  lemma ReachableStep(g: Graph, root: string, n: string, c: string)
    requires Closed(g) && Reachable(g, root, n) && n in g && c in g[n]
    ensures Reachable(g, root, c)
  {
    var p :| IsPath(g, p) && p[0] == root && p[|p| - 1] == n;
    var q := p + [c];
    assert forall i :: 0 <= i < |q| - 1 ==> q[i + 1] in g[q[i]];
    assert IsPath(g, q) && q[0] == root && q[|q| - 1] == c;
  }

  lemma {:induction false} DfsOrderIsReachable(g: Graph, root: string, n: string, seen: set<string>, x: string)
    requires Closed(g) && n in g && seen <= g.Keys && Reachable(g, root, n)
    requires x in Dfs(g, n, seen).order
    ensures Reachable(g, root, x)
    decreases g.Keys - seen, 0
  {
    if x != n {
      forall c | c in g[n] ensures Reachable(g, root, c) { ReachableStep(g, root, n, c); }
      DfsAllOrderIsReachable(g, root, g[n], seen + {n}, x);
    }
  }

  lemma {:induction false} DfsAllOrderIsReachable(g: Graph, root: string, ns: seq<string>, seen: set<string>, x: string)
    requires Closed(g) && seen <= g.Keys && forall n :: n in ns ==> n in g && Reachable(g, root, n)
    requires x in DfsAll(g, ns, seen).order
    ensures Reachable(g, root, x)
    decreases g.Keys - seen, 1, |ns|
  {
    var first := Dfs(g, ns[0], seen);
    if x in first.order {
      DfsOrderIsReachable(g, root, ns[0], seen, x);
    } else {
      DfsAllOrderIsReachable(g, root, ns[1..], first.seen, x);
    }
  }

  ghost predicate NoRepeats(s: seq<string>) {
    forall i, j :: 0 <= i < j < |s| ==> s[i] != s[j]
  }

  lemma {:induction false} DfsNeverRepeats(g: Graph, n: string, seen: set<string>)
    requires Closed(g) && n in g && seen <= g.Keys
    ensures NoRepeats(Dfs(g, n, seen).order)
    decreases g.Keys - seen, 0
  {
    if n !in seen {
      DfsAllNeverRepeats(g, g[n], seen + {n});
      DfsAllPutsExactlyTheNewNodes(g, g[n], seen + {n});
    }
  }

  lemma {:induction false} DfsAllNeverRepeats(g: Graph, ns: seq<string>, seen: set<string>)
    requires Closed(g) && seen <= g.Keys && forall n :: n in ns ==> n in g
    ensures NoRepeats(DfsAll(g, ns, seen).order)
    decreases g.Keys - seen, 1, |ns|
  {
    if ns != [] {
      var first := Dfs(g, ns[0], seen);
      DfsNeverRepeats(g, ns[0], seen);
      DfsPutsExactlyTheNewNodes(g, ns[0], seen);
      DfsAllNeverRepeats(g, ns[1..], first.seen);
      DfsAllPutsExactlyTheNewNodes(g, ns[1..], first.seen);
      AppendNeverRepeats(first.order, DfsAll(g, ns[1..], first.seen).order);
    }
  }

  lemma AppendNeverRepeats(a: seq<string>, b: seq<string>)
    requires NoRepeats(a) && NoRepeats(b) && forall x :: x in a ==> x !in b
    ensures NoRepeats(a + b)
  {
    forall i, j | 0 <= i < j < |a + b| ensures (a + b)[i] != (a + b)[j] {
      if i < |a| <= j {
        assert a[i] in a && b[j - |a|] in b;
      }
    }
  }

  // ---- Children before parents ----

  /** The children of the i-th put are known beforehand or were put earlier in the same order. */
  ghost predicate ChildrenBefore(g: Graph, order: seq<string>, known: set<string>, i: nat)
    requires i < |order|
  {
    order[i] in g ==> forall c :: c in g[order[i]] ==> c in known || c in order[..i]
  }

  ghost predicate ChildFirstBeyond(g: Graph, order: seq<string>, known: set<string>) {
    forall i :: 0 <= i < |order| ==> ChildrenBefore(g, order, known, i)
  }

  /** At each put, every child of the node was put earlier in the same order. */
  ghost predicate ChildFirst(g: Graph, order: seq<string>) {
    ChildFirstBeyond(g, order, {})
  }

  /** A strict decrease from parent to child on `nodes`; exists exactly when no cycle lies in `nodes`. */
  ghost predicate Ranked(g: Graph, nodes: set<string>, rank: string -> nat) {
    forall n, c :: n in nodes && n in g && c in g[n] ==> rank(c) < rank(n)
  }

  /**
   The exact condition for referential closure: the puts of a traversal are
   child-first if and only if the part of the graph reachable from the root has no cycle.
   */
  lemma DfsIsChildFirstIffAcyclic(g: Graph, root: string)
    requires Closed(g) && root in g
    ensures ChildFirst(g, Dfs(g, root, {}).order) <==> exists rank :: Ranked(g, Dfs(g, root, {}).seen, rank)
  {
    var r := Dfs(g, root, {});
    DfsPutsExactlyTheNewNodes(g, root, {});
    if exists rank :: Ranked(g, r.seen, rank) {
      var rank :| Ranked(g, r.seen, rank);
      var none: set<string> := {};
      DfsChildFirst(g, rank, root, none, none, r.seen);
      assert none - none == none;
    }
    if ChildFirst(g, r.order) {
      var rank := (n: string) => Position(r.order, n);
      forall n, c | n in r.seen && n in g && c in g[n] ensures rank(c) < rank(n) {
        var i := rank(n);
        assert r.order[i] == n && ChildrenBefore(g, r.order, {}, i);
        var j :| 0 <= j < i && r.order[..i][j] == c;
        PositionIsFirst(r.order, c, j);
      }
      assert Ranked(g, r.seen, rank);
    }
  }

  ghost function Position(s: seq<string>, n: string): (i: nat)
    ensures n in s ==> i < |s| && s[i] == n
  {
    if s == [] || s[0] == n then 0 else 1 + Position(s[1..], n)
  }

  lemma {:induction false} PositionIsFirst(s: seq<string>, n: string, j: nat)
    requires j < |s| && s[j] == n
    ensures Position(s, n) <= j
  {
    if s[0] != n {
      PositionIsFirst(s[1..], n, j - 1);
    }
  }

  /** `gray` are the marked but unfinished nodes: the ancestors of the node being entered. */
  lemma {:induction false} DfsChildFirst(g: Graph, rank: string -> nat, n: string, seen: set<string>,
                                         gray: set<string>, nodes: set<string>)
    requires Closed(g) && n in g && gray <= seen <= g.Keys
    requires Dfs(g, n, seen).seen <= nodes && Ranked(g, nodes, rank)
    requires forall x :: x in gray ==> rank(x) > rank(n)
    ensures ChildFirstBeyond(g, Dfs(g, n, seen).order, seen - gray)
    decreases g.Keys - seen, 0
  {
    if n !in seen {
      var kids := DfsAll(g, g[n], seen + {n});
      DfsAllPutsExactlyTheNewNodes(g, g[n], seen + {n});
      DfsAllChildFirst(g, rank, g[n], seen + {n}, gray + {n}, nodes);
      var order := kids.order + [n];
      forall i | 0 <= i < |order| ensures ChildrenBefore(g, order, seen - gray, i) {
        if i < |kids.order| {
          assert order[i] == kids.order[i] && order[..i] == kids.order[..i];
          assert ChildrenBefore(g, kids.order, (seen + {n}) - (gray + {n}), i);
        } else {
          assert order[i] == n && order[..i] == kids.order;
        }
      }
    }
  }

  lemma {:induction false} DfsAllChildFirst(g: Graph, rank: string -> nat, ns: seq<string>, seen: set<string>,
                                            gray: set<string>, nodes: set<string>)
    requires Closed(g) && gray <= seen <= g.Keys && forall n :: n in ns ==> n in g
    requires DfsAll(g, ns, seen).seen <= nodes && Ranked(g, nodes, rank)
    requires forall x, n :: x in gray && n in ns ==> rank(x) > rank(n)
    ensures ChildFirstBeyond(g, DfsAll(g, ns, seen).order, seen - gray)
    decreases g.Keys - seen, 1, |ns|
  {
    if ns != [] {
      var first := Dfs(g, ns[0], seen);
      var rest := DfsAll(g, ns[1..], first.seen);
      DfsChildFirst(g, rank, ns[0], seen, gray, nodes);
      DfsPutsExactlyTheNewNodes(g, ns[0], seen);
      DfsAllChildFirst(g, rank, ns[1..], first.seen, gray, nodes);
      var order := first.order + rest.order;
      forall i | 0 <= i < |order| ensures ChildrenBefore(g, order, seen - gray, i) {
        var k := |first.order|;
        if i < k {
          assert order[i] == first.order[i] && order[..i] == first.order[..i];
          assert ChildrenBefore(g, first.order, seen - gray, i);
        } else {
          assert order[i] == rest.order[i - k] && order[..i] == first.order + rest.order[..i - k];
          assert ChildrenBefore(g, rest.order, first.seen - gray, i - k);
        }
      }
    }
  }

  // ---- By which edge a node is entered ----

  /** An edge: the text by which a parent names a child, and the child. */
  type Edge = (string, string)

  type Edges = map<string, seq<Edge>>

  ghost function Targets(es: seq<Edge>): (r: seq<string>)
    ensures |r| == |es| && forall i :: 0 <= i < |es| ==> r[i] == es[i].1
  {
    seq(|es|, i requires 0 <= i < |es| => es[i].1)
  }

  /** The graph without its texts. */
  ghost function Plain(g: Edges): (r: Graph)
    ensures r.Keys == g.Keys
  {
    map n | n in g :: Targets(g[n])
  }

  ghost predicate ClosedEdges(g: Edges) {
    forall n, e :: n in g && e in g[n] ==> e.1 in g
  }

  lemma PlainIsClosed(g: Edges)
    ensures ClosedEdges(g) <==> Closed(Plain(g))
  {
    if Closed(Plain(g)) {
      forall n, e | n in g && e in g[n] ensures e.1 in g {
        var i :| 0 <= i < |g[n]| && g[n][i] == e;
        assert Plain(g)[n][i] == e.1 && Plain(g)[n][i] in Plain(g)[n];
      }
    }
  }

  datatype TextVisit = TextVisit(seen: set<string>, order: seq<Edge>)

  /** The same traversal, recording the edge by which each node was entered. */
  ghost function TextDfs(g: Edges, e: Edge, seen: set<string>): (r: TextVisit)
    requires ClosedEdges(g) && e.1 in g && seen <= g.Keys
    ensures seen <= r.seen <= g.Keys
    decreases g.Keys - seen, 0
  {
    if e.1 in seen then TextVisit(seen, [])
    else
      var kids := TextDfsAll(g, g[e.1], seen + {e.1});
      TextVisit(kids.seen, kids.order + [e])
  }

  ghost function TextDfsAll(g: Edges, es: seq<Edge>, seen: set<string>): (r: TextVisit)
    requires ClosedEdges(g) && seen <= g.Keys && forall e :: e in es ==> e.1 in g
    ensures seen <= r.seen <= g.Keys
    decreases g.Keys - seen, 1, |es|
  {
    if es == [] then TextVisit(seen, [])
    else
      var first := TextDfs(g, es[0], seen);
      var rest := TextDfsAll(g, es[1..], first.seen);
      TextVisit(rest.seen, first.order + rest.order)
  }

  /** The texts change nothing: the same nodes in the same order. */
  lemma {:induction false} TextDfsVisits(g: Edges, e: Edge, seen: set<string>)
    requires ClosedEdges(g) && e.1 in g && seen <= g.Keys
    ensures Closed(Plain(g))
    ensures TextDfs(g, e, seen).seen == Dfs(Plain(g), e.1, seen).seen
    ensures Targets(TextDfs(g, e, seen).order) == Dfs(Plain(g), e.1, seen).order
    decreases g.Keys - seen, 0
  {
    PlainIsClosed(g);
    if e.1 !in seen {
      TextDfsAllVisits(g, g[e.1], seen + {e.1});
    }
  }

  lemma {:induction false} TextDfsAllVisits(g: Edges, es: seq<Edge>, seen: set<string>)
    requires ClosedEdges(g) && seen <= g.Keys && forall e :: e in es ==> e.1 in g
    ensures Closed(Plain(g)) && forall n :: n in Targets(es) ==> n in g
    ensures TextDfsAll(g, es, seen).seen == DfsAll(Plain(g), Targets(es), seen).seen
    ensures Targets(TextDfsAll(g, es, seen).order) == DfsAll(Plain(g), Targets(es), seen).order
    decreases g.Keys - seen, 1, |es|
  {
    PlainIsClosed(g);
    if es != [] {
      TextDfsVisits(g, es[0], seen);
      var first := TextDfs(g, es[0], seen);
      TextDfsAllVisits(g, es[1..], first.seen);
      assert Targets(es)[1..] == Targets(es[1..]);
      var rest := TextDfsAll(g, es[1..], first.seen);
      assert Targets(first.order + rest.order) == Targets(first.order) + Targets(rest.order);
    }
  }

  // ---- The explicit stack ----

  datatype Frame = Process(e: Edge) | Store(e: Edge)

  /** The frames left after pushing `es` in reverse, so that `es[0]` is popped first. */
  ghost function PushReversed(stack: seq<Frame>, es: seq<Edge>): (r: seq<Frame>) {
    if es == [] then stack else PushReversed(stack, es[1..]) + [Process(es[0])]
  }

  ghost predicate InGraph(g: Edges, stack: seq<Frame>) {
    forall f :: f in stack ==> f.e.1 in g
  }

  /** The puts that running a stack down to empty still makes, each by the edge its node is entered by. */
  ghost function Pending(g: Edges, stack: seq<Frame>, seen: set<string>): (order: seq<Edge>)
    requires ClosedEdges(g) && seen <= g.Keys && InGraph(g, stack)
  {
    if stack == [] then []
    else
      var top, below := stack[|stack| - 1], stack[..|stack| - 1];
      match top
      case Process(e) =>
        var v := TextDfs(g, e, seen);
        v.order + Pending(g, below, v.seen)
      case Store(e) => [e] + Pending(g, below, seen)
  }

  lemma {:induction false} PushReversedStaysInGraph(g: Edges, stack: seq<Frame>, es: seq<Edge>)
    requires InGraph(g, stack) && forall e :: e in es ==> e.1 in g
    ensures InGraph(g, PushReversed(stack, es))
  {
    if es != [] {
      PushReversedStaysInGraph(g, stack, es[1..]);
    }
  }

  /** Pushed children run as one recursive traversal of the list, then the frames below resume. */
  lemma {:induction false} PendingOfPushed(g: Edges, stack: seq<Frame>, es: seq<Edge>, seen: set<string>)
    requires ClosedEdges(g) && seen <= g.Keys && InGraph(g, stack) && forall e :: e in es ==> e.1 in g
    ensures InGraph(g, PushReversed(stack, es))
    ensures var v := TextDfsAll(g, es, seen);
            Pending(g, PushReversed(stack, es), seen) == v.order + Pending(g, stack, v.seen)
    decreases |es|
  {
    PushReversedStaysInGraph(g, stack, es);
    if es != [] {
      var pushed := PushReversed(stack, es[1..]);
      PushReversedStaysInGraph(g, stack, es[1..]);
      var first := TextDfs(g, es[0], seen);
      PendingOfPushed(g, stack, es[1..], first.seen);
      var full := PushReversed(stack, es);
      assert full[..|full| - 1] == pushed && full[|full| - 1] == Process(es[0]);
    }
  }

  /** Entering an unmarked node: mark it, push its Store frame and then its children. */
  lemma PendingOfEntered(g: Edges, below: seq<Frame>, e: Edge, seen: set<string>)
    requires ClosedEdges(g) && seen <= g.Keys && InGraph(g, below) && e.1 in g && e.1 !in seen
    ensures InGraph(g, PushReversed(below + [Store(e)], g[e.1])) && InGraph(g, below + [Process(e)])
    ensures Pending(g, PushReversed(below + [Store(e)], g[e.1]), seen + {e.1}) == Pending(g, below + [Process(e)], seen)
  {
    PendingOfPushed(g, below + [Store(e)], g[e.1], seen + {e.1});
    assert (below + [Store(e)])[..|below|] == below && (below + [Process(e)])[..|below|] == below;
  }

  lemma PendingOfTop(g: Edges, below: seq<Frame>, f: Frame, seen: set<string>)
    requires ClosedEdges(g) && seen <= g.Keys && InGraph(g, below) && f.e.1 in g
    ensures InGraph(g, below + [f])
    ensures f.Store? ==> Pending(g, below + [f], seen) == [f.e] + Pending(g, below, seen)
    ensures f.Process? && f.e.1 in seen ==> Pending(g, below + [f], seen) == Pending(g, below, seen)
    ensures f.Process? && f.e.1 !in seen && g[f.e.1] == [] ==>
              Pending(g, below + [f], seen) == [f.e] + Pending(g, below, seen + {f.e.1})
  {
    assert (below + [f])[..|below|] == below;
    if f.e.1 !in seen && g[f.e.1] == [] {
      assert TextDfs(g, f.e, seen) == TextVisit(seen + {f.e.1}, [f.e]);
    }
  }

  /** What was put so far, followed by what the stack still puts, is the whole order. */
  ghost predicate Remaining(g: Edges, stack: seq<Frame>, seen: set<string>, put: seq<Edge>, full: seq<Edge>) {
    && ClosedEdges(g) && seen <= g.Keys && InGraph(g, stack)
    && put + Pending(g, stack, seen) == full
  }

  lemma RemainingAtStart(g: Edges, root: Edge)
    requires ClosedEdges(g) && root.1 in g
    ensures Remaining(g, [Process(root)], {}, [], TextDfs(g, root, {}).order)
  {
    assert [Process(root)][..0] == [];
    assert Pending(g, [], TextDfs(g, root, {}).seen) == [];
  }

  lemma RemainingAfterPop(g: Edges, below: seq<Frame>, f: Frame, seen: set<string>, put: seq<Edge>, full: seq<Edge>)
    requires Remaining(g, below + [f], seen, put, full)
    ensures f.e.1 in g
    ensures f.Store? ==> Remaining(g, below, seen, put + [f.e], full)
    ensures f.Process? && f.e.1 in seen ==> Remaining(g, below, seen, put, full)
    ensures f.Process? && f.e.1 !in seen && g[f.e.1] == [] ==> Remaining(g, below, seen + {f.e.1}, put + [f.e], full)
    ensures f.Process? && f.e.1 !in seen ==>
              Remaining(g, PushReversed(below + [Store(f.e)], g[f.e.1]), seen + {f.e.1}, put, full)
  {
    assert (below + [f])[|below|] == f;
    assert InGraph(g, below) by { assert forall x :: x in below ==> x in below + [f]; }
    PendingOfTop(g, below, f, seen);
    if f.Process? && f.e.1 !in seen {
      PendingOfEntered(g, below, f.e, seen);
    }
  }

  /** A node about to be entered is still to be put, so the root, which comes last, has not been put yet. */
  lemma EnteredIsPending(g: Edges, below: seq<Frame>, e: Edge, seen: set<string>, put: seq<Edge>, root: Edge)
    requires root.1 in g && ClosedEdges(g)
    requires Remaining(g, below + [Process(e)], seen, put, TextDfs(g, root, {}).order) && e.1 !in seen
    ensures Closed(Plain(g)) && e.1 in Dfs(Plain(g), root.1, {}).order && root.1 !in Targets(put)
  {
    var full, rest := TextDfs(g, root, {}).order, Pending(g, below + [Process(e)], seen);
    var stack := below + [Process(e)];
    assert stack[|stack| - 1] == Process(e);
    assert e in TextDfs(g, e, seen).order && e in rest && e in full;
    TextDfsVisits(g, root, {});
    var k :| 0 <= k < |full| && full[k] == e;
    assert Targets(full)[k] == e.1;
    assert full[|full| - 1] == root;
    DfsNeverRepeats(Plain(g), root.1, {});
    forall i | 0 <= i < |put| ensures put[i].1 != root.1 {
      assert full[i] == put[i] && i < |full| - 1;
      assert Targets(full)[i] != Targets(full)[|full| - 1];
    }
  }

  lemma PrefixIsChildFirst(g: Graph, order: seq<string>, prefix: seq<string>)
    requires ChildFirst(g, order) && prefix <= order
    ensures ChildFirst(g, prefix)
  {
    forall i | 0 <= i < |prefix| ensures ChildrenBefore(g, prefix, {}, i) {
      assert ChildrenBefore(g, order, {}, i) && order[..i] == prefix[..i];
    }
  }
}
