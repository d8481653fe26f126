/** graph.go: the delegation graph kept twice, as child lists and as a parent map, and the cycle checks that guard it. */
module TaskGraphs {
  import opened Options
  import opened Budget

  type Parents = map<string, string>

  // ---------- the parent map ----------

  /** The parent a walk follows: the empty id ends a chain like a missing entry does. */
  function Parent(back: Parents, x: string): Option<string> {
    if x in back && back[x] != "" then Some(back[x]) else None
  }

  /** The n-th node of the chain that starts at x. */
  function Ancestor(back: Parents, x: string, n: nat): Option<string>
    decreases n
  {
    if n == 0 then Some(x)
    else match Parent(back, x)
      case None => None
      case Some(p) => Ancestor(back, p, n - 1)
  }

  ghost predicate OnChain(back: Parents, a: string, x: string) { exists n: nat :: Ancestor(back, x, n) == Some(a) }
  ghost predicate OnChainUpTo(back: Parents, a: string, x: string, bound: nat) {
    exists n: nat :: n <= bound && Ancestor(back, x, n) == Some(a)
  }
  ghost predicate OnChainBeyond(back: Parents, a: string, x: string, bound: nat) {
    exists n: nat :: n > bound && Ancestor(back, x, n) == Some(a)
  }
  ghost predicate Rooted(back: Parents, x: string) { exists n: nat :: Ancestor(back, x, n).None? }

  /** No cycle: every chain ends. */
  ghost predicate Forest(back: Parents) { forall x :: Rooted(back, x) }

  lemma {:induction false} AncestorSplit(back: Parents, x: string, m: nat, n: nat)
    ensures Ancestor(back, x, m + n) ==
            match Ancestor(back, x, m) case None => None case Some(y) => Ancestor(back, y, n)
    decreases m
  {
    if m != 0 && Parent(back, x).Some? {
      AncestorSplit(back, Parent(back, x).value, m - 1, n);
    }
  }

  /** A chain that meets a node twice never ends. */
  lemma {:induction false} RepeatNeverEnds(back: Parents, x: string, j: nat, k: nat, n: nat)
    requires j < k && Ancestor(back, x, j).Some? && Ancestor(back, x, j) == Ancestor(back, x, k)
    ensures Ancestor(back, x, n).Some?
  {
    if n <= k {
      AncestorSplit(back, x, n, k - n);
    } else {
      AncestorSplit(back, x, k, n - k);
      AncestorSplit(back, x, j, n - k);
      RepeatNeverEnds(back, x, j, k, n - (k - j));
    }
  }

  lemma RepeatNotRooted(back: Parents, x: string, j: nat, k: nat)
    requires j < k && Ancestor(back, x, j).Some? && Ancestor(back, x, j) == Ancestor(back, x, k)
    ensures !Rooted(back, x)
  {
    forall n: nat ensures Ancestor(back, x, n).Some? {
      RepeatNeverEnds(back, x, j, k, n);
    }
  }

  lemma EndedChain(back: Parents, x: string, m: nat, n: nat)
    requires m <= n && Ancestor(back, x, m).None?
    ensures Ancestor(back, x, n).None?
  {
    AncestorSplit(back, x, m, n - m);
  }

  // ---------- what an added edge does to the chains ----------

  /** Replacing the parent of `c` does not touch a chain before it reaches `c`. */
  lemma {:induction false} ChainUnchanged(back: Parents, c: string, p: string, x: string, n: nat)
    requires forall i: nat :: i < n ==> Ancestor(back, x, i) != Some(c)
    ensures Ancestor(back[c := p], x, n) == Ancestor(back, x, n)
    decreases n
  {
    if n != 0 {
      assert Ancestor(back, x, 0) != Some(c);
      assert Parent(back[c := p], x) == Parent(back, x);
      if Parent(back, x).Some? {
        var y := Parent(back, x).value;
        forall i: nat | i < n - 1 ensures Ancestor(back, y, i) != Some(c) {
          assert Ancestor(back, x, i + 1) == Ancestor(back, y, i);
        }
        ChainUnchanged(back, c, p, y, n - 1);
      }
    }
  }

  lemma {:induction false} FirstHit(back: Parents, x: string, c: string, n: nat) returns (m: nat)
    requires Ancestor(back, x, n) == Some(c)
    ensures m <= n && Ancestor(back, x, m) == Some(c) && forall i: nat :: i < m ==> Ancestor(back, x, i) != Some(c)
  {
    if i: nat :| i < n && Ancestor(back, x, i) == Some(c) {
      m := FirstHit(back, x, c, i);
    } else {
      m := n;
    }
  }

  lemma {:induction false} RootedAfter(back: Parents, c: string, p: string, x: string, n: nat)
    requires Ancestor(back, x, n).None? && Rooted(back[c := p], c)
    ensures Rooted(back[c := p], x)
    decreases n
  {
    var back' := back[c := p];
    if x != c {
      assert Parent(back', x) == Parent(back, x);
      if Parent(back, x).None? {
        assert Ancestor(back', x, 1).None?;
      } else {
        var y := Parent(back, x).value;
        RootedAfter(back, c, p, y, n - 1);
        var k: nat :| Ancestor(back', y, k).None?;
        assert Ancestor(back', x, k + 1).None?;
      }
    }
  }

  /** In a forest, hanging `c` under `p` keeps a forest exactly when `c` is not `p` and not above it. */
  lemma EdgeKeepsForest(back: Parents, c: string, p: string)
    requires Forest(back) && p != ""
    ensures Forest(back[c := p]) <==> !OnChain(back, c, p)
  {
    var back' := back[c := p];
    assert Parent(back', c) == Some(p);
    if OnChain(back, c, p) {
      var n: nat :| Ancestor(back, p, n) == Some(c);
      var m := FirstHit(back, p, c, n);
      ChainUnchanged(back, c, p, p, m);
      assert Ancestor(back', c, m + 1) == Ancestor(back', p, m) == Some(c);
      RepeatNotRooted(back', c, 0, m + 1);
    } else {
      assert Rooted(back, p);
      var n: nat :| Ancestor(back, p, n).None?;
      ChainUnchanged(back, c, p, p, n);
      assert Ancestor(back', c, n + 1).None?;
      forall x ensures Rooted(back', x) {
        assert Rooted(back, x);
        var k: nat :| Ancestor(back, x, k).None?;
        RootedAfter(back, c, p, x, k);
      }
    }
  }

  // ---------- the two cycle checks ----------

  datatype Verdict = Accepted | DirectCycle | IndirectCycle

  /** What a walk of at most `bound` steps from `p` sees: neither `c` nor a node it has met before. */
  ghost predicate ClearFor(back: Parents, p: string, c: string, bound: nat) {
    forall n: nat :: 1 <= n <= bound ==>
      Ancestor(back, p, n) != Some(c) &&
      forall j: nat :: j < n && Ancestor(back, p, n).Some? ==> Ancestor(back, p, n) != Ancestor(back, p, j)
  }

  /** CycleDetector.CheckProposedEdge over the stored parent map: at most 100 ancestors are looked at. */
  method CheckProposedEdge(back: Parents, parentID: string, childID: string) returns (v: Verdict)
    ensures v == Accepted <==>
            parentID == "" || childID == "" || (parentID != childID && ClearFor(back, parentID, childID, 100))
    ensures v == DirectCycle <==> parentID != "" && parentID == childID
  {
    if parentID == "" || childID == "" { return Accepted; }
    if parentID == childID { return DirectCycle; }
    var currentID := parentID;
    var visited := {parentID};
    for i := 0 to 100
      invariant Ancestor(back, parentID, i) == Some(currentID)
      invariant forall x :: x in visited <==> exists j: nat :: j <= i && Ancestor(back, parentID, j) == Some(x)
      invariant ClearFor(back, parentID, childID, i)
    {
      AncestorSplit(back, parentID, i, 1);
      if currentID !in back || back[currentID] == "" {
        forall n: nat | n > i ensures Ancestor(back, parentID, n).None? {
          EndedChain(back, parentID, i + 1, n);
        }
        return Accepted;
      }
      var ancestorID := back[currentID];
      assert Ancestor(back, currentID, 1) == Some(ancestorID);
      assert Ancestor(back, parentID, i + 1) == Some(ancestorID);
      if ancestorID == childID { return IndirectCycle; }
      if ancestorID in visited { return IndirectCycle; }
      visited := visited + {ancestorID};
      currentID := ancestorID;
    }
    return Accepted;
  }

  lemma ForestChainsDistinct(back: Parents, p: string, j: nat, n: nat)
    requires Forest(back) && j < n && Ancestor(back, p, n).Some?
    ensures Ancestor(back, p, n) != Ancestor(back, p, j)
  {
    assert Rooted(back, p);
    if Ancestor(back, p, n) == Ancestor(back, p, j) { RepeatNotRooted(back, p, j, n); }
  }

  /** On a forest a check of `bound` steps (100 in the source) misses exactly the ancestors further up: it agrees with the
      unbounded condition if and only if the child is not one of those. */
  lemma BoundedCheckExact(back: Parents, p: string, c: string, bound: nat)
    requires Forest(back) && p != c
    ensures ClearFor(back, p, c, bound) <==> !OnChainUpTo(back, c, p, bound)
    ensures (ClearFor(back, p, c, bound) <==> !OnChain(back, c, p)) <==> !OnChainBeyond(back, c, p, bound)
  {
    assert Ancestor(back, p, 0) == Some(p);
    forall n: nat, j: nat | j < n && Ancestor(back, p, n).Some?
      ensures Ancestor(back, p, n) != Ancestor(back, p, j)
    {
      ForestChainsDistinct(back, p, j, n);
    }
    if OnChainBeyond(back, c, p, bound) {
      var n: nat :| n > bound && Ancestor(back, p, n) == Some(c);
      forall m: nat | m <= bound ensures Ancestor(back, p, m) != Some(c) {
        assert Ancestor(back, p, n) != Ancestor(back, p, m);
      }
    } else if OnChain(back, c, p) {
      var n: nat :| Ancestor(back, p, n) == Some(c);
      assert n <= bound;
    }
  }

  /** So the two checks agree whenever the parent has at most 100 ancestors. */
  lemma ShortChainsAgree(back: Parents, p: string, c: string)
    requires Forest(back) && p != c && Ancestor(back, p, 101).None?
    ensures ClearFor(back, p, c, 100) <==> !OnChain(back, c, p)
  {
    BoundedCheckExact(back, p, c, 100);
    forall n: nat | n > 100 ensures Ancestor(back, p, n).None? {
      EndedChain(back, p, 101, n);
    }
  }

  function Name(k: nat): string { seq(k + 1, _ => 'w') }

  /** A chain of works: each is the child of the next, up to the last. */
  function Chain(last: nat): Parents {
    if last == 0 then map[] else Chain(last - 1)[Name(last - 1) := Name(last)]
  }

  lemma NameInjective(j: nat, k: nat)
    requires Name(j) == Name(k)
    ensures j == k
  {
    assert |Name(j)| == j + 1 && |Name(k)| == k + 1;
  }

  lemma {:induction false} ParentInChain(last: nat, k: nat)
    ensures Parent(Chain(last), Name(k)) == if k < last then Some(Name(k + 1)) else None
  {
    NameNotEmpty(k + 1);
    if last != 0 {
      ParentInChain(last - 1, k);
      if Name(k) == Name(last - 1) { NameInjective(k, last - 1); }
    }
  }

  lemma {:induction false} ChainNames(last: nat, x: string) returns (k: nat)
    requires x in Chain(last)
    ensures k < last && Name(k) == x
  {
    if x == Name(last - 1) { k := last - 1; } else { k := ChainNames(last - 1, x); }
  }

  lemma {:induction false} AncestorInChain(last: nat, k: nat, n: nat)
    ensures Ancestor(Chain(last), Name(k), n) == if n == 0 || k + n <= last then Some(Name(k + n)) else None
    decreases n
  {
    hide Chain, Name;
    if n != 0 {
      ParentInChain(last, k);
      if k < last { AncestorInChain(last, k + 1, n - 1); }
    }
  }

  lemma ChainIsForest(last: nat)
    ensures Forest(Chain(last))
  {
    forall x ensures Rooted(Chain(last), x) {
      if x in Chain(last) {
        var k := ChainNames(last, x);
        AncestorInChain(last, k, last + 1);
        assert Ancestor(Chain(last), x, last + 1).None?;
      } else {
        assert Ancestor(Chain(last), x, 1).None?;
      }
    }
  }

  /** A work with 101 ancestors: the bounded check accepts its topmost ancestor as its child, which closes a cycle; the
      unbounded condition does not. */
  lemma LongChainMissed()
    ensures Forest(Chain(101)) && Name(0) != Name(101)
    ensures ClearFor(Chain(101), Name(0), Name(101), 100) && OnChain(Chain(101), Name(101), Name(0))
    ensures !Forest(Chain(101)[Name(101) := Name(0)])
  {
    hide Name, Chain, Forest;
    ChainIsForest(101);
    AncestorInChain(101, 0, 101);
    assert OnChain(Chain(101), Name(101), Name(0));
    if Name(0) == Name(101) { NameInjective(0, 101); }
    NameNotEmpty(0);
    EdgeKeepsForest(Chain(101), Name(101), Name(0));
    forall n: nat | n <= 100 ensures Ancestor(Chain(101), Name(0), n) != Some(Name(101)) {
      AncestorInChain(101, 0, n);
      if Name(n) == Name(101) { NameInjective(n, 101); }
    }
    BoundedCheckExact(Chain(101), Name(0), Name(101), 100);
  }

  lemma NameNotEmpty(k: nat)
    ensures Name(k) != ""
  {
    assert |Name(k)| == k + 1;
  }

  // ---------- the child lists ----------

  type Edges = map<string, seq<string>>

  function Children(edges: Edges, p: string): seq<string> { if p in edges then edges[p] else [] }

  /** Everything reachable from root by at most n child edges. */
  ghost function Within(edges: Edges, root: string, n: nat): set<string> {
    if n == 0 then {root}
    else Within(edges, root, n - 1) + ChildrenOf(edges, Within(edges, root, n - 1))
  }

  ghost function ChildrenOf(edges: Edges, ps: set<string>): set<string> {
    set p, c | p in ps && c in Children(edges, p) :: c
  }

  ghost predicate Reachable(edges: Edges, root: string, x: string) { exists n: nat :: x in Within(edges, root, n) }

  lemma {:induction false} WithinGrows(edges: Edges, root: string, m: nat, n: nat)
    requires m <= n
    ensures Within(edges, root, m) <= Within(edges, root, n)
  {
    if m < n { WithinGrows(edges, root, m, n - 1); }
  }

  lemma {:induction false} WithinClosed(edges: Edges, root: string, s: set<string>, n: nat)
    requires root in s && ChildrenOf(edges, s) <= s
    ensures Within(edges, root, n) <= s
  {
    if n != 0 {
      WithinClosed(edges, root, s, n - 1);
      assert ChildrenOf(edges, Within(edges, root, n - 1)) <= ChildrenOf(edges, s);
    }
  }

  ghost predicate NoRepeats(s: seq<string>) { forall i, j :: 0 <= i < j < |s| ==> s[i] != s[j] }

  ghost function Elements(s: seq<string>): set<string> { set x | x in s }

  /** Every id the graph mentions below `root`: what bounds the search. */
  ghost function Universe(edges: Edges, root: string): set<string> { {root} + ChildrenOf(edges, edges.Keys) }

  datatype TaskNode = TaskNode(workID: string, parentID: string)

  datatype Graph = Graph(nodes: map<string, TaskNode>, edges: Edges, back: Parents)

  function Add(g: Graph, n: TaskNode): Graph {
    if n.parentID == "" then g.(nodes := g.nodes[n.workID := n])
    else Graph(g.nodes[n.workID := n], g.edges[n.parentID := Children(g.edges, n.parentID) + [n.workID]],
               g.back[n.workID := n.parentID])
  }

  class TaskGraph {
    var nodes: map<string, TaskNode>
    var edges: Edges
    var backEdges: Parents

    ghost function View(): Graph
      reads this
    {
      Graph(nodes, edges, backEdges)
    }

    constructor ()
      ensures View() == Graph(map[], map[], map[])
    {
      nodes, edges, backEdges := map[], map[], map[];
    }

    method AddNode(node: TaskNode)
      modifies this
      ensures View() == Add(old(View()), node)
    {
      nodes := nodes[node.workID := node];
      if node.parentID != "" {
        edges := edges[node.parentID := Children(edges, node.parentID) + [node.workID]];
        backEdges := backEdges[node.workID := node.parentID];
      }
    }

    /** On any parent map, even one with cycles, the walk stops; it accepts exactly when the chain above `parentID` ends
        and never meets `childID`. */
    method CheckCycle(parentID: string, childID: string) returns (v: Verdict)
      ensures v == DirectCycle <==> parentID == childID
      ensures v == Accepted <==> Rooted(backEdges, parentID) && !OnChain(backEdges, childID, parentID)
    {
      if parentID == childID {
        assert Ancestor(backEdges, parentID, 0) == Some(childID);
        return DirectCycle;
      }
      var curr := parentID;
      var visited := {parentID};
      ghost var universe := backEdges.Values + {parentID};
      ghost var i: nat := 0;
      while true
        invariant Ancestor(backEdges, parentID, i) == Some(curr)
        invariant visited <= universe
        invariant forall x :: x in visited <==> exists j: nat :: j <= i && Ancestor(backEdges, parentID, j) == Some(x)
        invariant childID !in visited
        decreases universe - visited
      {
        AncestorSplit(backEdges, parentID, i, 1);
        if curr !in backEdges || backEdges[curr] == "" {
          assert Ancestor(backEdges, parentID, i + 1).None?;
          forall n: nat ensures Ancestor(backEdges, parentID, n) != Some(childID) {
            if n > i { EndedChain(backEdges, parentID, i + 1, n); }
          }
          return Accepted;
        }
        var p := backEdges[curr];
        assert Ancestor(backEdges, curr, 1) == Some(p);
        assert Ancestor(backEdges, parentID, i + 1) == Some(p);
        if p == childID { return IndirectCycle; }
        if p in visited {
          ghost var j: nat :| j <= i && Ancestor(backEdges, parentID, j) == Some(p);
          RepeatNotRooted(backEdges, parentID, j, i + 1);
          return IndirectCycle;
        }
        visited := visited + {p};
        curr := p;
        i := i + 1;
      }
    }

    /** Breadth-first search over the child lists of any graph: each node reachable from the root and other than it is
        returned once, and nodes come in order of their distance. */
    method GetDescendants(rootID: string) returns (descendants: seq<string>)
      ensures NoRepeats(descendants) && rootID !in descendants
      ensures forall x :: x in descendants <==> x != rootID && Reachable(edges, rootID, x)
      ensures Layered(edges, rootID, descendants)
    {
      descendants := [];
      var queue := [rootID];
      var visited := {rootID};
      // The visited nodes in the order they were found; the queue is their unprocessed end.
      ghost var order, k, level, d := [rootID], 0, 1, 0;
      StartSearch(edges, rootID);
      hide Within, ChildrenOf, Layered, Searching, Expanding, Children, Elements, Universe, NoRepeats, Reachable;
      while |queue| > 0
        invariant order == [rootID] + descendants && k <= |order| && queue == order[k..]
        invariant Elements(order) == visited <= Universe(edges, rootID)
        invariant Searching(edges, rootID, order, k, level, d)
        decreases Universe(edges, rootID) - visited, |queue|
      {
        var curr := queue[0];
        queue := queue[1..];
        level, d := NextLevel(edges, rootID, order, k, level, d);
        queue, visited, descendants := Visit(edges, rootID, curr, queue, visited, descendants, k, level, d);
        order := [rootID] + descendants;
        k := k + 1;
      }
      SearchComplete(edges, rootID, order, k, level, d);
      DropRoot(edges, rootID, descendants);
    }
  }

  /** The inner loop: queue every child of `curr` that has not been seen. */
  method Visit(edges: Edges, rootID: string, curr: string, queue0: seq<string>, visited0: set<string>,
               descendants0: seq<string>, ghost k: nat, ghost level: nat, ghost d: nat)
    returns (queue: seq<string>, visited: set<string>, descendants: seq<string>)
    requires var order := [rootID] + descendants0;
             Expanding(edges, rootID, order, k, level, d, []) && k < |order| && order[k] == curr && queue0 == order[k + 1..] &&
             Elements(order) == visited0 <= Universe(edges, rootID)
    ensures var order := [rootID] + descendants;
            Searching(edges, rootID, order, k + 1, level, d) && queue == order[k + 1..] &&
            Elements(order) == visited <= Universe(edges, rootID)
    ensures visited0 < visited || (visited == visited0 && |queue| == |queue0|)
  {
    hide Within, ChildrenOf, Layered, Searching, Children, Elements, Universe, NoRepeats, Reachable;
    queue, visited, descendants := queue0, visited0, descendants0;
    ghost var order := [rootID] + descendants0;
    var children := Children(edges, curr);
    assert children[..0] == [];
    for i := 0 to |children|
      invariant order == [rootID] + descendants && k < |order| && order[k] == curr && queue == order[k + 1..]
      invariant Elements(order) == visited <= Universe(edges, rootID)
      invariant Expanding(edges, rootID, order, k, level, d, children[..i])
      invariant visited0 < visited || (visited == visited0 && |queue| == |queue0|)
    {
      var child := children[i];
      Expand(edges, rootID, order, k, level, d, children, i);
      if child !in visited {
        visited := visited + {child};
        descendants := descendants + [child];
        queue := queue + [child];
        order := order + [child];
      }
    }
    Expanded(edges, rootID, order, k, level, d, children);
  }

  lemma DropRoot(edges: Edges, root: string, found: seq<string>)
    requires NoRepeats([root] + found) && Layered(edges, root, [root] + found)
    ensures NoRepeats(found) && root !in found && Layered(edges, root, found)
    ensures forall x :: x in [root] + found <==> x == root || x in found
  {
    assert ([root] + found)[0] == root;
    assert forall i :: 0 <= i < |found| ==> found[i] == ([root] + found)[i + 1];
  }

  /** Earlier nodes are at most as far away as later ones. */
  ghost predicate Layered(edges: Edges, root: string, order: seq<string>) {
    forall i, j, n: nat :: 0 <= i < j < |order| && order[j] in Within(edges, root, n) ==> order[i] in Within(edges, root, n)
  }

  /** Part way through the search: `order[..k]` is processed, `order[..level]` holds the nodes within distance d and the
      rest lie one step further. */
  ghost predicate Searching(edges: Edges, root: string, order: seq<string>, k: nat, level: nat, d: nat) {
    && k <= level <= |order| && 0 < |order| && order[0] == root
    && NoRepeats(order) && Layered(edges, root, order)
    && Elements(order[..level]) == Within(edges, root, d)
    && Elements(order) <= Within(edges, root, d + 1)
    && ChildrenOf(edges, Elements(order[..k])) <= Elements(order)
  }

  /** While node `order[k]` is being expanded, the children in `seen` have been visited. */
  ghost predicate Expanding(edges: Edges, root: string, order: seq<string>, k: nat, level: nat, d: nat,
                            seen: seq<string>) {
    && k < level && Searching(edges, root, order, k, level, d)
    && Elements(seen) <= Elements(order)
  }

  lemma StartSearch(edges: Edges, root: string)
    ensures Searching(edges, root, [root], 0, 1, 0)
    ensures Elements([root]) == {root} <= Universe(edges, root)
  {
    assert [root][..1] == [root];
    assert ChildrenOf(edges, Elements([root][..0])) == {};
  }

  /** When a level is used up, the nodes found so far are exactly those one step further. */
  lemma NextLevel(edges: Edges, root: string, order: seq<string>, k: nat, level: nat, d: nat)
    returns (level': nat, d': nat)
    requires Searching(edges, root, order, k, level, d) && k < |order|
    ensures Expanding(edges, root, order, k, level', d', []) && k < |order|
  {
    level', d' := level, d;
    if k == level {
      level', d' := |order|, d + 1;
      assert order[..|order|] == order;
      assert Elements(order[..k]) <= Elements(order);
      assert Within(edges, root, d + 1) == Within(edges, root, d) + ChildrenOf(edges, Within(edges, root, d));
      assert Within(edges, root, d + 1) == Elements(order);
      hide ChildrenOf, Layered, Within, NoRepeats;
      WithinGrows(edges, root, d + 1, d + 2);
    }
  }

  lemma Expand(edges: Edges, root: string, order: seq<string>, k: nat, level: nat, d: nat, children: seq<string>, i: nat)
    requires i < |children| && Expanding(edges, root, order, k, level, d, children[..i])
    requires children == Children(edges, order[k])
    ensures children[i] in Universe(edges, root) && (children[i] in Elements(order) <==> children[i] in order)
    ensures Expanding(edges, root, if children[i] in order then order else order + [children[i]], k, level, d,
                      children[..i + 1])
    ensures children[i] !in order ==> Elements(order + [children[i]]) == Elements(order) + {children[i]}
  {
    var child := children[i];
    assert order[k] in Elements(order[..level]);
    assert order[k] in Within(edges, root, d) && child in Children(edges, order[k]);
    assert child in ChildrenOf(edges, Within(edges, root, d));
    assert order[k] in edges.Keys;
    assert child in Within(edges, root, d + 1);
    hide Within, ChildrenOf, Layered, Children;
    assert Elements(children[..i + 1]) == Elements(children[..i]) + {child};
    if child !in order {
      ExpandNew(edges, root, order, k, level, d, child);
    }
  }

  lemma ExpandNew(edges: Edges, root: string, order: seq<string>, k: nat, level: nat, d: nat, child: string)
    requires Searching(edges, root, order, k, level, d) && child !in order && child in Within(edges, root, d + 1)
    ensures Searching(edges, root, order + [child], k, level, d)
    ensures Elements(order + [child]) == Elements(order) + {child}
  {
    hide Within, ChildrenOf, Layered;
    var order' := order + [child];
    assert order'[..level] == order[..level] && order'[..k] == order[..k];
    AppendLayered(edges, root, order, level, d, child);
  }

  lemma Expanded(edges: Edges, root: string, order: seq<string>, k: nat, level: nat, d: nat, children: seq<string>)
    requires Expanding(edges, root, order, k, level, d, children[..|children|])
    requires children == Children(edges, order[k])
    ensures Searching(edges, root, order, k + 1, level, d)
  {
    assert children[..|children|] == children;
    assert order[..k + 1] == order[..k] + [order[k]];
    assert Elements(order[..k + 1]) == Elements(order[..k]) + {order[k]};
    forall x | x in ChildrenOf(edges, Elements(order[..k + 1])) ensures x in Elements(order) {
      if x !in ChildrenOf(edges, Elements(order[..k])) {
        assert x in Elements(children);
      }
    }
  }

  lemma AppendLayered(edges: Edges, root: string, order: seq<string>, level: nat, d: nat, child: string)
    requires level <= |order| && Layered(edges, root, order)
    requires Elements(order[..level]) == Within(edges, root, d) && Elements(order) <= Within(edges, root, d + 1)
    requires child !in order && child in Within(edges, root, d + 1)
    ensures Layered(edges, root, order + [child])
  {
    hide Within;
    var order' := order + [child];
    forall i, j, n: nat | 0 <= i < j < |order'| && order'[j] in Within(edges, root, n)
      ensures order'[i] in Within(edges, root, n)
    {
      assert order'[i] == order[i];
      if j < |order| {
        assert order'[j] == order[j];
      } else {
        if n <= d { WithinGrows(edges, root, n, d); }
        assert forall x :: x in Elements(order[..level]) ==> x in order;
        assert d < n;
        WithinGrows(edges, root, d + 1, n);
        assert order[i] in Elements(order);
      }
    }
  }

  lemma SearchComplete(edges: Edges, root: string, order: seq<string>, k: nat, level: nat, d: nat)
    requires Searching(edges, root, order, k, level, d) && k == |order|
    ensures forall x :: x in order <==> Reachable(edges, root, x)
    ensures NoRepeats(order) && Layered(edges, root, order)
  {
    assert order[..k] == order;
    assert root in Elements(order);
    forall x | x in order ensures Reachable(edges, root, x) {
      assert x in Elements(order);
      assert x in Within(edges, root, d + 1);
    }
    forall x, n: nat | x in Within(edges, root, n) ensures x in order {
      WithinClosed(edges, root, Elements(order), n);
      assert x in Elements(order);
    }
  }

  // ---------- the two indices ----------

  /** The child lists and the parent map tell the same story. */
  ghost predicate Agree(edges: Edges, back: Parents) {
    forall p, c :: c in Children(edges, p) <==> Parent(back, c) == Some(p)
  }

  /** Adding a node keeps the indices in agreement exactly when it does not move a node to a new parent: the old
      parent's list is never shortened. */
  lemma AddAgrees(g: Graph, n: TaskNode)
    requires Agree(g.edges, g.back)
    ensures var g' := Add(g, n);
            Agree(g'.edges, g'.back) <==>
            n.parentID == "" || Parent(g.back, n.workID) in {None, Some(n.parentID)}
  {
    var g' := Add(g, n);
    if n.parentID != "" {
      var was := Parent(g.back, n.workID);
      if was.Some? && was.value != n.parentID {
        assert n.workID in Children(g'.edges, was.value);
        assert Parent(g'.back, n.workID) == Some(n.parentID);
      } else {
        forall p, c ensures c in Children(g'.edges, p) <==> Parent(g'.back, c) == Some(p) {
          assert c in Children(g.edges, p) <==> Parent(g.back, c) == Some(p);
          assert Parent(g'.back, c) == if c == n.workID then Some(n.parentID) else Parent(g.back, c);
        }
      }
    }
  }

  lemma {:induction false} WithinIsChain(edges: Edges, back: Parents, root: string, x: string, n: nat)
    requires Agree(edges, back) && x in Within(edges, root, n)
    ensures OnChain(back, root, x)
    decreases n
  {
    if n == 0 {
      assert Ancestor(back, x, 0) == Some(root);
    } else if x in Within(edges, root, n - 1) {
      WithinIsChain(edges, back, root, x, n - 1);
    } else {
      var p :| p in Within(edges, root, n - 1) && x in Children(edges, p);
      WithinIsChain(edges, back, root, p, n - 1);
      var m: nat :| Ancestor(back, p, m) == Some(root);
      assert Ancestor(back, x, m + 1) == Some(root);
    }
  }

  lemma {:induction false} ChainIsWithin(edges: Edges, back: Parents, root: string, x: string, n: nat)
    requires Agree(edges, back) && Ancestor(back, x, n) == Some(root)
    ensures x in Within(edges, root, n)
    decreases n
  {
    if n != 0 {
      var p := Parent(back, x).value;
      ChainIsWithin(edges, back, root, p, n - 1);
      assert x in Children(edges, p);
    }
  }

  /** Descendants by child lists are exactly the nodes whose parent chain holds the root. */
  lemma IndicesAgree(edges: Edges, back: Parents, root: string, x: string)
    requires Agree(edges, back)
    ensures Reachable(edges, root, x) <==> OnChain(back, root, x)
  {
    if n: nat :| x in Within(edges, root, n) {
      WithinIsChain(edges, back, root, x, n);
    }
    if OnChain(back, root, x) {
      var n: nat :| Ancestor(back, x, n) == Some(root);
      ChainIsWithin(edges, back, root, x, n);
    }
  }

  // ---------- guarded insertion ----------

  /** Insert a node once, and only if the cycle check accepts its edge. */
  ghost function Insert(g: Graph, n: TaskNode): Graph {
    if n.workID in g.nodes then g
    else if n.parentID != "" && !(Rooted(g.back, n.parentID) && !OnChain(g.back, n.workID, n.parentID)) then g
    else Add(g, n)
  }

  ghost function Build(ns: seq<TaskNode>): Graph {
    if ns == [] then Graph(map[], map[], map[]) else Insert(Build(ns[..|ns| - 1]), ns[|ns| - 1])
  }

  /** However nodes arrive, guarded insertion keeps a forest whose two indices agree. */
  lemma {:induction false} GuardedInsertionKeepsForest(ns: seq<TaskNode>)
    ensures var g := Build(ns);
            Forest(g.back) && Agree(g.edges, g.back) && g.back.Keys <= g.nodes.Keys
  {
    if ns == [] {
      var back: Parents := map[];
      forall x ensures Rooted(back, x) {
        assert Ancestor(back, x, 1).None?;
      }
    } else {
      GuardedInsertionKeepsForest(ns[..|ns| - 1]);
      var g, n := Build(ns[..|ns| - 1]), ns[|ns| - 1];
      if n.workID !in g.nodes {
        AddAgrees(g, n);
        if n.parentID != "" {
          EdgeKeepsForest(g.back, n.workID, n.parentID);
        }
      }
    }
  }

  /** In a graph built that way the descendants found along the child lists are exactly the nodes whose parent chain
      leads to the root, and no node is its own proper ancestor. */
  lemma BuiltIndicesAgree(ns: seq<TaskNode>, root: string, x: string)
    ensures Reachable(Build(ns).edges, root, x) <==> OnChain(Build(ns).back, root, x)
    ensures forall n: nat :: n > 0 ==> Ancestor(Build(ns).back, x, n) != Some(x)
  {
    GuardedInsertionKeepsForest(ns);
    var g := Build(ns);
    IndicesAgree(g.edges, g.back, root, x);
    forall n: nat | n > 0 ensures Ancestor(g.back, x, n) != Some(x) {
      if Ancestor(g.back, x, n).Some? { ForestChainsDistinct(g.back, x, 0, n); }
    }
  }
}
