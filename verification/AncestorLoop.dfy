/**
 The ancestor search behind the logical-loop check, and what its answer means for the
 acyclicity of the graph.
 */
module AncestorLoops {
  import opened TruthTables
  import opened Netlists
  import opened TruthTableTrees

  predicate StepUp(nodes: Nodes, path: seq<nat>, i: nat) {
    i + 1 < |path| && path[i] < |nodes| && path[i + 1] in nodes[path[i]].parents
  }

  /** A real path from a node through parents. */
  ghost predicate UpPath(nodes: Nodes, path: seq<nat>) {
    && path != [] && (forall i :: 0 <= i < |path| ==> path[i] < |nodes|)
    && (forall i :: 0 <= i < |path| - 1 ==> StepUp(nodes, path, i))
  }

  ghost predicate Climbs(nodes: Nodes, path: seq<nat>, start: nat, target: nat) {
    UpPath(nodes, path) && path[0] == start && path[|path| - 1] == target
  }

  ghost predicate AncestorOrSelf(nodes: Nodes, target: nat, start: nat) {
    exists path :: Climbs(nodes, path, start, target)
  }

  lemma {:induction false} ExtendPath(nodes: Nodes, path: seq<nat>, p: nat)
    requires UpPath(nodes, path) && p < |nodes| && p in nodes[path[|path| - 1]].parents
    ensures UpPath(nodes, path + [p])
  {
    var more := path + [p];
    forall i | 0 <= i < |more| - 1
      ensures StepUp(nodes, more, i)
    {
      if i + 1 < |path| {
        assert StepUp(nodes, path, i);
      }
    }
  }

  lemma {:induction false} CutPath(nodes: Nodes, path: seq<nat>, k: nat)
    requires UpPath(nodes, path) && 0 < k <= |path|
    ensures UpPath(nodes, path[..k])
  {
    forall i | 0 <= i < k - 1
      ensures StepUp(nodes, path[..k], i)
    {
      assert StepUp(nodes, path, i);
    }
  }

  /** The first step of a path upward. */
  lemma {:induction false} FirstStep(nodes: Nodes, target: nat, start: nat)
    requires AncestorOrSelf(nodes, target, start) && target != start
    ensures start < |nodes| && exists p :: p in nodes[start].parents && AncestorOrSelf(nodes, target, p)
  {
    var path :| Climbs(nodes, path, start, target);
    assert StepUp(nodes, path, 0);
    var rest := path[1..];
    forall i | 0 <= i < |rest| - 1
      ensures StepUp(nodes, rest, i)
    {
      assert StepUp(nodes, path, i + 1);
    }
    assert Climbs(nodes, rest, path[1], target);
  }

  /** A set that contains a node and all its parents' parents contains all its ancestors. */
  lemma {:induction false} ClosedContains(nodes: Nodes, seen: set<nat>, path: seq<nat>)
    requires UpPath(nodes, path) && path[0] in seen
    requires forall v, p :: v in seen && v < |nodes| && p in nodes[v].parents ==> p in seen
    ensures path[|path| - 1] in seen
  {
    if |path| > 1 {
      var k := |path| - 1;
      CutPath(nodes, path, k);
      ClosedContains(nodes, seen, path[..k]);
      assert StepUp(nodes, path, k - 1);
    }
  }

  datatype AncestorFrame = AncestorFrame(node: nat, next: nat)

  /** Parent j of v is still to be looked at. */
  ghost predicate Pending(stack: seq<AncestorFrame>, v: nat, j: nat) {
    exists i :: 0 <= i < |stack| && stack[i].node == v && stack[i].next <= j
  }

  ghost predicate ExploredAt(nodes: Nodes, visited: set<nat>, stack: seq<AncestorFrame>, v: nat, j: nat)
    requires v < |nodes| && j < |nodes[v].parents|
  {
    Pending(stack, v, j) || nodes[v].parents[j] in visited
  }

  ghost predicate Explored(nodes: Nodes, visited: set<nat>, stack: seq<AncestorFrame>) {
    forall v, j :: v in visited && v < |nodes| && 0 <= j < |nodes[v].parents| ==>
      ExploredAt(nodes, visited, stack, v, j)
  }

  ghost predicate FramesOk(nodes: Nodes, stack: seq<AncestorFrame>) {
    forall i :: 0 <= i < |stack| ==> stack[i].node < |nodes| && stack[i].next <= |nodes[stack[i].node].parents|
  }

  /** The looked-at parents left on the stack, plus the frames themselves. */
  function Work(nodes: Nodes, stack: seq<AncestorFrame>): nat {
    if stack == [] then 0
    else
      var f := stack[|stack| - 1];
      Work(nodes, stack[..|stack| - 1]) + 1 +
      if f.node < |nodes| && f.next <= |nodes[f.node].parents| then |nodes[f.node].parents| - f.next else 0
  }

  lemma {:induction false} WorkPush(nodes: Nodes, stack: seq<AncestorFrame>, f: AncestorFrame)
    ensures Work(nodes, stack + [f]) == Work(nodes, stack) + 1 +
              if f.node < |nodes| && f.next <= |nodes[f.node].parents| then |nodes[f.node].parents| - f.next else 0
  {
    assert (stack + [f])[..|stack|] == stack;
  }

  lemma {:induction false} ExploredPop(nodes: Nodes, visited: set<nat>, stack: seq<AncestorFrame>)
    requires stack != [] && FramesOk(nodes, stack) && Explored(nodes, visited, stack)
    requires stack[|stack| - 1].next == |nodes[stack[|stack| - 1].node].parents|
    ensures Explored(nodes, visited, stack[..|stack| - 1])
  {
    var rest := stack[..|stack| - 1];
    forall v, j | v in visited && v < |nodes| && 0 <= j < |nodes[v].parents|
      ensures ExploredAt(nodes, visited, rest, v, j)
    {
      assert ExploredAt(nodes, visited, stack, v, j);
      if Pending(stack, v, j) {
        var i :| 0 <= i < |stack| && stack[i].node == v && stack[i].next <= j;
        assert rest[i] == stack[i];
      }
    }
  }

  /** Looking at one parent of the top frame, which is known or becomes known. */
  lemma {:induction false} ExploredAdvance(nodes: Nodes, visited: set<nat>, stack: seq<AncestorFrame>, p: nat,
      isNew: bool)
    requires stack != [] && FramesOk(nodes, stack) && Explored(nodes, visited, stack) && p < |nodes|
    requires var f := stack[|stack| - 1]; f.next < |nodes[f.node].parents| && nodes[f.node].parents[f.next] == p
    requires isNew <==> p !in visited
    ensures var f := stack[|stack| - 1];
            var moved := stack[..|stack| - 1] + [AncestorFrame(f.node, f.next + 1)];
            && Explored(nodes, visited + {p}, if isNew then moved + [AncestorFrame(p, 0)] else moved)
  {
    var f := stack[|stack| - 1];
    var moved := stack[..|stack| - 1] + [AncestorFrame(f.node, f.next + 1)];
    var after := if isNew then moved + [AncestorFrame(p, 0)] else moved;
    forall v, j | v in visited + {p} && v < |nodes| && 0 <= j < |nodes[v].parents|
      ensures ExploredAt(nodes, visited + {p}, after, v, j)
    {
      if v !in visited {
        assert after[|after| - 1] == AncestorFrame(p, 0);
      } else {
        assert ExploredAt(nodes, visited, stack, v, j);
        if Pending(stack, v, j) && !(v == f.node && j == f.next) {
          var i :| 0 <= i < |stack| && stack[i].node == v && stack[i].next <= j;
          assert after[i].node == v && after[i].next <= j;
        }
      }
    }
  }

  /** The terms of a loop: down the path from the target, then the target's term again. */
  function LoopTerms(nodes: Nodes, path: seq<nat>, term: nat): seq<nat>
    requires InnerPath(nodes, path)
  {
    seq(|path|, i requires 0 <= i < |path| => nodes[path[|path| - 1 - i]].term) + [term]
  }

  method AppendLoopTerms(nodes: Nodes, nodePath: seq<nat>, term: nat) returns (loopTerms: seq<nat>)
    requires InnerPath(nodes, nodePath)
    ensures loopTerms == LoopTerms(nodes, nodePath, term)
  {
    loopTerms := [];
    for i := |nodePath| downto 0
      invariant |loopTerms| == |nodePath| - i
      invariant forall j :: 0 <= j < |loopTerms| ==> loopTerms[j] == nodes[nodePath[|nodePath| - 1 - j]].term
    {
      if !nodes[nodePath[i]].kind.Leaf? {
        loopTerms := loopTerms + [nodes[nodePath[i]].term];
      }
    }
    loopTerms := loopTerms + [term];
  }

  lemma {:induction false} ParentsAreInner(n: Netlist, nodes: Nodes, tables: map<nat, nat>, i: nat, p: nat)
    requires GraphOk(n, nodes, tables) && Inner(nodes, i) && p in nodes[i].parents
    ensures Inner(nodes, p)
  {
    assert LinkedAt(nodes, i);
    assert NodeOk(n, nodes, p);
  }

  /** Ancestors of a node with one parent: the node itself, or ancestors of the parent. */
  lemma {:induction false} OnlyParent(nodes: Nodes, target: nat, i: nat)
    requires i < |nodes| && |nodes[i].parents| == 1 && target != i && nodes[i].parents[0] < |nodes|
    ensures AncestorOrSelf(nodes, target, i) <==> AncestorOrSelf(nodes, target, nodes[i].parents[0])
  {
    var p := nodes[i].parents[0];
    if AncestorOrSelf(nodes, target, i) {
      FirstStep(nodes, target, i);
    }
    if AncestorOrSelf(nodes, target, p) {
      var path :| Climbs(nodes, path, p, target);
      var more := [i] + path;
      forall j | 0 <= j < |more| - 1
        ensures StepUp(nodes, more, j)
      {
        if j > 0 {
          assert StepUp(nodes, path, j - 1);
        }
      }
      assert Climbs(nodes, more, i, target);
    }
  }

  lemma {:induction false} NoParentNoAncestor(nodes: Nodes, target: nat, i: nat)
    requires i < |nodes| && nodes[i].parents == [] && target != i
    ensures !AncestorOrSelf(nodes, target, i)
  {
    if AncestorOrSelf(nodes, target, i) {
      FirstStep(nodes, target, i);
    }
  }

  predicate InnerPath(nodes: Nodes, path: seq<nat>) {
    forall i :: 0 <= i < |path| ==> Inner(nodes, path[i])
  }

  /** The search upward from a branching node. */
  method SearchAncestors(ghost n: Netlist, nodes: Nodes, ghost tables: map<nat, nat>, start: nat, target: nat,
      chain: seq<nat>)
      returns (found: bool, nodePath: seq<nat>)
    requires GraphOk(n, nodes, tables) && UpPath(nodes, chain) && InnerPath(nodes, chain)
    requires chain[|chain| - 1] == start && start != target
    ensures found <==> AncestorOrSelf(nodes, target, start)
    ensures found ==> UpPath(nodes, nodePath) && InnerPath(nodes, nodePath)
    ensures found ==> nodePath[0] == chain[0] && nodePath[|nodePath| - 1] == target
  {
    hide GraphOk, SearchInv, Work, AncestorOrSelf, UpPath, InnerPath;
    nodePath := chain;
    var visited: set<nat> := {start};
    var stack := [AncestorFrame(start, 0)];
    ghost var all := Ids(|nodes|);
    SearchStarts(nodes, chain, target);
    while stack != []
      invariant SearchInv(nodes, chain, target, visited, stack, nodePath)
      decreases all - visited, Work(nodes, stack)
    {
      var top := |stack| - 1;
      var f := stack[top];
      ghost var rest := stack[..top];
      assert stack == rest + [f];
      WorkPush(nodes, rest, f);
      SearchTop(nodes, chain, target, visited, rest, f, nodePath);
      if f.next >= |nodes[f.node].parents| {
        SearchPops(nodes, chain, target, visited, rest, f, nodePath);
        stack := stack[..top];
        nodePath := nodePath[..|nodePath| - 1];
      } else {
        var p := nodes[f.node].parents[f.next];
        ParentsAreInner(n, nodes, tables, f.node, p);
        WorkPush(nodes, rest, AncestorFrame(f.node, f.next + 1));
        SearchFinds(nodes, chain, target, visited, rest, f, nodePath, p);
        if p == target {
          return true, nodePath + [p];
        }
        stack := stack[..top] + [AncestorFrame(f.node, f.next + 1)];
        if p in visited {
          SearchSkips(nodes, chain, target, visited, rest, f, nodePath, p);
        } else {
          SearchPushes(nodes, chain, target, visited, rest, f, nodePath, p);
          SearchKnows(nodes, p);
          visited := visited + {p};
          stack := stack + [AncestorFrame(p, 0)];
          nodePath := nodePath + [p];
        }
      }
    }
    found := false;
    SearchEnds(nodes, chain, target, visited, nodePath);
  }

  /** The stack is the end of a real path; visited nodes have visited parents or pending ones. */
  ghost predicate SearchInv(nodes: Nodes, chain: seq<nat>, target: nat, visited: set<nat>, stack: seq<AncestorFrame>,
      nodePath: seq<nat>) {
    && chain != [] && chain[|chain| - 1] in visited && target !in visited && visited <= Ids(|nodes|)
    && FramesOk(nodes, stack) && Explored(nodes, visited, stack)
    && |nodePath| == |chain| - 1 + |stack|
    && (forall i :: 0 <= i < |stack| ==> nodePath[|chain| - 1 + i] == stack[i].node)
    && (stack != [] ==> UpPath(nodes, nodePath) && InnerPath(nodes, nodePath) && nodePath[0] == chain[0])
    && AllClimb(nodes, stack, chain[|chain| - 1])
  }

  lemma {:induction false} SearchStarts(nodes: Nodes, chain: seq<nat>, target: nat)
    requires UpPath(nodes, chain) && InnerPath(nodes, chain) && chain[|chain| - 1] != target
    ensures SearchInv(nodes, chain, target, {chain[|chain| - 1]}, [AncestorFrame(chain[|chain| - 1], 0)], chain)
  {
    var start := chain[|chain| - 1];
    var stack := [AncestorFrame(start, 0)];
    assert stack[0].node == start && stack[0].next == 0;
    assert Climbs(nodes, [start], start, start);
    assert Inner(nodes, start);
  }

  lemma {:induction false} SearchTop(nodes: Nodes, chain: seq<nat>, target: nat, visited: set<nat>,
      rest: seq<AncestorFrame>, f: AncestorFrame, nodePath: seq<nat>)
    requires SearchInv(nodes, chain, target, visited, rest + [f], nodePath)
    ensures f.node < |nodes| && f.next <= |nodes[f.node].parents| && Inner(nodes, f.node) && nodePath != []
    ensures nodePath[|nodePath| - 1] == f.node
  {
    var stack := rest + [f];
    assert stack[|rest|] == f;
    assert nodePath[|chain| - 1 + |rest|] == f.node;
    assert Inner(nodes, nodePath[|nodePath| - 1]);
  }

  lemma {:induction false} SearchPops(nodes: Nodes, chain: seq<nat>, target: nat, visited: set<nat>,
      rest: seq<AncestorFrame>, f: AncestorFrame, nodePath: seq<nat>)
    requires SearchInv(nodes, chain, target, visited, rest + [f], nodePath)
    requires f.node < |nodes| && f.next == |nodes[f.node].parents|
    ensures SearchInv(nodes, chain, target, visited, rest, nodePath[..|nodePath| - 1])
  {
    var stack := rest + [f];
    assert stack[..|stack| - 1] == rest && stack[|rest|] == f;
    ExploredPop(nodes, visited, stack);
    FewerClimb(nodes, rest, f, chain[|chain| - 1]);
    assert forall i :: 0 <= i < |rest| ==> stack[i] == rest[i];
    if rest != [] {
      CutPath(nodes, nodePath, |nodePath| - 1);
    }
  }

  lemma {:induction false} SearchKnows(nodes: Nodes, p: nat)
    requires Inner(nodes, p)
    ensures p in Ids(|nodes|)
  {
  }

  ghost predicate NextParent(nodes: Nodes, f: AncestorFrame, p: nat) {
    f.node < |nodes| && f.next < |nodes[f.node].parents| && p == nodes[f.node].parents[f.next] && Inner(nodes, p)
  }

  lemma {:induction false} SearchFinds(nodes: Nodes, chain: seq<nat>, target: nat, visited: set<nat>,
      rest: seq<AncestorFrame>, f: AncestorFrame, nodePath: seq<nat>, p: nat)
    requires SearchInv(nodes, chain, target, visited, rest + [f], nodePath) && NextParent(nodes, f, p)
    ensures AncestorOrSelf(nodes, p, chain[|chain| - 1])
    ensures UpPath(nodes, nodePath + [p]) && InnerPath(nodes, nodePath + [p]) && nodePath[0] == chain[0]
  {
    hide AncestorOrSelf, Explored;
    SearchTop(nodes, chain, target, visited, rest, f, nodePath);
    ClimbsOn(nodes, rest, f, chain[|chain| - 1], p);
    ExtendPath(nodes, nodePath, p);
  }

  lemma {:induction false} SearchSkips(nodes: Nodes, chain: seq<nat>, target: nat, visited: set<nat>,
      rest: seq<AncestorFrame>, f: AncestorFrame, nodePath: seq<nat>, p: nat)
    requires SearchInv(nodes, chain, target, visited, rest + [f], nodePath) && NextParent(nodes, f, p) && p in visited
    ensures SearchInv(nodes, chain, target, visited, rest + [AncestorFrame(f.node, f.next + 1)], nodePath)
  {
    hide AncestorOrSelf, Explored, UpPath, AllClimb, InnerPath;
    var stack, moved := rest + [f], rest + [AncestorFrame(f.node, f.next + 1)];
    assert stack[..|stack| - 1] == rest && stack[|stack| - 1] == f;
    ExploredAdvance(nodes, visited, stack, p, false);
    ClimbsOn(nodes, rest, f, chain[|chain| - 1], p);
    assert visited + {p} == visited;
    assert forall i :: 0 <= i < |moved| ==> moved[i].node == stack[i].node && (i < |rest| ==> moved[i] == stack[i]);
  }

  lemma {:induction false} SearchPushes(nodes: Nodes, chain: seq<nat>, target: nat, visited: set<nat>,
      rest: seq<AncestorFrame>, f: AncestorFrame, nodePath: seq<nat>, p: nat)
    requires SearchInv(nodes, chain, target, visited, rest + [f], nodePath) && NextParent(nodes, f, p) && p !in visited
    requires p != target
    ensures SearchInv(nodes, chain, target, visited + {p},
      rest + [AncestorFrame(f.node, f.next + 1)] + [AncestorFrame(p, 0)], nodePath + [p])
  {
    hide AncestorOrSelf, Explored, UpPath, AllClimb, InnerPath;
    var stack, moved := rest + [f], rest + [AncestorFrame(f.node, f.next + 1)];
    assert stack[..|stack| - 1] == rest && stack[|stack| - 1] == f;
    ExploredAdvance(nodes, visited, stack, p, true);
    SearchFinds(nodes, chain, target, visited, rest, f, nodePath, p);
    ClimbsOn(nodes, rest, f, chain[|chain| - 1], p);
    var more := moved + [AncestorFrame(p, 0)];
    assert forall i :: 0 <= i < |moved| ==>
      more[i] == moved[i] && moved[i].node == stack[i].node && (i < |rest| ==> moved[i] == stack[i]);
  }

  lemma {:induction false} SearchEnds(nodes: Nodes, chain: seq<nat>, target: nat, visited: set<nat>, nodePath: seq<nat>)
    requires SearchInv(nodes, chain, target, visited, [], nodePath)
    ensures !AncestorOrSelf(nodes, target, chain[|chain| - 1])
  {
    NotFound(nodes, visited, chain[|chain| - 1], target);
  }

  ghost function Ids(n: nat): (r: set<nat>)
    ensures forall i: nat :: i in r <==> i < n
  {
    if n == 0 then {} else Ids(n - 1) + {n - 1}
  }

  lemma {:induction false} NotFound(nodes: Nodes, visited: set<nat>, start: nat, target: nat)
    requires Explored(nodes, visited, []) && start in visited && target !in visited
    ensures !AncestorOrSelf(nodes, target, start)
  {
    NothingPending(nodes, visited);
    forall path | UpPath(nodes, path) && path[0] == start
      ensures path[|path| - 1] != target
    {
      ClosedContains(nodes, visited, path);
    }
  }

  lemma {:induction false} FewerClimb(nodes: Nodes, rest: seq<AncestorFrame>, f: AncestorFrame, start: nat)
    requires AllClimb(nodes, rest + [f], start)
    ensures AllClimb(nodes, rest, start)
  {
    forall i | 0 <= i < |rest|
      ensures AncestorOrSelf(nodes, rest[i].node, start)
    {
      assert (rest + [f])[i] == rest[i];
    }
  }

  ghost predicate AllClimb(nodes: Nodes, stack: seq<AncestorFrame>, start: nat) {
    forall i :: 0 <= i < |stack| ==> AncestorOrSelf(nodes, stack[i].node, start)
  }

  lemma {:induction false} ClimbsOn(nodes: Nodes, rest: seq<AncestorFrame>, f: AncestorFrame, start: nat, p: nat)
    requires AllClimb(nodes, rest + [f], start) && p < |nodes|
    requires f.node < |nodes| && f.next < |nodes[f.node].parents| && p == nodes[f.node].parents[f.next]
    ensures AncestorOrSelf(nodes, p, start)
    ensures AllClimb(nodes, rest + [AncestorFrame(f.node, f.next + 1)], start)
    ensures AllClimb(nodes, rest + [AncestorFrame(f.node, f.next + 1)] + [AncestorFrame(p, 0)], start)
  {
    assert (rest + [f])[|rest|] == f;
    var path :| Climbs(nodes, path, start, f.node);
    ExtendPath(nodes, path, p);
    assert Climbs(nodes, path + [p], start, p);
    FewerClimb(nodes, rest, f, start);
  }

  lemma {:induction false} NothingPending(nodes: Nodes, visited: set<nat>)
    requires Explored(nodes, visited, [])
    ensures forall v, p :: v in visited && v < |nodes| && p in nodes[v].parents ==> p in visited
  {
    forall v, p | v in visited && v < |nodes| && p in nodes[v].parents
      ensures p in visited
    {
      var j :| 0 <= j < |nodes[v].parents| && nodes[v].parents[j] == p;
      assert ExploredAt(nodes, visited, [], v, j);
    }
  }

  /** The reported terms belong to a path from the leaf's parent up to the target. */
  ghost predicate ReportsLoop(nodes: Nodes, start: nat, target: nat, term: nat, loopTerms: seq<nat>) {
    exists path :: Climbs(nodes, path, start, target) && InnerPath(nodes, path) &&
      loopTerms == LoopTerms(nodes, path, term)
  }

  /** `findAncestorLoopForBorderLeaf`. */
  method FindAncestorLoop(tree: TruthTableTree, borderIndex: nat, term: nat) returns (found: bool, loopTerms: seq<nat>)
    requires tree.Valid()
    ensures found <==> && borderIndex < |tree.borderLeaves| && term in tree.tableNodes
                       && AncestorOrSelf(tree.nodes, tree.tableNodes[term], tree.borderLeaves[borderIndex].parent)
    ensures found ==>
      ReportsLoop(tree.nodes, tree.borderLeaves[borderIndex].parent, tree.tableNodes[term], term, loopTerms)
    ensures !found ==> loopTerms == []
  {
    if borderIndex >= |tree.borderLeaves| || term !in tree.tableNodes {
      return false, [];
    }
    ghost var n, tables := tree.netlist, tree.tableNodes;
    var nodes := tree.nodes;
    var target := tree.tableNodes[term];
    var start := tree.borderLeaves[borderIndex].parent;
    assert LeafPos(nodes, start, tree.borderLeaves[borderIndex].pos) && NodeOk(n, nodes, start);
    assert Inner(nodes, start);
    hide GraphOk, NodeOk, BorderOk, LeafPos;
    var nodeId := start;
    var nodePath := [start];
    while nodeId != target && |nodes[nodeId].parents| == 1
      invariant UpPath(nodes, nodePath) && InnerPath(nodes, nodePath)
      invariant nodePath[0] == start && nodePath[|nodePath| - 1] == nodeId
      invariant AncestorOrSelf(nodes, target, start) <==> AncestorOrSelf(nodes, target, nodeId)
      decreases nodeId
    {
      ParentsAreInner(n, nodes, tables, nodeId, nodes[nodeId].parents[0]);
      FirstParentIsOlder(n, nodes, tables, nodeId);
      OnlyParent(nodes, target, nodeId);
      nodeId := nodes[nodeId].parents[0];
      ExtendPath(nodes, nodePath, nodeId);
      nodePath := nodePath + [nodeId];
    }
    if nodeId == target {
      assert Climbs(nodes, nodePath, start, target);
      loopTerms := AppendLoopTerms(nodes, nodePath, term);
      return true, loopTerms;
    }
    if nodes[nodeId].parents == [] {
      NoParentNoAncestor(nodes, target, nodeId);
      return false, [];
    }
    found, nodePath := SearchAncestors(n, nodes, tables, nodeId, target, nodePath);
    loopTerms := [];
    if found {
      assert Climbs(nodes, nodePath, start, target);
      loopTerms := AppendLoopTerms(nodes, nodePath, term);
    }
  }

  lemma {:induction false} FirstParentIsOlder(n: Netlist, nodes: Nodes, tables: map<nat, nat>, i: nat)
    requires GraphOk(n, nodes, tables) && Inner(nodes, i) && nodes[i].parents != []
    ensures nodes[i].parents[0] < i
  {
    assert LinkedAt(nodes, i);
  }

  // ----- acyclicity -----

  ghost predicate RankedAt(nodes: Nodes, rank: nat -> nat, p: nat)
    requires p < |nodes|
  {
    forall c :: c in nodes[p].children ==> rank(c) < rank(p)
  }

  ghost predicate Ranked(nodes: Nodes, rank: nat -> nat) {
    forall p :: 0 <= p < |nodes| ==> RankedAt(nodes, rank, p)
  }

  ghost predicate Acyclic(nodes: Nodes) {
    exists rank: nat -> nat :: Ranked(nodes, rank)
  }

  ghost function Lifted(nodes: Nodes, rank: nat -> nat, p: nat, m: nat): nat -> nat {
    (i: nat) => if AncestorOrSelf(nodes, i, p) then rank(i) + rank(m) + 1 else rank(i)
  }

  lemma {:induction false} ParentOfAncestor(n: Netlist, nodes: Nodes, tables: map<nat, nat>, p: nat, c: nat, q: nat)
    requires GraphOk(n, nodes, tables) && q < |nodes| && c in nodes[q].children && Inner(nodes, c)
    requires AncestorOrSelf(nodes, c, p)
    ensures AncestorOrSelf(nodes, q, p)
  {
    assert LinkedAt(nodes, c);
    var path :| Climbs(nodes, path, p, c);
    ExtendPath(nodes, path, q);
    assert Climbs(nodes, path + [q], p, q);
  }

  lemma {:induction false} LeafIsNoAncestor(n: Netlist, nodes: Nodes, tables: map<nat, nat>, c: nat, p: nat)
    requires GraphOk(n, nodes, tables) && Inner(nodes, p) && c < |nodes| && nodes[c].kind.Leaf?
    ensures !AncestorOrSelf(nodes, c, p)
  {
    if AncestorOrSelf(nodes, c, p) {
      var path :| Climbs(nodes, path, p, c);
      PathIsInner(n, nodes, tables, path);
    }
  }

  lemma {:induction false} PathIsInner(n: Netlist, nodes: Nodes, tables: map<nat, nat>, path: seq<nat>)
    requires GraphOk(n, nodes, tables) && UpPath(nodes, path) && Inner(nodes, path[0])
    ensures InnerPath(nodes, path)
  {
    if |path| > 1 {
      var k := |path| - 1;
      CutPath(nodes, path, k);
      PathIsInner(n, nodes, tables, path[..k]);
      assert StepUp(nodes, path, k - 1);
      assert Inner(nodes, path[..k][k - 1]);
      ParentsAreInner(n, nodes, tables, path[k - 1], path[k]);
      forall i | 0 <= i < |path|
        ensures Inner(nodes, path[i])
      {
        if i < k {
          assert path[..k][i] == path[i];
        }
      }
    }
  }

  lemma {:induction false} RangeOfChildren(n: Netlist, nodes: Nodes, tables: map<nat, nat>, q: nat)
    requires GraphOk(n, nodes, tables) && q < |nodes|
    ensures forall c :: c in nodes[q].children ==> c < |nodes|
  {
    assert NodeOk(n, nodes, q);
    ChildrenInRange(n, nodes, q);
  }

  lemma {:induction false} MembersKept(cs: seq<nat>, after: seq<nat>, replaced: bool, k: nat, m: nat, c: nat)
    requires after == if replaced && k < |cs| then cs[k := m] else cs
    requires c in after && (replaced ==> c != m)
    ensures c in cs
  {
    var j :| 0 <= j < |after| && after[j] == c;
    assert cs[j] == c;
  }

  lemma {:induction false} LiftedEdge(n: Netlist, nodes: Nodes, tables: map<nat, nat>, rank: nat -> nat, p: nat,
      m: nat, q: nat, c: nat)
    requires GraphOk(n, nodes, tables) && Inner(nodes, p) && q < |nodes| && c in nodes[q].children && c < |nodes|
    requires rank(c) < rank(q)
    ensures Lifted(nodes, rank, p, m)(c) < Lifted(nodes, rank, p, m)(q)
  {
    hide GraphOk, AncestorOrSelf;
    if Inner(nodes, c) {
      if AncestorOrSelf(nodes, c, p) {
        ParentOfAncestor(n, nodes, tables, p, c, q);
      }
    } else {
      LeafIsNoAncestor(n, nodes, tables, c, p);
    }
  }

  /** After a negative answer, one reuse keeps the graph acyclic. */
  lemma {:induction false} ReuseKeepsAcyclic(n: Netlist, nodes: Nodes, tables: map<nat, nat>, after: Nodes, p: nat,
      k: nat, m: nat)
    requires GraphOk(n, nodes, tables) && Attached(nodes, after, p, k, m) && m < |nodes|
    requires Acyclic(nodes) && !AncestorOrSelf(nodes, m, p)
    ensures forall i :: |nodes| <= i < |after| ==> after[i].children == []
    ensures Acyclic(after)
  {
    var rank :| Ranked(nodes, rank);
    var lifted := Lifted(nodes, rank, p, m);
    assert Inner(nodes, p) by {
      assert NodeOk(n, nodes, p);
    }
    assert Climbs(nodes, [p], p, p);
    assert AncestorOrSelf(nodes, p, p);
    assert lifted(m) < lifted(p);
    hide GraphOk, AncestorOrSelf, Lifted;
    forall q | 0 <= q < |after|
      ensures RankedAt(after, lifted, q)
    {
      if q < |nodes| {
        assert KeptAt(nodes, after, p, k, m, q) && RankedAt(nodes, rank, q);
        RangeOfChildren(n, nodes, tables, q);
        forall c | c in after[q].children
          ensures lifted(c) < lifted(q)
        {
          if q == p && c == m {
          } else {
            MembersKept(nodes[q].children, after[q].children, p == q, k, m, c);
            LiftedEdge(n, nodes, tables, rank, p, m, q, c);
          }
        }
      }
    }
    assert Ranked(after, lifted);
  }

  lemma {:induction false} RankClimbs(n: Netlist, nodes: Nodes, tables: map<nat, nat>, after: Nodes, p: nat, k: nat,
      m: nat, rank: nat -> nat, path: seq<nat>)
    requires GraphOk(n, nodes, tables) && Attached(nodes, after, p, k, m) && m < |nodes| && Ranked(after, rank)
    requires UpPath(nodes, path) && Inner(nodes, path[0])
    ensures rank(path[0]) <= rank(path[|path| - 1])
  {
    if |path| > 1 {
      var j := |path| - 1;
      CutPath(nodes, path, j);
      RankClimbs(n, nodes, tables, after, p, k, m, rank, path[..j]);
      assert StepUp(nodes, path, j - 1);
      PathIsInner(n, nodes, tables, path);
      var c, q := path[j - 1], path[j];
      assert Inner(nodes, c) && LinkedAt(nodes, c) && c in nodes[q].children;
      assert KeptAt(nodes, after, p, k, m, q);
      if q == p {
        ReplacedMembers(nodes[p].children, k, m, c);
      }
      assert c in after[q].children && RankedAt(after, rank, q);
    }
  }

  lemma {:induction false} NoRank(n: Netlist, nodes: Nodes, tables: map<nat, nat>, after: Nodes, p: nat, k: nat,
      m: nat, rank: nat -> nat, path: seq<nat>)
    requires GraphOk(n, nodes, tables) && Attached(nodes, after, p, k, m) && m < |nodes| && Climbs(nodes, path, p, m)
    ensures !Ranked(after, rank)
  {
    assert NodeOk(n, nodes, p) && KeptAt(nodes, after, p, k, m, p);
    assert after[p].children[k] == m;
    assert RankedAt(after, rank, p) ==> rank(m) < rank(p);
    if Ranked(after, rank) {
      RankClimbs(n, nodes, tables, after, p, k, m, rank, path);
    }
  }

  /** The loop check is exact for one reuse: the graph stays acyclic if and only if the answer is no. */
  lemma {:induction false} ReuseAcyclicIff(n: Netlist, nodes: Nodes, tables: map<nat, nat>, after: Nodes, p: nat,
      k: nat, m: nat)
    requires GraphOk(n, nodes, tables) && Attached(nodes, after, p, k, m) && m < |nodes| && Acyclic(nodes)
    ensures Acyclic(after) <==> !AncestorOrSelf(nodes, m, p)
  {
    if AncestorOrSelf(nodes, m, p) {
      var path :| Climbs(nodes, path, p, m);
      forall rank: nat -> nat
        ensures !Ranked(after, rank)
      {
        NoRank(n, nodes, tables, after, p, k, m, rank, path);
      }
    } else {
      ReuseKeepsAcyclic(n, nodes, tables, after, p, k, m);
    }
  }

  /** The root is an ancestor of every inner node. */
  lemma {:induction false} RootIsAncestor(n: Netlist, nodes: Nodes, tables: map<nat, nat>, i: nat)
    requires GraphOk(n, nodes, tables) && Inner(nodes, i)
    ensures AncestorOrSelf(nodes, 0, i)
    decreases i
  {
    if i == 0 {
      assert Climbs(nodes, [0], 0, 0);
    } else {
      assert LinkedAt(nodes, i);
      var p := nodes[i].parents[0];
      ParentsAreInner(n, nodes, tables, i, p);
      RootIsAncestor(n, nodes, tables, p);
      var path :| Climbs(nodes, path, p, 0);
      var more := [i] + path;
      forall j | 0 <= j < |more| - 1
        ensures StepUp(nodes, more, j)
      {
        if j > 0 {
          assert StepUp(nodes, path, j - 1);
        }
      }
      assert Climbs(nodes, more, i, 0);
    }
  }
}
