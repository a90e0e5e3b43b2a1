/**
 The expansion of an output's cone: a frontier of nets that grows backward while the node
 graph grows with it, leaf by leaf.
 */
module LogicClouds {
  import opened Options
  import opened TruthTables
  import opened Netlists
  import opened TruthTableTrees
  import opened AncestorLoops

  datatype SkipReason = MultiDriver | NoDriver | LogicalLoop | OpaqueInternal

  datatype CloudError = SeedMultiDriver | SeedNoDriver | ArityMismatch | FrontierMismatch

  datatype Outcome = Done | Skipped(reason: SkipReason) | Failed(error: CloudError)

  // ----- dependency between drivers -----

  /** Cell a has an input whose net has b as its only driver. */
  ghost predicate Reads(n: Netlist, a: nat, b: nat) {
    exists k :: 0 <= k < |n.inputs(a)| && n.Drivers(n.inputs(a)[k]) == [b]
  }

  ghost predicate ReadStep(n: Netlist, path: seq<nat>, i: nat) {
    0 <= i < |path| - 1 && path[i] < n.count && Reads(n, path[i], path[i + 1])
  }

  ghost predicate ReadPath(n: Netlist, path: seq<nat>) {
    path != [] && forall i :: 0 <= i < |path| - 1 ==> ReadStep(n, path, i)
  }

  /**
   A feedback of cells below the root: each reads the next and the chain closes. Whether the
   expansion would stop somewhere on it is not asked here.
   */
  ghost predicate Cyclic(n: Netlist, root: nat) {
    exists path :: |path| > 1 && ReadPath(n, path) && path[0] == path[|path| - 1] && InCone(n, root, path[0])
  }

  lemma {:induction false} JoinPaths(n: Netlist, a: seq<nat>, b: seq<nat>)
    requires ReadPath(n, a) && ReadPath(n, b) && a[|a| - 1] < n.count && Reads(n, a[|a| - 1], b[0])
    ensures ReadPath(n, a + b)
  {
    var path := a + b;
    forall i | 0 <= i < |path| - 1
      ensures ReadStep(n, path, i)
    {
      if i < |a| - 1 {
        assert ReadStep(n, a, i);
      } else if i >= |a| {
        assert ReadStep(n, b, i - |a|);
      }
    }
  }

  /** Going down from a parent follows the netlist. */
  lemma {:induction false} ParentReads(n: Netlist, nodes: Nodes, tables: map<nat, nat>, i: nat, p: nat)
    requires GraphOk(n, nodes, tables) && i < |nodes| && nodes[i].kind.Table? && p in nodes[i].parents
    ensures p < |nodes| && nodes[p].kind.Table? && nodes[p].term < n.count && Reads(n, nodes[p].term, nodes[i].term)
  {
    assert LinkedAt(nodes, i);
    assert NodeOk(n, nodes, p);
    var k :| 0 <= k < |nodes[p].children| && nodes[p].children[k] == i;
    assert nodes[p].kind.Table? ==> ChildOk(n, nodes, n.inputs(nodes[p].term)[k], i);
  }

  /** The terms of a climbing path, from the top, follow the netlist. */
  lemma {:induction false} ClimbIsReadPath(n: Netlist, nodes: Nodes, tables: map<nat, nat>, path: seq<nat>)
      returns (down: seq<nat>)
    requires GraphOk(n, nodes, tables) && UpPath(nodes, path) && nodes[path[0]].kind.Table?
    ensures ReadPath(n, down) && nodes[path[|path| - 1]].kind.Table?
    ensures down[0] == nodes[path[|path| - 1]].term && down[|down| - 1] == nodes[path[0]].term
    ensures forall i :: 0 <= i < |down| ==> down[i] < n.count
  {
    hide GraphOk;
    if |path| == 1 {
      down := [nodes[path[0]].term];
      TableTermInRange(n, nodes, tables, path[0]);
    } else {
      var k := |path| - 1;
      CutPath(nodes, path, k);
      var rest := ClimbIsReadPath(n, nodes, tables, path[..k]);
      assert StepUp(nodes, path, k - 1);
      ParentReads(n, nodes, tables, path[k - 1], path[k]);
      JoinPaths(n, [nodes[path[k]].term], rest);
      down := [nodes[path[k]].term] + rest;
    }
  }

  lemma {:induction false} TableTermInRange(n: Netlist, nodes: Nodes, tables: map<nat, nat>, i: nat)
    requires GraphOk(n, nodes, tables) && i < |nodes| && nodes[i].kind.Table?
    ensures nodes[i].term < n.count && n.Drivers(nodes[i].term) == [nodes[i].term]
  {
    assert NodeOk(n, nodes, i);
  }

  // ----- the cone -----

  ghost predicate ExpandsTo(n: Netlist, a: nat, b: nat) {
    exists k :: 0 <= k < |n.inputs(a)| && n.Expands(n.inputs(a)[k], b)
  }

  ghost predicate ConeStep(n: Netlist, path: seq<nat>, i: nat) {
    0 <= i < |path| - 1 && ExpandsTo(n, path[i], path[i + 1])
  }

  ghost predicate ConePath(n: Netlist, path: seq<nat>, root: nat, t: nat) {
    path != [] && path[0] == root && path[|path| - 1] == t && forall i :: 0 <= i < |path| - 1 ==> ConeStep(n, path, i)
  }

  /** The drivers that the root depends on. */
  ghost predicate InCone(n: Netlist, root: nat, t: nat) {
    exists path :: ConePath(n, path, root, t)
  }

  lemma {:induction false} ExtendCone(n: Netlist, root: nat, a: nat, b: nat)
    requires InCone(n, root, a) && ExpandsTo(n, a, b)
    ensures InCone(n, root, b)
  {
    var path :| ConePath(n, path, root, a);
    var more := path + [b];
    forall i | 0 <= i < |more| - 1
      ensures ConeStep(n, more, i)
    {
      if i < |path| - 1 {
        assert ConeStep(n, path, i);
      }
    }
    assert ConePath(n, more, root, b);
  }

  /** Every table node lies in the cone. */
  lemma {:induction false} NodeInCone(n: Netlist, nodes: Nodes, tables: map<nat, nat>, i: nat)
    requires GraphOk(n, nodes, tables) && i < |nodes| && nodes[i].kind.Table?
    ensures InCone(n, nodes[0].term, nodes[i].term)
    decreases i
  {
    var root := nodes[0].term;
    if i == 0 {
      assert ConePath(n, [root], root, root);
    } else {
      assert LinkedAt(nodes, i);
      var p := nodes[i].parents[0];
      assert i in nodes[p].children;
      var k :| 0 <= k < |nodes[p].children| && nodes[p].children[k] == i;
      assert NodeOk(n, nodes, p);
      assert nodes[p].kind.Table? ==> ChildOk(n, nodes, n.inputs(nodes[p].term)[k], i);
      assert nodes[p].kind.Table?;
      NodeInCone(n, nodes, tables, p);
      assert ExpandsTo(n, nodes[p].term, nodes[i].term);
      ExtendCone(n, root, nodes[p].term, nodes[i].term);
    }
  }

  /** The cone has no combinational loop. */
  ghost predicate ConeRanked(n: Netlist, root: nat, rank: nat -> nat) {
    forall a, b :: InCone(n, root, a) && ExpandsTo(n, a, b) ==> rank(b) < rank(a)
  }

  ghost predicate ConeAcyclic(n: Netlist, root: nat) {
    exists rank: nat -> nat :: ConeRanked(n, root, rank)
  }

  /** A cone with a combinational loop has no rank. */
  lemma {:induction false} ConeCycleIsLoop(n: Netlist, root: nat, path: seq<nat>)
    requires |path| > 1 && InCone(n, root, path[0]) && ConePath(n, path, path[0], path[0])
    ensures !ConeAcyclic(n, root)
  {
    forall rank: nat -> nat
      ensures !ConeRanked(n, root, rank)
    {
      if ConeRanked(n, root, rank) {
        RankFalls(n, root, rank, path, |path| - 1);
      }
    }
  }

  lemma {:induction false} RankFalls(n: Netlist, root: nat, rank: nat -> nat, path: seq<nat>, k: nat)
    requires ConeRanked(n, root, rank) && k < |path| && InCone(n, root, path[0])
    requires forall i :: 0 <= i < |path| - 1 ==> ConeStep(n, path, i)
    ensures InCone(n, root, path[k])
    ensures k > 0 ==> rank(path[k]) < rank(path[0])
  {
    if k > 0 {
      RankFalls(n, root, rank, path, k - 1);
      assert ConeStep(n, path, k - 1);
      ExtendCone(n, root, path[k - 1], path[k]);
    }
  }

  /** One step up from a node is one step of the cone down. */
  lemma {:induction false} ParentExpands(n: Netlist, nodes: Nodes, tables: map<nat, nat>, i: nat, p: nat)
    requires GraphOk(n, nodes, tables) && i < |nodes| && nodes[i].kind.Table? && p in nodes[i].parents
    ensures p < |nodes| && nodes[p].kind.Table? && ExpandsTo(n, nodes[p].term, nodes[i].term)
  {
    assert LinkedAt(nodes, i);
    assert NodeOk(n, nodes, p);
    var k :| 0 <= k < |nodes[p].children| && nodes[p].children[k] == i;
    assert nodes[p].kind.Table? ==> ChildOk(n, nodes, n.inputs(nodes[p].term)[k], i);
  }

  /** A node's ancestor has the node in its cone. */
  lemma {:induction false} ClimbIsCone(n: Netlist, nodes: Nodes, tables: map<nat, nat>, path: seq<nat>)
    requires GraphOk(n, nodes, tables) && UpPath(nodes, path) && nodes[path[0]].kind.Table?
    ensures nodes[path[|path| - 1]].kind.Table?
    ensures InCone(n, nodes[path[|path| - 1]].term, nodes[path[0]].term)
  {
    hide GraphOk;
    var term := nodes[path[|path| - 1]].term;
    if |path| == 1 {
      assert ConePath(n, [term], term, term);
    } else {
      var k := |path| - 1;
      CutPath(nodes, path, k);
      ClimbIsCone(n, nodes, tables, path[..k]);
      assert StepUp(nodes, path, k - 1);
      ParentExpands(n, nodes, tables, path[k - 1], path[k]);
      var down :| ConePath(n, down, nodes[path[k - 1]].term, nodes[path[0]].term);
      assert ConePath(n, [term], term, term);
      JoinCones(n, [term], down);
      assert ConePath(n, [term] + down, term, nodes[path[0]].term);
    }
  }

  lemma {:induction false} JoinCones(n: Netlist, a: seq<nat>, b: seq<nat>)
    requires a != [] && b != [] && ExpandsTo(n, a[|a| - 1], b[0])
    requires forall i :: 0 <= i < |a| - 1 ==> ConeStep(n, a, i)
    requires forall i :: 0 <= i < |b| - 1 ==> ConeStep(n, b, i)
    ensures forall i :: 0 <= i < |a + b| - 1 ==> ConeStep(n, a + b, i)
  {
    forall i | 0 <= i < |a + b| - 1
      ensures ConeStep(n, a + b, i)
    {
      if i < |a| - 1 {
        assert ConeStep(n, a, i);
      } else if i >= |a| {
        assert ConeStep(n, b, i - |a|);
      }
    }
  }

  // ----- the transparent target -----

  /** Where the walk through assigns is: at a driver, or at the input of the last driver. */
  ghost predicate WalkAt(n: Netlist, path: seq<nat>, cur: nat) {
    && ReadPath(n, path) && (forall i :: 0 <= i < |path| ==> path[i] < n.count)
    && n.Drivers(path[|path| - 1]) == [path[|path| - 1]]
    && (cur == path[|path| - 1] || (!n.isOutput(cur) && cur in n.inputs(path[|path| - 1])))
  }

  lemma {:induction false} InputsInRange(n: Netlist, d: nat)
    requires n.WellFormed() && d < n.count
    ensures forall x :: x in n.inputs(d) ==> x < n.count && !n.isOutput(x)
    ensures InRangeAll(n, n.inputs(d))
  {
    assert n.TermOk(d);
  }

  /** The only driver of a net is the only driver of its own net. */
  lemma {:induction false} DriverOnNet(n: Netlist, t: nat)
    requires n.WellFormed() && t < n.count && |n.Drivers(t)| == 1
    ensures var d := n.Drivers(t)[0]; d < n.count && n.iso(d) == n.iso(t) && n.Drivers(d) == [d]
  {
    assert n.TermOk(t);
  }

  lemma {:induction false} WalkToDriver(n: Netlist, path: seq<nat>, cur: nat) returns (more: seq<nat>)
    requires n.WellFormed() && WalkAt(n, path, cur) && |n.Drivers(cur)| == 1
    ensures WalkAt(n, more, n.Drivers(cur)[0]) && more != [] && path != [] && more[|more| - 1] == n.Drivers(cur)[0]
    ensures more[0] == path[0]
  {
    var last, d := path[|path| - 1], n.Drivers(cur)[0];
    if cur == last {
      more := path;
    } else {
      InputsInRange(n, last);
      DriverOnNet(n, cur);
      var k :| 0 <= k < |n.inputs(last)| && n.inputs(last)[k] == cur;
      assert n.Drivers(n.inputs(last)[k]) == [d];
      assert ReadPath(n, [d]);
      JoinPaths(n, path, [d]);
      more := path + [d];
    }
  }

  /** One step through transparent logic: a net to its only driver, an assign to its only input. */
  function TransparentNext(n: Netlist, t: nat): Option<nat> {
    if !n.isOutput(t) then
      if n.isoConstant(n.iso(t)) || |n.Drivers(t)| != 1 then None else Some(n.Drivers(t)[0])
    else if !n.isAssign(t) || |n.inputs(t)| != 1 then None
    else Some(n.inputs(t)[0])
  }

  ghost predicate TrailStep(n: Netlist, trail: seq<nat>, i: nat) {
    0 <= i < |trail| - 1 && TransparentNext(n, trail[i]) == Some(trail[i + 1])
  }

  /** The walk so far: every step is transparent, and no term but the last is seen twice. */
  ghost predicate Trail(n: Netlist, trail: seq<nat>, term: nat, target: nat) {
    && trail != [] && trail[0] == term && trail[|trail| - 1] == target
    && (forall i :: 0 <= i < |trail| - 1 ==> TrailStep(n, trail, i))
    && (forall i, j :: 0 <= i < j < |trail| - 1 ==> trail[i] != trail[j])
  }

  ghost predicate Seen(trail: seq<nat>, t: nat) {
    exists i :: 0 <= i < |trail| - 1 && trail[i] == t
  }

  lemma {:induction false} TrailGrows(n: Netlist, trail: seq<nat>, term: nat, target: nat, next: nat)
    requires Trail(n, trail, term, target) && TransparentNext(n, target) == Some(next) && !Seen(trail, target)
    ensures Trail(n, trail + [next], term, next)
    ensures forall t :: Seen(trail + [next], t) <==> Seen(trail, t) || t == target
  {
    var more := trail + [next];
    forall i | 0 <= i < |more| - 1
      ensures TrailStep(n, more, i)
    {
      if i < |trail| - 1 {
        assert TrailStep(n, trail, i);
      }
    }
    forall i, j | 0 <= i < j < |more| - 1
      ensures more[i] != more[j]
    {
      if j == |trail| - 1 {
        assert !Seen(trail, target);
      }
    }
    assert more[|trail| - 1] == target;
    forall t
      ensures Seen(more, t) <==> Seen(trail, t) || t == target
    {
      if Seen(trail, t) {
        var i :| 0 <= i < |trail| - 1 && trail[i] == t;
        assert more[i] == t;
      }
    }
  }

  lemma {:induction false} WalkToInput(n: Netlist, path: seq<nat>, cur: nat)
    requires n.WellFormed() && WalkAt(n, path, cur) && cur < n.count && n.isOutput(cur) && |n.inputs(cur)| == 1
    ensures WalkAt(n, path, n.inputs(cur)[0]) && n.inputs(cur)[0] < n.count
  {
    InputsInRange(n, cur);
    assert n.inputs(cur)[0] in n.inputs(cur);
  }

  /** `resolveTransparentLoopTarget`: the end of the transparent walk, or the first term it repeats. */
  method ResolveTransparentLoopTarget(n: Netlist, term: nat)
      returns (target: nat, ghost path: seq<nat>, ghost trail: seq<nat>)
    requires n.WellFormed() && term < n.count && n.Drivers(term) == [term]
    ensures WalkAt(n, path, target) && path[0] == term
    ensures Finished(n, trail, term, target)
    ensures TransparentTarget(n, term, target)
  {
    hide WalkAt, Seen, Trail;
    var visited: set<nat> := {};
    target := term;
    path, trail := [term], [term];
    WalkStartsAt(n, term);
    ghost var all := Ids(n.count);
    while target !in visited
      invariant WalkAt(n, path, target) && path != [] && path[0] == term && target < n.count && visited <= all
      invariant Trail(n, trail, term, target) && forall t :: t in visited <==> Seen(trail, t)
      decreases all - visited
    {
      visited := visited + {target};
      if !n.isOutput(target) {
        if n.isoConstant(n.iso(target)) || |n.Drivers(target)| != 1 {
          break;
        }
        path := WalkToDriver(n, path, target);
        DriverOnNet(n, target);
        TrailGrows(n, trail, term, target, n.Drivers(target)[0]);
        target := n.Drivers(target)[0];
      } else {
        if !n.isAssign(target) || |n.inputs(target)| != 1 {
          break;
        }
        WalkToInput(n, path, target);
        TrailGrows(n, trail, term, target, n.inputs(target)[0]);
        target := n.inputs(target)[0];
      }
      trail := trail + [target];
    }
  }

  lemma {:induction false} WalkStartsAt(n: Netlist, term: nat)
    requires term < n.count && n.Drivers(term) == [term]
    ensures WalkAt(n, [term], term) && Trail(n, [term], term, term) && forall t :: !Seen([term], t)
  {
  }

  ghost predicate Finished(n: Netlist, trail: seq<nat>, term: nat, target: nat) {
    Trail(n, trail, term, target) && (TransparentNext(n, target).None? || Seen(trail, target))
  }

  ghost predicate TransparentTarget(n: Netlist, term: nat, target: nat) {
    exists trail :: Finished(n, trail, term, target)
  }

  lemma {:induction false} SameTrail(n: Netlist, a: seq<nat>, b: seq<nat>, term: nat, x: nat, y: nat, i: nat)
    requires Trail(n, a, term, x) && Trail(n, b, term, y) && i < |a| && i < |b|
    ensures a[i] == b[i]
  {
    if i > 0 {
      SameTrail(n, a, b, term, x, y, i - 1);
      assert TrailStep(n, a, i - 1) && TrailStep(n, b, i - 1);
    }
  }

  lemma {:induction false} NoLongerTrail(n: Netlist, a: seq<nat>, b: seq<nat>, term: nat, x: nat, y: nat)
    requires Finished(n, a, term, x) && Trail(n, b, term, y)
    ensures |b| <= |a|
  {
    if |a| < |b| {
      var k := |a| - 1;
      SameTrail(n, a, b, term, x, y, k);
      assert TrailStep(n, b, k);
      var i :| 0 <= i < k && a[i] == x;
      SameTrail(n, a, b, term, x, y, i);
    }
  }

  /** The transparent target is unique. */
  lemma {:induction false} TransparentTargetIsUnique(n: Netlist, term: nat, x: nat, y: nat)
    requires TransparentTarget(n, term, x) && TransparentTarget(n, term, y)
    ensures x == y
  {
    var a :| Finished(n, a, term, x);
    var b :| Finished(n, b, term, y);
    NoLongerTrail(n, a, b, term, x, y);
    NoLongerTrail(n, b, a, term, y, x);
    SameTrail(n, a, b, term, x, y, |a| - 1);
  }

  /** The table term that the loop check looks for: the merged driver, or what it stands for. */
  ghost predicate LooksFor(n: Netlist, tables: map<nat, nat>, merge: Merge, target: nat) {
    && merge.MergeTable? && target in tables
    && (if merge.term in tables then target == merge.term
         else n.isAssign(merge.term) && TransparentTarget(n, merge.term, target))
  }

  /** Merge i would reconnect to a table above its own leaf. */
  ghost predicate LoopsBack(n: Netlist, nodes: Nodes, tables: map<nat, nat>, ls: seq<BorderLeaf>, merges: seq<Merge>,
      i: nat) {
    i < |merges| && i < |ls| && exists target ::
        LooksFor(n, tables, merges[i], target) && AncestorOrSelf(nodes, tables[target], ls[i].parent)
  }

  // ----- what a reported loop is -----

  /**
   A report: the cell at the leaf reads a net whose driver stands for the target, and the target
   is above the cell. The trail leads from the driver to the target, through assigns if the two differ.
   */
  datatype Report = Report(cell: nat, net: nat, driver: nat, target: nat, trail: seq<nat>)

  ghost predicate Resolves(n: Netlist, driver: nat, target: nat, trail: seq<nat>) {
    (trail == [driver] && target == driver) || (n.isAssign(driver) && Finished(n, trail, driver, target))
  }

  ghost predicate Reported(n: Netlist, root: nat, r: Report) {
    && InCone(n, root, r.target) && InCone(n, r.target, r.cell)
    && r.net in n.inputs(r.cell) && n.Expands(r.net, r.driver)
    && r.target < n.count && n.Drivers(r.target) == [r.target] && n.ArityOk(r.target) && !n.isOpaque(r.target)
    && r.cell < n.count && r.driver < n.count && Resolves(n, r.driver, r.target, r.trail)
  }

  ghost predicate LoopReported(n: Netlist, root: nat) {
    exists r :: Reported(n, root, r)
  }

  /** The expansion would not stop, nor fail, on the trail. */
  ghost predicate Clear(n: Netlist, trail: seq<nat>) {
    forall x :: x in trail ==> ClearAt(n, x)
  }

  predicate ClearAt(n: Netlist, x: nat) {
    !n.Stops(x) && (n.Drivers(x) == [x] ==> n.ArityOk(x) && !n.isOpaque(x))
  }

  /** Every net of the trail is expanded to its driver: the reported chain lies in the cone. */
  ghost predicate TrailInCone(n: Netlist, trail: seq<nat>) {
    forall x :: x in trail && !n.isOutput(x) ==> exists d :: n.Expands(x, d)
  }

  /** All transparent trails between cells of the cone are clear. */
  ghost predicate TrailsClear(n: Netlist, root: nat) {
    forall d, target, trail :: TrailBetween(n, root, d, target, trail) ==> Clear(n, trail)
  }

  ghost predicate TrailBetween(n: Netlist, root: nat, d: nat, target: nat, trail: seq<nat>) {
    InCone(n, root, d) && InCone(n, root, target) && n.isAssign(d) && Finished(n, trail, d, target)
  }

  /** How far a clear trail leads in the cone: to a driver, or to an input of the last driver. */
  ghost predicate ConeAt(n: Netlist, path: seq<nat>, driver: nat, cur: nat) {
    path != [] && var last := path[|path| - 1];
    && ConePath(n, path, driver, last) && last < n.count && n.Drivers(last) == [last]
    && (cur == last || (!n.isOutput(cur) && cur in n.inputs(last) && cur < n.count))
  }

  lemma {:induction false} NetIsExpanded(n: Netlist, path: seq<nat>, driver: nat, cur: nat, d: nat)
      returns (more: seq<nat>)
    requires n.WellFormed() && ConeAt(n, path, driver, cur) && n.Drivers(cur) == [d]
    requires !n.Stops(cur) && !n.Stops(d) && n.ArityOk(d) && !n.isOpaque(d)
    ensures ConeAt(n, more, driver, d) && more[|more| - 1] == d
  {
    var last := path[|path| - 1];
    more := path;
    if cur != last {
      DriverOnNet(n, cur);
      var k :| 0 <= k < |n.inputs(last)| && n.inputs(last)[k] == cur;
      assert n.Expands(n.inputs(last)[k], d);
      JoinCones(n, path, [d]);
      more := path + [d];
    }
  }

  lemma {:induction false} ClearTrailInCone(n: Netlist, trail: seq<nat>, driver: nat, target: nat, j: nat)
      returns (path: seq<nat>)
    requires n.WellFormed() && Trail(n, trail, driver, target) && Clear(n, trail) && j < |trail|
    requires driver < n.count && n.Drivers(driver) == [driver]
    ensures ConeAt(n, path, driver, trail[j])
  {
    if j == 0 {
      path := [driver];
      assert ConePath(n, path, driver, driver);
    } else {
      path := ClearTrailInCone(n, trail, driver, target, j - 1);
      assert TrailStep(n, trail, j - 1);
      var cur, next := trail[j - 1], trail[j];
      assert cur in trail && next in trail;
      if !n.isOutput(cur) {
        OnlyDriverOwns(n, path, driver, cur);
        path := NetIsExpanded(n, path, driver, cur, next);
      } else {
        InputsInRange(n, cur);
        assert n.inputs(cur)[0] == next;
      }
    }
  }

  lemma {:induction false} OnlyDriverOwns(n: Netlist, path: seq<nat>, driver: nat, cur: nat)
    requires n.WellFormed() && ConeAt(n, path, driver, cur) && |n.Drivers(cur)| == 1
    ensures var d := n.Drivers(cur)[0]; n.Drivers(cur) == [d] && n.Drivers(d) == [d] && d < n.count
  {
    DriverOnNet(n, cur);
  }

  lemma {:induction false} DriverIsClear(n: Netlist, root: nat, r: Report)
    requires Reported(n, root, r)
    ensures Trail(n, r.trail, r.driver, r.target) && ClearAt(n, r.driver)
  {
  }

  /** A report with a clear trail is right: the cone has a combinational loop. */
  lemma {:induction false} ClearReportIsRight(n: Netlist, root: nat, r: Report)
    requires n.WellFormed() && Reported(n, root, r) && Clear(n, r.trail)
    ensures !ConeAcyclic(n, root)
  {
    hide Netlist.WellFormed, ConeAcyclic;
    DriverIsClear(n, root, r);
    ReportedDriver(n, root, r);
    var last := |r.trail| - 1;
    assert r.trail[last] in r.trail;
    var back := ClearTrailInCone(n, r.trail, r.driver, r.target, last);
    back := NetIsExpanded(n, back, r.driver, r.target, r.target);
    var down :| ConePath(n, down, r.target, r.cell);
    ReadsDriver(n, root, r);
    JoinCones(n, down, back);
    assert ConePath(n, down + back, r.target, r.target);
    ConeCycleIsLoop(n, root, down + back);
  }

  lemma {:induction false} ReportedDriver(n: Netlist, root: nat, r: Report)
    requires n.WellFormed() && Reported(n, root, r)
    ensures r.driver < n.count && n.Drivers(r.driver) == [r.driver]
  {
    InputsInRange(n, r.cell);
    DriverOnNet(n, r.net);
  }

  lemma {:induction false} ReadsDriver(n: Netlist, root: nat, r: Report)
    requires Reported(n, root, r)
    ensures ExpandsTo(n, r.cell, r.driver)
  {
    var k :| 0 <= k < |n.inputs(r.cell)| && n.inputs(r.cell)[k] == r.net;
    assert n.Expands(n.inputs(r.cell)[k], r.driver);
  }

  /** When the expansion would stop nowhere between assigns, an acyclic cone is never reported. */
  lemma {:induction false} ReportIsRight(n: Netlist, root: nat)
    requires n.WellFormed() && LoopReported(n, root)
    ensures TrailsClear(n, root) ==> !ConeAcyclic(n, root)
  {
    hide ConeAcyclic, Netlist.WellFormed;
    var r :| Reported(n, root, r);
    if TrailsClear(n, root) {
      DriverIsClear(n, root, r);
      if r.trail == [r.driver] {
      } else {
        ConeOfCone(n, root, r.target, r.cell);
        ReadsDriver(n, root, r);
        ExtendCone(n, root, r.cell, r.driver);
        assert TrailBetween(n, root, r.driver, r.target, r.trail);
      }
      ClearReportIsRight(n, root, r);
    }
  }

  lemma {:induction false} ConeOfCone(n: Netlist, root: nat, a: nat, b: nat)
    requires InCone(n, root, a) && InCone(n, a, b)
    ensures InCone(n, root, b)
  {
    var up :| ConePath(n, up, root, a);
    var down :| ConePath(n, down, a, b);
    if |down| > 1 {
      assert ConeStep(n, down, 0);
      var rest := down[1..];
      forall i | 0 <= i < |rest| - 1
        ensures ConeStep(n, rest, i)
      {
        assert ConeStep(n, down, i + 1);
      }
      JoinCones(n, up, rest);
      assert ConePath(n, up + rest, root, b);
    }
  }

  /** The reported chain lies in the cone exactly when nothing on its trail stops. */
  lemma {:induction false} TrailInConeIffClear(n: Netlist, root: nat, r: Report)
    requires n.WellFormed() && Reported(n, root, r)
    ensures TrailInCone(n, r.trail) <==> Clear(n, r.trail)
  {
    DriverIsClear(n, root, r);
    if Clear(n, r.trail) {
      forall x | x in r.trail && !n.isOutput(x)
        ensures exists d :: n.Expands(x, d)
      {
        ClearNetExpands(n, root, r, x);
      }
    }
    if TrailInCone(n, r.trail) {
      forall j | 0 <= j < |r.trail|
        ensures ClearAt(n, r.trail[j])
      {
        ExpandedIsClear(n, root, r, j);
      }
    }
  }

  lemma {:induction false} ClearNetExpands(n: Netlist, root: nat, r: Report, x: nat)
    requires n.WellFormed() && Reported(n, root, r) && Clear(n, r.trail) && x in r.trail && !n.isOutput(x)
    ensures exists d :: n.Expands(x, d)
  {
    DriverIsClear(n, root, r);
    ReportedDriver(n, root, r);
    var j :| 0 <= j < |r.trail| && r.trail[j] == x;
    if j < |r.trail| - 1 {
      assert TrailStep(n, r.trail, j);
      var path := ClearTrailInCone(n, r.trail, r.driver, r.target, j);
      OnlyDriverOwns(n, path, r.driver, x);
      assert r.trail[j + 1] in r.trail;
      assert n.Expands(x, r.trail[j + 1]);
    } else {
      assert n.Expands(x, x);
    }
  }

  lemma {:induction false} ExpandedIsClear(n: Netlist, root: nat, r: Report, j: nat)
    requires n.WellFormed() && Reported(n, root, r) && TrailInCone(n, r.trail) && j < |r.trail|
    ensures ClearAt(n, r.trail[j])
  {
    DriverIsClear(n, root, r);
    var x := r.trail[j];
    assert x in r.trail;
    if !n.isOutput(x) {
      var d :| n.Expands(x, d);
    } else if j > 0 {
      assert TrailStep(n, r.trail, j - 1);
      var y := r.trail[j - 1];
      assert y in r.trail;
      if n.isOutput(y) {
        TrailInRange(n, r.trail, r.driver, r.target, j - 1);
        AssignReadsNet(n, y, x);
      } else {
        var d :| n.Expands(y, d);
      }
    }
  }

  lemma {:induction false} AssignReadsNet(n: Netlist, y: nat, x: nat)
    requires n.WellFormed() && y < n.count && n.isOutput(y) && TransparentNext(n, y) == Some(x)
    ensures !n.isOutput(x)
  {
    InputsInRange(n, y);
    assert n.inputs(y)[0] in n.inputs(y);
  }

  lemma {:induction false} TrailInRange(n: Netlist, trail: seq<nat>, driver: nat, target: nat, j: nat)
    requires n.WellFormed() && Trail(n, trail, driver, target) && driver < n.count && j < |trail|
    ensures trail[j] < n.count
  {
    if j > 0 {
      TrailInRange(n, trail, driver, target, j - 1);
      assert TrailStep(n, trail, j - 1);
      var x := trail[j - 1];
      if n.isOutput(x) {
        InputsInRange(n, x);
        assert n.inputs(x)[0] in n.inputs(x);
      } else {
        DriverOnNet(n, x);
      }
    }
  }

  /**
   What a positive answer means: there is a report, and a feedback; and if the expansion would
   stop nowhere between assigns, the cone has a combinational loop.
   */
  ghost predicate IsLoop(n: Netlist, root: nat) {
    LoopReported(n, root) && Cyclic(n, root) && (TrailsClear(n, root) ==> !ConeAcyclic(n, root))
  }

  /** A positive answer of the loop check is a report. */
  lemma {:induction false} LoopIsReported(n: Netlist, nodes: Nodes, tables: map<nat, nat>, leaf: BorderLeaf, t: nat,
      d: nat,
                                          target: nat, trail: seq<nat>)
    requires n.WellFormed() && GraphOk(n, nodes, tables) && NamesNet(n, nodes, leaf, t)
    requires MergeOk(n, t, MergeTable(d)) && Resolves(n, d, target, trail) && target in tables
    requires AncestorOrSelf(nodes, tables[target], leaf.parent)
    ensures Reported(n, nodes[0].term, Report(nodes[leaf.parent].term, t, d, target, trail))
    ensures LoopReported(n, nodes[0].term)
  {
    hide Resolves;
    assert NodeOk(n, nodes, leaf.parent);
    assert nodes[leaf.parent].kind.Table? by {
      assert nodes[leaf.parent].kind.Port? ==> n.Stops(t);
    }
    NodeInCone(n, nodes, tables, tables[target]);
    assert NodeOk(n, nodes, tables[target]);
    var path :| Climbs(nodes, path, leaf.parent, tables[target]);
    ClimbIsCone(n, nodes, tables, path);
    assert n.inputs(nodes[leaf.parent].term)[leaf.pos] == t;
  }

  /** A target above the leaf closes a feedback of the netlist. */
  lemma {:induction false} LoopIsReal(n: Netlist, nodes: Nodes, tables: map<nat, nat>, leaf: BorderLeaf, t: nat,
      d: nat, walk: seq<nat>, target: nat)
    requires n.WellFormed() && GraphOk(n, nodes, tables) && NamesNet(n, nodes, leaf, t)
    requires MergeOk(n, t, MergeTable(d)) && WalkAt(n, walk, target) && walk[0] == d && target in tables
    requires AncestorOrSelf(nodes, tables[target], leaf.parent)
    ensures Cyclic(n, nodes[0].term)
  {
    assert NodeOk(n, nodes, leaf.parent);
    assert nodes[leaf.parent].kind.Table? by {
      assert nodes[leaf.parent].kind.Port? ==> n.Stops(t);
    }
    TableTermInRange(n, nodes, tables, tables[target]);
    var path :| Climbs(nodes, path, leaf.parent, tables[target]);
    var down := ClimbIsReadPath(n, nodes, tables, path);
    assert n.Drivers(n.inputs(nodes[leaf.parent].term)[leaf.pos]) == [d];
    JoinPaths(n, down, walk);
    var end := WalkToDriver(n, walk, target);
    JoinPaths(n, down, end);
    var cycle := down + end;
    NodeInCone(n, nodes, tables, tables[target]);
    assert cycle[0] == target && cycle[|cycle| - 1] == target;
  }

  // ----- one round -----

  ghost predicate AllStop(n: Netlist, frontier: seq<nat>) {
    forall i :: 0 <= i < |frontier| ==> n.Stops(frontier[i])
  }

  method ReachedPIs(n: Netlist, frontier: seq<nat>) returns (r: bool)
    ensures r <==> AllStop(n, frontier)
    ensures r <==> forall t :: t in frontier ==>
      n.isInput(t) || n.isoConstant(n.iso(t)) || (n.isoCached(n.iso(t)) && |n.Drivers(t)| > 0 && n.Drivers(t)[0] == t)
  {
    for i := 0 to |frontier|
      invariant forall j :: 0 <= j < i ==> n.Stops(frontier[j])
    {
      if !n.isInput(frontier[i]) && !n.UsesCache(frontier[i]) && !n.isoConstant(n.iso(frontier[i])) {
        return false;
      }
    }
    r := true;
  }

  ghost predicate InRangeAll(n: Netlist, frontier: seq<nat>) {
    forall i :: 0 <= i < |frontier| ==> frontier[i] < n.count
  }

  /** One driver, a supported cell, and the expansion does not end at it. */
  predicate DrivenInside(n: Netlist, t: nat) {
    |n.Drivers(t)| == 1 && !n.isOpaque(n.Drivers(t)[0]) && !n.isInput(n.Drivers(t)[0]) && !n.UsesCache(n.Drivers(t)[0])
  }

  /** Why a net stops the expansion of the whole cone: exactly one reason, or none. */
  ghost predicate Blocks(n: Netlist, t: nat, o: Outcome) {
    && !n.Stops(t)
    && match o
       case Skipped(MultiDriver) => |n.Drivers(t)| > 1
       case Skipped(NoDriver) => n.Drivers(t) == [] || (DrivenInside(n, t) && !n.isOutput(n.Drivers(t)[0]))
       case Skipped(OpaqueInternal) =>
         |n.Drivers(t)| == 1 && n.isOpaque(n.Drivers(t)[0]) && !n.isInput(n.Drivers(t)[0])
       case Failed(ArityMismatch) =>
         DrivenInside(n, t) && n.isOutput(n.Drivers(t)[0]) && !n.ArityOk(n.Drivers(t)[0])
       case _ => false
  }

  ghost predicate Passes(n: Netlist, t: nat) {
    forall o :: !Blocks(n, t, o)
  }

  ghost predicate BlockedFirst(n: Netlist, frontier: seq<nat>, o: Outcome) {
    exists i: nat :: FirstBlock(n, frontier, i, o)
  }

  ghost predicate AllPass(n: Netlist, frontier: seq<nat>) {
    forall i :: 0 <= i < |frontier| ==> Passes(n, frontier[i])
  }

  /** The first net of a frontier that blocks, and its reason. */
  ghost predicate FirstBlock(n: Netlist, frontier: seq<nat>, i: nat, o: Outcome) {
    i < |frontier| && Blocks(n, frontier[i], o) && forall j :: 0 <= j < i ==> Passes(n, frontier[j])
  }

  /** Some input of a cell in the cone is the reason. */
  ghost predicate Blocked(n: Netlist, root: nat, o: Outcome) {
    exists d: nat, k: nat :: InCone(n, root, d) && k < |n.inputs(d)| && Blocks(n, n.inputs(d)[k], o)
  }

  lemma {:induction false} BlockedAt(n: Netlist, nodes: Nodes, tables: map<nat, nat>, ls: seq<BorderLeaf>,
      frontier: seq<nat>, i: nat, o: Outcome)
    requires GraphOk(n, nodes, tables) && Aligned(n, nodes, ls, frontier) && i < |frontier| && Blocks(n, frontier[i], o)
    ensures Blocked(n, nodes[0].term, o)
  {
    assert NamesNet(n, nodes, ls[i], frontier[i]);
    assert NodeOk(n, nodes, ls[i].parent);
    assert nodes[ls[i].parent].kind.Table?;
    NodeInCone(n, nodes, tables, ls[i].parent);
    assert n.inputs(nodes[ls[i].parent].term)[ls[i].pos] == frontier[i];
  }

  ghost predicate SeedBlocks(n: Netlist, seed: nat, o: Outcome) {
    match o
    case Failed(SeedMultiDriver) => |n.Drivers(seed)| > 1
    case Failed(SeedNoDriver) => n.Drivers(seed) == []
    case Failed(ArityMismatch) =>
      |n.Drivers(seed)| == 1 && !n.isOpaque(n.Drivers(seed)[0]) && !n.isInput(n.Drivers(seed)[0]) &&
      !n.ArityOk(n.Drivers(seed)[0])
    case Skipped(OpaqueInternal) =>
      |n.Drivers(seed)| == 1 && n.isOpaque(n.Drivers(seed)[0]) && !n.isInput(n.Drivers(seed)[0])
    case _ => false
  }

  /** The merge for one net, or the reason to give up. */
  method MergeFor(n: Netlist, t: nat) returns (o: Outcome, merge: Merge)
    requires n.WellFormed() && t < n.count
    ensures o.Done? <==> MergeOk(n, t, merge)
    ensures o.Done? && n.Stops(t) ==> merge == MergePort(t)
    ensures o.Done? <==> Passes(n, t)
    ensures !o.Done? ==> Blocks(n, t, o)
  {
    o, merge := Done, MergePort(n.count);
    if n.Stops(t) {
      return Done, MergePort(t);
    }
    if |n.Drivers(t)| > 1 {
      assert Blocks(n, t, Skipped(MultiDriver));
      return Skipped(MultiDriver), merge;
    }
    if n.Drivers(t) == [] {
      assert Blocks(n, t, Skipped(NoDriver));
      return Skipped(NoDriver), merge;
    }
    var driver := n.Drivers(t)[0];
    DriverOnNet(n, t);
    if n.isOpaque(driver) && !n.isInput(driver) {
      assert Blocks(n, t, Skipped(OpaqueInternal));
      return Skipped(OpaqueInternal), merge;
    }
    if n.isInput(driver) || n.UsesCache(driver) {
      return Done, MergePort(driver);
    }
    if !n.isOutput(driver) {
      assert Blocks(n, t, Skipped(NoDriver));
      return Skipped(NoDriver), merge;
    }
    if !n.ArityOk(driver) {
      assert Blocks(n, t, Failed(ArityMismatch));
      return Failed(ArityMismatch), merge;
    }
    return Done, MergeTable(driver);
  }

  /** One pass over the frontier: the merges, and the next frontier from first expansions only. */
  method CollectMerges(n: Netlist, tables: set<nat>, frontier: seq<nat>)
      returns (o: Outcome, merges: seq<Merge>, next: seq<nat>)
    requires n.WellFormed() && InRangeAll(n, frontier)
    ensures o.Done? ==> |merges| == |frontier| && forall i :: 0 <= i < |merges| ==> MergeOk(n, frontier[i], merges[i])
    ensures o.Done? ==> forall i :: 0 <= i < |merges| && n.Stops(frontier[i]) ==> merges[i] == MergePort(frontier[i])
    ensures o.Done? ==> next == NextFrontier(n, tables, merges) && InRangeAll(n, next)
    ensures o.Done? ==> forall i :: 0 <= i < |frontier| ==> Passes(n, frontier[i])
    ensures !o.Done? ==> BlockedFirst(n, frontier, o)
  {
    hide MergeOk, Blocks, Passes, Known, NextFrontier;
    CollectStarts(n, tables);
    merges, next, o := [], [], Done;
    var expanded: set<nat> := {};
    for i := 0 to |frontier|
      invariant |merges| == i && o.Done?
      invariant forall j :: 0 <= j < i ==> Passes(n, frontier[j])
      invariant forall j :: 0 <= j < i ==> MergeOk(n, frontier[j], merges[j])
      invariant forall j :: 0 <= j < i && n.Stops(frontier[j]) ==> merges[j] == MergePort(frontier[j])
      invariant next == NextFrontier(n, tables, merges) && InRangeAll(n, next)
      invariant Known(tables, merges) == tables + expanded
    {
      var merge;
      o, merge := MergeFor(n, frontier[i]);
      if !o.Done? {
        assert FirstBlock(n, frontier, i, o);
        return;
      }
      CollectStep(n, tables, frontier[i], merges, merge);
      merges := merges + [merge];
      match merge {
        case MergePort(x) => next := next + [x];
        case MergeTable(d) =>
          if d !in tables && d !in expanded {
            next := next + n.inputs(d);
          }
          expanded := expanded + {d};
      }
    }
  }

  lemma {:induction false} CollectStarts(n: Netlist, tables: set<nat>)
    ensures NextFrontier(n, tables, []) == [] && Known(tables, []) == tables
  {
  }

  lemma {:induction false} CollectStep(n: Netlist, tables: set<nat>, t: nat, merges: seq<Merge>, merge: Merge)
    requires n.WellFormed() && MergeOk(n, t, merge)
    ensures merge.term < n.count && InRangeAll(n, n.inputs(merge.term))
    ensures Known(tables, merges + [merge]) == Known(tables, merges) + if merge.MergeTable? then {merge.term} else {}
    ensures NextFrontier(n, tables, merges + [merge]) == NextFrontier(n, tables, merges) +
              match merge
              case MergePort(x) => [x]
              case MergeTable(d) => if d in Known(tables, merges) then [] else n.inputs(d)
  {
    assert (merges + [merge])[..|merges|] == merges;
    InputsInRange(n, merge.term);
  }

  /** Ports and tables that are new and no assigns never loop back. */
  lemma {:induction false} NewTablesDoNotLoop(n: Netlist, nodes: Nodes, tables: map<nat, nat>, ls: seq<BorderLeaf>,
      merges: seq<Merge>)
    requires forall i :: 0 <= i < |merges| ==>
      merges[i].MergePort? || (merges[i].term !in tables && !n.isAssign(merges[i].term))
    ensures forall i :: !LoopsBack(n, nodes, tables, ls, merges, i)
  {
    hide AncestorOrSelf, TransparentTarget;
  }

  /** The loop check before a batch: every table merge is compared with the graph as it is. */
  method FindLoop(tree: TruthTableTree, ghost frontier: seq<nat>, merges: seq<Merge>)
      returns (found: bool, loopTerms: seq<nat>)
    requires tree.Valid() && Aligned(tree.netlist, tree.nodes, tree.borderLeaves, frontier) && |merges| == |frontier|
    requires forall i :: 0 <= i < |merges| ==> MergeOk(tree.netlist, frontier[i], merges[i])
    ensures found ==> |tree.nodes| > 0 && IsLoop(tree.netlist, tree.nodes[0].term)
    ensures found <==> exists i :: LoopsBack(tree.netlist, tree.nodes, tree.tableNodes, tree.borderLeaves, merges, i)
  {
    hide GraphOk, BorderOk, AncestorOrSelf, NamesNet, LooksFor, TransparentTarget, LoopsBack, IsLoop;
    ghost var n := tree.netlist;
    for i := 0 to |merges|
      invariant forall j :: 0 <= j < i ==> !LoopsBack(n, tree.nodes, tree.tableNodes, tree.borderLeaves, merges, j)
    {
      found, loopTerms := FindLoopAt(tree, frontier, merges, i);
      if found {
        return;
      }
    }
    found, loopTerms := false, [];
    forall i
      ensures !LoopsBack(n, tree.nodes, tree.tableNodes, tree.borderLeaves, merges, i)
    {
      BeyondMerges(n, tree.nodes, tree.tableNodes, tree.borderLeaves, merges, i);
    }
  }

  lemma {:induction false} BeyondMerges(n: Netlist, nodes: Nodes, tables: map<nat, nat>, ls: seq<BorderLeaf>,
      merges: seq<Merge>, i: nat)
    ensures i >= |merges| ==> !LoopsBack(n, nodes, tables, ls, merges, i)
  {
  }

  method FindLoopAt(tree: TruthTableTree, ghost frontier: seq<nat>, merges: seq<Merge>, i: nat)
      returns (found: bool, loopTerms: seq<nat>)
    requires tree.Valid() && Aligned(tree.netlist, tree.nodes, tree.borderLeaves, frontier) && |merges| == |frontier|
    requires i < |merges|
    requires MergeOk(tree.netlist, frontier[i], merges[i])
    ensures found ==> |tree.nodes| > 0 && IsLoop(tree.netlist, tree.nodes[0].term)
    ensures found <==> LoopsBack(tree.netlist, tree.nodes, tree.tableNodes, tree.borderLeaves, merges, i)
  {
    hide GraphOk, BorderOk, AncestorOrSelf, NamesNet, TransparentTarget, ConeAcyclic, LoopReported;
    hide TrailsClear, Finished, Cyclic, Reported;
    ghost var n := tree.netlist;
    TreeHasRoot(tree);
    found, loopTerms := false, [];
    if merges[i].MergeTable? {
      assert NamesNet(n, tree.nodes, tree.borderLeaves[i], frontier[i]);
      var target := merges[i].term;
      ghost var walk, trail := [target], [target];
      assert WalkAt(n, walk, target);
      var alias := target !in tree.tableNodes && tree.netlist.isAssign(target);
      if alias {
        target, walk, trail := ResolveTransparentLoopTarget(tree.netlist, target);
        TargetIs(n, merges[i].term, target, trail);
      }
      if target in tree.tableNodes {
        found, loopTerms := FindAncestorLoop(tree, i, target);
        assert LooksFor(n, tree.tableNodes, merges[i], target);
        if found {
          LoopIsReal(n, tree.nodes, tree.tableNodes, tree.borderLeaves[i], frontier[i], merges[i].term, walk, target);
          LoopIsReported(n, tree.nodes, tree.tableNodes, tree.borderLeaves[i], frontier[i], merges[i].term, target,
              trail);
          ReportIsRight(n, tree.nodes[0].term);
        }
      }
    }
  }

  lemma {:induction false} TargetIs(n: Netlist, term: nat, target: nat, trail: seq<nat>)
    requires Finished(n, trail, term, target)
    ensures TransparentTarget(n, term, target) && forall other :: TransparentTarget(n, term, other) ==> other == target
  {
    forall other | TransparentTarget(n, term, other)
      ensures other == target
    {
      TransparentTargetIsUnique(n, term, target, other);
    }
  }

  /** After a negative loop check the merges are a batch that the graph accepts. */
  lemma {:induction false} BatchIsOk(n: Netlist, nodes: Nodes, tables: map<nat, nat>, ls: seq<BorderLeaf>,
      frontier: seq<nat>, merges: seq<Merge>)
    requires GraphOk(n, nodes, tables) && Aligned(n, nodes, ls, frontier) && |merges| == |frontier|
    requires forall i :: 0 <= i < |merges| ==> MergeOk(n, frontier[i], merges[i])
    requires forall i :: 0 <= i < |merges| && n.Stops(frontier[i]) ==> merges[i] == MergePort(frontier[i])
    requires forall i :: 0 <= i < |merges| ==> !LoopsBack(n, nodes, tables, ls, merges, i)
    ensures BatchOk(n, nodes, ls, frontier, merges)
  {
    forall i | 0 <= i < |ls|
      ensures nodes[ls[i].parent].kind.Port? ==> merges[i] == MergePort(frontier[i])
      ensures merges[i] != MergeTable(nodes[0].term)
    {
      assert NamesNet(n, nodes, ls[i], frontier[i]) && NodeOk(n, nodes, ls[i].parent);
      RootIsAncestor(n, nodes, tables, ls[i].parent);
      RootMerge(n, nodes, tables, frontier[i], merges[i]);
      assert !LoopsBack(n, nodes, tables, ls, merges, i);
      assert merges[i].MergeTable? && merges[i].term in tables ==> LooksFor(n, tables, merges[i], merges[i].term);
    }
  }

  lemma {:induction false} RootMerge(n: Netlist, nodes: Nodes, tables: map<nat, nat>, t: nat, merge: Merge)
    requires GraphOk(n, nodes, tables) && MergeOk(n, t, merge)
    ensures merge == MergeTable(nodes[0].term) ==> nodes[0].term in tables && tables[nodes[0].term] == 0
  {
    assert NodeOk(n, nodes, 0);
  }

  /** Unless a new table is expanded, the next frontier consists of stops. */
  lemma {:induction false} RoundProgress(n: Netlist, tables: set<nat>, frontier: seq<nat>, merges: seq<Merge>)
    requires |merges| <= |frontier| && forall i :: 0 <= i < |merges| ==> MergeOk(n, frontier[i], merges[i])
    ensures tables <= Known(tables, merges)
    ensures Known(tables, merges) == tables ==> AllStop(n, NextFrontier(n, tables, merges))
    ensures forall d :: d in Known(tables, merges) ==> d in tables || d < n.count
  {
    if merges != [] {
      var k := |merges| - 1;
      var rest, last := merges[..k], merges[k];
      RoundProgress(n, tables, frontier, rest);
      assert MergeOk(n, frontier[k], last);
      assert Known(tables, rest) <= Known(tables, merges);
    }
  }

  /** A round over stops leaves ports only. */
  lemma {:induction false} StopsArePorts(n: Netlist, frontier: seq<nat>, merges: seq<Merge>)
    requires |merges| == |frontier| && AllStop(n, frontier)
    requires forall i :: 0 <= i < |merges| && n.Stops(frontier[i]) ==> merges[i] == MergePort(frontier[i])
    ensures forall i :: 0 <= i < |merges| ==> merges[i].MergePort?
  {
  }

  /** What is left to do, for a termination measure. */
  function Left(done: bool): nat { if done then 0 else 1 }

  predicate AllInputs(n: Netlist, frontier: seq<nat>) {
    forall i :: 0 <= i < |frontier| ==> n.isInput(frontier[i])
  }

  /** No node stands for an unsupported cell: neither a table, nor a port that a driver gave. */
  ghost predicate Supported(n: Netlist, nodes: Nodes) {
    forall i :: 0 <= i < |nodes| && nodes[i].kind.Table? ==>
      !n.isOpaque(nodes[i].term) && !n.isInput(nodes[i].term)
      && forall k :: 0 <= k < |nodes[i].children| && k < |n.inputs(nodes[i].term)| ==>
           SupportedAt(n, nodes, n.inputs(nodes[i].term)[k], nodes[i].children[k])
  }

  ghost predicate SupportedAt(n: Netlist, nodes: Nodes, t: nat, c: nat) {
    c < |nodes| && nodes[c].kind.Port? && nodes[c].term != t ==> n.isOpaque(nodes[c].term) ==> n.isInput(nodes[c].term)
  }

  lemma {:induction false} GraphIsSupported(n: Netlist, nodes: Nodes, tables: map<nat, nat>)
    requires GraphOk(n, nodes, tables)
    ensures Supported(n, nodes) && forall d :: d in tables ==> !n.isOpaque(d) && !n.isInput(d)
  {
    forall i | 0 <= i < |nodes| && nodes[i].kind.Table?
      ensures !n.isOpaque(nodes[i].term) && !n.isInput(nodes[i].term)
      ensures forall k :: 0 <= k < |nodes[i].children| && k < |n.inputs(nodes[i].term)| ==>
        SupportedAt(n, nodes, n.inputs(nodes[i].term)[k], nodes[i].children[k])
    {
      assert NodeOk(n, nodes, i);
      forall k | 0 <= k < |nodes[i].children|
        ensures SupportedAt(n, nodes, n.inputs(nodes[i].term)[k], nodes[i].children[k])
      {
        assert ChildOk(n, nodes, n.inputs(nodes[i].term)[k], nodes[i].children[k]);
      }
    }
  }

  /** What a finished expansion leaves behind. */
  ghost predicate Expanded(n: Netlist, root: nat, tree: TruthTableTree, frontier: seq<nat>)
    reads tree
  {
    && tree.netlist == n && tree.Valid() && tree.nodes[0].term == root
    && Aligned(n, tree.nodes, tree.borderLeaves, frontier) && AllStop(n, frontier)
    && Supported(n, tree.nodes) && (forall d :: d in tree.tableNodes ==> !n.isOpaque(d) && !n.isInput(d))
    && (tree.nodes[0].kind.Port? <==> n.isInput(root))
    && (PortsOnly(tree.nodes, tree.borderLeaves)
        <==> n.isInput(root) || n.inputs(root) == [] || !AllInputs(n, n.inputs(root)))
  }

  lemma {:induction false} SeedAligned(n: Netlist, nodes: Nodes, tables: map<nat, nat>, ls: seq<BorderLeaf>,
      frontier: seq<nat>)
    requires GraphOk(n, nodes, tables) && BorderOk(nodes, ls) && |ls| == |frontier|
    requires forall i :: 0 <= i < |ls| ==> ls[i] == BorderLeaf(0, i, i)
    requires frontier == if nodes[0].kind.Port? then [nodes[0].term] else n.inputs(nodes[0].term)
    ensures Aligned(n, nodes, ls, frontier) && |nodes| > 0
  {
    assert NodeOk(n, nodes, 0);
    forall i | 0 <= i < |ls|
      ensures NamesNet(n, nodes, ls[i], frontier[i])
    {
      assert LeafPos(nodes, ls[i].parent, ls[i].pos);
    }
  }

  // ----- the rounds of an expansion -----

  /** The graph before a round, its frontier and what its open positions store. */
  datatype Stage = Stage(nodes: Nodes, tables: map<nat, nat>, ls: seq<BorderLeaf>, frontier: seq<nat>, marks: seq<Mark>)

  ghost function StageOf(t: TruthTableTree, frontier: seq<nat>, marks: seq<Mark>): Stage
    reads t
  {
    Stage(t.nodes, t.tableNodes, t.borderLeaves, frontier, marks)
  }

  ghost predicate StageOk(n: Netlist, root: nat, a: Stage) {
    && GraphOk(n, a.nodes, a.tables) && BorderOk(a.nodes, a.ls) && a.nodes[0].term == root
    && Aligned(n, a.nodes, a.ls, a.frontier) && Marked(a.nodes, a.ls, a.marks)
  }

  ghost predicate MergesFor(n: Netlist, frontier: seq<nat>, merges: seq<Merge>) {
    |merges| == |frontier| && forall i :: 0 <= i < |merges| ==> MergeOk(n, frontier[i], merges[i])
  }

  ghost predicate StageLoopsBy(n: Netlist, a: Stage, merges: seq<Merge>) {
    && AllPass(n, a.frontier) && MergesFor(n, a.frontier, merges)
    && exists i :: LoopsBack(n, a.nodes, a.tables, a.ls, merges, i)
  }

  /** The loop check says yes. */
  ghost predicate StageLoops(n: Netlist, a: Stage) {
    exists merges :: StageLoopsBy(n, a, merges)
  }

  ghost predicate StageStepBy(n: Netlist, a: Stage, b: Stage, merges: seq<Merge>) {
    && AllPass(n, a.frontier) && MergesFor(n, a.frontier, merges) && |merges| <= |a.marks|
    && !StageLoopsBy(n, a, merges)
    && b.frontier == NextFrontier(n, a.tables.Keys, merges)
    && b.tables.Keys == Known(a.tables.Keys, merges)
    && b.marks == MarksAfter(n, a.tables.Keys, a.marks, merges)
  }

  /** One round: no net blocks, the check says no, and the batch of merges gives the next stage. */
  ghost predicate StageStep(n: Netlist, a: Stage, b: Stage) {
    exists merges :: StageStepBy(n, a, b, merges)
  }

  ghost predicate Run(n: Netlist, root: nat, stages: seq<Stage>) {
    && stages != [] && (forall i :: 0 <= i < |stages| ==> StageOk(n, root, stages[i]))
    && forall i :: 0 <= i < |stages| - 1 ==> StageStep(n, stages[i], stages[i + 1])
  }

  /** The root over its open inputs, numbered in order. */
  ghost predicate SeedStage(n: Netlist, root: nat, a: Stage) {
    && a.frontier == (if n.isInput(root) then [root] else n.inputs(root))
    && a.tables.Keys == (if n.isInput(root) then {} else {root})
    && a.marks == Numbering(n.isInput(root), 0, |a.frontier|)
  }

  lemma {:induction false} MergeIsUnique(n: Netlist, t: nat, a: Merge, b: Merge)
    requires MergeOk(n, t, a) && MergeOk(n, t, b)
    ensures a == b
  {
  }

  /** The frontier determines the merges. */
  lemma {:induction false} MergesAreUnique(n: Netlist, frontier: seq<nat>, a: seq<Merge>, b: seq<Merge>)
    requires MergesFor(n, frontier, a) && MergesFor(n, frontier, b)
    ensures a == b
  {
    hide MergeOk;
    forall i | 0 <= i < |frontier|
      ensures a[i] == b[i]
    {
      MergeIsUnique(n, frontier[i], a[i], b[i]);
    }
  }

  lemma {:induction false} RunGrows(n: Netlist, root: nat, stages: seq<Stage>, b: Stage)
    requires Run(n, root, stages) && StageOk(n, root, b) && StageStep(n, stages[|stages| - 1], b)
    ensures Run(n, root, stages + [b])
  {
    hide StageOk, StageStep;
    var more := stages + [b];
    forall i | 0 <= i < |more| - 1
      ensures StageStep(n, more[i], more[i + 1])
    {
      if i < |stages| - 1 {
        assert StageStep(n, stages[i], stages[i + 1]);
      }
    }
  }

  class LogicCloud {
    const netlist: Netlist
    const seed: nat
    var tree: TruthTableTree?
    var inputs: seq<nat>

    constructor (n: Netlist, s: nat)
      ensures netlist == n && seed == s && tree == null && inputs == []
    {
      netlist, seed, tree, inputs := n, s, null, [];
    }

    /** The seed's driver and its graph. */
    method Start() returns (o: Outcome, t: TruthTableTree?, frontier: seq<nat>)
      requires netlist.WellFormed() && seed < netlist.count
      ensures !o.Done? ==> SeedBlocks(netlist, seed, o)
      ensures o.Done? <==> |netlist.Drivers(seed)| == 1
                           && (netlist.isOpaque(netlist.Drivers(seed)[0]) ==> netlist.isInput(netlist.Drivers(seed)[0]))
                           && (netlist.isInput(netlist.Drivers(seed)[0]) || netlist.ArityOk(netlist.Drivers(seed)[0]))
      ensures o.Done? <==> t != null
      ensures t != null ==> fresh(t) && t.netlist == netlist && t.Valid() && t.nodes[0].term == netlist.Drivers(seed)[0]
      ensures t != null ==> Aligned(netlist, t.nodes, t.borderLeaves, frontier) && InRangeAll(netlist, frontier)
      ensures t != null ==> (t.nodes[0].kind.Port? <==> netlist.isInput(netlist.Drivers(seed)[0]))
      ensures t != null && t.nodes[0].kind.Port? ==>
        frontier == netlist.Drivers(seed) && PortsOnly(t.nodes, t.borderLeaves)
      ensures t != null && !t.nodes[0].kind.Port? ==> frontier == netlist.inputs(netlist.Drivers(seed)[0])
      ensures t != null && !t.nodes[0].kind.Port? ==>
        forall i :: 0 <= i < |t.borderLeaves| ==> t.borderLeaves[i].parent == 0
      ensures t != null ==> forall d :: d in t.tableNodes ==> d < netlist.count
      ensures t != null ==> SeedStage(netlist, netlist.Drivers(seed)[0],
                                      StageOf(t, frontier, Numbering(t.nodes[0].kind.Port?, 0, |frontier|)))
      ensures t != null ==> Marked(t.nodes, t.borderLeaves, Numbering(t.nodes[0].kind.Port?, 0, |frontier|))
    {
      hide GraphOk, BorderOk, Aligned, Marked;
      t, frontier := null, [];
      if |netlist.Drivers(seed)| > 1 {
        return Failed(SeedMultiDriver), t, frontier;
      }
      if netlist.Drivers(seed) == [] {
        return Failed(SeedNoDriver), t, frontier;
      }
      var driver := netlist.Drivers(seed)[0];
      DriverOnNet(netlist, seed);
      if netlist.isOpaque(driver) && !netlist.isInput(driver) {
        return Skipped(OpaqueInternal), t, frontier;
      }
      if netlist.isInput(driver) {
        t := new TruthTableTree(netlist, driver, true);
        frontier := [driver];
      } else {
        if !netlist.ArityOk(driver) {
          return Failed(ArityMismatch), t, frontier;
        }
        t := new TruthTableTree(netlist, driver, false);
        frontier := netlist.inputs(driver);
        InputsInRange(netlist, driver);
      }
      SeedAligned(netlist, t.nodes, t.tableNodes, t.borderLeaves, frontier);
      o := Done;
    }

    /** One round: merges, checks, batch. */
    method Round(t: TruthTableTree, current: seq<nat>, ghost marks: seq<Mark>)
        returns (o: Outcome, next: seq<nat>, ghost after: seq<Mark>)
      requires |t.nodes| > 0 && t.Valid() && t.netlist == netlist
      requires Aligned(netlist, t.nodes, t.borderLeaves, current) && InRangeAll(netlist, current)
      requires Marked(t.nodes, t.borderLeaves, marks)
      modifies t
      ensures o.Failed? ==> o.error == ArityMismatch
      ensures o == Skipped(LogicalLoop) ==>
        StageLoops(netlist, old(StageOf(t, current, marks))) && IsLoop(netlist, old(t.nodes)[0].term)
      ensures !o.Done? && o != Skipped(LogicalLoop) ==>
        Blocked(netlist, old(t.nodes)[0].term, o) && BlockedFirst(netlist, current, o)
      ensures o.Done? ==> StageStep(netlist, old(StageOf(t, current, marks)), StageOf(t, next, after))
      ensures o.Done? ==> t.Valid() && Grew(old(t.nodes), t.nodes) && Marked(t.nodes, t.borderLeaves, after)
      ensures o.Done? ==> Aligned(netlist, t.nodes, t.borderLeaves, next) && InRangeAll(netlist, next)
      ensures o.Done? ==> old(t.tableNodes).Keys <= t.tableNodes.Keys
      ensures o.Done? ==> forall d :: d in t.tableNodes.Keys ==> d in old(t.tableNodes).Keys || d < netlist.count
      ensures o.Done? && t.tableNodes.Keys == old(t.tableNodes).Keys ==> AllStop(netlist, next)
      ensures o.Done? && AllStop(netlist, current) ==> AllStop(netlist, next) && PortsOnly(t.nodes, t.borderLeaves)
      ensures o.Done? && AllStop(netlist, current) ==> t.tableNodes.Keys == old(t.tableNodes).Keys
    {
      hide GraphOk, BorderOk, MergeOk, Blocks, Blocked, NextFrontier, Known, NamesNet, LoopsBack;
      hide HasMark, MarksAfter, IsLoop, Cyclic, Passes;
      var merges;
      after := marks;
      ghost var a := StageOf(t, current, marks);
      o, merges, next := CollectMerges(netlist, t.tableNodes.Keys, current);
      if !o.Done? {
        ghost var i: nat :| FirstBlock(netlist, current, i, o);
        BlockReasons(netlist, current[i], o);
        BlockedAt(netlist, t.nodes, t.tableNodes, t.borderLeaves, current, i, o);
        return;
      }
      ghost var tables := t.tableNodes.Keys;
      RoundProgress(netlist, tables, current, merges);
      after := MarksAfter(netlist, tables, marks, merges);
      if merges == [] {
        CollectStarts(netlist, tables);
        assert current == [] && next == [];
        NothingMerged(netlist, a);
        assert StageStepBy(netlist, a, StageOf(t, next, after), merges);
        return;
      }
      if |current| != |t.borderLeaves| || |merges| != |t.borderLeaves| {
        return Failed(FrontierMismatch), next, after;
      }
      var found, loopTerms := FindLoop(t, current, merges);
      if found {
        assert StageLoopsBy(netlist, a, merges);
        return Skipped(LogicalLoop), next, after;
      }
      BatchIsOk(netlist, t.nodes, t.tableNodes, t.borderLeaves, current, merges);
      t.ConcatFull(merges, current, marks);
      if |next| != |t.borderLeaves| {
        return Failed(FrontierMismatch), next, after;
      }
      assert StageStepBy(netlist, a, StageOf(t, next, after), merges);
      if AllStop(netlist, current) {
        StopsArePorts(netlist, current, merges);
        PortsAddNoTables(tables, merges);
      }
    }

    /** The expansion loop; it ends for every finite netlist, cyclic or not. */
    method Expand(t: TruthTableTree, start: seq<nat>, ghost marks: seq<Mark>)
        returns (o: Outcome, next: seq<nat>, ghost stages: seq<Stage>)
      requires |t.nodes| > 0 && t.Valid() && t.netlist == netlist
      requires Aligned(netlist, t.nodes, t.borderLeaves, start) && InRangeAll(netlist, start)
      requires Marked(t.nodes, t.borderLeaves, marks)
      requires forall d :: d in t.tableNodes.Keys ==> d < netlist.count
      requires AllInputs(netlist, start) ==> AllStop(netlist, start) && !PortsOnly(t.nodes, t.borderLeaves)
      modifies t
      ensures o.Failed? ==> o.error == ArityMismatch
      ensures stages != [] && Run(netlist, old(t.nodes)[0].term, stages) && stages[0] == old(StageOf(t, start, marks))
      ensures o == Skipped(LogicalLoop) ==>
        StageLoops(netlist, stages[|stages| - 1]) && IsLoop(netlist, old(t.nodes)[0].term)
      ensures !o.Done? && o != Skipped(LogicalLoop) ==>
        && Blocked(netlist, old(t.nodes)[0].term, o)
        && BlockedFirst(netlist, stages[|stages| - 1].frontier, o)
      ensures o.Done? ==> t.Valid() && Grew(old(t.nodes), t.nodes)
      ensures o.Done? ==> stages[|stages| - 1] == StageOf(t, next, stages[|stages| - 1].marks)
      ensures o.Done? ==> Aligned(netlist, t.nodes, t.borderLeaves, next) && AllStop(netlist, next)
      ensures o.Done? ==> (PortsOnly(t.nodes, t.borderLeaves) <==> !AllInputs(netlist, start))
    {
      hide GraphOk, BorderOk, Aligned, AllStop, PortsOnly, InRangeAll, IsLoop, Blocks, Blocked, BlockedFirst;
      hide Run, StageStep, StageLoops, Marked;
      next, o := start, Done;
      var reached := AllInputs(netlist, next);
      ghost var all := Ids(netlist.count);
      ghost var numbers := marks;
      stages := [StageOf(t, start, marks)];
      RunStarts(netlist, t.nodes[0].term, stages[0]);
      while !reached
        invariant t.Valid() && Grew(old(t.nodes), t.nodes) && o.Done?
        invariant Aligned(netlist, t.nodes, t.borderLeaves, next) && InRangeAll(netlist, next)
        invariant Marked(t.nodes, t.borderLeaves, numbers)
        invariant Run(netlist, old(t.nodes)[0].term, stages) && |stages| > 0
        invariant stages[0] == old(StageOf(t, start, marks))
        invariant stages[|stages| - 1] == StageOf(t, next, numbers)
        invariant t.tableNodes.Keys <= all
        invariant reached ==> AllStop(netlist, next)
        invariant reached ==> (PortsOnly(t.nodes, t.borderLeaves) <==> !AllInputs(netlist, start))
        invariant !reached ==> !AllInputs(netlist, start)
        decreases all - t.tableNodes.Keys, Left(AllStop(netlist, next)), Left(reached)
      {
        reached := ReachedPIs(netlist, next);
        ghost var tables := t.tableNodes.Keys;
        ghost var was := t.nodes;
        o, next, numbers := Round(t, next, numbers);
        if !o.Done? {
          return;
        }
        GrewTransitive(old(t.nodes), was, t.nodes);
        KeysProgress(all, tables, t.tableNodes.Keys);
        RunGrows(netlist, old(t.nodes)[0].term, stages, StageOf(t, next, numbers));
        stages := stages + [StageOf(t, next, numbers)];
      }
    }

    /** `compute`. */
    method Compute() returns (o: Outcome, ghost frontier: seq<nat>, ghost stages: seq<Stage>)
      requires netlist.WellFormed() && seed < netlist.count
      modifies this
      ensures o.Failed? ==> o.error != FrontierMismatch
      ensures !o.Done? ==> tree == null
      ensures stages == [] ==> SeedBlocks(netlist, seed, o)
      ensures stages != [] ==> |netlist.Drivers(seed)| == 1
      ensures stages != [] ==> var root := netlist.Drivers(seed)[0];
        && Run(netlist, root, stages) && SeedStage(netlist, root, stages[0])
        && (o == Skipped(LogicalLoop) ==> StageLoops(netlist, stages[|stages| - 1]) && IsLoop(netlist, root))
        && (!o.Done? && o != Skipped(LogicalLoop) ==>
              Blocked(netlist, root, o) && BlockedFirst(netlist, stages[|stages| - 1].frontier, o))
        && (o.Done? ==> tree != null && fresh(tree) && Expanded(netlist, root, tree, frontier))
        && (o.Done? ==> stages[|stages| - 1] == StageOf(tree, frontier, stages[|stages| - 1].marks))
        && (o.Done? ==> inputs == if netlist.isInput(root) || netlist.inputs(root) == [] then old(inputs) else frontier)
    {
      hide GraphOk, BorderOk, Aligned, PortsOnly, InRangeAll, IsLoop, Blocked, BlockedFirst, Run, StageLoops, Marked;
      hide Supported;
      var t, next;
      tree := null;
      o, t, next := Start();
      frontier, stages := next, [];
      if !o.Done? {
        return;
      }
      var root := netlist.Drivers(seed)[0];
      TreeHasRoot(t);
      EmptyBorder(netlist, t.nodes, t.borderLeaves, next);
      ghost var marks := Numbering(netlist.isInput(root), 0, |next|);
      if netlist.isInput(root) || next == [] {
        stages := [StageOf(t, next, marks)];
        RunStarts(netlist, root, stages[0]);
        GraphIsSupported(netlist, t.nodes, t.tableNodes);
        tree := t;
        return;
      }
      RootBorder(netlist, t.nodes, t.borderLeaves, next);
      o, next, stages := Expand(t, next, marks);
      frontier := next;
      if o.Done? {
        GraphIsSupported(netlist, t.nodes, t.tableNodes);
        inputs := next;
        tree := t;
      }
    }
  }

  lemma {:induction false} RunStarts(n: Netlist, root: nat, a: Stage)
    requires StageOk(n, root, a)
    ensures Run(n, root, [a])
  {
    hide StageOk;
  }

  lemma {:induction false} LastIsOk(n: Netlist, root: nat, stages: seq<Stage>)
    requires Run(n, root, stages)
    ensures StageOk(n, root, stages[|stages| - 1])
  {
    hide StageOk;
  }

  lemma {:induction false} NothingMerged(n: Netlist, a: Stage)
    ensures !StageLoopsBy(n, a, [])
    ensures MarksAfter(n, a.tables.Keys, a.marks, []) == []
  {
  }

  lemma {:induction false} KeysProgress(all: set<nat>, before: set<nat>, after: set<nat>)
    requires before <= after <= all
    ensures if before == after then all - after == all - before else all - after < all - before
  {
    if before != after {
      var d :| d in after && d !in before;
      assert d in all - before && d !in all - after;
    }
  }

  lemma {:induction false} BlockReasons(n: Netlist, t: nat, o: Outcome)
    requires Blocks(n, t, o)
    ensures o.Failed? ==> o.error == ArityMismatch
    ensures o.Skipped? ==> o.reason != LogicalLoop
    ensures !o.Done?
  {
  }

  lemma {:induction false} TreeHasRoot(t: TruthTableTree)
    requires t.Valid()
    ensures |t.nodes| > 0
  {
  }

  lemma {:induction false} PortsAddNoTables(tables: set<nat>, merges: seq<Merge>)
    requires forall i :: 0 <= i < |merges| ==> merges[i].MergePort?
    ensures Known(tables, merges) == tables
  {
    if merges != [] {
      PortsAddNoTables(tables, merges[..|merges| - 1]);
    }
  }

  lemma {:induction false} EmptyBorder(n: Netlist, nodes: Nodes, ls: seq<BorderLeaf>, frontier: seq<nat>)
    requires Aligned(n, nodes, ls, frontier)
    ensures frontier == [] ==> PortsOnly(nodes, ls) && AllStop(n, frontier)
  {
  }

  lemma {:induction false} RootBorder(n: Netlist, nodes: Nodes, ls: seq<BorderLeaf>, frontier: seq<nat>)
    requires Aligned(n, nodes, ls, frontier) && frontier != []
    requires |nodes| > 0 && !nodes[0].kind.Port? && forall i :: 0 <= i < |ls| ==> ls[i].parent == 0
    ensures !PortsOnly(nodes, ls)
    ensures AllInputs(n, frontier) ==> AllStop(n, frontier)
  {
    assert ls[0].parent == 0;
  }
}
