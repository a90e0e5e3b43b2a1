/**
 Two nodes of one net that ask for different values: the first of them that is built decides, so
 the conversion does not have the value that evaluation gives to the graph. Both conditions on
 ports are needed: one name per net, and no port on the net of a table.
 */
module ConvertClashes {
  import opened Options
  import opened BoolExprs
  import opened TruthTables
  import opened Netlists
  import opened TruthTableTrees
  import opened AncestorLoops
  import opened CloudMeaning
  import opened Designs
  import opened Tree2BoolExprs

  // ----- the first node of a net -----

  ghost predicate FirstAt(d: Design, order: seq<nat>, i: nat, k: nat) {
    k < |order| && order[k] == i && i < |d.nodes| && d.Iso(i) !in KeysAfter(d, {}, order[..k])
  }

  /** Node i is the first of its net that is built. */
  ghost predicate First(d: Design, order: seq<nat>, i: nat) {
    exists k: nat :: FirstAt(d, order, i, k)
  }

  lemma {:induction false} BuiltIsKey(d: Design, order: seq<nat>, k: nat, j: nat)
    requires k < j <= |order| && order[k] < |d.nodes|
    ensures d.Iso(order[k]) in KeysAfter(d, {}, order[..j])
  {
    assert order[..j][..j - 1] == order[..j - 1];
    if k < j - 1 {
      BuiltIsKey(d, order, k, j - 1);
    }
  }

  lemma {:induction false} OnlyOneFirst(d: Design, order: seq<nat>, a: nat, b: nat)
    requires First(d, order, a) && First(d, order, b) && d.Iso(a) == d.Iso(b)
    ensures a == b
  {
    hide KeysAfter;
    var j: nat :| FirstAt(d, order, a, j);
    var k: nat :| FirstAt(d, order, b, k);
    if j < k {
      BuiltIsKey(d, order, j, k);
    } else if k < j {
      BuiltIsKey(d, order, k, j);
    }
  }

  /** Nets that meet what the first nodes ask meet the premise of a run from an empty cache. */
  lemma {:induction false} FirstsSuffice(d: Design, order: seq<nat>, nets: Nets, env: Env)
    requires forall i: nat :: First(d, order, i) ==> Given(d, {}, nets, env, i)
    ensures Premise(d, map[], order, nets, env)
  {
    hide KeysAfter, NodeHolds;
    var start: Cache := map[];
    assert start.Keys == {};
    forall k: nat
      ensures GivenAt(d, start.Keys, order, nets, env, k)
    {
      if k < |order| && order[k] < |d.nodes| && d.Iso(order[k]) !in KeysAfter(d, {}, order[..k]) {
        assert FirstAt(d, order, order[k], k);
        assert Given(d, {}, nets, env, order[k]);
      }
    }
  }

  lemma {:induction false} FirstsFollow(d: Design, order: seq<nat>, r: Expr, cache: Cache, nets: Nets, env: Env)
    requires |d.nodes| > 0 && ConvertedAt(d, map[], order, r, cache, nets, env)
    requires forall i: nat :: First(d, order, i) ==> Given(d, {}, nets, env, i)
    ensures Eval(r, env) == nets(d.Iso(0))
  {
    hide First, Given, Premise;
    FirstsSuffice(d, order, nets, env);
  }

  lemma {:induction false} PortReads(d: Design, tables: map<nat, nat>, rank: nat -> nat, leaf: nat -> bool, p: nat)
    requires Ready(d, tables, rank) && IsPort(d, p)
    ensures |d.nodes[p].children| == 1 && Value(d, tables, rank, leaf, p) == leaf(d.nodes[p].children[0])
  {
    assert NodeOk(d.net, d.nodes, p);
  }

  // ----- two names on one net -----

  /** Driver 0 reads the inputs 1 and 2, which are on one net. */
  function TwinNet(): Netlist {
    Netlist(3, (t: nat) => t == 1 || t == 2, (t: nat) => if t == 2 then 1 else t,
            (i: nat) => if i == 0 then [0] else [], (i: nat) => false, (i: nat) => false,
            (t: nat) => false, (t: nat) => t == 0, (t: nat) => false,
            (t: nat) => if t == 0 then [1, 2] else [], (t: nat) => Generic(if t == 0 then 2 else 0, GateAnd))
  }

  function TwinNodes(): Nodes {
    [Node(Table, 0, 0, [1, 2], []), Node(Port, 1, 0, [3], [0]), Node(Port, 2, 0, [4], [0]),
     Node(Leaf, 0, 0, [], [1]), Node(Leaf, 0, 1, [], [2])]
  }

  /** The inputs have the names 2 and 3. */
  function Twins(): Design {
    Design(TwinNet(), TwinNodes(), [0, 2, 3], (t: nat) => [])
  }

  function TwinRank(): nat -> nat {
    (i: nat) => if i == 0 then 2 else if i < 3 then 1 else 0
  }

  lemma {:induction false} TwinsReady()
    ensures Ready(Twins(), map[0 := 0], TwinRank()) && !HasUnnamed(Twins())
  {
    hide NodeOk, OwnsAt, LinkedAt;
    var nodes := TwinNodes();
    TwinsShaped();
    TwinsLinked();
    forall i | 0 <= i < |nodes|
      ensures RankedAt(nodes, TwinRank(), i)
    {
    }
  }

  lemma {:induction false} TwinsShaped()
    ensures Shaped(TwinNet(), TwinNodes())
  {
    var n, nodes := TwinNet(), TwinNodes();
    forall i | 0 <= i < |nodes|
      ensures NodeOk(n, nodes, i)
    {
      if i == 0 {
        assert ChildOk(n, nodes, 1, 1) && ChildOk(n, nodes, 2, 2);
      } else if i < 3 {
        assert LeafPos(nodes, i, 0);
      }
    }
  }

  lemma {:induction false} TwinsLinked()
    ensures Owned(TwinNodes()) && Linked(TwinNodes())
  {
    var nodes := TwinNodes();
    forall i | 0 <= i < |nodes|
      ensures OwnsAt(nodes, i) && LinkedAt(nodes, i)
    {
    }
  }

  /** Evaluation conjoins the two names. */
  lemma {:induction false} TwinsValue(env: Env)
    requires Ready(Twins(), map[0 := 0], TwinRank())
    ensures Value(Twins(), map[0 := 0], TwinRank(), NameLeaf(Twins(), env), 0) == (env(2) && env(3))
  {
    var d, leaf := Twins(), NameLeaf(Twins(), env);
    TableIsValue(d, map[0 := 0], TwinRank(), leaf, 0);
    var args := ChildValues(d, map[0 := 0], TwinRank(), leaf, 0);
    PortReads(d, map[0 := 0], TwinRank(), leaf, 1);
    PortReads(d, map[0 := 0], TwinRank(), leaf, 2);
    assert args[0] == leaf(3) && args[1] == leaf(4);
  }

  /** With one value for both nets the root asks nothing more, and each port asks for its name. */
  lemma {:induction false} TwinsGiven(b: bool, env: Env, i: nat)
    requires i == 1 ==> env(2) == b
    requires i == 2 ==> env(3) == b
    ensures Given(Twins(), {}, (s: nat) => b, env, i)
  {
    var d, nets := Twins(), (s: nat) => b;
    if i == 0 {
      assert ChildNets(d, nets, 0) == [b, b];
      assert [b, b][0] == b;
    }
  }

  /** In every environment the result is the value of one of the two names. */
  lemma {:induction false} TwinsPicked(order: seq<nat>, r: Expr, cache: Cache) returns (name: nat)
    requires forall nets, env :: ConvertedAt(Twins(), map[], order, r, cache, nets, env)
    ensures (name == 2 || name == 3) && forall env: Env :: Eval(r, env) == env(name)
  {
    var d := Twins();
    assert |d.nodes| > 0 && d.Iso(1) == d.Iso(2);
    hide Twins, First, Given;
    name := if First(d, order, 1) then 2 else 3;
    forall env: Env
      ensures Eval(r, env) == env(name)
    {
      var nets: Nets := (s: nat) => env(name);
      forall i: nat | First(d, order, i)
        ensures Given(d, {}, nets, env, i)
      {
        if i == 2 && name == 2 {
          OnlyOneFirst(d, order, 1, 2);
        }
        TwinsGiven(env(name), env, i);
      }
      FirstsFollow(d, order, r, cache, nets, env);
    }
  }

  lemma {:induction false} TwinsWrong(order: seq<nat>, r: Expr, cache: Cache)
    requires Ready(Twins(), map[0 := 0], TwinRank())
    requires forall nets, env :: ConvertedAt(Twins(), map[], order, r, cache, nets, env)
    ensures exists env: Env :: Eval(r, env) != Value(Twins(), map[0 := 0], TwinRank(), NameLeaf(Twins(), env), 0)
  {
    hide Twins, Ready, Value, NameLeaf, ConvertedAt, TwinRank;
    var name := TwinsPicked(order, r, cache);
    var env: Env := (x: nat) => x == name;
    TwinsValue(env);
    assert env(2) != env(3);
  }

  lemma {:induction false} TwinsNamed()
    ensures PortsApart(Twins()) && SiblingsDriven(Twins()) && !OneNamePerNet(Twins())
  {
    assert Named(Twins(), 1) && Named(Twins(), 2) && NameOf(Twins(), 1) == 2 && NameOf(Twins(), 2) == 3;
  }

  /** With two names on one net the conversion succeeds, and there is an environment in which it is wrong. */
  method TwoNamesOneNet(h: Mixer) returns (r: Option<Expr>)
    ensures Ready(Twins(), map[0 := 0], TwinRank()) && r.Some?
    ensures PortsApart(Twins()) && SiblingsDriven(Twins()) && !OneNamePerNet(Twins())
    ensures exists env: Env ::
      Eval(r.value, env) != Value(Twins(), map[0 := 0], TwinRank(), NameLeaf(Twins(), env), 0)
  {
    hide Twins, Ready, Value, NameLeaf, ConvertedAt, TwinRank, HasUnnamed, OneNamePerNet, PortsApart, SiblingsDriven;
    TwinsReady();
    TwinsNamed();
    ghost var order, expanded;
    var cache;
    r, cache, order, expanded := Convert(h, Twins(), map[], map[0 := 0], TwinRank());
    TwinsWrong(order, r.value, cache);
  }

  // ----- a port on the net of a table -----

  /** Driver 0 reads input 1 and driver 3, which are on one net; driver 3 copies input 4. */
  function LodgerNet(): Netlist {
    Netlist(5, (t: nat) => t == 1 || t == 4, (t: nat) => if t == 1 || t == 2 then 3 else t,
            (i: nat) => if i == 0 || i == 3 then [i] else [], (i: nat) => false, (i: nat) => false,
            (t: nat) => false, (t: nat) => t == 0 || t == 3, (t: nat) => false,
            (t: nat) => LodgerInputs(t), (t: nat) => Generic(|LodgerInputs(t)|, GateAnd))
  }

  function LodgerInputs(t: nat): seq<nat> {
    if t == 0 then [1, 2] else if t == 3 then [4] else []
  }

  function LodgerNodes(): Nodes {
    [Node(Table, 0, 0, [1, 2], []), Node(Port, 1, 0, [4], [0]), Node(Table, 3, 0, [3], [0]),
     Node(Port, 4, 0, [5], [2]), Node(Leaf, 0, 0, [], [1]), Node(Leaf, 0, 1, [], [3])]
  }

  /** The inputs have the names 2 and 3. */
  function Lodgers(): Design {
    Design(LodgerNet(), LodgerNodes(), [0, 2, 0, 0, 3], (t: nat) => [])
  }

  function LodgerRank(): nat -> nat {
    (i: nat) => if i < 4 then 4 - i else 0
  }

  const LODGER_TABLES: map<nat, nat> := map[0 := 0, 3 := 2]

  lemma {:induction false} LodgersReady()
    ensures Ready(Lodgers(), LODGER_TABLES, LodgerRank()) && !HasUnnamed(Lodgers())
  {
    LodgersShaped();
    LodgersLinked();
    LodgersRanked();
    LodgersIndexed();
    LodgersCells();
    hide Shaped, Owned, Linked, Ranked, Indexed, Closed, TableReady, SiblingsOk;
  }

  lemma {:induction false} LodgersIndexed()
    ensures Indexed(LodgerNodes(), LODGER_TABLES) && Closed(LodgerNodes()) && !HasUnnamed(Lodgers())
  {
  }

  lemma {:induction false} LodgersCells()
    ensures forall i :: 0 <= i < 6 && LodgerNodes()[i].kind.Table? ==>
      TableReady(LodgerNet().table(LodgerNodes()[i].term)) && SiblingsOk(Lodgers(), LodgerNodes()[i].term)
  {
  }

  lemma {:induction false} LodgersRanked()
    ensures Ranked(LodgerNodes(), LodgerRank())
  {
    forall i | 0 <= i < |LodgerNodes()|
      ensures RankedAt(LodgerNodes(), LodgerRank(), i)
    {
    }
  }

  lemma {:induction false} LodgersShaped()
    ensures Shaped(LodgerNet(), LodgerNodes())
  {
    var n, nodes := LodgerNet(), LodgerNodes();
    forall i | 0 <= i < |nodes|
      ensures NodeOk(n, nodes, i)
    {
      if i == 0 {
        assert ChildOk(n, nodes, 1, 1) && ChildOk(n, nodes, 2, 2);
      } else if i == 2 {
        assert ChildOk(n, nodes, 4, 3);
      } else if i == 1 || i == 3 {
        assert LeafPos(nodes, i, 0);
      }
    }
  }

  lemma {:induction false} LodgersLinked()
    ensures Owned(LodgerNodes()) && Linked(LodgerNodes())
  {
    var nodes := LodgerNodes();
    forall i | 0 <= i < |nodes|
      ensures OwnsAt(nodes, i) && LinkedAt(nodes, i)
    {
    }
  }

  /** Evaluation conjoins the two names. */
  lemma {:induction false} LodgersValue(env: Env)
    requires Ready(Lodgers(), LODGER_TABLES, LodgerRank())
    ensures Value(Lodgers(), LODGER_TABLES, LodgerRank(), NameLeaf(Lodgers(), env), 0) == (env(2) && env(3))
  {
    var d, leaf := Lodgers(), NameLeaf(Lodgers(), env);
    LodgerCopyValue(env);
    TableIsValue(d, LODGER_TABLES, LodgerRank(), leaf, 0);
    var args := ChildValues(d, LODGER_TABLES, LodgerRank(), leaf, 0);
    PortReads(d, LODGER_TABLES, LodgerRank(), leaf, 1);
    assert args[0] == leaf(4) && args[1] == env(3);
  }

  lemma {:induction false} LodgerCopyValue(env: Env)
    requires Ready(Lodgers(), LODGER_TABLES, LodgerRank())
    ensures Value(Lodgers(), LODGER_TABLES, LodgerRank(), NameLeaf(Lodgers(), env), 2) == env(3)
  {
    var d, leaf := Lodgers(), NameLeaf(Lodgers(), env);
    TableIsValue(d, LODGER_TABLES, LodgerRank(), leaf, 2);
    var below := ChildValues(d, LODGER_TABLES, LodgerRank(), leaf, 2);
    PortReads(d, LODGER_TABLES, LodgerRank(), leaf, 3);
    assert below == [leaf(5)] && below[0] == leaf(5);
  }

  /** The nets of driver 0 and of the shared net have one value, and input 4 its own. */
  function LodgerNets(b: bool, g: bool): Nets {
    (s: nat) => if s == 4 then g else b
  }

  lemma {:induction false} LodgersGiven(b: bool, env: Env, i: nat)
    requires i == 1 ==> env(2) == b
    requires i == 2 ==> env(3) == b
    ensures Given(Lodgers(), {}, LodgerNets(b, env(3)), env, i)
  {
    LodgerRoot(b, env(3));
    LodgerCopy(b, env(3));
    hide TableValue, ChildNets;
  }

  lemma {:induction false} LodgerRoot(b: bool, g: bool)
    ensures NodeHolds(Lodgers(), LodgerNets(b, g), 0)
  {
    var d, nets := Lodgers(), LodgerNets(b, g);
    assert d.nodes[0].children == [1, 2] && d.Iso(1) == 3 && d.Iso(2) == 3;
    assert ChildNets(d, nets, 0) == [b, b];
    assert [b, b][0] == b;
  }

  lemma {:induction false} LodgerCopy(b: bool, g: bool)
    ensures b == g ==> NodeHolds(Lodgers(), LodgerNets(b, g), 2)
  {
    var d, nets := Lodgers(), LodgerNets(b, g);
    assert d.nodes[2].children == [3] && d.Iso(3) == 4;
    assert ChildNets(d, nets, 2) == [g];
    assert [g][0] == g;
  }

  /** In every environment the result is the value of one of the two names. */
  lemma {:induction false} LodgersPicked(order: seq<nat>, r: Expr, cache: Cache) returns (name: nat)
    requires forall nets, env :: ConvertedAt(Lodgers(), map[], order, r, cache, nets, env)
    ensures (name == 2 || name == 3) && forall env: Env :: Eval(r, env) == env(name)
  {
    var d := Lodgers();
    assert |d.nodes| > 0 && d.Iso(1) == d.Iso(2) && d.Iso(0) == 0;
    hide Lodgers, First, Given;
    name := if First(d, order, 1) then 2 else 3;
    forall env: Env
      ensures Eval(r, env) == env(name)
    {
      var nets: Nets := LodgerNets(env(name), env(3));
      forall i: nat | First(d, order, i)
        ensures Given(d, {}, nets, env, i)
      {
        if i == 2 && name == 2 {
          OnlyOneFirst(d, order, 1, 2);
        }
        LodgersGiven(env(name), env, i);
      }
      FirstsFollow(d, order, r, cache, nets, env);
    }
  }

  lemma {:induction false} LodgersWrong(order: seq<nat>, r: Expr, cache: Cache)
    requires Ready(Lodgers(), LODGER_TABLES, LodgerRank())
    requires forall nets, env :: ConvertedAt(Lodgers(), map[], order, r, cache, nets, env)
    ensures exists env: Env ::
      Eval(r, env) != Value(Lodgers(), LODGER_TABLES, LodgerRank(), NameLeaf(Lodgers(), env), 0)
  {
    hide Lodgers, Ready, Value, NameLeaf, ConvertedAt, LodgerRank;
    var name := LodgersPicked(order, r, cache);
    var env: Env := (x: nat) => x == name;
    LodgersValue(env);
    assert env(2) != env(3);
  }

  lemma {:induction false} LodgersNamed()
    ensures OneNamePerNet(Lodgers()) && SiblingsDriven(Lodgers()) && !PortsApart(Lodgers())
  {
    assert IsPort(Lodgers(), 1) && IsTable(Lodgers(), 2) && Lodgers().Iso(1) == Lodgers().Iso(2);
  }

  /** With a port on the net of a table the conversion succeeds, and there is an environment in which it is wrong. */
  method PortOnTableNet(h: Mixer) returns (r: Option<Expr>)
    ensures Ready(Lodgers(), LODGER_TABLES, LodgerRank()) && r.Some?
    ensures OneNamePerNet(Lodgers()) && SiblingsDriven(Lodgers()) && !PortsApart(Lodgers())
    ensures exists env: Env ::
      Eval(r.value, env) != Value(Lodgers(), LODGER_TABLES, LodgerRank(), NameLeaf(Lodgers(), env), 0)
  {
    hide Lodgers, Ready, Value, NameLeaf, ConvertedAt, LodgerRank, HasUnnamed, OneNamePerNet, PortsApart;
    hide SiblingsDriven;
    LodgersReady();
    LodgersNamed();
    ghost var order, expanded;
    var cache;
    r, cache, order, expanded := Convert(h, Lodgers(), map[], LODGER_TABLES, LodgerRank());
    LodgersWrong(order, r.value, cache);
  }
}
