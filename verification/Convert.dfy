/**
 Lowering a finished node graph to an expression, with a memo per node and a cache per iso
 that outlives the conversion.
 */
module Tree2BoolExprs {
  import opened Options
  import opened BoolExprs
  import opened TruthTables
  import opened TableExprs
  import opened TableDnf
  import opened TableDivider
  import opened Netlists
  import opened TruthTableTrees
  import opened AncestorLoops
  import opened Designs
  import D = Divider

  type Memo = seq<Option<Expr>>

  ghost predicate Means(d: Design, nets: Nets, env: Env, i: nat, value: bool)
    requires i < |d.nodes|
  {
    var x := d.nodes[i];
    if !x.kind.Leaf? then value == nets(d.Iso(i))
    else forall p: nat :: x.parents == [p] && p < |d.nodes| && d.nodes[p].term < |d.varNames| ==>
        value == Eval(NameExpr(d.varNames[d.nodes[p].term]), env)
  }

  ghost predicate MemoHolds(d: Design, memo: Memo, nets: Nets, env: Env) {
    |memo| == |d.nodes| && forall i :: 0 <= i < |memo| && memo[i].Some? ==>
        Means(d, nets, env, i, Eval(memo[i].value, env))
  }

  ghost predicate SoundAt(d: Design, start: Cache, order: seq<nat>, memo: Memo, cache: Cache, nets: Nets, env: Env) {
    Premise(d, start, order, nets, env) ==> MemoHolds(d, memo, nets, env) && CacheHolds(cache, nets, env)
  }

  ghost predicate Sound(d: Design, start: Cache, order: seq<nat>, memo: Memo, cache: Cache) {
    forall nets, env :: SoundAt(d, start, order, memo, cache, nets, env)
  }

  // ----- one table -----

  /** The expression is right for every solution, and so are the cache entries. */
  ghost predicate BuildsAt(d: Design, i: nat, children: seq<Expr>, cache: Cache, e: Expr, cache': Cache, nets: Nets,
      env: Env)
    requires i < |d.nodes| && forall k :: 0 <= k < |d.nodes[i].children| ==> d.nodes[i].children[k] < |d.nodes|
  {
    NodeHolds(d, nets, i) && CacheHolds(cache, nets, env) && Args(children, env) == ChildNets(d, nets, i) ==>
      Eval(e, env) == nets(d.Iso(i)) && CacheHolds(cache', nets, env)
  }

  ghost predicate PublishesAt(cache: Cache, iso: nat, e: Expr, r: Expr, cache': Cache, nets: Nets, env: Env) {
    CacheHolds(cache, nets, env) && Eval(e, env) == nets(iso) ==>
        CacheHolds(cache', nets, env) && Eval(r, env) == nets(iso)
  }

  /** Publish an expression, or take the one that is already there. */
  method Publish(cache: Cache, iso: nat, e: Expr) returns (r: Expr, cache': Cache)
    ensures forall nets, env :: PublishesAt(cache, iso, e, r, cache', nets, env)
    ensures cache'.Keys == cache.Keys + {iso} && cache'[iso] == r
    ensures iso in cache ==> r == cache[iso] && cache' == cache
  {
    if iso in cache {
      r, cache' := cache[iso], cache;
    } else {
      r, cache' := e, cache[iso := e];
      assert cache'.Keys == cache.Keys + {iso};
    }
    forall nets, env
      ensures PublishesAt(cache, iso, e, r, cache', nets, env)
    {
    }
  }

  /** The expression of a table other than a divider. */
  method BuildTable(h: Mixer, t: TruthTable, children: seq<Expr>) returns (e: Expr)
    requires TableReady(t) && |children| == Arity(t) && !t.DivMod?
    ensures Computes(e, t, children)
  {
    match t
    case Rows(size, bits) =>
      if forall m :: 0 <= m < |bits| ==> !bits[m] {
        e := FALSE;
        ConstantTable(t, children, false);
      } else if forall m :: 0 <= m < |bits| ==> bits[m] {
        e := TRUE;
        ConstantTable(t, children, true);
      } else {
        e := BuildDnf(h, t, children);
      }
    case Generic(arity, gate) =>
      e := BuildGate(h, gate, children);
    case TableSelect(addressSize, depth) =>
      TableSelectIsLookup(h, addressSize, depth, children);
      e := TableSelectExpr(h, addressSize, depth, children, 0, 0);
  }

  lemma {:induction false} ConstantTable(t: TruthTable, children: seq<Expr>, value: bool)
    requires RowsOk(t) && |children| == t.size && forall m :: 0 <= m < |t.bits| ==> t.bits[m] == value
    ensures Computes(if value then TRUE else FALSE, t, children)
  {
    forall env
      ensures TableValue(t, Args(children, env)) == value
    {
      RowBound(Args(children, env));
    }
  }

  /** The result word bit that a divider output asks for. */
  function WordBitOf(words: D.DivMod, t: TruthTable): Expr
    requires t.DivMod? && t.outputBit < |words.quotient| == |words.remainder|
  {
    if t.result.Quotient? then words.quotient[t.outputBit] else words.remainder[t.outputBit]
  }

  /** A divider: all outputs of the instance are published together. */
  method BuildDivider(h: Mixer, d: Design, i: nat, children: seq<Expr>, cache: Cache) returns (e: Expr, cache': Cache)
    requires i < |d.nodes| && forall k :: 0 <= k < |d.nodes[i].children| ==> d.nodes[i].children[k] < |d.nodes|
    requires d.nodes[i].kind.Table? && d.net.table(d.nodes[i].term).DivMod? && TableReady(d.net.table(d.nodes[i].term))
    requires SiblingsOk(d, d.nodes[i].term)
    requires |children| == |d.nodes[i].children| == Arity(d.net.table(d.nodes[i].term))
    ensures forall nets, env :: BuildsAt(d, i, children, cache, e, cache', nets, env)
    ensures cache'.Keys == cache.Keys + if d.Iso(i) in cache then {} else IsosOf(d.net, d.siblings(d.nodes[i].term))
    ensures d.Iso(i) in cache ==> e == cache[d.Iso(i)] && cache' == cache
  {
    hide DivModValue, NodeHolds, TableValue, CacheHolds, Computes, PublishesAt, PublishedAt, BuildsAt, ChildNets;
    var term := d.nodes[i].term;
    var t := d.net.table(term);
    cache' := cache;
    if d.Iso(i) in cache {
      CachedBuilds(d, i, children, cache);
      return cache[d.Iso(i)], cache;
    }
    var words := BuildDivModWords(h, t.width, t.signed, children);
    var siblings := d.siblings(term);
    NonePublished(d, i, children, cache);
    for j := 0 to |siblings|
      invariant forall nets, env :: PublishedAt(d, i, children, cache, cache', nets, env)
      invariant cache'.Keys == cache.Keys + IsosOf(d.net, siblings[..j])
    {
      var s := siblings[j];
      IsosStep(d.net, siblings, j);
      assert SiblingOk(d, term, s);
      var bit := WordBitOf(words, d.net.table(s));
      ghost var was := cache';
      WordBitComputes(words, t, d.net.table(s), children);
      var taken;
      taken, cache' := Publish(cache', d.net.iso(s), bit);
      forall nets, env
        ensures PublishedAt(d, i, children, cache, cache', nets, env)
      {
        SiblingPublished(d, i, children, j, bit, taken, cache, was, cache', nets, env);
      }
    }
    assert siblings[..|siblings|] == siblings;
    e := WordBitOf(words, t);
    ghost var bit := e;
    WordBitComputes(words, t, t, children);
    if d.Iso(i) in cache' {
      e := cache'[d.Iso(i)];
    }
    forall nets, env
      ensures BuildsAt(d, i, children, cache, e, cache', nets, env)
    {
      DividerBuilds(d, i, children, cache, bit, e, cache', nets, env);
    }
  }

  lemma {:induction false} IsosStep(n: Netlist, terms: seq<nat>, j: nat)
    requires j < |terms|
    ensures IsosOf(n, terms[..j + 1]) == IsosOf(n, terms[..j]) + {n.iso(terms[j])}
  {
    assert terms[..j + 1] == terms[..j] + [terms[j]];
  }

  lemma {:induction false} CachedBuilds(d: Design, i: nat, children: seq<Expr>, cache: Cache)
    requires i < |d.nodes| && forall k :: 0 <= k < |d.nodes[i].children| ==> d.nodes[i].children[k] < |d.nodes|
    requires d.Iso(i) in cache
    ensures forall nets, env :: BuildsAt(d, i, children, cache, cache[d.Iso(i)], cache, nets, env)
  {
    forall nets, env
      ensures BuildsAt(d, i, children, cache, cache[d.Iso(i)], cache, nets, env)
    {
    }
  }

  lemma {:induction false} NonePublished(d: Design, i: nat, children: seq<Expr>, cache: Cache)
    requires i < |d.nodes| && forall k :: 0 <= k < |d.nodes[i].children| ==> d.nodes[i].children[k] < |d.nodes|
    ensures forall nets, env :: PublishedAt(d, i, children, cache, cache, nets, env)
  {
    forall nets, env
      ensures PublishedAt(d, i, children, cache, cache, nets, env)
    {
    }
  }

  lemma {:induction false} WordBitComputes(words: D.DivMod, t: TruthTable, s: TruthTable, children: seq<Expr>)
    requires t.DivMod? && s.DivMod? && s.width == t.width && s.signed == t.signed && s.outputBit < s.width
    requires |words.quotient| == |words.remainder| == t.width
    requires forall i :: 0 <= i < t.width ==>
      Computes(words.quotient[i], DivMod(t.width, t.signed, Quotient, i), children)
    requires forall i :: 0 <= i < t.width ==>
      Computes(words.remainder[i], DivMod(t.width, t.signed, Remainder, i), children)
    ensures Computes(WordBitOf(words, s), s, children)
  {
    hide Computes;
  }

  lemma {:induction false} SiblingPublished(d: Design, i: nat, children: seq<Expr>, j: nat, bit: Expr, taken: Expr,
      cache: Cache, was: Cache, now: Cache, nets: Nets, env: Env)
    requires i < |d.nodes| && forall k :: 0 <= k < |d.nodes[i].children| ==> d.nodes[i].children[k] < |d.nodes|
    requires d.nodes[i].kind.Table? && |children| == |d.nodes[i].children| == Arity(d.net.table(d.nodes[i].term))
    requires j < |d.siblings(d.nodes[i].term)| && SiblingOk(d, d.nodes[i].term, d.siblings(d.nodes[i].term)[j])
    requires Computes(bit, d.net.table(d.siblings(d.nodes[i].term)[j]), children)
    requires PublishedAt(d, i, children, cache, was, nets, env)
    requires PublishesAt(was, d.net.iso(d.siblings(d.nodes[i].term)[j]), bit, taken, now, nets, env)
    ensures PublishedAt(d, i, children, cache, now, nets, env)
  {
    hide CacheHolds;
    SiblingBit(d, i, children, j, bit, nets, env);
    hide NodeHolds, Computes, SiblingOk, ChildNets;
  }

  lemma {:induction false} DividerBuilds(d: Design, i: nat, children: seq<Expr>, cache: Cache, bit: Expr, e: Expr,
      now: Cache, nets: Nets, env: Env)
    requires i < |d.nodes| && forall k :: 0 <= k < |d.nodes[i].children| ==> d.nodes[i].children[k] < |d.nodes|
    requires d.nodes[i].kind.Table? && |children| == |d.nodes[i].children| == Arity(d.net.table(d.nodes[i].term))
    requires Computes(bit, d.net.table(d.nodes[i].term), children) && PublishedAt(d, i, children, cache, now, nets, env)
    requires e == if d.Iso(i) in now then now[d.Iso(i)] else bit
    ensures BuildsAt(d, i, children, cache, e, now, nets, env)
  {
    hide TableValue;
    NodeValueIs(d, i, children, bit, nets, env);
    hide NodeHolds, Computes;
  }

  /** A correct expression over correct children has the value of its net. */
  lemma {:induction false} NodeValueIs(d: Design, i: nat, children: seq<Expr>, e: Expr, nets: Nets, env: Env)
    requires i < |d.nodes| && forall k :: 0 <= k < |d.nodes[i].children| ==> d.nodes[i].children[k] < |d.nodes|
    requires d.nodes[i].kind.Table? && |children| == |d.nodes[i].children| == Arity(d.net.table(d.nodes[i].term))
    requires Computes(e, d.net.table(d.nodes[i].term), children)
    ensures NodeHolds(d, nets, i) && Args(children, env) == ChildNets(d, nets, i) ==> Eval(e, env) == nets(d.Iso(i))
  {
    hide TableValue;
  }

  ghost predicate PublishedAt(d: Design, i: nat, children: seq<Expr>, cache: Cache, cache': Cache, nets: Nets, env: Env)
    requires i < |d.nodes| && forall k :: 0 <= k < |d.nodes[i].children| ==> d.nodes[i].children[k] < |d.nodes|
  {
    NodeHolds(d, nets, i) && CacheHolds(cache, nets, env) && Args(children, env) == ChildNets(d, nets, i) ==>
        CacheHolds(cache', nets, env)
  }

  lemma {:induction false} SiblingBit(d: Design, i: nat, children: seq<Expr>, j: nat, bit: Expr, nets: Nets, env: Env)
    requires i < |d.nodes| && forall k :: 0 <= k < |d.nodes[i].children| ==> d.nodes[i].children[k] < |d.nodes|
    requires d.nodes[i].kind.Table? && |children| == |d.nodes[i].children| == Arity(d.net.table(d.nodes[i].term))
    requires j < |d.siblings(d.nodes[i].term)| && SiblingOk(d, d.nodes[i].term, d.siblings(d.nodes[i].term)[j])
    requires Computes(bit, d.net.table(d.siblings(d.nodes[i].term)[j]), children)
    ensures NodeHolds(d, nets, i) && Args(children, env) == ChildNets(d, nets, i) ==>
              Eval(bit, env) == nets(d.net.iso(d.siblings(d.nodes[i].term)[j]))
  {
    hide TableValue;
  }

  // ----- one node -----

  const BUFFER: TruthTable := Rows(1, [false, true])

  lemma {:induction false} BufferCopies(e: Expr, children: seq<Expr>, env: Env)
    requires Computes(e, BUFFER, children)
    ensures |children| == 1 && Eval(e, env) == Eval(children[0], env)
  {
    var args := Args(children, env);
    assert Eval(e, env) == TableValue(BUFFER, args);
    assert args[1..] == [] && RowOf(args[1..]) == 0;
    assert RowOf(args) == if args[0] then 1 else 0;
  }

  lemma {:induction false} BufferIsReady()
    ensures TableReady(BUFFER) && Arity(BUFFER) == 1
  {
    assert D.Pow2(1) == 2 * D.Pow2(0) == 2;
  }

  ghost predicate ChildrenRight(d: Design, nets: Nets, env: Env, i: nat, children: seq<Expr>)
    requires i < |d.nodes| && forall k :: 0 <= k < |d.nodes[i].children| ==> d.nodes[i].children[k] < |d.nodes|
  {
    if d.nodes[i].kind.Port?
    then |children| == 1 && d.nodes[i].term < |d.varNames| &&
        Eval(children[0], env) == Eval(NameExpr(d.varNames[d.nodes[i].term]), env)
    else Args(children, env) == ChildNets(d, nets, i)
  }

  ghost predicate NodeBuiltAt(d: Design, i: nat, children: seq<Expr>, cache: Cache, e: Expr, cache': Cache, nets: Nets,
      env: Env)
    requires i < |d.nodes| && forall k :: 0 <= k < |d.nodes[i].children| ==> d.nodes[i].children[k] < |d.nodes|
  {
    Given(d, cache.Keys, nets, env, i) && CacheHolds(cache, nets, env) && ChildrenRight(d, nets, env, i, children) ==>
      Eval(e, env) == nets(d.Iso(i)) && CacheHolds(cache', nets, env)
  }

  ghost predicate Buildable(d: Design, i: nat) {
    && i < |d.nodes| && !d.nodes[i].kind.Leaf?
    && (forall k :: 0 <= k < |d.nodes[i].children| ==> d.nodes[i].children[k] < |d.nodes|)
    && (d.nodes[i].kind.Port? ==> |d.nodes[i].children| == 1)
    && (d.nodes[i].kind.Table? ==> |d.nodes[i].children| == Arity(d.net.table(d.nodes[i].term))
                                   && TableReady(d.net.table(d.nodes[i].term)) && SiblingsOk(d, d.nodes[i].term))
  }

  /** The second visit of a node: all its children have expressions. */
  method BuildNode(h: Mixer, d: Design, i: nat, children: seq<Expr>, cache: Cache) returns (e: Expr, cache': Cache)
    requires Buildable(d, i) && |children| == |d.nodes[i].children|
    ensures forall nets, env :: NodeBuiltAt(d, i, children, cache, e, cache', nets, env)
    ensures cache'.Keys == cache.Keys + BuiltKeys(d, i, cache.Keys)
  {
    hide TableValue, CacheHolds, Computes, PublishesAt, BuildsAt, ChildNets, NodeHolds, TableReady, SiblingsOk, Arity;
    BufferIsReady();
    ghost var mid := cache;
    cache' := cache;
    if d.nodes[i].kind.Port? {
      e := BuildTable(h, BUFFER, children);
    } else if d.net.table(d.nodes[i].term).DivMod? {
      e, cache' := BuildDivider(h, d, i, children, cache);
      mid := cache';
    } else {
      e := BuildTable(h, d.net.table(d.nodes[i].term), children);
    }
    ghost var built := e;
    e, cache' := Publish(cache', d.Iso(i), e);
    forall nets, env
      ensures NodeBuiltAt(d, i, children, cache, e, cache', nets, env)
    {
      if d.nodes[i].kind.Port? {
        PortBuilt(d, i, children, cache, built, e, cache', nets, env);
      } else if d.net.table(d.nodes[i].term).DivMod? {
        DividerBuilt(d, i, children, cache, mid, built, e, cache', nets, env);
      } else {
        TableBuilt(d, i, children, cache, built, e, cache', nets, env);
      }
    }
  }

  lemma {:induction false} PortBuilt(d: Design, i: nat, children: seq<Expr>, cache: Cache, built: Expr, e: Expr,
      now: Cache, nets: Nets, env: Env)
    requires Buildable(d, i) && d.nodes[i].kind.Port? && Computes(built, BUFFER, children)
    requires PublishesAt(cache, d.Iso(i), built, e, now, nets, env)
    requires d.Iso(i) in cache ==> e == cache[d.Iso(i)] && now == cache
    ensures NodeBuiltAt(d, i, children, cache, e, now, nets, env)
  {
    BufferCopies(built, children, env);
    hide CacheHolds, Computes;
  }

  lemma {:induction false} TableBuilt(d: Design, i: nat, children: seq<Expr>, cache: Cache, built: Expr, e: Expr,
      now: Cache, nets: Nets, env: Env)
    requires Buildable(d, i) && d.nodes[i].kind.Table? && |children| == |d.nodes[i].children|
    requires Computes(built, d.net.table(d.nodes[i].term), children)
    requires PublishesAt(cache, d.Iso(i), built, e, now, nets, env)
    requires d.Iso(i) in cache ==> e == cache[d.Iso(i)] && now == cache
    ensures NodeBuiltAt(d, i, children, cache, e, now, nets, env)
  {
    NodeValueIs(d, i, children, built, nets, env);
    hide CacheHolds, Computes, NodeHolds;
  }

  lemma {:induction false} DividerBuilt(d: Design, i: nat, children: seq<Expr>, cache: Cache, mid: Cache, built: Expr,
      e: Expr, now: Cache, nets: Nets, env: Env)
    requires Buildable(d, i) && d.nodes[i].kind.Table? && BuildsAt(d, i, children, cache, built, mid, nets, env)
    requires PublishesAt(mid, d.Iso(i), built, e, now, nets, env)
    requires d.Iso(i) in cache ==> e == cache[d.Iso(i)] && now == cache
    ensures NodeBuiltAt(d, i, children, cache, e, now, nets, env)
  {
    assert d.Iso(i) in cache && CacheHolds(cache, nets, env) ==> Eval(cache[d.Iso(i)], env) == nets(d.Iso(i));
    hide CacheHolds, NodeHolds;
  }

  // ----- the walk -----

  datatype Visit = Visit(node: nat, second: bool)

  ghost predicate Above(stack: seq<Visit>, i: int, c: nat) {
    exists j :: i < j < |stack| && j >= 0 && stack[j].node == c
  }

  ghost predicate HasSecond(stack: seq<Visit>, x: nat) {
    exists i :: 0 <= i < |stack| && stack[i] == Visit(x, true)
  }

  /** A node that a visit may name: an inner node, or the leaf of a port. */
  ghost predicate Visitable(nodes: Nodes, x: nat) {
    && x < |nodes|
    && (nodes[x].kind.Leaf? ==> exists p: nat :: nodes[x].parents == [p] && p < |nodes| && nodes[p].kind.Port?)
  }

  predicate Done(memo: Memo, x: nat) { x < |memo| && memo[x].Some? }

  ghost predicate FrameOk(nodes: Nodes, rank: nat -> nat, stack: seq<Visit>, memo: Memo, i: nat)
    requires i < |stack|
  {
    && Visitable(nodes, stack[i].node)
    && (stack[i].second ==> Inner(nodes, stack[i].node))
    && (stack[i].second ==> forall j :: i < j < |stack| ==> rank(stack[j].node) < rank(stack[i].node))
    && (stack[i].second ==> forall c :: c in nodes[stack[i].node].children ==> Done(memo, c) || Above(stack, i, c))
  }

  ghost predicate Walking(nodes: Nodes, rank: nat -> nat, stack: seq<Visit>, memo: Memo, expanded: set<nat>) {
    && |memo| == |nodes|
    && (forall i :: 0 <= i < |stack| ==> FrameOk(nodes, rank, stack, memo, i))
    && (forall x :: x in expanded ==> Done(memo, x) || HasSecond(stack, x))
    && (Done(memo, 0) || Above(stack, -1, 0))
    && expanded <= Ids(|nodes|)
  }

  lemma {:induction false} AbovePop(stack: seq<Visit>, f: Visit, i: int, c: nat)
    ensures Above(stack + [f], i, c) && c != f.node ==> Above(stack, i, c)
  {
    var more := stack + [f];
    if Above(more, i, c) && c != f.node {
      var j :| i < j < |more| && j >= 0 && more[j].node == c;
      assert stack[j].node == c;
    }
  }

  /** A visit whose node now has an expression goes away. */
  lemma {:induction false} WalkPops(nodes: Nodes, rank: nat -> nat, rest: seq<Visit>, f: Visit, memo: Memo,
      memo': Memo, expanded: set<nat>)
    requires Walking(nodes, rank, rest + [f], memo, expanded)
    requires |memo'| == |memo| && Done(memo', f.node) && forall x :: Done(memo, x) ==> Done(memo', x)
    ensures Walking(nodes, rank, rest, memo', expanded)
  {
    var stack := rest + [f];
    forall i | 0 <= i < |rest|
      ensures FrameOk(nodes, rank, rest, memo', i)
    {
      assert FrameOk(nodes, rank, stack, memo, i) && stack[i] == rest[i];
      assert forall j :: i < j < |rest| ==> stack[j] == rest[j];
      if rest[i].second {
        forall c | c in nodes[rest[i].node].children
          ensures Done(memo', c) || Above(rest, i, c)
        {
          AbovePop(rest, f, i, c);
        }
      }
    }
    forall x | x in expanded
      ensures Done(memo', x) || HasSecond(rest, x)
    {
      if !Done(memo, x) {
        var i :| 0 <= i < |stack| && stack[i] == Visit(x, true);
        assert i < |rest| ==> rest[i] == stack[i];
      }
    }
    AbovePop(rest, f, -1, 0);
  }

  /** A node is never expanded twice: its own second visit would have to lie below itself. */
  lemma {:induction false} FirstExpansion(nodes: Nodes, rank: nat -> nat, rest: seq<Visit>, f: Visit, memo: Memo,
      expanded: set<nat>)
    requires Walking(nodes, rank, rest + [f], memo, expanded) && !f.second && !Done(memo, f.node)
    ensures f.node !in expanded
  {
    var stack := rest + [f];
    assert stack[|rest|] == f;
    forall i | 0 <= i < |stack|
      ensures stack[i] != Visit(f.node, true)
    {
      assert FrameOk(nodes, rank, stack, memo, i);
    }
  }

  function ChildVisits(children: seq<nat>): (r: seq<Visit>)
    ensures |r| == |children| && forall k :: 0 <= k < |r| ==> r[k] == Visit(children[k], false)
  {
    seq(|children|, k requires 0 <= k < |children| => Visit(children[k], false))
  }

  lemma {:induction false} AboveGrows(rest: seq<Visit>, f: Visit, more: seq<Visit>, i: int, c: nat)
    requires Above(rest + [f], i, c)
    ensures Above(rest + [Visit(f.node, true)] + more, i, c)
  {
    var a, b := rest + [f], rest + [Visit(f.node, true)] + more;
    var j :| i < j < |a| && j >= 0 && a[j].node == c;
    assert b[j].node == c;
  }

  /** Expanding a node puts its second visit below the visits of its children. */
  lemma {:induction false} WalkExpands(n: Netlist, nodes: Nodes, tables: map<nat, nat>, rank: nat -> nat,
      rest: seq<Visit>, f: Visit, memo: Memo, expanded: set<nat>)
    requires GraphOk(n, nodes, tables) && Closed(nodes) && Ranked(nodes, rank)
    requires Walking(nodes, rank, rest + [f], memo, expanded) && Inner(nodes, f.node)
    ensures Walking(nodes, rank, rest + [Visit(f.node, true)] + ChildVisits(nodes[f.node].children), memo,
      expanded + {f.node})
  {
    var x := f.node;
    var stack, cs := rest + [f], nodes[x].children;
    var after := rest + [Visit(x, true)] + ChildVisits(cs);
    assert stack[|rest|] == f && RankedAt(nodes, rank, x);
    ChildrenVisitable(n, nodes, tables, x);
    hide GraphOk, Closed, Ranked;
    forall i | 0 <= i < |after|
      ensures FrameOk(nodes, rank, after, memo, i)
    {
      if i < |rest| {
        assert FrameOk(nodes, rank, stack, memo, i) && after[i] == stack[i];
        if after[i].second {
          assert rank(stack[|rest|].node) < rank(after[i].node);
          forall j | i < j < |after|
            ensures rank(after[j].node) < rank(after[i].node)
          {
            if j <= |rest| {
              assert after[j].node == stack[j].node;
            } else {
              assert after[j].node in cs;
            }
          }
          forall c | c in nodes[after[i].node].children
            ensures Done(memo, c) || Above(after, i, c)
          {
            if !Done(memo, c) {
              AboveGrows(rest, f, ChildVisits(cs), i, c);
            }
          }
        }
      } else if i == |rest| {
        assert after[i] == Visit(x, true);
        forall j | i < j < |after|
          ensures rank(after[j].node) < rank(x)
        {
          assert after[j].node in cs;
        }
        forall c | c in cs
          ensures Above(after, i, c)
        {
          var k :| 0 <= k < |cs| && cs[k] == c;
          assert after[|rest| + 1 + k].node == c;
        }
      } else {
        assert after[i] == Visit(cs[i - |rest| - 1], false);
      }
    }
    OpenedGrows(rest, f, ChildVisits(cs), memo, expanded);
    if !Done(memo, 0) {
      AboveGrows(rest, f, ChildVisits(cs), -1, 0);
    }
  }

  lemma {:induction false} OpenedGrows(rest: seq<Visit>, f: Visit, more: seq<Visit>, memo: Memo, expanded: set<nat>)
    requires forall x :: x in expanded ==> Done(memo, x) || HasSecond(rest + [f], x)
    ensures forall x :: x in expanded + {f.node} ==> Done(memo, x) || HasSecond(rest + [Visit(f.node, true)] + more, x)
  {
    var stack, after := rest + [f], rest + [Visit(f.node, true)] + more;
    assert after[|rest|] == Visit(f.node, true);
    forall x | x in expanded && HasSecond(stack, x)
      ensures HasSecond(after, x)
    {
      var i :| 0 <= i < |stack| && stack[i] == Visit(x, true);
      assert after[i] == Visit(x, true);
    }
  }

  lemma {:induction false} ChildrenVisitable(n: Netlist, nodes: Nodes, tables: map<nat, nat>, x: nat)
    requires GraphOk(n, nodes, tables) && Closed(nodes) && Inner(nodes, x)
    ensures forall k :: 0 <= k < |nodes[x].children| ==> Visitable(nodes, nodes[x].children[k])
  {
    assert NodeOk(n, nodes, x) && OwnsAt(nodes, x);
    forall k | 0 <= k < |nodes[x].children|
      ensures Visitable(nodes, nodes[x].children[k])
    {
      var c := nodes[x].children[k];
      assert c < |nodes|;
      if nodes[c].kind.Leaf? {
        assert LeafPos(nodes, x, k);
        assert nodes[c].parents == [x] && nodes[x].kind.Port?;
      }
    }
  }

  // ----- soundness of the memo -----

  ghost predicate SetsAt(d: Design, start: Cache, order: seq<nat>, memo: Memo, cache: Cache, x: nat, e: Expr,
      cache': Cache, nets: Nets, env: Env)
    requires x < |d.nodes|
  {
    Premise(d, start, order, nets, env) && MemoHolds(d, memo, nets, env) && CacheHolds(cache, nets, env) ==>
      Means(d, nets, env, x, Eval(e, env)) && CacheHolds(cache', nets, env)
  }

  /** Building more nodes only asks more. */
  lemma {:induction false} PremiseOfPrefix(d: Design, start: Cache, order: seq<nat>, order': seq<nat>, nets: Nets,
      env: Env)
    requires Premise(d, start, order', nets, env) && order <= order'
    ensures Premise(d, start, order, nets, env)
  {
    hide CacheHolds, Given;
    forall k: nat
      ensures GivenAt(d, start.Keys, order, nets, env, k)
    {
      assert GivenAt(d, start.Keys, order', nets, env, k);
      assert k < |order| ==> order'[..k] == order[..k];
    }
  }

  lemma {:induction false} SoundSet(d: Design, start: Cache, order: seq<nat>, order': seq<nat>, memo: Memo,
      cache: Cache,
      x: nat, e: Expr, cache': Cache)
    requires Sound(d, start, order, memo, cache) && x < |d.nodes| == |memo| && order <= order'
    requires forall nets, env :: SetsAt(d, start, order', memo, cache, x, e, cache', nets, env)
    ensures Sound(d, start, order', memo[x := Some(e)], cache')
  {
    hide Means, CacheHolds, Premise;
    var memo' := memo[x := Some(e)];
    forall nets, env
      ensures SoundAt(d, start, order', memo', cache', nets, env)
    {
      assert SoundAt(d, start, order, memo, cache, nets, env);
      assert SetsAt(d, start, order', memo, cache, x, e, cache', nets, env);
      if Premise(d, start, order', nets, env) {
        PremiseOfPrefix(d, start, order, order', nets, env);
      }
    }
  }

  /** A cached expression is right for its node. */
  lemma {:induction false} CachedIsSound(d: Design, start: Cache, order: seq<nat>, memo: Memo, cache: Cache, x: nat)
    requires Sound(d, start, order, memo, cache) && |memo| == |d.nodes| && Inner(d.nodes, x) && d.Iso(x) in cache
    ensures Sound(d, start, order, memo[x := Some(cache[d.Iso(x)])], cache)
  {
    hide Premise;
    forall nets, env
      ensures SetsAt(d, start, order, memo, cache, x, cache[d.Iso(x)], cache, nets, env)
    {
    }
    SoundSet(d, start, order, order, memo, cache, x, cache[d.Iso(x)], cache);
  }

  lemma {:induction false} LeafIsSound(d: Design, start: Cache, order: seq<nat>, memo: Memo, cache: Cache, x: nat,
      p: nat)
    requires Sound(d, start, order, memo, cache) && x < |memo| == |d.nodes| && d.nodes[x].kind.Leaf?
    requires d.nodes[x].parents == [p]
    requires p < |d.nodes| && d.nodes[p].term < |d.varNames|
    ensures Sound(d, start, order, memo[x := Some(NameExpr(d.varNames[d.nodes[p].term]))], cache)
  {
    hide Premise, CacheHolds, NameExpr;
    var e := NameExpr(d.varNames[d.nodes[p].term]);
    forall nets, env
      ensures SetsAt(d, start, order, memo, cache, x, e, cache, nets, env)
    {
    }
    SoundSet(d, start, order, order, memo, cache, x, e, cache);
  }

  ghost predicate FromMemo(d: Design, memo: Memo, x: nat, children: seq<Expr>)
    requires x < |d.nodes|
  {
    && |children| == |d.nodes[x].children|
    && forall k :: 0 <= k < |children| ==>
         Done(memo, d.nodes[x].children[k]) && children[k] == memo[d.nodes[x].children[k]].value
  }

  /** Children taken from a sound memo are right. */
  lemma {:induction false} MemoChildren(d: Design, tables: map<nat, nat>, memo: Memo, x: nat, children: seq<Expr>,
      nets: Nets, env: Env)
    requires GraphOk(d.net, d.nodes, tables) && Closed(d.nodes) && |d.varNames| >= d.net.count && Buildable(d, x)
    requires MemoHolds(d, memo, nets, env) && FromMemo(d, memo, x, children)
    ensures ChildrenRight(d, nets, env, x, children)
  {
    var n := d.nodes[x];
    assert NodeOk(d.net, d.nodes, x) && OwnsAt(d.nodes, x);
    hide GraphOk, NodeOk, Eval, NameExpr;
    forall k | 0 <= k < |children|
      ensures Means(d, nets, env, n.children[k], Eval(children[k], env))
      ensures d.nodes[n.children[k]].kind.Leaf? ==> d.nodes[n.children[k]].parents == [x] && n.kind.Port?
    {
      if d.nodes[n.children[k]].kind.Leaf? {
        assert LeafPos(d.nodes, x, k);
      }
    }
    if n.kind.Port? {
      PortOverLeaf(d, tables, x);
    } else {
      assert Args(children, env) == ChildNets(d, nets, x);
    }
  }

  lemma {:induction false} PortOverLeaf(d: Design, tables: map<nat, nat>, x: nat)
    requires GraphOk(d.net, d.nodes, tables) && x < |d.nodes| && d.nodes[x].kind.Port?
    ensures |d.nodes[x].children| == 1 && d.nodes[x].children[0] < |d.nodes|
    ensures d.nodes[d.nodes[x].children[0]].kind.Leaf? && d.nodes[x].term < d.net.count
  {
    assert NodeOk(d.net, d.nodes, x);
  }

  lemma {:induction false} BuiltIsSound(d: Design, tables: map<nat, nat>, start: Cache, order: seq<nat>, memo: Memo,
      cache: Cache, x: nat, children: seq<Expr>, e: Expr, cache': Cache)
    requires GraphOk(d.net, d.nodes, tables) && Closed(d.nodes) && |d.varNames| >= d.net.count && Buildable(d, x)
    requires Sound(d, start, order, memo, cache) && |memo| == |d.nodes| && FromMemo(d, memo, x, children)
    requires cache.Keys == KeysAfter(d, start.Keys, order)
    requires forall nets, env :: NodeBuiltAt(d, x, children, cache, e, cache', nets, env)
    ensures Sound(d, start, order + [x], memo[x := Some(e)], cache')
  {
    hide GraphOk, Closed, CacheHolds, MemoHolds, Given, ChildrenRight, FromMemo, KeysAfter;
    var order' := order + [x];
    forall nets, env
      ensures SetsAt(d, start, order', memo, cache, x, e, cache', nets, env)
    {
      assert NodeBuiltAt(d, x, children, cache, e, cache', nets, env);
      if Premise(d, start, order', nets, env) && MemoHolds(d, memo, nets, env) {
        MemoChildren(d, tables, memo, x, children, nets, env);
        assert GivenAt(d, start.Keys, order', nets, env, |order|);
        assert order'[..|order|] == order;
      }
    }
    SoundSet(d, start, order, order', memo, cache, x, e, cache');
  }

  lemma {:induction false} ReadyIsBuildable(d: Design, tables: map<nat, nat>, rank: nat -> nat, x: nat)
    requires Ready(d, tables, rank) && Inner(d.nodes, x)
    ensures Buildable(d, x)
  {
    assert NodeOk(d.net, d.nodes, x);
  }

  lemma {:induction false} WalkStarts(d: Design, tables: map<nat, nat>, rank: nat -> nat, memo: Memo, start: Cache)
    requires Ready(d, tables, rank) && |memo| == |d.nodes| && forall i :: 0 <= i < |memo| ==> memo[i] == None
    ensures Walking(d.nodes, rank, [Visit(0, false)], memo, {}) && Sound(d, start, [], memo, start)
  {
    var stack := [Visit(0, false)];
    assert stack[0].node == 0;
    assert Above(stack, -1, 0);
    assert FrameOk(d.nodes, rank, stack, memo, 0);
    forall nets, env
      ensures SoundAt(d, start, [], memo, start, nets, env)
    {
    }
  }

  lemma {:induction false} TopFrame(nodes: Nodes, rank: nat -> nat, rest: seq<Visit>, f: Visit, memo: Memo,
      expanded: set<nat>)
    requires Walking(nodes, rank, rest + [f], memo, expanded)
    ensures Visitable(nodes, f.node) && (f.second ==> Inner(nodes, f.node)) && |memo| == |nodes|
    ensures f.second ==> forall c :: c in nodes[f.node].children ==> Done(memo, c)
    ensures f.node in Ids(|nodes|)
  {
    var stack := rest + [f];
    assert stack[|rest|] == f;
    assert FrameOk(nodes, rank, stack, memo, |rest|);
  }

  lemma {:induction false} WalkIsOver(nodes: Nodes, rank: nat -> nat, memo: Memo, expanded: set<nat>)
    requires Walking(nodes, rank, [], memo, expanded)
    ensures Done(memo, 0)
  {
  }

  method GatherChildren(memo: Memo, children: seq<nat>) returns (r: seq<Expr>)
    requires forall c :: c in children ==> Done(memo, c)
    ensures |r| == |children| && forall k :: 0 <= k < |r| ==> Done(memo, children[k]) && r[k] == memo[children[k]].value
  {
    r := [];
    for k := 0 to |children|
      invariant |r| == k && forall i :: 0 <= i < k ==> Done(memo, children[i]) && r[i] == memo[children[i]].value
    {
      assert children[k] in children;
      r := r + [memo[children[k]].value];
    }
  }

  ghost predicate ConvertedAt(d: Design, start: Cache, order: seq<nat>, r: Expr, cache: Cache, nets: Nets, env: Env)
    requires |d.nodes| > 0
  {
    Premise(d, start, order, nets, env) ==> Eval(r, env) == nets(d.Iso(0)) && CacheHolds(cache, nets, env)
  }

  ghost predicate HasUnnamed(d: Design) {
    exists p: nat :: p < |d.nodes| && d.nodes[p].kind.Port? && d.nodes[p].term < |d.varNames| &&
      d.varNames[d.nodes[p].term] == SIZE_MAX
  }

  /** The first visit of a leaf: its port's variable, or a constant. */
  method VisitLeaf(d: Design, x: nat) returns (r: Option<Expr>)
    requires Visitable(d.nodes, x) && d.nodes[x].kind.Leaf?
    requires forall p :: 0 <= p < |d.nodes| && d.nodes[p].kind.Port? ==> d.nodes[p].term < |d.varNames|
    ensures r.None? ==> HasUnnamed(d)
    ensures r.Some? ==>
      exists p: nat :: d.nodes[x].parents == [p] && p < |d.nodes| && d.nodes[p].term < |d.varNames| &&
        r.value == NameExpr(d.varNames[d.nodes[p].term])
  {
    var parent := d.nodes[x].parents[0];
    var name := d.varNames[d.nodes[parent].term];
    if name == SIZE_MAX {
      return None;
    }
    r := Some(NameExpr(name));
  }

  // ----- the walk without its expressions -----

  /** The stack, the nodes that have an expression, and the nets that have one. */
  datatype Walk = Walk(stack: seq<Visit>, done: set<nat>, keys: set<nat>)

  /** One turn of the loop. */
  function WalkStep(d: Design, w: Walk): Walk {
    if w.stack == [] || w.stack[|w.stack| - 1].node >= |d.nodes| then w
    else
      var rest, f := w.stack[..|w.stack| - 1], w.stack[|w.stack| - 1];
      var x, leaf := f.node, d.nodes[f.node].kind.Leaf?;
      if f.second then Walk(rest, w.done + {x}, w.keys + BuiltKeys(d, x, w.keys))
      else if leaf || d.Iso(x) in w.keys || x in w.done then Walk(rest, w.done + {x}, w.keys)
      else Walk(rest + [Visit(x, true)] + ChildVisits(d.nodes[x].children), w.done, w.keys)
  }

  function WalkAfter(d: Design, keys: set<nat>, k: nat): Walk {
    if k == 0 then Walk([Visit(0, false)], {}, keys) else WalkStep(d, WalkAfter(d, keys, k - 1))
  }

  ghost predicate WalkEnds(d: Design, keys: set<nat>) {
    exists k: nat :: WalkAfter(d, keys, k).stack == []
  }

  function DoneSet(memo: Memo): set<nat> {
    set x | 0 <= x < |memo| && memo[x].Some?
  }

  /** The loop has made k turns. */
  ghost predicate Follows(d: Design, start: Cache, k: nat, stack: seq<Visit>, memo: Memo, keys: set<nat>) {
    WalkAfter(d, start.Keys, k) == Walk(stack, DoneSet(memo), keys)
  }

  lemma {:induction false} FollowsFromStart(d: Design, start: Cache, memo: Memo)
    requires forall i :: 0 <= i < |memo| ==> memo[i] == None
    ensures Follows(d, start, 0, [Visit(0, false)], memo, start.Keys)
  {
  }

  lemma {:induction false} FollowsToEnd(d: Design, start: Cache, k: nat, memo: Memo, keys: set<nat>)
    requires Follows(d, start, k, [], memo, keys)
    ensures WalkEnds(d, start.Keys)
  {
  }

  lemma {:induction false} FollowsPop(d: Design, start: Cache, k: nat, rest: seq<Visit>, f: Visit, memo: Memo,
      memo': Memo, keys: set<nat>)
    requires Follows(d, start, k, rest + [f], memo, keys) && !f.second && f.node < |d.nodes| == |memo|
    requires d.nodes[f.node].kind.Leaf? || d.Iso(f.node) in keys || Done(memo, f.node)
    requires |memo'| == |memo| && Done(memo', f.node) && forall x :: x != f.node ==> (Done(memo, x) <==> Done(memo', x))
    ensures Follows(d, start, k + 1, rest, memo', keys)
  {
    var stack := rest + [f];
    assert stack[|stack| - 1] == f && stack[..|stack| - 1] == rest;
    assert Done(memo, f.node) <==> f.node in DoneSet(memo);
    DoneSetGrows(memo, memo', f.node);
  }

  lemma {:induction false} DoneSetGrows(memo: Memo, memo': Memo, x: nat)
    requires |memo'| == |memo| && Done(memo', x) && forall y :: y != x ==> (Done(memo, y) <==> Done(memo', y))
    ensures DoneSet(memo') == DoneSet(memo) + {x}
  {
    forall y
      ensures y in DoneSet(memo') <==> y in DoneSet(memo) || y == x
    {
      if y >= 0 && y != x {
        assert Done(memo, y) <==> Done(memo', y);
      }
    }
  }

  lemma {:induction false} FollowsExpand(d: Design, start: Cache, k: nat, rest: seq<Visit>, f: Visit, memo: Memo,
      keys: set<nat>)
    requires Follows(d, start, k, rest + [f], memo, keys) && !f.second && f.node < |d.nodes| == |memo|
    requires !d.nodes[f.node].kind.Leaf? && d.Iso(f.node) !in keys && !Done(memo, f.node)
    ensures Follows(d, start, k + 1, rest + [Visit(f.node, true)] + ChildVisits(d.nodes[f.node].children), memo, keys)
  {
    var stack := rest + [f];
    assert stack[|stack| - 1] == f && stack[..|stack| - 1] == rest;
  }

  lemma {:induction false} FollowsBuild(d: Design, start: Cache, k: nat, rest: seq<Visit>, f: Visit, memo: Memo,
      memo': Memo, keys: set<nat>)
    requires Follows(d, start, k, rest + [f], memo, keys) && f.second && f.node < |d.nodes| == |memo|
    requires |memo'| == |memo| && Done(memo', f.node) && forall x :: x != f.node ==> (Done(memo, x) <==> Done(memo', x))
    ensures Follows(d, start, k + 1, rest, memo', keys + BuiltKeys(d, f.node, keys))
  {
    var stack := rest + [f];
    assert stack[|stack| - 1] == f && stack[..|stack| - 1] == rest;
    DoneSetGrows(memo, memo', f.node);
  }

  // ----- the nets that a walk publishes -----

  /** Node x publishes an expression for the net. */
  ghost predicate PublishedBy(d: Design, x: nat, s: nat) {
    && Inner(d.nodes, x)
    && (s == d.Iso(x) || (d.nodes[x].kind.Table? && d.net.table(d.nodes[x].term).DivMod?
                          && s in IsosOf(d.net, d.siblings(d.nodes[x].term))))
  }

  /** No other node publishes the net of a node. */
  ghost predicate OwnNets(d: Design) {
    forall i: nat, x: nat :: Inner(d.nodes, i) && PublishedBy(d, x, d.Iso(i)) ==> x == i
  }

  /** The nets of the cache come from the start and from the expanded nodes. */
  ghost predicate KeysFrom(d: Design, start: Cache, keys: set<nat>, expanded: seq<nat>) {
    start.Keys <= keys && forall s :: s in keys ==> s in start || exists x :: x in expanded && PublishedBy(d, x, s)
  }

  /** Each node once, and only nodes whose net the start cache did not have. */
  ghost predicate ExpandedOnce(d: Design, start: Cache, expanded: seq<nat>) {
    && (forall i, j :: 0 <= i < j < |expanded| ==> expanded[i] != expanded[j])
    && (forall x :: x in expanded ==> Inner(d.nodes, x) && d.Iso(x) !in start)
  }

  /** The root and all inner children of expanded nodes have a published net. */
  ghost predicate ExpandedEnough(d: Design, keys: set<nat>, expanded: seq<nat>) {
    && (Inner(d.nodes, 0) ==> d.Iso(0) in keys)
    && (forall x, c :: x in expanded && x < |d.nodes| && c in d.nodes[x].children && Inner(d.nodes, c) ==>
         d.Iso(c) in keys)
    && (forall x :: x in expanded && Inner(d.nodes, x) ==> d.Iso(x) in keys)
  }

  /** Bookkeeping of the walk: what is done, expanded and published. */
  ghost predicate Tracked(d: Design, start: Cache, order: seq<nat>, stack: seq<Visit>, memo: Memo, keys: set<nat>,
      expanded: seq<nat>) {
    && |memo| == |d.nodes| && ExpandedOnce(d, start, expanded) && KeysFrom(d, start, keys, expanded)
    && keys == KeysAfter(d, start.Keys, order) && (forall x :: x in order ==> x in expanded)
    && (forall i: nat :: Inner(d.nodes, i) && Done(memo, i) ==> d.Iso(i) in keys)
    && (forall i :: 0 <= i < |stack| && stack[i].second ==> stack[i].node in expanded)
    && (forall x, c :: x in expanded && Done(memo, x) && c in d.nodes[x].children ==> Done(memo, c))
  }

  lemma {:induction false} TrackingStarts(d: Design, start: Cache, stack: seq<Visit>, memo: Memo)
    requires |memo| == |d.nodes| && forall i :: 0 <= i < |memo| ==> memo[i] == None
    requires stack == [Visit(0, false)]
    ensures Tracked(d, start, [], stack, memo, start.Keys, [])
  {
  }

  /** A visit goes away because its node has an expression now. */
  lemma {:induction false} TrackPop(d: Design, start: Cache, order: seq<nat>, rest: seq<Visit>, f: Visit, memo: Memo,
      memo': Memo, keys: set<nat>, expanded: seq<nat>)
    requires Tracked(d, start, order, rest + [f], memo, keys, expanded) && f.node < |d.nodes|
    requires Done(memo, f.node) || f.node !in expanded
    requires |memo'| == |memo| && Done(memo', f.node) && forall x :: x != f.node ==> (Done(memo, x) <==> Done(memo', x))
    requires Inner(d.nodes, f.node) ==> Done(memo, f.node) || d.Iso(f.node) in keys
    ensures Tracked(d, start, order, rest, memo', keys, expanded)
  {
    hide ExpandedOnce, KeysFrom, KeysAfter;
    var stack := rest + [f];
    assert forall i :: 0 <= i < |rest| ==> stack[i] == rest[i];
  }

  lemma {:induction false} TrackExpand(d: Design, start: Cache, order: seq<nat>, rest: seq<Visit>, f: Visit, memo: Memo,
      keys: set<nat>, expanded: seq<nat>)
    requires Tracked(d, start, order, rest + [f], memo, keys, expanded)
    requires Inner(d.nodes, f.node) && d.Iso(f.node) !in keys && f.node !in expanded && !Done(memo, f.node)
    ensures Tracked(d, start, order, rest + [Visit(f.node, true)] + ChildVisits(d.nodes[f.node].children), memo, keys,
      expanded + [f.node])
  {
    hide PublishedBy, KeysAfter;
    var stack, more := rest + [f], expanded + [f.node];
    var after := rest + [Visit(f.node, true)] + ChildVisits(d.nodes[f.node].children);
    assert more[|expanded|] == f.node;
    assert forall x :: x in more <==> x in expanded || x == f.node;
    forall i | 0 <= i < |after| && after[i].second
      ensures after[i].node in more
    {
      if i < |rest| {
        assert stack[i] == rest[i] == after[i];
      }
    }
  }

  lemma {:induction false} TrackBuild(d: Design, start: Cache, order: seq<nat>, rest: seq<Visit>, f: Visit, memo: Memo,
      memo': Memo, keys: set<nat>, expanded: seq<nat>)
    requires Tracked(d, start, order, rest + [f], memo, keys, expanded) && f.second && Inner(d.nodes, f.node)
    requires forall c :: c in d.nodes[f.node].children ==> Done(memo, c)
    requires |memo'| == |memo| && Done(memo', f.node) && forall x :: x != f.node ==> (Done(memo, x) <==> Done(memo', x))
    ensures Tracked(d, start, order + [f.node], rest, memo', keys + BuiltKeys(d, f.node, keys), expanded)
  {
    hide ExpandedOnce, KeysFrom, KeysAfter, IsosOf;
    var stack := rest + [f];
    assert stack[|rest|] == f && f.node in expanded;
    assert forall i :: 0 <= i < |rest| ==> stack[i] == rest[i];
    KeysFromMore(d, start, keys, expanded, f.node);
    KeysAppend(d, start.Keys, order, f.node);
  }

  lemma {:induction false} KeysFromMore(d: Design, start: Cache, keys: set<nat>, expanded: seq<nat>, x: nat)
    requires KeysFrom(d, start, keys, expanded) && Inner(d.nodes, x) && x in expanded
    ensures KeysFrom(d, start, keys + BuiltKeys(d, x, keys), expanded)
  {
    hide IsosOf;
    forall s | s in keys + BuiltKeys(d, x, keys)
      ensures s in start || exists y :: y in expanded && PublishedBy(d, y, s)
    {
      if s !in keys {
        assert PublishedBy(d, x, s);
      }
    }
  }

  lemma {:induction false} KeysAppend(d: Design, keys: set<nat>, order: seq<nat>, x: nat)
    requires x < |d.nodes|
    ensures KeysAfter(d, keys, order + [x]) == KeysAfter(d, keys, order) + BuiltKeys(d, x, KeysAfter(d, keys, order))
  {
    assert (order + [x])[..|order|] == order;
  }

  lemma {:induction false} TrackEnds(d: Design, rank: nat -> nat, start: Cache, order: seq<nat>, memo: Memo,
      keys: set<nat>, expanded: seq<nat>, seen: set<nat>)
    requires Tracked(d, start, order, [], memo, keys, expanded) && Done(memo, 0)
    requires Walking(d.nodes, rank, [], memo, seen) && forall x :: x in expanded ==> x in seen
    ensures ExpandedOnce(d, start, expanded) && KeysFrom(d, start, keys, expanded)
    ensures keys == KeysAfter(d, start.Keys, order) && forall x :: x in order ==> x in expanded
    ensures ExpandedEnough(d, keys, expanded)
  {
    hide ExpandedOnce, KeysFrom, KeysAfter;
    forall x | x in expanded
      ensures Done(memo, x)
    {
      assert x in seen && !HasSecond([], x);
    }
  }

  /** From an empty cache, when no node publishes the net of another, every node is expanded exactly once. */
  lemma {:induction false} AllAreExpanded(d: Design, tables: map<nat, nat>, start: Cache, keys: set<nat>,
      expanded: seq<nat>, i: nat)
    requires GraphOk(d.net, d.nodes, tables) && OwnNets(d) && start == map[] && Inner(d.nodes, i)
    requires KeysFrom(d, start, keys, expanded) && ExpandedEnough(d, keys, expanded)
    ensures i in expanded
    decreases i
  {
    hide PublishedBy, GraphOk;
    if i > 0 {
      var p := FirstParent(d.net, d.nodes, tables, i);
      AllAreExpanded(d, tables, start, keys, expanded, p);
    }
    assert d.Iso(i) in keys;
    var x :| x in expanded && PublishedBy(d, x, d.Iso(i));
  }

  lemma {:induction false} FirstParent(n: Netlist, nodes: Nodes, tables: map<nat, nat>, i: nat) returns (p: nat)
    requires GraphOk(n, nodes, tables) && Inner(nodes, i) && i > 0
    ensures p < i && Inner(nodes, p) && i in nodes[p].children
  {
    assert LinkedAt(nodes, i);
    p := nodes[i].parents[0];
    assert NodeOk(n, nodes, p);
  }

  // ----- the value of the result -----

  /** The variable of the port above a leaf. */
  ghost function NameLeaf(d: Design, env: Env): nat -> bool {
    (c: nat) => c < |d.nodes| && |d.nodes[c].parents| == 1 && Named(d, d.nodes[c].parents[0])
                && Eval(NameExpr(NameOf(d, d.nodes[c].parents[0])), env)
  }

  /** A caller can tell from the graph and the names that there are solutions. */
  ghost predicate Solvable(d: Design) {
    PortsApart(d) && SiblingsDriven(d) && OneNamePerNet(d)
  }

  ghost function NamedNets(d: Design, env: Env): Nets {
    (s: nat) => exists p: nat :: Named(d, p) && d.Iso(p) == s && Eval(NameExpr(NameOf(d, p)), env)
  }

  /** With one name per net the leaves read the values of the nets. */
  lemma {:induction false} NamesAreNets(d: Design, tables: map<nat, nat>, rank: nat -> nat, env: Env)
    requires Ready(d, tables, rank) && OneNamePerNet(d)
    ensures LeavesRead(d, NameLeaf(d, env), NamedNets(d, env)) && ReadsNames(d, NamedNets(d, env), env)
  {
    hide NameExpr, GraphOk;
    forall p: nat | IsPort(d, p)
      ensures |d.nodes[p].children| > 0 ==>
        NameLeaf(d, env)(d.nodes[p].children[0]) == NamedNets(d, env)(d.Iso(p))
    {
      PortOverOwnLeaf(d, tables, p);
      assert Named(d, p);
    }
  }

  lemma {:induction false} PortOverOwnLeaf(d: Design, tables: map<nat, nat>, p: nat)
    requires GraphOk(d.net, d.nodes, tables) && IsPort(d, p)
    ensures |d.nodes[p].children| == 1 && d.nodes[p].children[0] < |d.nodes|
    ensures d.nodes[d.nodes[p].children[0]].parents == [p] && d.nodes[p].term < d.net.count
  {
    assert NodeOk(d.net, d.nodes, p) && OwnsAt(d.nodes, p);
  }

  /** The result has the value of the root when the leaves read the names and the cache agrees with the values. */
  lemma {:induction false} ResultIsValue(d: Design, tables: map<nat, nat>, rank: nat -> nat, leaf: nat -> bool,
      ports: Nets, start: Cache, order: seq<nat>, r: Expr, cache: Cache, env: Env)
    requires Ready(d, tables, rank) && |d.nodes| > 0 && LeavesRead(d, leaf, ports) && PortsApart(d) && SiblingsDriven(d)
    requires CacheAgrees(d, tables, rank, leaf, start, env) && ReadsNames(d, ports, env)
    requires forall nets :: ConvertedAt(d, start, order, r, cache, nets, env)
    ensures Eval(r, env) == Value(d, tables, rank, leaf, 0)
    ensures forall i: nat :: Inner(d.nodes, i) && d.Iso(i) in cache ==>
      Eval(cache[d.Iso(i)], env) == Value(d, tables, rank, leaf, i)
  {
    assert Inner(d.nodes, 0);
    hide Ready, Value, Premise, CacheAgrees;
    SolutionExists(d, tables, rank, leaf, ports, start, order, env);
    assert ConvertedAt(d, start, order, r, cache, Solution(d, tables, rank, leaf, start, env), env);
  }

  /**
   `convert`. The nodes of `order` were built, one after another, those of `expanded` were pushed
   for a second visit; the tables and the rank say that the graph is well formed and acyclic.
   */
  method Convert(h: Mixer, d: Design, start: Cache, ghost tables: map<nat, nat>, ghost rank: nat -> nat)
      returns (r: Option<Expr>, cache: Cache, ghost order: seq<nat>, ghost expanded: seq<nat>)
    requires Ready(d, tables, rank)
    ensures |d.nodes| > 0
    ensures r.None? ==> HasUnnamed(d)
    ensures r.Some? ==> forall nets, env :: ConvertedAt(d, start, order, r.value, cache, nets, env)
    ensures r.Some? && Solvable(d) ==> forall env ::
      CacheAgrees(d, tables, rank, NameLeaf(d, env), start, env) ==>
        Eval(r.value, env) == Value(d, tables, rank, NameLeaf(d, env), 0)
    ensures cache.Keys == KeysAfter(d, start.Keys, order) && forall x :: x in order ==> x in expanded
    ensures ExpandedOnce(d, start, expanded) && KeysFrom(d, start, cache.Keys, expanded)
    ensures r.Some? ==> WalkEnds(d, start.Keys) && ExpandedEnough(d, cache.Keys, expanded)
    ensures r.Some? && start == map[] && OwnNets(d) ==> forall i: nat :: i in expanded <==> Inner(d.nodes, i)
  {
    hide GraphOk, Closed, Ranked, Sound, Walking, TableReady, SiblingsOk, Visitable, Tracked, NodeBuiltAt, BuiltKeys;
    hide KeysAfter, ExpandedOnce, KeysFrom, ExpandedEnough, OwnNets, Solvable, CacheAgrees, ConvertedAt;
    hide Value, NameLeaf, Follows;
    hide Above, FrameOk, WalkEnds, NameExpr, Buildable, WalkAfter, HasUnnamed;
    PortNames(d, tables, rank);
    var memo: Memo := seq(|d.nodes|, (i: nat) => None);
    WalkStarts(d, tables, rank, memo, start);
    var stack := [Visit(0, false)];
    cache, order, expanded := start, [], [];
    ghost var seen: set<nat> := {};
    ghost var turns: nat := 0;
    TrackingStarts(d, start, stack, memo);
    FollowsFromStart(d, start, memo);
    while stack != []
      invariant Walking(d.nodes, rank, stack, memo, seen) && Sound(d, start, order, memo, cache) && |memo| == |d.nodes|
      invariant seen == set x | x in expanded
      invariant Tracked(d, start, order, stack, memo, cache.Keys, expanded)
      invariant Follows(d, start, turns, stack, memo, cache.Keys)
      decreases Ids(|d.nodes|) - seen, |stack|
    {
      var f := stack[|stack| - 1];
      var rest := stack[..|stack| - 1];
      assert stack == rest + [f];
      var x := f.node;
      TopFrame(d.nodes, rank, rest, f, memo, seen);
      ghost var was := memo;
      VisitableInRange(d.nodes, x);
      if !f.second {
        if !Done(memo, x) {
          FirstExpansion(d.nodes, rank, rest, f, memo, seen);
        }
        if !d.nodes[x].kind.Leaf? && d.Iso(x) in cache {
          CachedIsSound(d, start, order, memo, cache, x);
          memo := memo[x := Some(cache[d.Iso(x)])];
        }
        if memo[x].Some? {
          WalkPops(d.nodes, rank, rest, f, was, memo, seen);
          TrackPop(d, start, order, rest, f, was, memo, cache.Keys, expanded);
          FollowsPop(d, start, turns, rest, f, was, memo, cache.Keys);
          stack := rest;
        } else if !d.nodes[x].kind.Leaf? {
          WalkExpands(d.net, d.nodes, tables, rank, rest, f, memo, seen);
          TrackExpand(d, start, order, rest, f, memo, cache.Keys, expanded);
          FollowsExpand(d, start, turns, rest, f, memo, cache.Keys);
          stack := rest + [Visit(x, true)] + ChildVisits(d.nodes[x].children);
          expanded := expanded + [x];
          seen := seen + {x};
        } else {
          var name := VisitLeaf(d, x);
          if name.None? {
            TrackedFacts(d, start, order, stack, memo, cache.Keys, expanded);
            return None, cache, order, expanded;
          }
          ghost var p: nat :| d.nodes[x].parents == [p] && p < |d.nodes| && d.nodes[p].term < |d.varNames| &&
              name.value == NameExpr(d.varNames[d.nodes[p].term]);
          LeafIsSound(d, start, order, memo, cache, x, p);
          memo := memo[x := name];
          WalkPops(d.nodes, rank, rest, f, was, memo, seen);
          TrackPop(d, start, order, rest, f, was, memo, cache.Keys, expanded);
          FollowsPop(d, start, turns, rest, f, was, memo, cache.Keys);
          stack := rest;
        }
      } else {
        ReadyIsBuildable(d, tables, rank, x);
        var children := GatherChildren(memo, d.nodes[x].children);
        var e, cache' := BuildNode(h, d, x, children, cache);
        KeysAreTracked(d, start, order, stack, memo, cache.Keys, expanded);
        BuiltIsSound(d, tables, start, order, memo, cache, x, children, e, cache');
        memo := memo[x := Some(e)];
        WalkPops(d.nodes, rank, rest, f, was, memo, seen);
        TrackBuild(d, start, order, rest, f, was, memo, cache.Keys, expanded);
        FollowsBuild(d, start, turns, rest, f, was, memo, cache.Keys);
        order, cache := order + [x], cache';
        stack := rest;
      }
      turns := turns + 1;
    }
    WalkIsOver(d.nodes, rank, memo, seen);
    FollowsToEnd(d, start, turns, memo, cache.Keys);
    TrackEnds(d, rank, start, order, memo, cache.Keys, expanded, seen);
    r := memo[0];
    ResultIsSound(d, tables, rank, start, order, memo, cache);
    ResultIsRight(d, tables, rank, start, order, r.value, cache);
    EachOnce(d, tables, start, cache.Keys, expanded);
  }

  lemma {:induction false} TrackedFacts(d: Design, start: Cache, order: seq<nat>, stack: seq<Visit>, memo: Memo,
      keys: set<nat>, expanded: seq<nat>)
    requires Tracked(d, start, order, stack, memo, keys, expanded)
    ensures keys == KeysAfter(d, start.Keys, order) && forall x :: x in order ==> x in expanded
    ensures ExpandedOnce(d, start, expanded) && KeysFrom(d, start, keys, expanded)
  {
  }

  lemma {:induction false} KeysAreTracked(d: Design, start: Cache, order: seq<nat>, stack: seq<Visit>, memo: Memo,
      keys: set<nat>, expanded: seq<nat>)
    requires Tracked(d, start, order, stack, memo, keys, expanded)
    ensures keys == KeysAfter(d, start.Keys, order)
  {
  }

  lemma {:induction false} EachOnce(d: Design, tables: map<nat, nat>, start: Cache, keys: set<nat>, expanded: seq<nat>)
    requires GraphOk(d.net, d.nodes, tables) && ExpandedOnce(d, start, expanded)
    requires KeysFrom(d, start, keys, expanded) && ExpandedEnough(d, keys, expanded)
    ensures start == map[] && OwnNets(d) ==> forall i: nat :: i in expanded <==> Inner(d.nodes, i)
  {
    hide GraphOk, KeysFrom, ExpandedEnough;
    if start == map[] && OwnNets(d) {
      forall i: nat
        ensures i in expanded <==> Inner(d.nodes, i)
      {
        if Inner(d.nodes, i) {
          AllAreExpanded(d, tables, start, keys, expanded, i);
        }
      }
    }
  }

  lemma {:induction false} ResultIsRight(d: Design, tables: map<nat, nat>, rank: nat -> nat, start: Cache,
      order: seq<nat>, r: Expr, cache: Cache)
    requires Ready(d, tables, rank) && |d.nodes| > 0
    requires forall nets, env :: ConvertedAt(d, start, order, r, cache, nets, env)
    ensures Solvable(d) ==> forall env ::
      CacheAgrees(d, tables, rank, NameLeaf(d, env), start, env) ==>
        Eval(r, env) == Value(d, tables, rank, NameLeaf(d, env), 0)
  {
    hide Ready, ConvertedAt, CacheAgrees, Value, NameLeaf, PortsApart, SiblingsDriven, OneNamePerNet;
    if Solvable(d) {
      forall env | CacheAgrees(d, tables, rank, NameLeaf(d, env), start, env)
        ensures Eval(r, env) == Value(d, tables, rank, NameLeaf(d, env), 0)
      {
        NamesAreNets(d, tables, rank, env);
        ResultIsValue(d, tables, rank, NameLeaf(d, env), NamedNets(d, env), start, order, r, cache, env);
      }
    }
  }

  lemma {:induction false} VisitableInRange(nodes: Nodes, x: nat)
    requires Visitable(nodes, x)
    ensures x < |nodes|
  {
  }

  lemma {:induction false} PortNames(d: Design, tables: map<nat, nat>, rank: nat -> nat)
    requires Ready(d, tables, rank)
    ensures forall p :: 0 <= p < |d.nodes| && d.nodes[p].kind.Port? ==> d.nodes[p].term < |d.varNames|
    ensures |d.nodes| > 0
  {
    forall p | 0 <= p < |d.nodes| && d.nodes[p].kind.Port?
      ensures d.nodes[p].term < |d.varNames|
    {
      assert NodeOk(d.net, d.nodes, p);
    }
  }

  lemma {:induction false} ResultIsSound(d: Design, tables: map<nat, nat>, rank: nat -> nat, start: Cache,
      order: seq<nat>, memo: Memo, cache: Cache)
    requires Ready(d, tables, rank) && Sound(d, start, order, memo, cache) && Done(memo, 0) && |memo| == |d.nodes|
    ensures |d.nodes| > 0
    ensures forall nets, env :: ConvertedAt(d, start, order, memo[0].value, cache, nets, env)
  {
    assert Inner(d.nodes, 0);
    hide GraphOk, Closed, Ranked, Premise, CacheHolds;
    forall nets, env
      ensures ConvertedAt(d, start, order, memo[0].value, cache, nets, env)
    {
      assert SoundAt(d, start, order, memo, cache, nets, env);
    }
  }
}
