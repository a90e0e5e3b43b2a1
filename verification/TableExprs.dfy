/** Expressions for truth tables: folded gates, table select, the DNF of explicit rows and the divider. */
module TableExprs {
  import opened BoolExprs
  import opened TruthTables
  import D = Divider

  ghost function Args(children: seq<Expr>, env: Env): (r: seq<bool>)
    ensures |r| == |children| && forall i :: 0 <= i < |r| ==> r[i] == Eval(children[i], env)
  {
    seq(|children|, i requires 0 <= i < |children| => Eval(children[i], env))
  }

  /** The expression has the value of the table over the children, in every environment. */
  ghost predicate Computes(e: Expr, t: TruthTable, children: seq<Expr>) {
    |children| == Arity(t) && forall env :: Eval(e, env) == TableValue(t, Args(children, env))
  }

  // ----- gates -----

  function BaseGate(gate: Gate): Gate {
    match gate
    case GateAnd => GateAnd
    case GateNand => GateAnd
    case GateOr => GateOr
    case GateNor => GateOr
    case GateXor => GateXor
    case GateXnor => GateXor
  }

  function GateOp(gate: Gate): BinOp {
    match BaseGate(gate)
    case GateAnd => AND
    case GateOr => OR
    case _ => XOR
  }

  lemma {:induction false} GateStep(gate: Gate, args: seq<bool>, b: bool)
    requires gate == BaseGate(gate) && args != []
    ensures GateValue(gate, args + [b]) == Apply(GateOp(gate), GateValue(gate, args), b)
  {
    var more := args + [b];
    assert more[..|args|] == args && more[|args|] == b;
    assert forall i :: 0 <= i < |args| ==> more[i] == args[i];
  }

  lemma {:induction false} GateOne(gate: Gate, b: bool)
    requires gate == BaseGate(gate)
    ensures GateValue(gate, [b]) == b
  {
    assert [b][..0] == [];
    assert Odd([b]) == (b != Odd([b][..0])) && !Odd([]);
    assert [b][0] == b;
  }

  lemma {:induction false} GateNegates(gate: Gate, args: seq<bool>)
    ensures GateValue(gate, args) == if gate == BaseGate(gate) then GateValue(BaseGate(gate), args)
      else !GateValue(BaseGate(gate), args)
  {
  }

  method BuildGate(h: Mixer, gate: Gate, children: seq<Expr>) returns (e: Expr)
    requires children != []
    ensures Computes(e, Generic(|children|, gate), children)
  {
    e := children[0];
    var base := BaseGate(gate);
    forall env
      ensures Eval(e, env) == GateValue(base, Args(children, env)[..1])
    {
      assert Args(children, env)[..1] == [Eval(children[0], env)];
      GateOne(base, Eval(children[0], env));
    }
    for j := 1 to |children|
      invariant forall env :: Eval(e, env) == GateValue(base, Args(children, env)[..j])
    {
      ghost var was := e;
      e := MkGate(h, GateOp(gate), e, children[j]);
      forall env
        ensures Eval(e, env) == GateValue(base, Args(children, env)[..j + 1])
      {
        var args := Args(children, env);
        assert args[..j + 1] == args[..j] + [args[j]];
        GateStep(base, args[..j], args[j]);
        assert Eval(was, env) == GateValue(base, args[..j]);
      }
    }
    ghost var folded := e;
    if gate != base {
      e := MkNot(e);
    }
    forall env
      ensures Eval(e, env) == GateValue(gate, Args(children, env))
    {
      var args := Args(children, env);
      assert args[..|children|] == args;
      GateNegates(gate, args);
      assert Eval(folded, env) == GateValue(base, args);
    }
  }

  // ----- table select -----

  const WORD: int := 0x1_0000_0000_0000_0000
  const MAX_DEPTH: int := 0x1_0000_0000

  /** `x << n`, unbounded. */
  function Shl(x: nat, n: nat): nat {
    if n == 0 then x else 2 * Shl(x, n - 1)
  }

  /** The prefix test of the recursion, in 64-bit arithmetic. */
  predicate Pruned(prefix: nat, remaining: nat, depth: nat) {
    if remaining < 63 then Shl(prefix, remaining) % WORD >= depth else prefix != 0
  }

  /** The prefixes that the recursion can reach. */
  predicate SafePrefix(prefix: nat, remaining: nat) {
    if remaining < 63 then Shl(prefix, remaining) < WORD else prefix <= 1
  }

  lemma {:induction false} Pow2Of62()
    ensures D.Pow2(62) == 0x4000_0000_0000_0000 && D.Pow2(63) == 0x8000_0000_0000_0000
  {
    assert D.Pow2(8) == 256;
    assert D.Pow2(16) == 0x1_0000;
    assert D.Pow2(24) == 0x100_0000;
    assert D.Pow2(32) == 0x1_0000_0000;
    assert D.Pow2(40) == 0x100_0000_0000;
    assert D.Pow2(48) == 0x1_0000_0000_0000;
    assert D.Pow2(56) == 0x100_0000_0000_0000;
  }

  /** Appending one bit to a prefix. */
  lemma {:induction false} ShlAppend(prefix: nat, bit: nat, n: nat)
    requires bit <= 1
    ensures Shl(2 * prefix + bit, n) == Shl(prefix, n + 1) + if bit == 1 then D.Pow2(n) else 0
  {
    if n > 0 {
      ShlAppend(prefix, bit, n - 1);
    }
  }

  lemma {:induction false} ShlBounds(x: nat, n: nat)
    ensures x == 0 ==> Shl(x, n) == 0
    ensures x >= 1 ==> Shl(x, n) >= D.Pow2(n)
    ensures Shl(x, n) >= x
  {
    if n > 0 {
      ShlBounds(x, n - 1);
    }
  }

  /** The 64-bit test never wraps: it prunes exactly the prefixes with no address below the depth. */
  lemma {:induction false} PruningIsExact(prefix: nat, remaining: nat, depth: nat)
    requires SafePrefix(prefix, remaining) && depth < MAX_DEPTH
    ensures Pruned(prefix, remaining, depth) ==> Shl(prefix, remaining) >= depth
    ensures remaining < 63 ==> (Pruned(prefix, remaining, depth) <==> Shl(prefix, remaining) >= depth)
  {
    if remaining >= 63 && prefix != 0 {
      hide Shl, D.Pow2;
      Pow2Of62();
      D.Pow2Monotone(63, remaining);
      ShlBounds(prefix, remaining);
    }
  }

  lemma {:induction false} NextPrefixIsSafe(prefix: nat, remaining: nat, depth: nat, bit: nat)
    requires SafePrefix(prefix, remaining) && depth < MAX_DEPTH && remaining > 0 && !Pruned(prefix, remaining, depth)
    requires bit <= 1
    ensures SafePrefix(2 * prefix + bit, remaining - 1) && 2 * prefix + bit < WORD
  {
    hide Shl, D.Pow2;
    Pow2Of62();
    ShlAppend(prefix, bit, remaining - 1);
    ShlBounds(2 * prefix + bit, remaining - 1);
    if remaining < 63 {
      D.Pow2Monotone(remaining - 1, 62);
    } else if remaining == 63 {
      ShlBounds(prefix, 63);
    }
  }

  lemma {:induction false} AddressHead(b: bool, bits: seq<bool>)
    ensures Address([b] + bits) == (if b then D.Pow2(|bits|) else 0) + Address(bits)
  {
    if bits == [] {
      assert [b] + bits == [b] && [b][..0] == [];
    } else {
      var k := |bits| - 1;
      AddressHead(b, bits[..k]);
      assert ([b] + bits)[..|bits|] == [b] + bits[..k];
      D.Pow2Doubles(k);
    }
  }

  /** The selected lane for addresses that start with a given prefix. */
  ghost predicate Selected(depth: nat, args: seq<bool>, prefix: nat, rest: seq<bool>)
    requires |args| >= depth
  {
    var address := Shl(prefix, |rest|) + Address(rest);
    address < depth && args[depth - 1 - address]
  }

  /** One address bit extends the prefix. */
  lemma {:induction false} SelectedStep(depth: nat, args: seq<bool>, prefix: nat, b: bool, rest: seq<bool>)
    requires |args| >= depth
    ensures Selected(depth, args, prefix, [b] + rest) == Selected(depth, args, 2 * prefix + if b then 1 else 0, rest)
  {
    AddressHead(b, rest);
    ShlAppend(prefix, if b then 1 else 0, |rest|);
  }

  function Choose(h: Mixer, bit: Expr, low: Expr, high: Expr): (e: Expr)
    ensures forall env :: Eval(e, env) == if Eval(bit, env) then Eval(high, env) else Eval(low, env)
  {
    if low == high then low else MkOr(h, MkAnd(h, MkNot(bit), low), MkAnd(h, bit, high))
  }

  lemma {:induction false} LastPrefixFits(depth: nat, prefix: nat)
    requires !Pruned(prefix, 0, depth) && SafePrefix(prefix, 0)
    ensures prefix < depth
  {
    assert Shl(prefix, 0) == prefix;
  }

  /** `buildTableSelectTruthTableExprRecursive`. */
  function TableSelectExpr(h: Mixer, addressSize: nat, depth: nat, children: seq<Expr>, addressIndex: nat, prefix: nat)
      : Expr
    requires |children| == addressSize + depth && addressIndex <= addressSize && depth < MAX_DEPTH
    requires SafePrefix(prefix, addressSize - addressIndex)
    decreases addressSize - addressIndex
  {
    var remaining := addressSize - addressIndex;
    if Pruned(prefix, remaining, depth) then FALSE
    else if addressIndex == addressSize then
      LastPrefixFits(depth, prefix);
      children[depth - 1 - prefix]
    else
      NextPrefixIsSafe(prefix, remaining, depth, 0);
      NextPrefixIsSafe(prefix, remaining, depth, 1);
      var low := TableSelectExpr(h, addressSize, depth, children, addressIndex + 1, (2 * prefix) % WORD);
      var high := TableSelectExpr(h, addressSize, depth, children, addressIndex + 1, (2 * prefix + 1) % WORD);
      Choose(h, children[depth + addressIndex], low, high)
  }

  lemma {:induction false} SelectUnfolds(h: Mixer, addressSize: nat, depth: nat, children: seq<Expr>,
      addressIndex: nat, prefix: nat)
    requires |children| == addressSize + depth && addressIndex < addressSize && depth < MAX_DEPTH
    requires SafePrefix(prefix, addressSize - addressIndex) && !Pruned(prefix, addressSize - addressIndex, depth)
    ensures SafePrefix(2 * prefix, addressSize - addressIndex - 1)
    ensures SafePrefix(2 * prefix + 1, addressSize - addressIndex - 1)
    ensures TableSelectExpr(h, addressSize, depth, children, addressIndex, prefix) ==
            Choose(h, children[depth + addressIndex],
                TableSelectExpr(h, addressSize, depth, children, addressIndex + 1, 2 * prefix),
                   TableSelectExpr(h, addressSize, depth, children, addressIndex + 1, 2 * prefix + 1))
  {
    hide SafePrefix, Pruned, Choose, Shl;
    NextPrefixIsSafe(prefix, addressSize - addressIndex, depth, 0);
    NextPrefixIsSafe(prefix, addressSize - addressIndex, depth, 1);
  }

  lemma {:induction false} SelectEnds(h: Mixer, addressSize: nat, depth: nat, children: seq<Expr>, addressIndex: nat,
      prefix: nat)
    requires |children| == addressSize + depth && addressIndex <= addressSize && depth < MAX_DEPTH
    requires SafePrefix(prefix, addressSize - addressIndex)
    ensures Pruned(prefix, addressSize - addressIndex, depth) ==>
      TableSelectExpr(h, addressSize, depth, children, addressIndex, prefix) == FALSE && forall env :: !Eval(FALSE, env)
    ensures !Pruned(prefix, addressSize - addressIndex, depth) && addressIndex == addressSize ==>
      prefix < depth && TableSelectExpr(h, addressSize, depth, children, addressIndex, prefix) ==
          children[depth - 1 - prefix]
  {
    if !Pruned(prefix, addressSize - addressIndex, depth) && addressIndex == addressSize {
      PruningIsExact(prefix, 0, depth);
    }
  }

  lemma {:induction false} TableSelectMeans(h: Mixer, addressSize: nat, depth: nat, children: seq<Expr>,
      addressIndex: nat, prefix: nat, env: Env)
    requires |children| == addressSize + depth && addressIndex <= addressSize && depth < MAX_DEPTH
    requires SafePrefix(prefix, addressSize - addressIndex)
    ensures Eval(TableSelectExpr(h, addressSize, depth, children, addressIndex, prefix), env) ==
            Selected(depth, Args(children, env), prefix, Args(children, env)[depth + addressIndex..])
    decreases addressSize - addressIndex
  {
    hide SafePrefix, Pruned, Selected, Shl, Choose, TableSelectExpr, Eval;
    var remaining, args := addressSize - addressIndex, Args(children, env);
    SelectEnds(h, addressSize, depth, children, addressIndex, prefix);
    if Pruned(prefix, remaining, depth) {
      PrunedSelectsNothing(depth, args, prefix, remaining, args[depth + addressIndex..]);
    } else if addressIndex == addressSize {
      assert args[depth + addressIndex..] == [];
      LastPrefix(depth, args, prefix);
    } else {
      SelectUnfolds(h, addressSize, depth, children, addressIndex, prefix);
      TableSelectMeans(h, addressSize, depth, children, addressIndex + 1, 2 * prefix, env);
      TableSelectMeans(h, addressSize, depth, children, addressIndex + 1, 2 * prefix + 1, env);
      SelectSplits(depth, addressIndex, children, prefix, env);
    }
  }

  lemma {:induction false} PrunedSelectsNothing(depth: nat, args: seq<bool>, prefix: nat, remaining: nat,
      rest: seq<bool>)
    requires |args| >= depth && |rest| == remaining && Pruned(prefix, remaining, depth)
    requires SafePrefix(prefix, remaining) && depth < MAX_DEPTH
    ensures !Selected(depth, args, prefix, rest)
  {
    PruningIsExact(prefix, remaining, depth);
  }

  lemma {:induction false} LastPrefix(depth: nat, args: seq<bool>, prefix: nat)
    requires |args| >= depth && !Pruned(prefix, 0, depth) && SafePrefix(prefix, 0)
    ensures prefix < depth && Selected(depth, args, prefix, []) == args[depth - 1 - prefix]
  {
    assert Shl(prefix, 0) == prefix;
  }

  lemma {:induction false} SelectSplits(depth: nat, addressIndex: nat, children: seq<Expr>, prefix: nat, env: Env)
    requires depth + addressIndex < |children|
    ensures var args := Args(children, env); var bit := Eval(children[depth + addressIndex], env);
      Selected(depth, args, prefix, args[depth + addressIndex..]) ==
      Selected(depth, args, 2 * prefix + if bit then 1 else 0, args[depth + addressIndex + 1..])
  {
    var args, i := Args(children, env), depth + addressIndex;
    assert args[i..] == [args[i]] + args[i + 1..];
    SelectedStep(depth, args, prefix, args[i], args[i + 1..]);
  }

  /** `buildTableSelectTruthTableExpr`: the addressed lane, or false beyond the depth. */
  lemma {:induction false} TableSelectIsLookup(h: Mixer, addressSize: nat, depth: nat, children: seq<Expr>)
    requires |children| == addressSize + depth && depth < MAX_DEPTH
    ensures SafePrefix(0, addressSize)
    ensures Computes(TableSelectExpr(h, addressSize, depth, children, 0, 0), TableSelect(addressSize, depth), children)
  {
    hide SafePrefix, Selected, TableSelectExpr, TableValue;
    NothingYet(addressSize);
    forall env
      ensures Eval(TableSelectExpr(h, addressSize, depth, children, 0, 0), env) ==
        TableValue(TableSelect(addressSize, depth), Args(children, env))
    {
      TableSelectMeans(h, addressSize, depth, children, 0, 0, env);
      WholeAddress(addressSize, depth, Args(children, env));
    }
  }

  lemma {:induction false} NothingYet(addressSize: nat)
    ensures SafePrefix(0, addressSize)
  {
    ShlBounds(0, addressSize);
  }

  lemma {:induction false} WholeAddress(addressSize: nat, depth: nat, args: seq<bool>)
    requires |args| == addressSize + depth
    ensures Selected(depth, args, 0, args[depth + 0..]) == TableValue(TableSelect(addressSize, depth), args)
  {
    ShlBounds(0, addressSize);
  }
}
