/**
 `normalizeArithmetic`: full-adder truth-table shapes are recognised by masks over three
 atoms and rebuilt as a three-input XOR or as a majority.
 */
module ArithmeticNormalization {
  import opened Options
  import opened BoolExprs

  datatype Literal = Literal(atom: Expr, positive: bool)

  datatype Mask = Mask(seen: bv8, positive: bv8)

  function LitVal(l: Literal, env: Env): bool {
    Eval(l.atom, env) == l.positive
  }

  ghost predicate AnyTerm(terms: seq<Expr>, env: Env) {
    exists i :: 0 <= i < |terms| && Eval(terms[i], env)
  }

  ghost predicate AllLits(lits: seq<Literal>, env: Env) {
    forall i :: 0 <= i < |lits| ==> LitVal(lits[i], env)
  }

  function OrTerms(e: Expr): (terms: seq<Expr>)
    ensures forall env :: Eval(e, env) <==> AnyTerm(terms, env)
    ensures forall i :: 0 <= i < |terms| ==> !(terms[i].Bin? && terms[i].op == OR)
  {
    if e.Bin? && e.op == OR then
      var a, b := OrTerms(e.left), OrTerms(e.right);
      AnyTermConcat(a, b);
      a + b
    else
      assert [e][0] == e;
      [e]
  }

  lemma {:induction false} AnyTermConcat(a: seq<Expr>, b: seq<Expr>)
    ensures forall env :: AnyTerm(a + b, env) <==> AnyTerm(a, env) || AnyTerm(b, env)
  {
    forall env | AnyTerm(a, env) || AnyTerm(b, env)
      ensures AnyTerm(a + b, env)
    {
      if AnyTerm(a, env) {
        var i :| 0 <= i < |a| && Eval(a[i], env);
        assert (a + b)[i] == a[i];
      } else {
        var i :| 0 <= i < |b| && Eval(b[i], env);
        assert (a + b)[|a| + i] == b[i];
      }
    }
  }

  lemma {:induction false} AllLitsConcat(a: seq<Literal>, b: seq<Literal>)
    ensures forall env :: AllLits(a + b, env) <==> AllLits(a, env) && AllLits(b, env)
  {
    forall env | AllLits(a + b, env)
      ensures AllLits(a, env) && AllLits(b, env)
    {
      assert forall i :: 0 <= i < |a| ==> (a + b)[i] == a[i];
      assert forall i :: 0 <= i < |b| ==> (a + b)[|a| + i] == b[i];
    }
  }

  lemma {:induction false} AllLitsSingle(lit: Literal)
    ensures forall env :: AllLits([lit], env) <==> LitVal(lit, env)
  {
    forall env
      ensures AllLits([lit], env) <==> LitVal(lit, env)
    {
      assert [lit][0] == lit;
    }
  }

  function AndLiterals(e: Expr): (lits: seq<Literal>)
    ensures forall env :: Eval(e, env) <==> AllLits(lits, env)
    ensures |lits| > 0
    ensures forall i :: 0 <= i < |lits| && lits[i].positive ==>
      !lits[i].atom.Not? && !(lits[i].atom.Bin? && lits[i].atom.op == AND)
  {
    match e
    case Bin(AND, l, r) =>
      var a, b := AndLiterals(l), AndLiterals(r);
      AllLitsConcat(a, b);
      a + b
    case Not(a) =>
      AllLitsSingle(Literal(a, false));
      [Literal(a, false)]
    case _ =>
      AllLitsSingle(Literal(e, true));
      [Literal(e, true)]
  }

  /** What a mask says about the values of the three atoms. */
  predicate Holds(m: Mask, x: bool, y: bool, z: bool) {
    && (m.seen & 1 != 0 ==> x == (m.positive & 1 != 0))
    && (m.seen & 2 != 0 ==> y == (m.positive & 2 != 0))
    && (m.seen & 4 != 0 ==> z == (m.positive & 4 != 0))
  }

  ghost predicate MaskMeans(m: Mask, lits: seq<Literal>, atoms: (Expr, Expr, Expr)) {
    forall env ::
      Holds(m, Eval(atoms.0, env), Eval(atoms.1, env), Eval(atoms.2, env)) <==> AllLits(lits, env)
  }

  function BitOf(atom: Expr, atoms: (Expr, Expr, Expr)): bv8 {
    if atoms.0 == atom then 1 else if atoms.1 == atom then 2 else if atoms.2 == atom then 4 else 0
  }

  function WithLiteral(m: Mask, bit: bv8, positive: bool): Mask {
    Mask(m.seen | bit, if positive then m.positive | bit else m.positive)
  }

  /** Setting one more bit of a mask adds exactly one literal to what it says. */
  lemma {:induction false} SetBit(m: Mask, bit: bv8, positive: bool, x: bool, y: bool, z: bool)
    requires bit == 1 || bit == 2 || bit == 4
    requires m.seen & bit == 0 && m.positive & bit == 0
    ensures var v := if bit == 1 then x else if bit == 2 then y else z;
      Holds(WithLiteral(m, bit, positive), x, y, z) <==> Holds(m, x, y, z) && v == positive
  {
  }

  lemma {:induction false} MaskStep(m: Mask, lits: seq<Literal>, lit: Literal, atoms: (Expr, Expr, Expr))
    requires MaskMeans(m, lits, atoms)
    requires BitOf(lit.atom, atoms) != 0
    requires m.seen & BitOf(lit.atom, atoms) == 0 && m.positive & BitOf(lit.atom, atoms) == 0
    ensures MaskMeans(WithLiteral(m, BitOf(lit.atom, atoms), lit.positive), lits + [lit], atoms)
  {
    hide Holds;
    var bit := BitOf(lit.atom, atoms);
    AllLitsConcat(lits, [lit]);
    AllLitsSingle(lit);
    forall env
      ensures Holds(WithLiteral(m, bit, lit.positive), Eval(atoms.0, env), Eval(atoms.1, env), Eval(atoms.2, env))
          <==> AllLits(lits + [lit], env)
    {
      SetBit(m, bit, lit.positive, Eval(atoms.0, env), Eval(atoms.1, env), Eval(atoms.2, env));
    }
  }

  lemma {:induction false} PositiveWithinSeen(m: Mask, bit: bv8, positive: bool)
    requires m.positive & !m.seen == 0
    ensures m.seen & bit == 0 ==> m.positive & bit == 0
    ensures var m' := WithLiteral(m, bit, positive); m'.positive & !m'.seen == 0
  {
  }

  /** The mask that literals add up to, unless one names another atom or an atom that was seen. */
  function MaskFrom(lits: seq<Literal>, atoms: (Expr, Expr, Expr), m: Mask): Option<Mask> {
    if lits == [] then if m.seen == 0 then None else Some(m)
    else
      var bit := BitOf(lits[0].atom, atoms);
      if bit == 0 || m.seen & bit != 0 then None
      else MaskFrom(lits[1..], atoms, WithLiteral(m, bit, lits[0].positive))
  }

  /** A mask says what its literals say. */
  lemma {:induction false} MaskFromMeans(lits: seq<Literal>, atoms: (Expr, Expr, Expr), m: Mask, before: seq<Literal>)
    requires MaskMeans(m, before, atoms) && m.positive & !m.seen == 0
    ensures MaskFrom(lits, atoms, m).Some? ==> MaskMeans(MaskFrom(lits, atoms, m).value, before + lits, atoms)
    decreases |lits|
  {
    hide MaskMeans;
    if lits == [] {
      assert before + lits == before;
    } else {
      var bit := BitOf(lits[0].atom, atoms);
      if bit != 0 && m.seen & bit == 0 {
        PositiveWithinSeen(m, bit, lits[0].positive);
        MaskStep(m, before, lits[0], atoms);
        MaskFromMeans(lits[1..], atoms, WithLiteral(m, bit, lits[0].positive), before + [lits[0]]);
        assert (before + [lits[0]]) + lits[1..] == before + lits;
      }
    }
  }

  lemma {:induction false} EmptyMask(atoms: (Expr, Expr, Expr))
    ensures MaskMeans(Mask(0, 0), [], atoms)
  {
  }

  /** The mask of a term, unless it mentions another atom or the same atom twice. */
  method BuildMask(lits: seq<Literal>, atoms: (Expr, Expr, Expr)) returns (result: Option<Mask>)
    ensures result == MaskFrom(lits, atoms, Mask(0, 0))
  {
    var m := Mask(0, 0);
    assert lits[0..] == lits;
    for i := 0 to |lits|
      invariant MaskFrom(lits, atoms, Mask(0, 0)) == MaskFrom(lits[i..], atoms, m)
    {
      var lit := lits[i];
      assert lits[i..][0] == lit && lits[i..][1..] == lits[i + 1..];
      var bit := BitOf(lit.atom, atoms);
      if bit == 0 {
        return None;
      }
      if m.seen & bit != 0 {
        return None;
      }
      m := WithLiteral(m, bit, lit.positive);
    }
    result := if m.seen == 0 then None else Some(m);
  }

  ghost predicate AnyMask(masks: seq<Mask>, x: bool, y: bool, z: bool) {
    exists m :: m in masks && Holds(m, x, y, z)
  }

  const XOR_MASKS := multiset{Mask(7, 1), Mask(7, 2), Mask(7, 4), Mask(7, 7)}
  const CARRY_MINTERMS := multiset{Mask(7, 3), Mask(7, 5), Mask(7, 6), Mask(7, 7)}
  const CARRY_MINIMIZED := multiset{Mask(3, 3), Mask(5, 5), Mask(6, 6)}

  /** The masks of the sum output say exactly odd parity. */
  lemma {:induction false} XorMasksSayParity(masks: seq<Mask>, x: bool, y: bool, z: bool)
    requires multiset(masks) == XOR_MASKS
    ensures AnyMask(masks, x, y, z) <==> ((x != y) != z)
  {
    assert forall m :: m in masks <==> m in multiset(masks);
    assert Holds(Mask(7, 1), x, y, z) <==> x && !y && !z;
    assert Holds(Mask(7, 2), x, y, z) <==> !x && y && !z;
    assert Holds(Mask(7, 4), x, y, z) <==> !x && !y && z;
    assert Holds(Mask(7, 7), x, y, z) <==> x && y && z;
    assert forall m :: m in masks <==> m == Mask(7, 1) || m == Mask(7, 2) || m == Mask(7, 4) || m == Mask(7, 7);
  }

  /** The masks of the carry output, in full or minimised form, say majority. */
  lemma {:induction false} CarryMasksSayMajority(masks: seq<Mask>, x: bool, y: bool, z: bool)
    requires multiset(masks) == CARRY_MINTERMS || multiset(masks) == CARRY_MINIMIZED
    ensures AnyMask(masks, x, y, z) <==> ((x && y) || (z && (x != y)))
  {
    assert forall m :: m in masks <==> m in multiset(masks);
    if multiset(masks) == CARRY_MINTERMS {
      assert Holds(Mask(7, 3), x, y, z) <==> x && y && !z;
      assert Holds(Mask(7, 5), x, y, z) <==> x && !y && z;
      assert Holds(Mask(7, 6), x, y, z) <==> !x && y && z;
      assert Holds(Mask(7, 7), x, y, z) <==> x && y && z;
      assert forall m :: m in masks <==> m == Mask(7, 3) || m == Mask(7, 5) || m == Mask(7, 6) || m == Mask(7, 7);
    } else {
      assert Holds(Mask(3, 3), x, y, z) <==> x && y;
      assert Holds(Mask(5, 5), x, y, z) <==> x && z;
      assert Holds(Mask(6, 6), x, y, z) <==> y && z;
      assert forall m :: m in masks <==> m == Mask(3, 3) || m == Mask(5, 5) || m == Mask(6, 6);
    }
  }

  /** The three atoms in the structural order. */
  function Sort3(h: Mixer, s: seq<Expr>): (t: (Expr, Expr, Expr))
    requires |s| == 3
    ensures multiset{t.0, t.1, t.2} == multiset(s)
    ensures !Less(h, t.1, t.0)
  {
    assert s == [s[0], s[1], s[2]];
    var (a, b) := if Less(h, s[1], s[0]) then (s[1], s[0]) else (s[0], s[1]);
    LessTotal(h, s[0], s[1]);
    if Less(h, s[2], a) then
      LessTotal(h, s[2], a);
      (s[2], a, b)
    else if Less(h, s[2], b) then (a, s[2], b)
    else (a, b, s[2])
  }

  ghost predicate MasksMeanTerms(masks: seq<Mask>, terms: seq<Expr>, atoms: (Expr, Expr, Expr)) {
    && |masks| == |terms|
    && forall i :: 0 <= i < |terms| ==> MaskMeans(masks[i], AndLiterals(terms[i]), atoms)
  }

  lemma {:induction false} MasksDecide(masks: seq<Mask>, terms: seq<Expr>, atoms: (Expr, Expr, Expr), env: Env)
    requires MasksMeanTerms(masks, terms, atoms)
    ensures AnyTerm(terms, env) <==> AnyMask(masks, Eval(atoms.0, env), Eval(atoms.1, env), Eval(atoms.2, env))
  {
    var x, y, z := Eval(atoms.0, env), Eval(atoms.1, env), Eval(atoms.2, env);
    if AnyTerm(terms, env) {
      var i :| 0 <= i < |terms| && Eval(terms[i], env);
      assert MaskMeans(masks[i], AndLiterals(terms[i]), atoms);
      assert masks[i] in masks && Holds(masks[i], x, y, z);
    }
    if AnyMask(masks, x, y, z) {
      var m :| m in masks && Holds(m, x, y, z);
      var i :| 0 <= i < |masks| && masks[i] == m;
      assert MaskMeans(masks[i], AndLiterals(terms[i]), atoms);
      assert Eval(terms[i], env);
    }
  }

  /** The masks of all terms, if every term has at most three literals and a mask. */
  function MasksFrom(terms: seq<Expr>, atoms: (Expr, Expr, Expr)): Option<seq<Mask>> {
    if terms == [] then Some([])
    else
      var lits := AndLiterals(terms[0]);
      var mask, rest := MaskFrom(lits, atoms, Mask(0, 0)), MasksFrom(terms[1..], atoms);
      if |lits| > 3 || mask.None? || rest.None? then None else Some([mask.value] + rest.value)
  }

  /** Three-input XOR for the masks of a sum, majority for the masks of a carry. */
  function Replacement(h: Mixer, e: Expr, masks: seq<Mask>, atoms: (Expr, Expr, Expr)): Expr {
    var propagate := MkXor(h, atoms.0, atoms.1);
    if multiset(masks) == XOR_MASKS then MkXor(h, propagate, atoms.2)
    else if multiset(masks) == CARRY_MINTERMS || multiset(masks) == CARRY_MINIMIZED
    then MkOr(h, MkAnd(h, atoms.0, atoms.1), MkAnd(h, atoms.2, propagate))
    else e
  }

  /** The result of matching a disjunction against the full-adder patterns. */
  function Rewritten(h: Mixer, e: Expr): Expr {
    var terms := OrTerms(e);
    var atoms := AllAtoms(terms, []);
    if (|terms| != 3 && |terms| != 4) || |atoms| != 3 then e
    else
      var masks := MasksFrom(terms, Sort3(h, atoms));
      if masks.None? then e else Replacement(h, e, masks.value, Sort3(h, atoms))
  }

  ghost predicate MasksSoFar(terms: seq<Expr>, atoms: (Expr, Expr, Expr), masks: seq<Mask>, i: nat)
    requires i <= |terms|
  {
    var rest := MasksFrom(terms[i..], atoms);
    MasksFrom(terms, atoms) == if rest.None? then None else Some(masks + rest.value)
  }

  lemma {:induction false} MasksStep(terms: seq<Expr>, atoms: (Expr, Expr, Expr), masks: seq<Mask>, i: nat)
    requires i < |terms| && MasksSoFar(terms, atoms, masks, i)
    ensures var mask := MaskFrom(AndLiterals(terms[i]), atoms, Mask(0, 0));
      if |AndLiterals(terms[i])| > 3 || mask.None? then MasksFrom(terms, atoms).None?
          else MasksSoFar(terms, atoms, masks + [mask.value], i + 1)
  {
    assert terms[i..][0] == terms[i] && terms[i..][1..] == terms[i + 1..];
    var mask, rest := MaskFrom(AndLiterals(terms[i]), atoms, Mask(0, 0)), MasksFrom(terms[i + 1..], atoms);
    if mask.Some? && rest.Some? {
      assert masks + ([mask.value] + rest.value) == (masks + [mask.value]) + rest.value;
    }
  }

  /** `rewriteArithmeticPattern`. */
  method RewritePattern(h: Mixer, e: Expr) returns (r: Expr)
    ensures r == Rewritten(h, e)
  {
    hide MasksFrom, MaskFrom, AllAtoms;
    var terms := OrTerms(e);
    if |terms| != 3 && |terms| != 4 {
      return e;
    }
    var atomList := UniqueAtoms(terms);
    if |atomList| != 3 {
      return e;
    }
    var atoms := Sort3(h, atomList);
    var masks := BuildMasks(terms, atoms);
    if masks.None? {
      return e;
    }
    var propagate := MkXor(h, atoms.0, atoms.1);
    if multiset(masks.value) == XOR_MASKS {
      return MkXor(h, propagate, atoms.2);
    }
    if multiset(masks.value) == CARRY_MINTERMS || multiset(masks.value) == CARRY_MINIMIZED {
      return MkOr(h, MkAnd(h, atoms.0, atoms.1), MkAnd(h, atoms.2, propagate));
    }
    r := e;
  }

  method BuildMasks(terms: seq<Expr>, atoms: (Expr, Expr, Expr)) returns (result: Option<seq<Mask>>)
    ensures result == MasksFrom(terms, atoms)
  {
    hide MaskFrom, MasksSoFar;
    var masks: seq<Mask> := [];
    MasksStart(terms, atoms);
    for i := 0 to |terms|
      invariant MasksSoFar(terms, atoms, masks, i)
    {
      var lits := AndLiterals(terms[i]);
      MasksStep(terms, atoms, masks, i);
      if |lits| > 3 {
        return None;
      }
      var mask := BuildMask(lits, atoms);
      if mask.None? {
        return None;
      }
      masks := masks + [mask.value];
    }
    MasksEnd(terms, atoms, masks);
    result := Some(masks);
  }

  lemma {:induction false} MasksStart(terms: seq<Expr>, atoms: (Expr, Expr, Expr))
    ensures MasksSoFar(terms, atoms, [], 0)
  {
    assert terms[0..] == terms;
    var all := MasksFrom(terms, atoms);
    assert all.Some? ==> [] + all.value == all.value;
  }

  lemma {:induction false} MasksEnd(terms: seq<Expr>, atoms: (Expr, Expr, Expr), masks: seq<Mask>)
    requires MasksSoFar(terms, atoms, masks, |terms|)
    ensures MasksFrom(terms, atoms) == Some(masks)
  {
    assert terms[|terms|..] == [] && masks + [] == masks;
  }

  function AtomsFrom(lits: seq<Literal>, atoms: seq<Expr>): seq<Expr> {
    if lits == [] then atoms
    else AtomsFrom(lits[1..], if lits[0].atom in atoms then atoms else atoms + [lits[0].atom])
  }

  function AllAtoms(terms: seq<Expr>, atoms: seq<Expr>): seq<Expr> {
    if terms == [] then atoms else AllAtoms(terms[1..], AtomsFrom(AndLiterals(terms[0]), atoms))
  }

  /** The atoms of all terms in the order of first occurrence. */
  method UniqueAtoms(terms: seq<Expr>) returns (atoms: seq<Expr>)
    ensures atoms == AllAtoms(terms, [])
    ensures forall i, j :: 0 <= i < j < |atoms| ==> atoms[i] != atoms[j]
    ensures forall a :: a in atoms <==> exists t :: 0 <= t < |terms| && Mentions(terms[t], a)
  {
    atoms := [];
    assert terms[0..] == terms;
    for t := 0 to |terms|
      invariant AllAtoms(terms, []) == AllAtoms(terms[t..], atoms)
      invariant forall i, j :: 0 <= i < j < |atoms| ==> atoms[i] != atoms[j]
      invariant forall a :: a in atoms <==> exists u :: 0 <= u < t && Mentions(terms[u], a)
    {
      var lits := AndLiterals(terms[t]);
      ghost var before := atoms;
      assert terms[t..][0] == terms[t] && terms[t..][1..] == terms[t + 1..];
      assert lits[0..] == lits;
      for k := 0 to |lits|
        invariant AtomsFrom(lits, before) == AtomsFrom(lits[k..], atoms)
        invariant forall i, j :: 0 <= i < j < |atoms| ==> atoms[i] != atoms[j]
        invariant forall a :: a in atoms <==> a in before || exists q :: 0 <= q < k && lits[q].atom == a
      {
        assert lits[k..][0] == lits[k] && lits[k..][1..] == lits[k + 1..];
        if lits[k].atom !in atoms {
          atoms := atoms + [lits[k].atom];
        }
      }
      assert forall a :: Mentions(terms[t], a) <==> exists q :: 0 <= q < |lits| && lits[q].atom == a;
      assert forall a :: (exists u :: 0 <= u < t + 1 && Mentions(terms[u], a)) <==>
          (exists u :: 0 <= u < t && Mentions(terms[u], a)) || Mentions(terms[t], a);
    }
  }

  ghost predicate Mentions(term: Expr, a: Expr) {
    var lits := AndLiterals(term);
    exists q :: 0 <= q < |lits| && lits[q].atom == a
  }

  /** Rebuilding bottom-up, with every disjunction matched after its children. */
  function Normalized(h: Mixer, e: Expr): Expr {
    match e
    case Var(_) => e
    case Not(a) => MkNot(Normalized(h, a))
    case Bin(op, a, b) =>
      var r := MkGate(h, op, Normalized(h, a), Normalized(h, b));
      if op == OR then Rewritten(h, r) else r
  }

  ghost predicate MemoExact(h: Mixer, memo: map<Expr, Expr>) {
    forall k :: k in memo ==> memo[k] == Normalized(h, k)
  }

  /** `normalizeArithmeticImpl`, for any memo of earlier results. */
  method Normalize(h: Mixer, e: Expr, memo: map<Expr, Expr>) returns (r: Expr, memo': map<Expr, Expr>)
    requires MemoExact(h, memo)
    ensures MemoExact(h, memo')
    ensures forall k :: k in memo ==> k in memo' && memo'[k] == memo[k]
    ensures e in memo' && r == Normalized(h, e)
    decreases e
  {
    hide Rewritten, MkGate, MkNot;
    memo' := memo;
    if e in memo {
      return memo[e], memo;
    }
    match e {
      case Var(_) => r := e;
      case Not(a) =>
        var x;
        x, memo' := Normalize(h, a, memo');
        r := MkNot(x);
      case Bin(op, a, b) =>
        var x, y;
        x, memo' := Normalize(h, a, memo');
        y, memo' := Normalize(h, b, memo');
        r := MkGate(h, op, x, y);
        if op == OR {
          r := RewritePattern(h, r);
        }
    }
    if e !in memo' {
      memo' := memo'[e := r];
    }
  }

  lemma {:induction false} ReplacementMeans(h: Mixer, e: Expr, masks: seq<Mask>, atoms: (Expr, Expr, Expr), env: Env)
    requires MasksMeanTerms(masks, OrTerms(e), atoms)
    ensures Eval(Replacement(h, e, masks, atoms), env) == Eval(e, env)
  {
    hide MasksMeanTerms, AnyMask, AnyTerm, MkXor, MkOr, MkAnd;
    MasksDecide(masks, OrTerms(e), atoms, env);
    if multiset(masks) == XOR_MASKS {
      XorMasksSayParity(masks, Eval(atoms.0, env), Eval(atoms.1, env), Eval(atoms.2, env));
    } else if multiset(masks) == CARRY_MINTERMS || multiset(masks) == CARRY_MINIMIZED {
      CarryMasksSayMajority(masks, Eval(atoms.0, env), Eval(atoms.1, env), Eval(atoms.2, env));
    }
  }

  lemma {:induction false} MasksFromMean(terms: seq<Expr>, atoms: (Expr, Expr, Expr))
    ensures MasksFrom(terms, atoms).Some? ==> MasksMeanTerms(MasksFrom(terms, atoms).value, terms, atoms)
  {
    hide MaskMeans;
    if terms != [] && MasksFrom(terms, atoms).Some? {
      MasksFromMean(terms[1..], atoms);
      EmptyMask(atoms);
      MaskFromMeans(AndLiterals(terms[0]), atoms, Mask(0, 0), []);
      assert [] + AndLiterals(terms[0]) == AndLiterals(terms[0]);
    }
  }

  /** Each mask-matched rewrite keeps the value in every environment. */
  lemma {:induction false} RewrittenMeans(h: Mixer, e: Expr, env: Env)
    ensures Eval(Rewritten(h, e), env) == Eval(e, env)
  {
    hide MasksMeanTerms, MasksFrom, Replacement, AllAtoms;
    var terms := OrTerms(e);
    var atoms := AllAtoms(terms, []);
    if (|terms| == 3 || |terms| == 4) && |atoms| == 3 {
      MasksFromMean(terms, Sort3(h, atoms));
      var masks := MasksFrom(terms, Sort3(h, atoms));
      if masks.Some? {
        ReplacementMeans(h, e, masks.value, Sort3(h, atoms), env);
      }
    }
  }

  /** Normalisation keeps the value in every environment. */
  lemma {:induction false} NormalizedMeans(h: Mixer, e: Expr, env: Env)
    ensures Eval(Normalized(h, e), env) == Eval(e, env)
  {
    hide Rewritten, MkGate, MkNot;
    match e
    case Var(_) =>
    case Not(a) => NormalizedMeans(h, a, env);
    case Bin(op, a, b) =>
      NormalizedMeans(h, a, env);
      NormalizedMeans(h, b, env);
      RewrittenMeans(h, MkGate(h, op, Normalized(h, a), Normalized(h, b)), env);
  }
}
