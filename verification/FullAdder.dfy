/**
 Exactly which disjunctions the full-adder patterns recognise: the four minterms of odd parity over
 three atoms, the four minterms of the majority, or its three pairs; in any order of terms and literals.
 */
module FullAdders {
  import opened Options
  import opened BoolExprs
  import opened ArithmeticNormalization
  import opened Simplification

  // ----- the atoms -----

  ghost predicate Distinct<T(!new)>(xs: seq<T>) {
    forall i, j :: 0 <= i < j < |xs| ==> xs[i] != xs[j]
  }

  lemma {:induction false} AtomsFromFacts(lits: seq<Literal>, atoms: seq<Expr>)
    requires Distinct(atoms)
    ensures Distinct(AtomsFrom(lits, atoms))
    ensures forall a :: a in AtomsFrom(lits, atoms) <==> a in atoms || exists l :: l in lits && l.atom == a
  {
    if lits != [] {
      var next := if lits[0].atom in atoms then atoms else atoms + [lits[0].atom];
      AtomsFromFacts(lits[1..], next);
      assert lits == [lits[0]] + lits[1..];
    }
  }

  lemma {:induction false} AllAtomsFacts(terms: seq<Expr>, atoms: seq<Expr>)
    requires Distinct(atoms)
    ensures Distinct(AllAtoms(terms, atoms))
    ensures forall a :: a in AllAtoms(terms, atoms) <==> a in atoms || NamedIn(terms, a)
  {
    if terms != [] {
      var next := AtomsFrom(AndLiterals(terms[0]), atoms);
      AtomsFromFacts(AndLiterals(terms[0]), atoms);
      AllAtomsFacts(terms[1..], next);
      assert terms == [terms[0]] + terms[1..];
      assert forall a :: a in next <==> a in atoms || Names(terms[0], a);
      forall a
        ensures NamedIn(terms, a) <==> Names(terms[0], a) || NamedIn(terms[1..], a)
      {
        if NamedIn(terms, a) {
          var t :| t in terms && Names(t, a);
          assert t == terms[0] || t in terms[1..];
        }
      }
    }
  }

  ghost predicate NamedIn(terms: seq<Expr>, a: Expr) {
    exists t :: t in terms && Names(t, a)
  }

  ghost predicate Names(t: Expr, a: Expr) {
    exists l :: l in AndLiterals(t) && l.atom == a
  }

  // ----- what a mask records -----

  type Triple = (Expr, Expr, Expr)

  predicate OfTriple(t: Triple, a: Expr) { a == t.0 || a == t.1 || a == t.2 }

  ghost predicate Apart(t: Triple) { t.0 != t.1 && t.0 != t.2 && t.1 != t.2 }

  ghost predicate HasAtom(lits: seq<Literal>, a: Expr) {
    exists l :: l in lits && l.atom == a
  }

  /** Different atoms, all of the triple. */
  ghost predicate Clean(lits: seq<Literal>, t: Triple) {
    && (forall l :: l in lits ==> OfTriple(t, l.atom))
    && (forall i, j :: 0 <= i < j < |lits| ==> lits[i].atom != lits[j].atom)
  }

  /** A mask with the bits of the mentioned atoms, and of the positive ones. */
  ghost predicate Encodes(m: Mask, lits: seq<Literal>, t: Triple) {
    && m.seen <= 7 && m.positive <= 7
    && (m.seen & 1 != 0 <==> HasAtom(lits, t.0)) && (m.positive & 1 != 0 <==> Literal(t.0, true) in lits)
    && (m.seen & 2 != 0 <==> HasAtom(lits, t.1)) && (m.positive & 2 != 0 <==> Literal(t.1, true) in lits)
    && (m.seen & 4 != 0 <==> HasAtom(lits, t.2)) && (m.positive & 4 != 0 <==> Literal(t.2, true) in lits)
  }

  lemma {:induction false} BitSet(m: Mask, bit: bv8, positive: bool)
    requires (bit == 1 || bit == 2 || bit == 4) && m.seen <= 7 && m.positive <= 7
    ensures var m' := WithLiteral(m, bit, positive);
      && m'.seen <= 7 && m'.positive <= 7
      && (m'.seen & 1 != 0 <==> m.seen & 1 != 0 || bit == 1)
      && (m'.positive & 1 != 0 <==> m.positive & 1 != 0 || (bit == 1 && positive))
      && (m'.seen & 2 != 0 <==> m.seen & 2 != 0 || bit == 2)
      && (m'.positive & 2 != 0 <==> m.positive & 2 != 0 || (bit == 2 && positive))
      && (m'.seen & 4 != 0 <==> m.seen & 4 != 0 || bit == 4)
      && (m'.positive & 4 != 0 <==> m.positive & 4 != 0 || (bit == 4 && positive))
  {
  }

  lemma {:induction false} EncodesMore(m: Mask, before: seq<Literal>, l: Literal, t: Triple)
    requires Encodes(m, before, t) && Apart(t) && BitOf(l.atom, t) != 0
    ensures Encodes(WithLiteral(m, BitOf(l.atom, t), l.positive), before + [l], t)
    ensures m.seen & BitOf(l.atom, t) != 0 <==> HasAtom(before, l.atom)
  {
    BitSet(m, BitOf(l.atom, t), l.positive);
    hide WithLiteral;
    forall a
      ensures HasAtom(before + [l], a) <==> HasAtom(before, a) || l.atom == a
    {
      if HasAtom(before, a) {
        var x :| x in before && x.atom == a;
        assert x in before + [l];
      }
      assert l in before + [l];
    }
    forall x
      ensures x in before + [l] <==> x in before || x == l
    {
    }
  }

  /** There is a mask exactly for a nonempty clean term, and it records the term's literals. */
  lemma {:induction false} MaskRecords(lits: seq<Literal>, t: Triple, m: Mask, before: seq<Literal>)
    requires Encodes(m, before, t) && Apart(t) && Clean(before, t) && (m.seen == 0 <==> before == [])
    ensures MaskFrom(lits, t, m).Some? <==> Clean(before + lits, t) && before + lits != []
    ensures MaskFrom(lits, t, m).Some? ==> Encodes(MaskFrom(lits, t, m).value, before + lits, t)
    decreases |lits|
  {
    if lits == [] {
      assert before + lits == before;
    } else {
      var l, bit := lits[0], BitOf(lits[0].atom, t);
      var all := before + lits;
      assert all[|before|] == l && l in all;
      if bit != 0 {
        EncodesMore(m, before, l, t);
        if HasAtom(before, l.atom) {
          var x :| x in before && x.atom == l.atom;
          var i :| 0 <= i < |before| && before[i] == x;
          assert all[i] == x;
        } else {
          var next := WithLiteral(m, bit, l.positive);
          assert next.seen != 0;
          assert before + [l] + lits[1..] == all;
          MaskRecords(lits[1..], t, next, before + [l]);
        }
      }
    }
  }

  lemma {:induction false} TermMask(lits: seq<Literal>, t: Triple)
    requires Apart(t)
    ensures MaskFrom(lits, t, Mask(0, 0)).Some? <==> Clean(lits, t) && lits != []
    ensures MaskFrom(lits, t, Mask(0, 0)).Some? ==> Encodes(MaskFrom(lits, t, Mask(0, 0)).value, lits, t)
  {
    assert [] + lits == lits;
    MaskRecords(lits, t, Mask(0, 0), []);
  }

  // ----- the patterns -----

  function Positives(lits: seq<Literal>): nat {
    if lits == [] then 0 else Positives(lits[1..]) + if lits[0].positive then 1 else 0
  }

  /** A minterm over three different atoms of the triple. */
  ghost predicate Minterm(lits: seq<Literal>, t: Triple) { Clean(lits, t) && |lits| == 3 }

  ghost predicate OddMinterm(lits: seq<Literal>, t: Triple) {
    Minterm(lits, t) && (Positives(lits) == 1 || Positives(lits) == 3)
  }

  ghost predicate MajorityMinterm(lits: seq<Literal>, t: Triple) { Minterm(lits, t) && Positives(lits) >= 2 }

  ghost predicate PositivePair(lits: seq<Literal>, t: Triple) { Clean(lits, t) && |lits| == 2 && Positives(lits) == 2 }

  lemma {:induction false} SetOfThree(m: Mask)
    requires m.seen <= 7 && m.positive <= 7
    ensures m.seen & 1 != 0 && m.seen & 2 != 0 && m.seen & 4 != 0 <==> m.seen == 7
    ensures m.positive == 1 <==> m.positive & 1 != 0 && m.positive & 2 == 0 && m.positive & 4 == 0
    ensures m.positive == 2 <==> m.positive & 1 == 0 && m.positive & 2 != 0 && m.positive & 4 == 0
    ensures m.positive == 4 <==> m.positive & 1 == 0 && m.positive & 2 == 0 && m.positive & 4 != 0
    ensures m.positive == 7 <==> m.positive & 1 != 0 && m.positive & 2 != 0 && m.positive & 4 != 0
    ensures m.positive == 3 <==> m.positive & 1 != 0 && m.positive & 2 != 0 && m.positive & 4 == 0
    ensures m.positive == 5 <==> m.positive & 1 != 0 && m.positive & 2 == 0 && m.positive & 4 != 0
    ensures m.positive == 6 <==> m.positive & 1 == 0 && m.positive & 2 != 0 && m.positive & 4 != 0
    ensures m.seen == 3 <==> m.seen & 1 != 0 && m.seen & 2 != 0 && m.seen & 4 == 0
    ensures m.seen == 5 <==> m.seen & 1 != 0 && m.seen & 2 == 0 && m.seen & 4 != 0
    ensures m.seen == 6 <==> m.seen & 1 == 0 && m.seen & 2 != 0 && m.seen & 4 != 0
  {
  }

  lemma {:induction false} ThreeLiterals(lits: seq<Literal>, t: Triple)
    requires Minterm(lits, t) && Apart(t)
    ensures HasAtom(lits, t.0) && HasAtom(lits, t.1) && HasAtom(lits, t.2)
    ensures Positives(lits) == (if Literal(t.0, true) in lits then 1 else 0)
                             + (if Literal(t.1, true) in lits then 1 else 0)
                             + (if Literal(t.2, true) in lits then 1 else 0)
  {
    assert lits == [lits[0], lits[1], lits[2]];
    PositivesOf([lits[0], lits[1], lits[2]]);
    assert lits[0] in lits && lits[1] in lits && lits[2] in lits;
    assert forall l :: l in lits ==> l == lits[0] || l == lits[1] || l == lits[2];
    assert forall l: Literal :: l == Literal(l.atom, true) || l == Literal(l.atom, false);
  }

  lemma {:induction false} PositivesOf(lits: seq<Literal>)
    requires 1 <= |lits| <= 3
    ensures var p := (l: Literal) => if l.positive then 1 else 0;
      Positives(lits) == p(lits[0]) + (if |lits| > 1 then p(lits[1]) else 0) + (if |lits| > 2 then p(lits[2]) else 0)
  {
    if |lits| == 1 {
      assert lits[1..] == [];
    } else {
      PositivesOf(lits[1..]);
    }
  }

  lemma {:induction false} FewerLiterals(lits: seq<Literal>, t: Triple)
    requires Clean(lits, t) && Apart(t) && 0 < |lits| < 3
    ensures !(HasAtom(lits, t.0) && HasAtom(lits, t.1) && HasAtom(lits, t.2))
    ensures Positives(lits) == 2 && |lits| == 2 <==>
      || (Literal(t.0, true) in lits && Literal(t.1, true) in lits && !HasAtom(lits, t.2))
      || (Literal(t.0, true) in lits && Literal(t.2, true) in lits && !HasAtom(lits, t.1))
      || (Literal(t.1, true) in lits && Literal(t.2, true) in lits && !HasAtom(lits, t.0))
  {
    PositivesOf(lits);
    assert forall l: Literal :: l == Literal(l.atom, true) || l == Literal(l.atom, false);
    if |lits| == 1 {
      assert lits == [lits[0]];
      assert forall l :: l in lits <==> l == lits[0];
    } else {
      assert lits == [lits[0], lits[1]];
      assert forall l :: l in lits <==> l == lits[0] || l == lits[1];
    }
  }

  function OddMasks(): set<Mask> { {Mask(7, 1), Mask(7, 2), Mask(7, 4), Mask(7, 7)} }

  function MajorityMasks(): set<Mask> { {Mask(7, 3), Mask(7, 5), Mask(7, 6), Mask(7, 7)} }

  function PairMasks(): set<Mask> { {Mask(3, 3), Mask(5, 5), Mask(6, 6)} }

  /** The masks of the patterns are those of odd minterms, majority minterms and positive pairs. */
  lemma {:induction false} KindOfMask(lits: seq<Literal>, t: Triple, m: Mask)
    requires Apart(t) && Clean(lits, t) && 0 < |lits| <= 3 && Encodes(m, lits, t)
    ensures OddMinterm(lits, t) <==> m in OddMasks()
    ensures MajorityMinterm(lits, t) <==> m in MajorityMasks()
    ensures PositivePair(lits, t) <==> m in PairMasks()
  {
    SetOfThree(m);
    PositiveIsSeen(m, lits, t);
    if |lits| == 3 {
      ThreeLiterals(lits, t);
      hide HasAtom;
    } else {
      FewerLiterals(lits, t);
      hide HasAtom;
    }
  }

  lemma {:induction false} PositiveIsSeen(m: Mask, lits: seq<Literal>, t: Triple)
    requires Encodes(m, lits, t)
    ensures m.positive & 1 != 0 ==> m.seen & 1 != 0
    ensures m.positive & 2 != 0 ==> m.seen & 2 != 0
    ensures m.positive & 4 != 0 ==> m.seen & 4 != 0
  {
  }

  // ----- terms with different literals have different masks -----

  ghost predicate SameLiterals(a: seq<Literal>, b: seq<Literal>) {
    forall l :: l in a <==> l in b
  }

  lemma {:induction false} LiteralOfMask(m: Mask, lits: seq<Literal>, t: Triple, atom: Expr, positive: bool)
    requires Apart(t) && Clean(lits, t) && Encodes(m, lits, t)
    ensures Literal(atom, positive) in lits <==>
      (HasAtom(lits, atom) && (positive <==> Literal(atom, true) in lits))
  {
    if HasAtom(lits, atom) && Literal(atom, true) !in lits {
      var l :| l in lits && l.atom == atom;
      assert l == Literal(atom, l.positive);
    }
    if Literal(atom, false) in lits {
      NotBoth(lits, t, atom);
    }
  }

  lemma {:induction false} NotBoth(lits: seq<Literal>, t: Triple, atom: Expr)
    requires Clean(lits, t) && Literal(atom, false) in lits
    ensures Literal(atom, true) !in lits
  {
    var i :| 0 <= i < |lits| && lits[i] == Literal(atom, false);
    forall j | 0 <= j < |lits|
      ensures lits[j] != Literal(atom, true)
    {
      if j < i {
        assert lits[j].atom != lits[i].atom;
      } else if i < j {
        assert lits[i].atom != lits[j].atom;
      }
    }
  }

  lemma {:induction false} SameMaskSameLiterals(m: Mask, a: seq<Literal>, b: seq<Literal>, t: Triple)
    requires Apart(t) && Clean(a, t) && Clean(b, t) && Encodes(m, a, t) && Encodes(m, b, t)
    ensures SameLiterals(a, b)
  {
    forall l: Literal
      ensures l in a <==> l in b
    {
      assert l == Literal(l.atom, l.positive);
      LiteralOfMask(m, a, t, l.atom, l.positive);
      LiteralOfMask(m, b, t, l.atom, l.positive);
      assert HasAtom(a, l.atom) ==> l.atom == t.0 || l.atom == t.1 || l.atom == t.2;
      assert HasAtom(b, l.atom) ==> l.atom == t.0 || l.atom == t.1 || l.atom == t.2;
    }
  }

  lemma {:induction false} SameLiteralsSameMask(m: Mask, n: Mask, a: seq<Literal>, b: seq<Literal>, t: Triple)
    requires Encodes(m, a, t) && Encodes(n, b, t) && SameLiterals(a, b)
    ensures m == n
  {
    assert forall x :: HasAtom(a, x) <==> HasAtom(b, x);
    SameBits(m, n);
  }

  lemma {:induction false} SameBits(m: Mask, n: Mask)
    requires m.seen <= 7 && m.positive <= 7 && n.seen <= 7 && n.positive <= 7
    requires (m.seen & 1 != 0 <==> n.seen & 1 != 0) && (m.positive & 1 != 0 <==> n.positive & 1 != 0)
    requires (m.seen & 2 != 0 <==> n.seen & 2 != 0) && (m.positive & 2 != 0 <==> n.positive & 2 != 0)
    requires (m.seen & 4 != 0 <==> n.seen & 4 != 0) && (m.positive & 4 != 0 <==> n.positive & 4 != 0)
    ensures m == n
  {
  }

  // ----- whole disjunctions -----

  ghost predicate Varied(terms: seq<Expr>) {
    forall i, j :: 0 <= i < j < |terms| ==> !SameLiterals(AndLiterals(terms[i]), AndLiterals(terms[j]))
  }

  /** The sum output: the four minterms of odd parity. */
  ghost predicate SumTerms(terms: seq<Expr>, t: Triple) {
    |terms| == 4 && Varied(terms) && forall i :: 0 <= i < 4 ==> OddMinterm(AndLiterals(terms[i]), t)
  }

  /** The carry output: the four minterms of the majority, or its three pairs. */
  ghost predicate CarryTerms(terms: seq<Expr>, t: Triple) {
    && Varied(terms)
    && ((|terms| == 4 && forall i :: 0 <= i < 4 ==> MajorityMinterm(AndLiterals(terms[i]), t))
        || (|terms| == 3 && forall i :: 0 <= i < 3 ==> PositivePair(AndLiterals(terms[i]), t)))
  }

  ghost predicate AllEncode(masks: seq<Mask>, terms: seq<Expr>, t: Triple) {
    && |masks| == |terms|
    && forall i :: 0 <= i < |terms| ==>
         Encodes(masks[i], AndLiterals(terms[i]), t) && Clean(AndLiterals(terms[i]), t) && |AndLiterals(terms[i])| <= 3
  }

  ghost predicate AllClean(terms: seq<Expr>, t: Triple) {
    forall i :: 0 <= i < |terms| ==> Clean(AndLiterals(terms[i]), t) && |AndLiterals(terms[i])| <= 3
  }

  lemma {:induction false} MasksRecord(terms: seq<Expr>, t: Triple)
    requires Apart(t)
    ensures MasksFrom(terms, t).Some? <==> AllClean(terms, t)
    ensures MasksFrom(terms, t).Some? ==> AllEncode(MasksFrom(terms, t).value, terms, t)
  {
    hide Clean, Encodes, MaskFrom;
    if terms != [] {
      TermMask(AndLiterals(terms[0]), t);
      MasksRecord(terms[1..], t);
      if AllClean(terms, t) {
        forall i | 0 <= i < |terms[1..]|
          ensures Clean(AndLiterals(terms[1..][i]), t) && |AndLiterals(terms[1..][i])| <= 3
        {
          assert terms[1..][i] == terms[i + 1];
        }
      }
    }
  }

  lemma {:induction false} VariedMasks(masks: seq<Mask>, terms: seq<Expr>, t: Triple)
    requires Apart(t) && AllEncode(masks, terms, t)
    ensures Varied(terms) <==> Distinct(masks)
  {
    hide Clean, Encodes, SameLiterals;
    forall i, j | 0 <= i < j < |terms|
      ensures SameLiterals(AndLiterals(terms[i]), AndLiterals(terms[j])) <==> masks[i] == masks[j]
    {
      if SameLiterals(AndLiterals(terms[i]), AndLiterals(terms[j])) {
        SameLiteralsSameMask(masks[i], masks[j], AndLiterals(terms[i]), AndLiterals(terms[j]), t);
      }
      if masks[i] == masks[j] {
        SameMaskSameLiterals(masks[i], AndLiterals(terms[i]), AndLiterals(terms[j]), t);
      }
    }
  }

  lemma {:induction false} DistinctIsSet(ms: seq<Mask>)
    requires Distinct(ms)
    ensures multiset(ms) == multiset(set m | m in ms) && |set m | m in ms| == |ms|
  {
    if ms != [] {
      var k := |ms| - 1;
      var rest, last := ms[..k], ms[k];
      DistinctIsSet(rest);
      assert ms == rest + [last];
      assert last !in rest;
      assert (set m | m in ms) == (set m | m in rest) + {last};
    }
  }

  lemma {:induction false} CountsTwice(ms: seq<Mask>, i: nat, j: nat)
    requires i < j < |ms| && ms[i] == ms[j]
    ensures multiset(ms)[ms[i]] >= 2
  {
    assert ms == ms[..i] + [ms[i]] + ms[i + 1..j] + [ms[j]] + ms[j + 1..];
  }

  lemma {:induction false} SameSizeSubset(s: set<Mask>, t: set<Mask>)
    requires s <= t && |s| == |t|
    ensures s == t
  {
    if s != t {
      var x :| x in t && x !in s;
      assert s <= t - {x};
      SubsetIsSmaller(s, t - {x});
    }
  }

  lemma {:induction false} SubsetIsSmaller(s: set<Mask>, t: set<Mask>)
    requires s <= t
    ensures |s| <= |t|
  {
    if s != {} {
      var x :| x in s;
      SubsetIsSmaller(s - {x}, t - {x});
    }
  }

  /** As many different masks as a set has, all of it, are the whole set. */
  lemma {:induction false} AllOf(ms: seq<Mask>, all: set<Mask>)
    requires |ms| == |all|
    ensures multiset(ms) == multiset(all) <==> Distinct(ms) && forall m :: m in ms ==> m in all
  {
    var s := set m | m in ms;
    if multiset(ms) == multiset(all) {
      forall m | m in ms
        ensures m in all
      {
        assert m in multiset(ms) && m in multiset(all);
      }
      forall i, j | 0 <= i < j < |ms|
        ensures ms[i] != ms[j]
      {
        if ms[i] == ms[j] {
          CountsTwice(ms, i, j);
        }
      }
    }
    if Distinct(ms) && forall m :: m in ms ==> m in all {
      DistinctIsSet(ms);
      SameSizeSubset(s, all);
    }
  }

  lemma {:induction false} PatternSets()
    ensures XOR_MASKS == multiset(OddMasks()) && |OddMasks()| == 4
    ensures CARRY_MINTERMS == multiset(MajorityMasks()) && |MajorityMasks()| == 4
    ensures CARRY_MINIMIZED == multiset(PairMasks()) && |PairMasks()| == 3
  {
  }

  ghost predicate EachIn(masks: seq<Mask>, all: set<Mask>) {
    forall i :: 0 <= i < |masks| ==> masks[i] in all
  }

  lemma {:induction false} AllOfIndexed(masks: seq<Mask>, all: set<Mask>)
    ensures multiset(masks) == multiset(all) <==> |masks| == |all| && Distinct(masks) && EachIn(masks, all)
  {
    assert |multiset(masks)| == |masks| && |multiset(all)| == |all|;
    if |masks| == |all| {
      AllOf(masks, all);
      assert EachIn(masks, all) <==> forall m :: m in masks ==> m in all;
    }
  }

  /** The masks of the terms are a pattern exactly when the terms are. */
  lemma {:induction false} PatternIff(masks: seq<Mask>, terms: seq<Expr>, t: Triple)
    requires Apart(t) && AllEncode(masks, terms, t)
    requires forall i :: 0 <= i < |terms| ==> AndLiterals(terms[i]) != []
    ensures multiset(masks) == XOR_MASKS <==> SumTerms(terms, t)
    ensures multiset(masks) == CARRY_MINTERMS || multiset(masks) == CARRY_MINIMIZED <==> CarryTerms(terms, t)
  {
    hide Encodes, Clean, OddMinterm, MajorityMinterm, PositivePair, Varied, OddMasks, MajorityMasks, PairMasks;
    hide XOR_MASKS, CARRY_MINTERMS, CARRY_MINIMIZED, Distinct;
    VariedMasks(masks, terms, t);
    PatternSets();
    forall i | 0 <= i < |terms|
      ensures OddMinterm(AndLiterals(terms[i]), t) <==> masks[i] in OddMasks()
      ensures MajorityMinterm(AndLiterals(terms[i]), t) <==> masks[i] in MajorityMasks()
      ensures PositivePair(AndLiterals(terms[i]), t) <==> masks[i] in PairMasks()
    {
      KindOfMask(AndLiterals(terms[i]), t, masks[i]);
    }
    AllOfIndexed(masks, OddMasks());
    AllOfIndexed(masks, MajorityMasks());
    AllOfIndexed(masks, PairMasks());
  }

  // ----- the rewrite -----

  ghost predicate SameAtoms(s: Triple, t: Triple) {
    Apart(s) && forall a :: OfTriple(s, a) <==> OfTriple(t, a)
  }

  lemma {:induction false} SameTriples(terms: seq<Expr>, s: Triple, t: Triple)
    requires SameAtoms(s, t)
    ensures SumTerms(terms, s) <==> SumTerms(terms, t)
    ensures CarryTerms(terms, s) <==> CarryTerms(terms, t)
    ensures AllClean(terms, s) <==> AllClean(terms, t)
  {
    forall lits: seq<Literal>
      ensures Clean(lits, s) <==> Clean(lits, t)
    {
    }
    hide Clean, Varied;
  }

  lemma {:induction false} ThreeAtoms(atoms: seq<Expr>, t: Triple)
    requires Distinct(atoms) && Apart(t) && forall a :: a in atoms <==> OfTriple(t, a)
    ensures |atoms| == 3
  {
    var s := set a | a in atoms;
    assert s == {t.0, t.1, t.2};
    assert |{t.0, t.1, t.2}| == 3;
    ElementCount(atoms);
  }

  lemma {:induction false} ElementCount(atoms: seq<Expr>)
    requires Distinct(atoms)
    ensures |set a | a in atoms| == |atoms|
  {
    if atoms != [] {
      var k := |atoms| - 1;
      var rest, last := atoms[..k], atoms[k];
      ElementCount(rest);
      assert atoms == rest + [last] && last !in rest;
      assert (set a | a in atoms) == (set a | a in rest) + {last};
    }
  }

  /** Sorting three different atoms keeps them. */
  lemma {:induction false} SortedAtoms(h: Mixer, atoms: seq<Expr>)
    requires |atoms| == 3 && Distinct(atoms)
    ensures Apart(Sort3(h, atoms)) && forall a :: a in atoms <==> OfTriple(Sort3(h, atoms), a)
  {
    var s := Sort3(h, atoms);
    assert atoms == [atoms[0], atoms[1], atoms[2]];
    assert multiset{s.0, s.1, s.2} == multiset{atoms[0], atoms[1], atoms[2]};
    hide Sort3, Less;
    SameBag(s, (atoms[0], atoms[1], atoms[2]));
    assert forall a :: a in atoms <==> OfTriple((atoms[0], atoms[1], atoms[2]), a);
  }

  lemma {:induction false} SameBag(s: Triple, t: Triple)
    requires multiset{s.0, s.1, s.2} == multiset{t.0, t.1, t.2} && Apart(t)
    ensures SameAtoms(s, t)
  {
    var bag := multiset{t.0, t.1, t.2};
    assert bag[s.0] <= 1 && bag[s.1] <= 1 && bag[s.2] <= 1;
    forall a
      ensures OfTriple(s, a) <==> OfTriple(t, a)
    {
      assert a in multiset{s.0, s.1, s.2} <==> a in bag;
    }
  }

  /** The terms of a pattern mention exactly the three atoms. */
  lemma {:induction false} PatternAtoms(terms: seq<Expr>, t: Triple)
    requires Apart(t) && (SumTerms(terms, t) || CarryTerms(terms, t))
    ensures forall a :: NamedIn(terms, a) <==> OfTriple(t, a)
    ensures AllClean(terms, t)
  {
    forall i | 0 <= i < |terms|
      ensures Clean(AndLiterals(terms[i]), t) && 0 < |AndLiterals(terms[i])| <= 3
      ensures terms[i] in terms
    {
    }
    forall a | NamedIn(terms, a)
      ensures OfTriple(t, a)
    {
      var x :| x in terms && Names(x, a);
      var i :| 0 <= i < |terms| && terms[i] == x;
    }
    if |AndLiterals(terms[0])| == 3 {
      ThreeLiterals(AndLiterals(terms[0]), t);
      assert Names(terms[0], t.0) && Names(terms[0], t.1) && Names(terms[0], t.2);
    } else {
      PairsCover(terms, t);
    }
  }

  /** Three different pairs leave no atom out. */
  lemma {:induction false} PairsCover(terms: seq<Expr>, t: Triple)
    requires Apart(t) && |terms| == 3 && Varied(terms)
    requires forall i :: 0 <= i < 3 ==> PositivePair(AndLiterals(terms[i]), t)
    ensures forall a :: OfTriple(t, a) ==> NamedIn(terms, a)
  {
    assert terms[0] in terms && terms[1] in terms;
    assert !SameLiterals(AndLiterals(terms[0]), AndLiterals(terms[1]));
    forall a | OfTriple(t, a)
      ensures NamedIn(terms, a)
    {
      if !Names(terms[0], a) && !Names(terms[1], a) {
        PairWithout(AndLiterals(terms[0]), AndLiterals(terms[1]), t, a);
      }
    }
  }

  /** Two pairs that leave out the same atom are the same. */
  lemma {:induction false} PairWithout(x: seq<Literal>, y: seq<Literal>, t: Triple, a: Expr)
    requires Apart(t) && PositivePair(x, t) && PositivePair(y, t) && OfTriple(t, a)
    requires !HasAtom(x, a) && !HasAtom(y, a)
    ensures SameLiterals(x, y)
  {
    FewerLiterals(x, t);
    FewerLiterals(y, t);
    PairIs(x, t);
    PairIs(y, t);
  }

  lemma {:induction false} PairIs(x: seq<Literal>, t: Triple)
    requires Apart(t) && PositivePair(x, t)
    ensures forall l :: l in x <==> l.positive && HasAtom(x, l.atom)
    ensures forall a :: HasAtom(x, a) <==> Literal(a, true) in x
  {
    PositivesOf(x);
    assert x == [x[0], x[1]];
    assert forall l :: l in x <==> l == x[0] || l == x[1];
    assert forall l: Literal :: l == Literal(l.atom, true) || l == Literal(l.atom, false);
  }

  ghost predicate IsParity(h: Mixer, r: Expr, t: Triple) {
    exists s: Triple :: SameAtoms(s, t) && r == MkXor(h, MkXor(h, s.0, s.1), s.2)
  }

  ghost predicate IsMajority(h: Mixer, r: Expr, t: Triple) {
    exists s: Triple :: SameAtoms(s, t) && r == MkOr(h, MkAnd(h, s.0, s.1), MkAnd(h, s.2, MkXor(h, s.0, s.1)))
  }

  lemma {:induction false} PatternRewrites(h: Mixer, e: Expr, t: Triple) returns (s: Triple, masks: seq<Mask>)
    requires Apart(t) && (SumTerms(OrTerms(e), t) || CarryTerms(OrTerms(e), t))
    ensures SameAtoms(s, t) && Rewritten(h, e) == Replacement(h, e, masks, s)
    ensures multiset(masks) == XOR_MASKS <==> SumTerms(OrTerms(e), t)
    ensures multiset(masks) == CARRY_MINTERMS || multiset(masks) == CARRY_MINIMIZED <==> CarryTerms(OrTerms(e), t)
  {
    hide SumTerms, CarryTerms, AllClean, MasksFrom, Replacement, Sort3, AllEncode, Rewritten, NamedIn, AllAtoms;
    hide AndLiterals, OrTerms, OfTriple, XOR_MASKS, CARRY_MINTERMS, CARRY_MINIMIZED;
    var terms := OrTerms(e);
    PatternAtoms(terms, t);
    AllAtomsFacts(terms, []);
    var atoms := AllAtoms(terms, []);
    ThreeAtoms(atoms, t);
    SortedAtoms(h, atoms);
    s := Sort3(h, atoms);
    SameTriples(terms, s, t);
    MasksRecord(terms, s);
    masks := MasksFrom(terms, s).value;
    PatternIff(masks, terms, s);
    TermCount(terms, t);
    RewrittenIs(h, e);
  }

  lemma {:induction false} RewrittenIs(h: Mixer, e: Expr)
    requires var terms := OrTerms(e);
      var atoms := AllAtoms(terms, []);
      (|terms| == 3 || |terms| == 4) && |atoms| == 3 && MasksFrom(terms, Sort3(h, atoms)).Some?
    ensures var s := Sort3(h, AllAtoms(OrTerms(e), []));
      Rewritten(h, e) == Replacement(h, e, MasksFrom(OrTerms(e), s).value, s)
  {
    hide Replacement, MasksFrom, Sort3;
  }

  lemma {:induction false} TermCount(terms: seq<Expr>, t: Triple)
    requires SumTerms(terms, t) || CarryTerms(terms, t)
    ensures |terms| == 3 || |terms| == 4
  {
  }

  /** The sum output of a full adder becomes a three-input exclusive or. */
  lemma {:induction false} SumIsRecognised(h: Mixer, e: Expr, t: Triple)
    requires Apart(t) && SumTerms(OrTerms(e), t)
    ensures IsParity(h, Rewritten(h, e), t)
  {
    hide Rewritten, SumTerms, CarryTerms;
    var s, masks := PatternRewrites(h, e, t);
  }

  /** The carry output becomes a majority over generate and propagate. */
  lemma {:induction false} CarryIsRecognised(h: Mixer, e: Expr, t: Triple)
    requires Apart(t) && CarryTerms(OrTerms(e), t)
    ensures IsMajority(h, Rewritten(h, e), t)
  {
    hide Rewritten, SumTerms, CarryTerms;
    var s, masks := PatternRewrites(h, e, t);
    PatternsDiffer();
  }

  lemma {:induction false} PatternsDiffer()
    ensures XOR_MASKS != CARRY_MINTERMS && XOR_MASKS != CARRY_MINIMIZED
  {
    assert XOR_MASKS[Mask(7, 1)] == 1 && CARRY_MINTERMS[Mask(7, 1)] == 0 && CARRY_MINIMIZED[Mask(7, 1)] == 0;
  }

  /** Nothing else is rewritten. */
  lemma {:induction false} OnlyAddersAreRewritten(h: Mixer, e: Expr)
    ensures Rewritten(h, e) != e ==>
      exists t: Triple :: Apart(t) && (SumTerms(OrTerms(e), t) || CarryTerms(OrTerms(e), t))
  {
    hide SumTerms, CarryTerms, AllClean, MasksFrom, Sort3, AllEncode;
    var terms := OrTerms(e);
    AllAtomsFacts(terms, []);
    var atoms := AllAtoms(terms, []);
    if (|terms| == 3 || |terms| == 4) && |atoms| == 3 {
      SortedAtoms(h, atoms);
      var s := Sort3(h, atoms);
      MasksRecord(terms, s);
      if MasksFrom(terms, s).Some? {
        PatternIff(MasksFrom(terms, s).value, terms, s);
      }
    }
  }

  // ----- the recursion reaches the pattern -----

  /** The atoms of a term are in normal form. */
  ghost predicate AtomsStay(h: Mixer, term: Expr) {
    forall l :: l in AndLiterals(term) ==> Normalized(h, l.atom) == l.atom
  }

  lemma {:induction false} TermStays(h: Mixer, term: Expr)
    requires FoldFree(h, term) && AtomsStay(h, term)
    ensures Normalized(h, term) == term
  {
    hide Rewritten, MkGate;
    match term
    case Not(a) => assert Literal(a, false) in AndLiterals(term);
    case Bin(AND, l, r) =>
      assert forall x :: x in AndLiterals(l) || x in AndLiterals(r) ==> x in AndLiterals(term);
      TermStays(h, l);
      TermStays(h, r);
      GateIsStable(h, AND, l, r);
    case _ => assert Literal(term, true) in AndLiterals(term);
  }

  /** Too few terms for a sum, and no pairs for a carry. */
  ghost predicate PartOfAdder(h: Mixer, e: Expr) {
    var terms := OrTerms(e);
    && |terms| <= 3
    && (forall x :: x in terms ==> AtomsStay(h, x))
    && (|terms| == 3 ==> forall x :: x in terms ==> |AndLiterals(x)| == 3)
  }

  lemma {:induction false} PartStays(h: Mixer, e: Expr)
    requires FoldFree(h, e) && PartOfAdder(h, e)
    ensures Normalized(h, e) == e
  {
    hide Rewritten, MkGate, AtomsStay;
    if e.Bin? && e.op == OR {
      HasTerms(e.left);
      HasTerms(e.right);
      assert OrTerms(e) == OrTerms(e.left) + OrTerms(e.right);
      PartStays(h, e.left);
      PartStays(h, e.right);
      GateIsStable(h, OR, e.left, e.right);
      PartIsNoAdder(h, e);
    } else {
      assert e in OrTerms(e);
      TermStays(h, e);
    }
  }

  lemma {:induction false} PartIsNoAdder(h: Mixer, e: Expr)
    requires PartOfAdder(h, e)
    ensures Rewritten(h, e) == e
  {
    hide Rewritten, AtomsStay;
    OnlyAddersAreRewritten(h, e);
    assert |OrTerms(e)| == 3 ==> OrTerms(e)[0] in OrTerms(e);
  }

  lemma {:induction false} HasTerms(e: Expr)
    ensures |OrTerms(e)| >= 1
  {
    if e.Bin? && e.op == OR {
      HasTerms(e.left);
    }
  }

  ghost predicate TripleStays(h: Mixer, t: Triple) {
    Normalized(h, t.0) == t.0 && Normalized(h, t.1) == t.1 && Normalized(h, t.2) == t.2
  }

  lemma {:induction false} AdderTerms(h: Mixer, terms: seq<Expr>, t: Triple)
    requires TripleStays(h, t) && (SumTerms(terms, t) || CarryTerms(terms, t))
    ensures 3 <= |terms| <= 4 && forall x :: x in terms ==> AtomsStay(h, x)
    ensures |terms| == 4 ==> forall x :: x in terms ==> |AndLiterals(x)| == 3
  {
    hide Normalized, Positives;
    forall x | x in terms
      ensures AtomsStay(h, x)
      ensures |terms| == 4 ==> |AndLiterals(x)| == 3
    {
      var i :| 0 <= i < |terms| && terms[i] == x;
      assert Clean(AndLiterals(terms[i]), t);
    }
  }

  lemma {:induction false} AdderReached(h: Mixer, e: Expr, t: Triple)
    requires FoldFree(h, e) && TripleStays(h, t) && (SumTerms(OrTerms(e), t) || CarryTerms(OrTerms(e), t))
    ensures Normalized(h, e) == Rewritten(h, e)
  {
    hide Rewritten, MkGate, SumTerms, CarryTerms, AtomsStay, TripleStays;
    AdderTerms(h, OrTerms(e), t);
    HasTerms(e.left);
    HasTerms(e.right);
    assert OrTerms(e) == OrTerms(e.left) + OrTerms(e.right);
    PartStays(h, e.left);
    PartStays(h, e.right);
    GateIsStable(h, OR, e.left, e.right);
  }

  /** In an expression with nothing left to fold, the normal form of a sum output is the exclusive or. */
  lemma {:induction false} NormalizedSum(h: Mixer, e: Expr, t: Triple)
    requires FoldFree(h, e) && Apart(t) && TripleStays(h, t) && SumTerms(OrTerms(e), t)
    ensures IsParity(h, Normalized(h, e), t)
  {
    hide Rewritten, Normalized, SumTerms, CarryTerms, FoldFree, TripleStays;
    AdderReached(h, e, t);
    SumIsRecognised(h, e, t);
  }

  /** And that of a carry output the majority. */
  lemma {:induction false} NormalizedCarry(h: Mixer, e: Expr, t: Triple)
    requires FoldFree(h, e) && Apart(t) && TripleStays(h, t) && CarryTerms(OrTerms(e), t)
    ensures IsMajority(h, Normalized(h, e), t)
  {
    hide Rewritten, Normalized, SumTerms, CarryTerms, FoldFree, TripleStays;
    AdderReached(h, e, t);
    CarryIsRecognised(h, e, t);
  }
}
