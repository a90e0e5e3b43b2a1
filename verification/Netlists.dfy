/**
 The netlist, abstractly: terms belong to isos (equipotentials), an iso has drivers, and a
 driver computes a truth table over an ordered list of input terms.
 */
module Netlists {
  import opened TruthTables

  type Valuation = nat -> bool

  datatype Netlist = Netlist(
    count: nat,
    isInput: nat -> bool,
    iso: nat -> nat,
    isoDrivers: nat -> seq<nat>,
    isoConstant: nat -> bool,
    isoCached: nat -> bool,
    isOpaque: nat -> bool,
    isOutput: nat -> bool,
    isAssign: nat -> bool,
    inputs: nat -> seq<nat>,
    table: nat -> TruthTable)
  {
    function Drivers(t: nat): seq<nat> { isoDrivers(iso(t)) }

    /** Terms are numbered, and the driver of an iso lies on that iso, and inputs are not outputs. */
    ghost predicate WellFormed() {
      forall t: nat :: t < count ==> TermOk(t)
    }

    ghost predicate TermOk(t: nat) {
      && (forall k :: 0 <= k < |Drivers(t)| ==> Drivers(t)[k] < count && iso(Drivers(t)[k]) == iso(t))
      && (forall k :: 0 <= k < |inputs(t)| ==> inputs(t)[k] < count && !isOutput(inputs(t)[k]))
    }

    /** `canUseCachedIsoShortcut`. */
    predicate UsesCache(t: nat) {
      Drivers(t) != [] && Drivers(t)[0] == t && isoCached(iso(t))
    }

    /** Expansion stops at this term. */
    predicate Stops(t: nat) {
      isInput(t) || UsesCache(t) || isoConstant(iso(t))
    }

    predicate ArityOk(d: nat) {
      |inputs(d)| == Arity(table(d))
    }

    /** The net of t is computed by the cell that drives it with d, and the cell is a supported one. */
    predicate Expands(t: nat, d: nat) {
      !Stops(t) && Drivers(t) == [d] && !Stops(d) && ArityOk(d) && !isOpaque(d)
    }

    /** Expansion of t ends with a port for x. */
    predicate EndsAt(t: nat, x: nat) {
      Stops(x) && (x == t || (!Stops(t) && Drivers(t) == [x] && (isOpaque(x) ==> isInput(x))))
    }

    ghost function Values(v: Valuation, terms: seq<nat>): (r: seq<bool>)
      ensures |r| == |terms| && forall k :: 0 <= k < |terms| ==> r[k] == v(terms[k])
    {
      seq(|terms|, k requires 0 <= k < |terms| => v(terms[k]))
    }

    /** A net has the value of its only driver, and a driver has the value of its table. */
    ghost predicate Consistent(v: Valuation) {
      && (forall t: nat :: t < count && |Drivers(t)| == 1 && !Stops(t) ==> v(t) == v(Drivers(t)[0]))
      && (forall d: nat :: d < count && !isInput(d) && ArityOk(d) && Drivers(d) == [d] ==>
           v(d) == TableValue(table(d), Values(v, inputs(d))))
    }
  }
}
