/** Truth tables of cells: explicit rows, or one of the symbolic kinds. */
module TruthTables {
  import D = Divider

  datatype Gate = GateAnd | GateNand | GateOr | GateNor | GateXor | GateXnor

  datatype DivModResult = Quotient | Remainder

  datatype TruthTable =
    | Rows(size: nat, bits: seq<bool>)
    | Generic(arity: nat, gate: Gate)
    | TableSelect(addressSize: nat, depth: nat)
    | DivMod(width: nat, signed: bool, result: DivModResult, outputBit: nat)

  function Arity(t: TruthTable): nat {
    match t
    case Rows(size, _) => size
    case Generic(arity, _) => arity
    case TableSelect(addressSize, depth) => addressSize + depth
    case DivMod(width, _, _, _) => 2 * width
  }

  /** The row that a list of input values selects: input i is bit i of the row number. */
  function RowOf(args: seq<bool>): nat {
    if args == [] then 0 else (if args[0] then 1 else 0) + 2 * RowOf(args[1..])
  }

  /** The number that bits spell, most significant first. */
  function Address(bits: seq<bool>): nat {
    if bits == [] then 0 else 2 * Address(bits[..|bits| - 1]) + if bits[|bits| - 1] then 1 else 0
  }

  function GateValue(gate: Gate, args: seq<bool>): bool {
    match gate
    case GateAnd => forall i :: 0 <= i < |args| ==> args[i]
    case GateNand => exists i :: 0 <= i < |args| && !args[i]
    case GateOr => exists i :: 0 <= i < |args| && args[i]
    case GateNor => forall i :: 0 <= i < |args| ==> !args[i]
    case GateXor => Odd(args)
    case GateXnor => !Odd(args)
  }

  /** An odd number of the values is true. */
  predicate Odd(args: seq<bool>) {
    args != [] && args[|args| - 1] != Odd(args[..|args| - 1])
  }

  /** Bit i of a number. */
  predicate BitOf(x: int, i: nat) {
    x / D.Pow2(i) % 2 == 1
  }

  /** The result words of a divider, for operand bits given most significant first. */
  ghost predicate DivModWords(width: nat, signed: bool, args: seq<bool>, q: int, r: int)
    requires |args| == 2 * width
  {
    var a, b := Address(args[..width]), Address(args[width..]);
    && 0 <= q < D.Pow2(width) && 0 <= r < D.Pow2(width)
    && (if signed && width > 0
        then D.SignedResult(if args[0] then a - D.Pow2(width) else a,
                            if args[width] then b - D.Pow2(width) else b, q, r, width)
        else D.UnsignedResult(a, b, q, r, width))
  }

  ghost predicate DivModValue(width: nat, signed: bool, result: DivModResult, outputBit: nat, args: seq<bool>)
    requires |args| == 2 * width
  {
    exists q, r :: DivModWords(width, signed, args, q, r) && BitOf(if result.Quotient? then q else r, outputBit)
  }

  /** The output of a cell for given input values. */
  ghost predicate TableValue(t: TruthTable, args: seq<bool>)
    requires |args| == Arity(t)
  {
    match t
    case Rows(_, bits) => RowOf(args) < |bits| && bits[RowOf(args)]
    case Generic(_, gate) => GateValue(gate, args)
    case TableSelect(addressSize, depth) =>
      var address := Address(args[depth..]);
      address < depth && args[depth - 1 - address]
    case DivMod(width, signed, result, outputBit) => DivModValue(width, signed, result, outputBit, args)
  }
}
