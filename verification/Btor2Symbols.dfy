/** `symbolSuffix`: symbol names in BTOR2 text, with unsafe bytes percent-encoded. */
module Btor2Symbols {
  type byte = b: int | 0 <= b < 256

  /** Printable bytes other than the comment delimiter and the escape character. */
  predicate Plain(c: byte) {
    32 < c < 127 && c != 59 && c != 37
  }

  function Hex(d: int): byte
    requires 0 <= d < 16
  {
    if d < 10 then 48 + d else 65 + (d - 10)
  }

  function Unhex(c: byte): int {
    if c < 58 then c - 48 else c - 65 + 10
  }

  function EncodeByte(c: byte): seq<byte> {
    if Plain(c) then [c] else [37, Hex(c / 16), Hex(c % 16)]
  }

  function Encode(symbol: seq<byte>): (r: seq<byte>)
    ensures forall i :: 0 <= i < |r| ==> 32 < r[i] < 127 && r[i] != 59
  {
    if symbol == [] then [] else EncodeByte(symbol[0]) + Encode(symbol[1..])
  }

  /** The text after a line body: nothing, or a space and the encoded name. */
  function SymbolSuffix(symbol: seq<byte>): seq<byte> {
    if symbol == [] then [] else [32] + Encode(symbol)
  }

  /** Reads an encoded name back. */
  function Decode(text: seq<byte>): seq<int> {
    if text == [] then []
    else if text[0] == 37 && |text| >= 3 then [16 * Unhex(text[1]) + Unhex(text[2])] + Decode(text[3..])
    else [text[0]] + Decode(text[1..])
  }

  lemma {:induction false} DecodeEncode(symbol: seq<byte>)
    ensures |Decode(Encode(symbol))| == |symbol|
    ensures forall i :: 0 <= i < |symbol| ==> Decode(Encode(symbol))[i] == symbol[i]
  {
    hide EncodeByte;
    if symbol != [] {
      var c, rest := symbol[0], symbol[1..];
      DecodeEncode(rest);
      DecodeByte(c, Encode(rest));
    }
  }

  lemma {:induction false} DecodeByte(c: byte, rest: seq<byte>)
    ensures Decode(EncodeByte(c) + rest) == [c as int] + Decode(rest)
  {
    hide Hex, Unhex;
    var text := EncodeByte(c) + rest;
    if Plain(c) {
      assert text[1..] == rest;
    } else {
      assert text[3..] == rest;
      HexDigits(c / 16);
      HexDigits(c % 16);
    }
  }

  lemma {:induction false} HexDigits(d: int)
    requires 0 <= d < 16
    ensures Unhex(Hex(d)) == d
  {
  }

  /** Different symbols never get the same suffix. */
  lemma {:induction false} SuffixInjective(a: seq<byte>, b: seq<byte>)
    requires SymbolSuffix(a) == SymbolSuffix(b)
    ensures a == b
  {
    DecodeEncode(a);
    DecodeEncode(b);
    if a != [] && b != [] {
      assert SymbolSuffix(a)[1..] == Encode(a) && SymbolSuffix(b)[1..] == Encode(b);
    }
  }

  /** A name is printed as it is exactly when it has no blank, control or non-ASCII byte, no `;` and no `%`. */
  lemma {:induction false} PrintedAsItIs(symbol: seq<byte>)
    ensures Encode(symbol) == symbol <==>
      forall i :: 0 <= i < |symbol| ==> 33 <= symbol[i] <= 126 && symbol[i] != ';' as int && symbol[i] != '%' as int
    ensures |Encode(symbol)| >= |symbol|
  {
    if symbol != [] {
      var c, rest := symbol[0], symbol[1..];
      PrintedAsItIs(rest);
      assert symbol == [c] + rest;
      if Plain(c) {
        assert Encode(symbol)[1..] == Encode(rest);
      } else {
        assert |Encode(symbol)| == 3 + |Encode(rest)|;
      }
    }
  }
}
