/** The base64 decoder of the loader configuration, with its wrapping 32-bit accumulator, against the
    encoding of section 4 of RFC 4648. */
module Base64 {
  import opened Bytes
  import opened Errors

  const PAD: bv8 := 0x3D

  predicate Space(c: bv8) { c == 0x20 || c == 0x0D || c == 0x0A || c == 0x09 }

  /** Value of a symbol of the standard alphabet. */
  function Value(c: bv8): Option<bv32> {
    if 0x41 <= c <= 0x5A then Some((c - 0x41) as bv32)
    else if 0x61 <= c <= 0x7A then Some((c - 0x61 + 26) as bv32)
    else if 0x30 <= c <= 0x39 then Some((c - 0x30 + 52) as bv32)
    else if c == 0x2B then Some(62)
    else if c == 0x2F then Some(63)
    else None
  }

  function Low8(x: bv32): bv8 {
    (x & 0xFF) as bv8
  }

  /** Shift a symbol's value into the accumulator; older bits fall off the top. */
  function Shift(acc: bv32, v: bv32): bv32 {
    (acc << 6) | v
  }

  /** The byte above the lowest `n` bits. */
  function Out(a: bv32, n: nat): bv8
    requires n <= 32
  {
    Low8(a >> n)
  }

  function Cons(b: bv8, r: Result<Bytes>): Result<Bytes> {
    match r case Ok(s) => Ok([b] + s) case Err(e) => Err(e)
  }

  /** The decoder from accumulator `acc` with `nbits` bits not yet output. */
  function DecodeFrom(s: Bytes, acc: bv32, nbits: nat): Result<Bytes>
    requires nbits < 8
    decreases |s|
  {
    if s == [] || s[0] == PAD then Ok([])
    else if Space(s[0]) then DecodeFrom(s[1..], acc, nbits)
    else
      match Value(s[0])
      case None => Err(InvalidData)
      case Some(v) =>
        var a := Shift(acc, v);
        if nbits >= 2 then Cons(Out(a, nbits - 2), DecodeFrom(s[1..], a, nbits - 2))
        else DecodeFrom(s[1..], a, nbits + 6)
  }

  function Decoded(s: Bytes): Result<Bytes> {
    DecodeFrom(s, 0, 0)
  }

  function Prepend(a: Bytes, r: Result<Bytes>): Result<Bytes> {
    match r case Ok(s) => Ok(a + s) case Err(e) => Err(e)
  }

  /** `base64_decode`. */
  method Decode(input: Bytes) returns (r: Result<Bytes>)
    ensures r == Decoded(input)
  {
    var out: Bytes := [];
    var acc: bv32 := 0;
    var nbits := 0;
    assert input[0..] == input;
    PrependNothing(Decoded(input));
    for i := 0 to |input|
      invariant nbits < 8
      invariant Decoded(input) == Prepend(out, DecodeFrom(input[i..], acc, nbits))
    {
      var c := input[i];
      assert input[i..][1..] == input[i + 1..];
      if c == PAD {
        assert out + [] == out;
        return Ok(out);
      }
      if Space(c) {
        continue;
      }
      match Value(c) {
        case None => return Err(InvalidData);
        case Some(v) =>
          acc := Shift(acc, v);
          nbits := nbits + 6;
          if nbits >= 8 {
            nbits := nbits - 8;
            PrependCons(out, Out(acc, nbits), DecodeFrom(input[i + 1..], acc, nbits));
            out := out + [Out(acc, nbits)];
          }
      }
    }
    assert out + [] == out;
    r := Ok(out);
  }

  lemma PrependNothing(r: Result<Bytes>)
    ensures Prepend([], r) == r
  {
    if r.Ok? {
      assert [] + r.value == r.value;
    }
  }

  lemma PrependCons(a: Bytes, b: bv8, r: Result<Bytes>)
    ensures Prepend(a, Cons(b, r)) == Prepend(a + [b], r)
  {
    if r.Ok? {
      assert a + ([b] + r.value) == a + [b] + r.value;
    }
  }

  // ---- the encoding ----

  function Symbol(v: bv32): bv8
    requires v < 64
  {
    if v < 26 then 0x41 + Low8(v)
    else if v < 52 then 0x61 + Low8(v - 26)
    else if v < 62 then 0x30 + Low8(v - 52)
    else if v == 62 then 0x2B
    else 0x2F
  }

  /** A 24-bit input group. */
  function Group(x: bv8, y: bv8, z: bv8): bv32 {
    (x as bv32 << 16) | (y as bv32 << 8) | (z as bv32)
  }

  /** The 6-bit groups of an input group, most significant first. */
  function Sextet(g: bv32, i: nat): (v: bv32)
    requires i < 4
    ensures v < 64
  {
    match i
    case 0 => (g >> 18) & 63
    case 1 => (g >> 12) & 63
    case 2 => (g >> 6) & 63
    case _ => g & 63
  }

  /** The symbols for `b`, without padding. */
  function Symbols(b: Bytes): Bytes {
    if b == [] then []
    else if |b| == 1 then
      var g := Group(b[0], 0, 0); [Symbol(Sextet(g, 0)), Symbol(Sextet(g, 1))]
    else if |b| == 2 then
      var g := Group(b[0], b[1], 0); [Symbol(Sextet(g, 0)), Symbol(Sextet(g, 1)), Symbol(Sextet(g, 2))]
    else
      var g := Group(b[0], b[1], b[2]);
      [Symbol(Sextet(g, 0)), Symbol(Sextet(g, 1)), Symbol(Sextet(g, 2)), Symbol(Sextet(g, 3))] + Symbols(b[3..])
  }

  function Padding(b: Bytes): Bytes {
    if |b| % 3 == 0 then [] else if |b| % 3 == 1 then [PAD, PAD] else [PAD]
  }

  function Unspaced(s: Bytes): Bytes {
    if s == [] then [] else if Space(s[0]) then Unspaced(s[1..]) else [s[0]] + Unspaced(s[1..])
  }

  // ---- decoding inverts encoding ----

  lemma SymbolValue(v: bv32)
    requires v < 64
    ensures Value(Symbol(v)) == Some(v) && Symbol(v) != PAD && !Space(Symbol(v))
  {
  }

  /** Whatever the accumulator held, four symbols output the group's three bytes. */
  lemma GroupBytes(acc: bv32, x: bv8, y: bv8, z: bv8)
    ensures var g := Group(x, y, z);
            var a1 := Shift(acc, Sextet(g, 0));
            var a2 := Shift(a1, Sextet(g, 1));
            var a3 := Shift(a2, Sextet(g, 2));
            var a4 := Shift(a3, Sextet(g, 3));
            Out(a2, 4) == x && Out(a3, 2) == y && Out(a4, 0) == z
  {
  }

  /** Whitespace makes no difference anywhere. */
  lemma {:induction false} SpaceIgnored(s: Bytes, acc: bv32, nbits: nat)
    requires nbits < 8
    ensures DecodeFrom(s, acc, nbits) == DecodeFrom(Unspaced(s), acc, nbits)
    decreases |s|
  {
    hide Value, Shift, Out, Space;
    if s != [] && s[0] != PAD {
      if Space(s[0]) {
        SpaceIgnored(s[1..], acc, nbits);
      } else if Value(s[0]).Some? {
        var a := Shift(acc, Value(s[0]).value);
        SpaceIgnored(s[1..], a, if nbits >= 2 then nbits - 2 else nbits + 6);
        assert Unspaced(s)[1..] == Unspaced(s[1..]);
      }
    } else if s != [] {
      PadIsNotSpace();
      assert Unspaced(s)[0] == PAD;
    }
  }

  lemma PadIsNotSpace()
    ensures !Space(PAD)
  {
  }

  /** One symbol. */
  lemma DecodeSymbol(v: bv32, rest: Bytes, acc: bv32, nbits: nat)
    requires v < 64 && nbits < 8
    ensures var a := Shift(acc, v);
            DecodeFrom([Symbol(v)] + rest, acc, nbits)
            == if nbits >= 2 then Cons(Out(a, nbits - 2), DecodeFrom(rest, a, nbits - 2))
               else DecodeFrom(rest, a, nbits + 6)
  {
    hide Value, Symbol, Shift, Out, Space;
    SymbolValue(v);
    assert ([Symbol(v)] + rest)[1..] == rest;
  }

  /** Two symbols output the first byte of their group. */
  lemma DecodeTwo(g: bv32, rest: Bytes, acc: bv32)
    ensures var a2 := Shift(Shift(acc, Sextet(g, 0)), Sextet(g, 1));
            DecodeFrom([Symbol(Sextet(g, 0)), Symbol(Sextet(g, 1))] + rest, acc, 0)
                == Cons(Out(a2, 4), DecodeFrom(rest, a2, 4))
  {
    hide DecodeFrom, Symbol, Sextet, Shift, Out;
    var v0, v1 := Sextet(g, 0), Sextet(g, 1);
    DecodeSymbol(v0, [Symbol(v1)] + rest, acc, 0);
    DecodeSymbol(v1, rest, Shift(acc, v0), 6);
    assert [Symbol(v0), Symbol(v1)] + rest == [Symbol(v0)] + ([Symbol(v1)] + rest);
  }

  lemma DecodeThree(g: bv32, rest: Bytes, acc: bv32)
    ensures var a2 := Shift(Shift(acc, Sextet(g, 0)), Sextet(g, 1));
            var a3 := Shift(a2, Sextet(g, 2));
            DecodeFrom([Symbol(Sextet(g, 0)), Symbol(Sextet(g, 1)), Symbol(Sextet(g, 2))] + rest, acc, 0)
            == Cons(Out(a2, 4), Cons(Out(a3, 2), DecodeFrom(rest, a3, 2)))
  {
    hide DecodeFrom, Symbol, Sextet, Shift, Out;
    var v0, v1, v2 := Sextet(g, 0), Sextet(g, 1), Sextet(g, 2);
    var a2 := Shift(Shift(acc, v0), v1);
    DecodeTwo(g, [Symbol(v2)] + rest, acc);
    DecodeSymbol(v2, rest, a2, 4);
    assert [Symbol(v0), Symbol(v1), Symbol(v2)] + rest == [Symbol(v0), Symbol(v1)] + ([Symbol(v2)] + rest);
  }

  /** A full group outputs its three bytes and leaves no bits over. */
  lemma DecodeGroup(x: bv8, y: bv8, z: bv8, rest: Bytes, acc: bv32)
    ensures var g := Group(x, y, z);
            var a4 := Shift(Shift(Shift(Shift(acc, Sextet(g, 0)), Sextet(g, 1)), Sextet(g, 2)), Sextet(g, 3));
            DecodeFrom([Symbol(Sextet(g, 0)), Symbol(Sextet(g, 1)), Symbol(Sextet(g, 2)), Symbol(Sextet(g, 3))] + rest,
                acc, 0)
            == Prepend([x, y, z], DecodeFrom(rest, a4, 0))
  {
    hide DecodeFrom, Symbol, Sextet, Shift, Out, Group;
    var g := Group(x, y, z);
    var v0, v1, v2, v3 := Sextet(g, 0), Sextet(g, 1), Sextet(g, 2), Sextet(g, 3);
    var a3 := Shift(Shift(Shift(acc, v0), v1), v2);
    var a4 := Shift(a3, v3);
    DecodeThree(g, [Symbol(v3)] + rest, acc);
    DecodeSymbol(v3, rest, a3, 2);
    GroupBytes(acc, x, y, z);
    assert [Symbol(v0), Symbol(v1), Symbol(v2), Symbol(v3)] + rest
        == [Symbol(v0), Symbol(v1), Symbol(v2)] + ([Symbol(v3)] + rest);
    var r := DecodeFrom(rest, a4, 0);
    if r.Ok? {
      assert [x] + ([y] + ([z] + r.value)) == [x, y, z] + r.value;
    }
  }

  lemma DecodeEnd(end: Bytes, acc: bv32, nbits: nat)
    requires nbits < 8 && (end == [] || end[0] == PAD)
    ensures DecodeFrom(end, acc, nbits) == Ok([])
  {
  }

  lemma DecodeOne(b: Bytes, end: Bytes, acc: bv32)
    requires |b| == 1 && (end == [] || end[0] == PAD)
    ensures DecodeFrom(Symbols(b) + end, acc, 0) == Ok(b)
  {
    hide DecodeFrom, Symbol, Sextet, Shift, Out, Group;
    var g := Group(b[0], 0, 0);
    DecodeEnd(end, Shift(Shift(acc, Sextet(g, 0)), Sextet(g, 1)), 4);
    GroupBytes(acc, b[0], 0, 0);
    DecodeTwo(g, end, acc);
    assert b == [b[0]] + [];
  }

  lemma DecodePair(b: Bytes, end: Bytes, acc: bv32)
    requires |b| == 2 && (end == [] || end[0] == PAD)
    ensures DecodeFrom(Symbols(b) + end, acc, 0) == Ok(b)
  {
    hide DecodeFrom, Symbol, Sextet, Shift, Out, Group;
    var g := Group(b[0], b[1], 0);
    DecodeEnd(end, Shift(Shift(Shift(acc, Sextet(g, 0)), Sextet(g, 1)), Sextet(g, 2)), 2);
    GroupBytes(acc, b[0], b[1], 0);
    DecodeThree(g, end, acc);
    assert b == [b[0]] + ([b[1]] + []);
  }

  lemma Regroup(a: Bytes, b: Bytes, c: Bytes)
    ensures (a + b) + c == a + (b + c)
  {
  }

  lemma FirstThree(b: Bytes)
    requires |b| >= 3
    ensures [b[0], b[1], b[2]] + b[3..] == b
  {
  }

  /** Bits left over at the end, or anything from the first pad on, add nothing. */
  lemma {:induction false} DecodeSymbols(b: Bytes, end: Bytes, acc: bv32)
    requires end == [] || end[0] == PAD
    ensures DecodeFrom(Symbols(b) + end, acc, 0) == Ok(b)
    decreases |b|
  {
    hide DecodeFrom, Symbol, Sextet, Shift, Out, Group;
    if b == [] {
      DecodeEnd(end, acc, 0);
      assert Symbols(b) + end == end;
    } else if |b| == 1 {
      DecodeOne(b, end, acc);
    } else if |b| == 2 {
      DecodePair(b, end, acc);
    } else {
      var g := Group(b[0], b[1], b[2]);
      var a4 := Shift(Shift(Shift(Shift(acc, Sextet(g, 0)), Sextet(g, 1)), Sextet(g, 2)), Sextet(g, 3));
      var four := [Symbol(Sextet(g, 0)), Symbol(Sextet(g, 1)), Symbol(Sextet(g, 2)), Symbol(Sextet(g, 3))];
      DecodeGroup(b[0], b[1], b[2], Symbols(b[3..]) + end, acc);
      DecodeSymbols(b[3..], end, a4);
      assert Symbols(b) == four + Symbols(b[3..]);
      Regroup(four, Symbols(b[3..]), end);
      FirstThree(b);
    }
  }

  /** Decoding inverts encoding for every byte string, with or without its padding, with whitespace anywhere. */
  lemma DecodeInvertsEncode(b: Bytes, text: Bytes, padded: bool)
    requires Unspaced(text) == Symbols(b) + if padded then Padding(b) else []
    ensures Decoded(text) == Ok(b)
  {
    hide DecodeFrom, Symbols, Space;
    SpaceIgnored(text, 0, 0);
    DecodeSymbols(b, if padded then Padding(b) else [], 0);
  }

  /** Position of the first pad, or the end. */
  function UpToPad(s: Bytes): Bytes {
    if s == [] || s[0] == PAD then [] else [s[0]] + UpToPad(s[1..])
  }

  predicate Clean(s: Bytes) {
    forall i :: 0 <= i < |s| ==> Space(s[i]) || Value(s[i]).Some?
  }

  /** Input is refused exactly when something other than a symbol or whitespace comes before the first pad;
      otherwise six bits per symbol give whole bytes, and a remainder below one byte is dropped. */
  lemma {:induction false} DecodeAccepts(s: Bytes, acc: bv32, nbits: nat)
    requires nbits < 8
    ensures DecodeFrom(s, acc, nbits).Ok? <==> Clean(UpToPad(s))
    ensures DecodeFrom(s, acc, nbits).Ok? ==>
              |DecodeFrom(s, acc, nbits).value| == (nbits + 6 * |Unspaced(UpToPad(s))|) / 8
    decreases |s|
  {
    hide Value, Shift, Out, Space;
    if s != [] && s[0] != PAD {
      var u := UpToPad(s);
      assert u[0] == s[0] && u[1..] == UpToPad(s[1..]);
      assert Clean(u) <==> (Space(s[0]) || Value(s[0]).Some?) && Clean(u[1..]) by {
        assert forall i :: 0 <= i < |u[1..]| ==> u[1..][i] == u[i + 1];
        if Clean(u[1..]) && (Space(s[0]) || Value(s[0]).Some?) {
          forall i | 0 <= i < |u|
            ensures Space(u[i]) || Value(u[i]).Some?
          {
            if i > 0 { assert u[i] == u[1..][i - 1]; }
          }
        }
      }
      if Space(s[0]) {
        DecodeAccepts(s[1..], acc, nbits);
      } else if Value(s[0]).Some? {
        DecodeAccepts(s[1..], Shift(acc, Value(s[0]).value), if nbits >= 2 then nbits - 2 else nbits + 6);
      }
    }
  }

  // ---- the alphabet, spelled out ----

  /** `c` is symbol number `v` of Table 1 of RFC 4648: A to Z, a to z, 0 to 9, plus, slash. */
  predicate Alphabet(c: bv8, v: bv32) {
    || (c == 0x41 && v == 0) || (c == 0x42 && v == 1) || (c == 0x43 && v == 2) || (c == 0x44 && v == 3)
    || (c == 0x45 && v == 4) || (c == 0x46 && v == 5) || (c == 0x47 && v == 6) || (c == 0x48 && v == 7)
    || (c == 0x49 && v == 8) || (c == 0x4A && v == 9) || (c == 0x4B && v == 10) || (c == 0x4C && v == 11)
    || (c == 0x4D && v == 12) || (c == 0x4E && v == 13) || (c == 0x4F && v == 14) || (c == 0x50 && v == 15)
    || (c == 0x51 && v == 16) || (c == 0x52 && v == 17) || (c == 0x53 && v == 18) || (c == 0x54 && v == 19)
    || (c == 0x55 && v == 20) || (c == 0x56 && v == 21) || (c == 0x57 && v == 22) || (c == 0x58 && v == 23)
    || (c == 0x59 && v == 24) || (c == 0x5A && v == 25) || (c == 0x61 && v == 26) || (c == 0x62 && v == 27)
    || (c == 0x63 && v == 28) || (c == 0x64 && v == 29) || (c == 0x65 && v == 30) || (c == 0x66 && v == 31)
    || (c == 0x67 && v == 32) || (c == 0x68 && v == 33) || (c == 0x69 && v == 34) || (c == 0x6A && v == 35)
    || (c == 0x6B && v == 36) || (c == 0x6C && v == 37) || (c == 0x6D && v == 38) || (c == 0x6E && v == 39)
    || (c == 0x6F && v == 40) || (c == 0x70 && v == 41) || (c == 0x71 && v == 42) || (c == 0x72 && v == 43)
    || (c == 0x73 && v == 44) || (c == 0x74 && v == 45) || (c == 0x75 && v == 46) || (c == 0x76 && v == 47)
    || (c == 0x77 && v == 48) || (c == 0x78 && v == 49) || (c == 0x79 && v == 50) || (c == 0x7A && v == 51)
    || (c == 0x30 && v == 52) || (c == 0x31 && v == 53) || (c == 0x32 && v == 54) || (c == 0x33 && v == 55)
    || (c == 0x34 && v == 56) || (c == 0x35 && v == 57) || (c == 0x36 && v == 58) || (c == 0x37 && v == 59)
    || (c == 0x38 && v == 60) || (c == 0x39 && v == 61) || (c == 0x2B && v == 62) || (c == 0x2F && v == 63)
  }

  lemma AlphabetValue(c: bv8, v: bv32)
    requires Alphabet(c, v)
    ensures Value(c) == Some(v)
  {
  }

  lemma ValueAlphabet(c: bv8)
    requires Value(c).Some?
    ensures Alphabet(c, Value(c).value)
  {
    if c <= 0x39 {
    } else if c <= 0x5A {
    } else {
    }
  }

  /** The decoder knows exactly those symbols, the encoder writes them, and exactly four bytes are whitespace. */
  lemma SymbolsOfAlphabet(c: bv8, v: bv32)
    ensures Value(c) == Some(v) <==> Alphabet(c, v)
    ensures v < 64 ==> Alphabet(Symbol(v), v)
    ensures Space(c) <==> c in [0x09, 0x0A, 0x0D, 0x20]
  {
    hide Alphabet, Symbol, Value;
    if Alphabet(c, v) {
      AlphabetValue(c, v);
    }
    if Value(c).Some? {
      ValueAlphabet(c);
    }
    if v < 64 {
      SymbolValue(v);
      ValueAlphabet(Symbol(v));
    }
  }

  /** The four symbols of a group are the digits, to base 64 and most significant first, of its three bytes read as a
      big-endian number. */
  lemma SextetsOfGroup(x: bv8, y: bv8, z: bv8)
    ensures var g := Group(x, y, z);
            Sextet(g, 0) * 0x4_0000 + Sextet(g, 1) * 0x1000 + Sextet(g, 2) * 0x40 + Sextet(g, 3)
            == x as bv32 * 0x1_0000 + y as bv32 * 0x100 + z as bv32
  {
  }
}
