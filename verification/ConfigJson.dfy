/** The flat-object scanner for the loader configuration: string keys and string values only. */
module ConfigJson {
  import opened Bytes
  import opened Errors
  import Base64

  type Text = seq<bv32>   // code points

  datatype Pair = Pair(key: Text, value: Text)

  const QUOTE: bv8 := 0x22
  const BACKSLASH: bv8 := 0x5C
  const OPEN: bv8 := 0x7B
  const CLOSE: bv8 := 0x7D
  const COLON: bv8 := 0x3A
  const COMMA: bv8 := 0x2C
  const LETTER_U: bv8 := 0x75

  // ---- the scanner ----

  function SkipSpace(b: Bytes, i: nat): (j: nat)
    requires i <= |b|
    ensures i <= j <= |b|
    decreases |b| - i
  {
    if i < |b| && Base64.Space(b[i]) then SkipSpace(b, i + 1) else i
  }

  predicate At(b: Bytes, i: nat, c: bv8) { i < |b| && b[i] == c }

  function ShortEscape(e: bv8): Option<bv32> {
    match e
    case 0x22 => Some(0x22)
    case 0x5C => Some(0x5C)
    case 0x2F => Some(0x2F)
    case 0x6E => Some(0x0A)
    case 0x72 => Some(0x0D)
    case 0x74 => Some(0x09)
    case 0x62 => Some(0x08)
    case 0x66 => Some(0x0C)
    case _ => None
  }

  function HexDigit(c: bv8): Option<bv32> {
    if 0x30 <= c <= 0x39 then Some((c - 0x30) as bv32)
    else if 0x61 <= c <= 0x66 then Some((c - 0x61 + 10) as bv32)
    else if 0x41 <= c <= 0x46 then Some((c - 0x41 + 10) as bv32)
    else None
  }

  function Append(cp: bv32, d: bv32): bv32 {
    cp * 16 + d
  }

  function HexFrom(b: Bytes, i: nat, n: nat, cp: bv32): Result<bv32>
    requires i + n <= |b|
    decreases n
  {
    if n == 0 then Ok(cp)
    else match HexDigit(b[i]) case None => Err(InvalidData) case Some(d) => HexFrom(b, i + 1, n - 1, Append(cp, d))
  }

  predicate Surrogate(cp: bv32) { 0xD800 <= cp <= 0xDFFF }

  function ConsText(c: bv32, r: Result<(Text, nat)>): Result<(Text, nat)> {
    match r case Err(e) => Err(e) case Ok((t, j)) => Ok(([c] + t, j))
  }

  /** The rest of a string from index `i`, past its opening quote; with the index past the closing one. */
  function StringFrom(b: Bytes, i: nat): (r: Result<(Text, nat)>)
    requires i <= |b|
    ensures r.Ok? ==> i < r.value.1 <= |b|
    decreases |b| - i
  {
    if i >= |b| then Err(InvalidData)
    else if b[i] == QUOTE then Ok(([], i + 1))
    else if b[i] == BACKSLASH then
      if i + 1 >= |b| then Err(InvalidData)
      else if b[i + 1] == LETTER_U then
        if i + 6 > |b| then Err(InvalidData)
        else
          match HexFrom(b, i + 2, 4, 0)
          case Err(e) => Err(e)
          case Ok(cp) => if Surrogate(cp) then Err(InvalidData) else ConsText(cp, StringFrom(b, i + 6))
      else
        match ShortEscape(b[i + 1])
        case None => Err(InvalidData)
        case Some(c) => ConsText(c, StringFrom(b, i + 2))
    else ConsText(b[i] as bv32, StringFrom(b, i + 1))
  }

  function ConsPair(p: Pair, r: Result<seq<Pair>>): Result<seq<Pair>> {
    match r case Err(e) => Err(e) case Ok(ps) => Ok([p] + ps)
  }

  /** One member from its opening quote at `i`: the pair and the index past its value. */
  function MemberFrom(b: Bytes, i: nat): (r: Result<(Pair, nat)>)
    requires i < |b|
    ensures r.Ok? ==> i < r.value.1 <= |b|
  {
    match StringFrom(b, i + 1)
    case Err(e) => Err(e)
    case Ok((key, n)) =>
      var c := SkipSpace(b, n);
      if !At(b, c, COLON) then Err(InvalidData)
      else
        var v := SkipSpace(b, c + 1);
        if !At(b, v, QUOTE) then Err(InvalidData)
        else
          match StringFrom(b, v + 1)
          case Err(e) => Err(e)
          case Ok((value, m)) => Ok((Pair(key, value), m))
  }

  /** The members from index `i`, up to the closing brace. */
  function EntriesFrom(b: Bytes, i: nat): Result<seq<Pair>>
    requires i <= |b|
    decreases |b| - i
  {
    var k := SkipSpace(b, i);
    if At(b, k, CLOSE) then Ok([])
    else if !At(b, k, QUOTE) then Err(InvalidData)
    else
      match MemberFrom(b, k)
      case Err(e) => Err(e)
      case Ok((p, n)) =>
        var j := SkipSpace(b, n);
        if At(b, j, COMMA) then ConsPair(p, EntriesFrom(b, j + 1))
        else if At(b, j, CLOSE) then Ok([p])
        else Err(InvalidData)
  }

  function Parsed(b: Bytes): Result<seq<Pair>> {
    var i := SkipSpace(b, 0);
    if !At(b, i, OPEN) then Err(InvalidData) else EntriesFrom(b, i + 1)
  }

  /** `skip_ws`. */
  method SkipWs(b: Bytes, start: nat) returns (i: nat)
    requires start <= |b|
    ensures i == SkipSpace(b, start)
  {
    i := start;
    while i < |b|
      invariant i <= |b| && SkipSpace(b, start) == SkipSpace(b, i)
    {
      if !Base64.Space(b[i]) {
        break;
      }
      i := i + 1;
    }
  }

  function PrependText(t: Text, r: Result<(Text, nat)>): Result<(Text, nat)> {
    match r case Err(e) => Err(e) case Ok((u, j)) => Ok((t + u, j))
  }

  lemma PrependConsText(t: Text, c: bv32, r: Result<(Text, nat)>)
    ensures PrependText(t, ConsText(c, r)) == PrependText(t + [c], r)
  {
    if r.Ok? {
      assert t + ([c] + r.value.0) == t + [c] + r.value.0;
    }
  }

  /** `parse_string`, from the opening quote at `start`. */
  method ParseString(b: Bytes, start: nat) returns (r: Result<(Text, nat)>)
    requires At(b, start, QUOTE)
    ensures r == StringFrom(b, start + 1)
  {
    hide HexFrom, ShortEscape, Surrogate;
    var out: Text := [];
    var i := start + 1;
    NothingYet(StringFrom(b, i));
    while i < |b|
      invariant start < i <= |b|
      invariant StringFrom(b, start + 1) == PrependText(out, StringFrom(b, i))
    {
      var c := b[i];
      if c == QUOTE {
        assert out + [] == out;
        return Ok((out, i + 1));
      }
      if c == BACKSLASH {
        if i + 1 >= |b| {
          return Err(InvalidData);
        }
        if b[i + 1] == LETTER_U {
          if i + 6 > |b| {
            return Err(InvalidData);
          }
          var hex := ParseHex(b, i + 2);
          if hex.Err? {
            return Err(InvalidData);
          }
          if Surrogate(hex.value) {
            return Err(InvalidData);
          }
          PrependConsText(out, hex.value, StringFrom(b, i + 6));
          out := out + [hex.value];
          i := i + 6;
        } else {
          match ShortEscape(b[i + 1]) {
            case None => return Err(InvalidData);
            case Some(e) =>
              PrependConsText(out, e, StringFrom(b, i + 2));
              out := out + [e];
              i := i + 2;
          }
        }
      } else {
        PrependConsText(out, c as bv32, StringFrom(b, i + 1));
        out := out + [c as bv32];
        i := i + 1;
      }
    }
    r := Err(InvalidData);
  }

  lemma NothingYet(r: Result<(Text, nat)>)
    ensures PrependText([], r) == r
  {
    if r.Ok? {
      assert [] + r.value.0 == r.value.0;
    }
  }

  /** Four hex digits. */
  method ParseHex(b: Bytes, i: nat) returns (r: Result<bv32>)
    requires i + 4 <= |b|
    ensures r == HexFrom(b, i, 4, 0)
    ensures r.Err? ==> r == Err(InvalidData)
  {
    hide HexDigit;
    var cp: bv32 := 0;
    for k := 0 to 4
      invariant HexFrom(b, i, 4, 0) == HexFrom(b, i + k, 4 - k, cp)
    {
      match HexDigit(b[i + k]) {
        case None => return Err(InvalidData);
        case Some(d) => cp := Append(cp, d);
      }
    }
    r := Ok(cp);
  }

  function PrependPairs(ps: seq<Pair>, r: Result<seq<Pair>>): Result<seq<Pair>> {
    match r case Err(e) => Err(e) case Ok(qs) => Ok(ps + qs)
  }

  lemma PrependConsPair(ps: seq<Pair>, p: Pair, r: Result<seq<Pair>>)
    ensures PrependPairs(ps, ConsPair(p, r)) == PrependPairs(ps + [p], r)
    ensures PrependPairs([], r) == r
  {
    if r.Ok? {
      assert ps + ([p] + r.value) == ps + [p] + r.value;
      assert [] + r.value == r.value;
    }
  }

  /** `JsonObject::parse`. */
  method Parse(b: Bytes) returns (r: Result<seq<Pair>>)
    ensures r == Parsed(b)
  {
    hide StringFrom, SkipSpace;
    var i := SkipWs(b, 0);
    if !At(b, i, OPEN) {
      return Err(InvalidData);
    }
    i := i + 1;
    var entries: seq<Pair> := [];
    PrependConsPair([], Pair([], []), EntriesFrom(b, i));
    while true
      invariant i <= |b| && Parsed(b) == PrependPairs(entries, EntriesFrom(b, i))
      decreases |b| - i
    {
      ghost var top := i;
      i := SkipWs(b, i);
      if At(b, i, CLOSE) {
        assert entries + [] == entries;
        return Ok(entries);
      }
      if !At(b, i, QUOTE) {
        return Err(InvalidData);
      }
      var key := ParseString(b, i);
      if key.Err? {
        return Err(key.error);
      }
      i := SkipWs(b, key.value.1);
      if !At(b, i, COLON) {
        return Err(InvalidData);
      }
      i := SkipWs(b, i + 1);
      if !At(b, i, QUOTE) {
        return Err(InvalidData);
      }
      var value := ParseString(b, i);
      if value.Err? {
        return Err(value.error);
      }
      var p := Pair(key.value.0, value.value.0);
      i := SkipWs(b, value.value.1);
      if At(b, i, COMMA) {
        PrependConsPair(entries, p, EntriesFrom(b, i + 1));
        entries := entries + [p];
        i := i + 1;
      } else if At(b, i, CLOSE) {
        return Ok(entries + [p]);
      } else {
        return Err(InvalidData);
      }
    }
  }

  // ---- printings ----

  /** `f` is read as the code point `c`: a raw byte, a short escape, or four hex digits. */
  predicate Writes(f: Bytes, c: bv32) {
    || (|f| == 1 && f[0] != QUOTE && f[0] != BACKSLASH && f[0] as bv32 == c)
    || (|f| == 2 && f[0] == BACKSLASH && f[1] != LETTER_U && ShortEscape(f[1]) == Some(c))
    || (|f| == 6 && f[0] == BACKSLASH && f[1] == LETTER_U && HexFrom(f, 2, 4, 0) == Ok(c) && !Surrogate(c))
  }

  function Flat(forms: seq<Bytes>): Bytes {
    if forms == [] then [] else forms[0] + Flat(forms[1..])
  }

  predicate WritesText(forms: seq<Bytes>, t: Text) {
    |forms| == |t| && forall i :: 0 <= i < |t| ==> Writes(forms[i], t[i])
  }

  predicate AllSpace(w: Bytes) {
    forall i :: 0 <= i < |w| ==> Base64.Space(w[i])
  }

  /** How one pair is written: its strings' forms and the whitespace before, around the colon and after. */
  datatype Member = Member(pair: Pair, key: seq<Bytes>, value: seq<Bytes>, before: Bytes, left: Bytes, right: Bytes,
                           after: Bytes) {
    predicate Valid() {
      && WritesText(key, pair.key) && WritesText(value, pair.value)
      && AllSpace(before) && AllSpace(left) && AllSpace(right) && AllSpace(after)
    }

    /** From the opening quote of the key to the closing quote of the value. */
    function Core(): Bytes {
      [QUOTE] + Flat(key) + [QUOTE] + left + [COLON] + right + [QUOTE] + Flat(value) + [QUOTE]
    }
  }

  function Pairs(ms: seq<Member>): (ps: seq<Pair>)
    ensures |ps| == |ms|
  {
    seq(|ms|, i requires 0 <= i < |ms| => ms[i].pair)
  }

  /** The members, the closing brace and anything after it; `trailing` asks for a comma after the last member. */
  function Members(ms: seq<Member>, trailing: bool, last: Bytes, rest: Bytes): Bytes {
    if ms == [] then last + ([CLOSE] + rest)
    else
      ms[0].before + (ms[0].Core() + (ms[0].after
      + if |ms| == 1 && !trailing then [CLOSE] + rest else [COMMA] + Members(ms[1..], trailing, last, rest)))
  }

  // ---- reading printings back ----

  /** What follows index `i`, split. */
  predicate Ahead(b: Bytes, i: nat, s: Bytes) {
    i <= |b| && b[i..] == s
  }

  lemma Past(b: Bytes, i: nat, a: Bytes, rest: Bytes)
    requires Ahead(b, i, a + rest)
    ensures Ahead(b, i + |a|, rest) && b[i..i + |a|] == a
    ensures a != [] ==> b[i] == a[0]
  {
    assert |b| - i == |a| + |rest|;
    var s := b[i..];
    assert s[..|a|] == a && s[|a|..] == rest;
    assert b[i..i + |a|] == s[..|a|] && b[i + |a|..] == s[|a|..];
    if a != [] {
      assert b[i] == s[0];
    }
  }

  lemma {:induction false} ReadsSpace(b: Bytes, i: nat, w: Bytes, rest: Bytes)
    requires Ahead(b, i, w + rest) && AllSpace(w) && rest != [] && !Base64.Space(rest[0])
    ensures SkipSpace(b, i) == i + |w|
    decreases |w|
  {
    hide Base64.Space;
    if w == [] {
      assert w + rest == rest;
      assert b[i] == b[i..][0];
    } else {
      assert w + rest == [w[0]] + (w[1..] + rest);
      Past(b, i, [w[0]], w[1..] + rest);
      ReadsSpace(b, i + 1, w[1..], rest);
    }
  }

  lemma {:induction false} HexMoves(b: Bytes, i: nat, f: Bytes, j: nat, n: nat, cp: bv32)
    requires i + n <= |b| && j + n <= |f| && b[i..i + n] == f[j..j + n]
    ensures HexFrom(b, i, n, cp) == HexFrom(f, j, n, cp)
    decreases n
  {
    hide HexDigit, Append;
    if n > 0 {
      assert b[i] == b[i..i + n][0] && f[j] == f[j..j + n][0];
      match HexDigit(b[i])
      case None =>
      case Some(d) =>
        assert b[i + 1..i + n] == b[i..i + n][1..] && f[j + 1..j + n] == f[j..j + n][1..];
        HexMoves(b, i + 1, f, j + 1, n - 1, Append(cp, d));
    }
  }

  /** One written code point is read as itself. */
  lemma ReadsPoint(b: Bytes, i: nat, f: Bytes, c: bv32)
    requires Writes(f, c) && i + |f| <= |b| && b[i..i + |f|] == f
    ensures StringFrom(b, i) == ConsText(c, StringFrom(b, i + |f|))
  {
    hide HexFrom, ShortEscape, Surrogate;
    assert b[i] == f[0];
    if |f| == 2 {
      assert b[i + 1] == f[1];
    } else if |f| == 6 {
      assert b[i + 1] == f[1];
      assert b[i + 2..i + 6] == b[i..i + 6][2..6];
      HexMoves(b, i + 2, f, 2, 4, 0);
    }
  }

  lemma ReadsEnd(b: Bytes, i: nat, rest: Bytes)
    requires Ahead(b, i, [QUOTE] + rest)
    ensures StringFrom(b, i) == Ok(([], i + 1)) && Ahead(b, i + 1, rest)
  {
    Past(b, i, [QUOTE], rest);
  }

  lemma {:induction false} ReadsText(b: Bytes, i: nat, forms: seq<Bytes>, t: Text, rest: Bytes)
    requires WritesText(forms, t) && Ahead(b, i, Flat(forms) + ([QUOTE] + rest))
    ensures StringFrom(b, i) == Ok((t, i + |Flat(forms)| + 1))
    ensures Ahead(b, i + |Flat(forms)| + 1, rest)
    decreases |t|
  {
    hide Writes, StringFrom;
    if t == [] {
      assert Flat(forms) + ([QUOTE] + rest) == [QUOTE] + rest;
      ReadsEnd(b, i, rest);
    } else {
      var f, more := forms[0], Flat(forms[1..]) + ([QUOTE] + rest);
      assert Flat(forms) + ([QUOTE] + rest) == f + more;
      Past(b, i, f, more);
      ReadsPoint(b, i, f, t[0]);
      ReadsText(b, i + |f|, forms[1..], t[1..], rest);
      assert [t[0]] + t[1..] == t;
    }
  }

  lemma ReadsQuoted(b: Bytes, i: nat, forms: seq<Bytes>, t: Text, rest: Bytes)
    requires WritesText(forms, t) && Ahead(b, i, [QUOTE] + (Flat(forms) + ([QUOTE] + rest)))
    ensures At(b, i, QUOTE) && StringFrom(b, i + 1) == Ok((t, i + |Flat(forms)| + 2))
    ensures Ahead(b, i + |Flat(forms)| + 2, rest)
  {
    hide WritesText, StringFrom, Flat;
    Past(b, i, [QUOTE], Flat(forms) + ([QUOTE] + rest));
    ReadsText(b, i + 1, forms, t, rest);
  }

  /** Whitespace and then the byte `c`. */
  lemma ReadsMark(b: Bytes, i: nat, w: Bytes, c: bv8, rest: Bytes)
    requires AllSpace(w) && !Base64.Space(c) && Ahead(b, i, w + ([c] + rest))
    ensures SkipSpace(b, i) == i + |w| && At(b, i + |w|, c)
    ensures Ahead(b, i + |w|, [c] + rest) && Ahead(b, i + |w| + 1, rest)
  {
    hide AllSpace, SkipSpace, Base64.Space;
    ReadsSpace(b, i, w, [c] + rest);
    Past(b, i, w, [c] + rest);
    Past(b, i + |w|, [c], rest);
  }

  lemma ReadsMember(b: Bytes, i: nat, m: Member, rest: Bytes)
    requires m.Valid() && Ahead(b, i, m.Core() + rest)
    ensures At(b, i, QUOTE)
    ensures MemberFrom(b, i) == Ok((m.pair, i + |m.Core()|))
  {
    hide WritesText, StringFrom, SkipSpace, Flat, AllSpace, Ahead, Base64.Space;
    MarksAreNotSpace();
    var value := [QUOTE] + (Flat(m.value) + ([QUOTE] + rest));
    var colon := m.left + ([COLON] + (m.right + value));
    assert m.Core() + rest == [QUOTE] + (Flat(m.key) + ([QUOTE] + colon));
    ReadsQuoted(b, i, m.key, m.pair.key, colon);
    var n := i + |Flat(m.key)| + 2;
    ReadsMark(b, n, m.left, COLON, m.right + value);
    ReadsMark(b, n + |m.left| + 1, m.right, QUOTE, Flat(m.value) + ([QUOTE] + rest));
    ReadsQuoted(b, n + |m.left| + 1 + |m.right|, m.value, m.pair.value, rest);
  }

  lemma MarksAreNotSpace()
    ensures !Base64.Space(QUOTE) && !Base64.Space(COLON) && !Base64.Space(COMMA) && !Base64.Space(OPEN)
            && !Base64.Space(CLOSE)
  {
  }

  lemma {:induction false} ReadsMembers(b: Bytes, i: nat, ms: seq<Member>, trailing: bool, last: Bytes, rest: Bytes)
    requires (forall k :: 0 <= k < |ms| ==> ms[k].Valid()) && AllSpace(last)
             && Ahead(b, i, Members(ms, trailing, last, rest))
    ensures EntriesFrom(b, i) == Ok(Pairs(ms))
    decreases |ms|
  {
    hide MemberFrom, SkipSpace, Member.Valid, Member.Core, AllSpace, Ahead, Base64.Space;
    MarksAreNotSpace();
    if ms == [] {
      ReadsMark(b, i, last, CLOSE, rest);
    } else {
      var m := ms[0];
      var k := i + |m.before|;
      var j := k + |m.Core()| + |m.after|;
      if |ms| == 1 && !trailing {
        ReadsOne(b, i, m, CLOSE, rest);
        assert Pairs(ms) == [m.pair];
      } else {
        ReadsOne(b, i, m, COMMA, Members(ms[1..], trailing, last, rest));
        ReadsMembers(b, j + 1, ms[1..], trailing, last, rest);
        assert Pairs(ms) == [m.pair] + Pairs(ms[1..]);
      }
    }
  }

  /** One member with its surrounding whitespace, and the comma or brace that follows. */
  lemma ReadsOne(b: Bytes, i: nat, m: Member, end: bv8, rest: Bytes)
    requires m.Valid() && !Base64.Space(end) && Ahead(b, i, m.before + (m.Core() + (m.after + ([end] + rest))))
    ensures var k := SkipSpace(b, i);
            && k == i + |m.before| && At(b, k, QUOTE) && MemberFrom(b, k) == Ok((m.pair, k + |m.Core()|))
            && var j := k + |m.Core()| + |m.after|;
            && SkipSpace(b, k + |m.Core()|) == j && At(b, j, end) && Ahead(b, j + 1, rest)
  {
    hide MemberFrom, SkipSpace, AllSpace, WritesText, Base64.Space, Ahead;
    MarksAreNotSpace();
    var tail := m.after + ([end] + rest);
    assert (m.Core() + tail)[0] == QUOTE;
    ReadsSpace(b, i, m.before, m.Core() + tail);
    Past(b, i, m.before, m.Core() + tail);
    var k := i + |m.before|;
    ReadsMember(b, k, m, tail);
    Past(b, k, m.Core(), tail);
    ReadsMark(b, k + |m.Core()|, m.after, end, rest);
  }

  /** The scanner recovers every list of pairs from every printing of it, whatever forms its characters take,
      wherever whitespace stands, with or without a trailing comma, and whatever follows the object. */
  lemma ParseInvertsPrint(w: Bytes, ms: seq<Member>, trailing: bool, last: Bytes, rest: Bytes)
    requires (forall k :: 0 <= k < |ms| ==> ms[k].Valid()) && AllSpace(w) && AllSpace(last)
    ensures Parsed(w + ([OPEN] + Members(ms, trailing, last, rest))) == Ok(Pairs(ms))
  {
    hide EntriesFrom, SkipSpace, Members, Member.Valid, AllSpace, Base64.Space;
    MarksAreNotSpace();
    var more := Members(ms, trailing, last, rest);
    var b := w + ([OPEN] + more);
    assert b[0..] == b;
    ReadsMark(b, 0, w, OPEN, more);
    ReadsMembers(b, |w| + 1, ms, trailing, last, rest);
  }

  // ---- nothing else is accepted ----

  lemma {:induction false} SkippedIsSpace(b: Bytes, i: nat)
    requires i <= |b|
    ensures AllSpace(b[i..SkipSpace(b, i)])
    decreases |b| - i
  {
    hide Base64.Space;
    var j := SkipSpace(b, i);
    if j > i {
      SkippedIsSpace(b, i + 1);
      assert b[i..j] == [b[i]] + b[i + 1..j];
    }
  }

  /** Whitespace and what follows it. */
  lemma Skipped(b: Bytes, i: nat)
    requires i <= |b|
    ensures var j := SkipSpace(b, i); AllSpace(b[i..j]) && b[i..] == b[i..j] + b[j..]
  {
    SkippedIsSpace(b, i);
  }

  /** One step of the string scanner and the bytes it took. */
  lemma PointRead(b: Bytes, i: nat) returns (f: Bytes)
    requires i < |b| && StringFrom(b, i).Ok? && b[i] != QUOTE
    ensures f != [] && i + |f| <= |b| && b[i..] == f + b[i + |f|..]
    ensures var (t, j) := StringFrom(b, i).value;
            && t != [] && Writes(f, t[0])
            && StringFrom(b, i + |f|) == Ok((t[1..], j))
  {
    hide HexFrom, ShortEscape, Surrogate;
    var n := if b[i] != BACKSLASH then 1 else if b[i + 1] == LETTER_U then 6 else 2;
    f := b[i..i + n];
    if n == 6 {
      assert f[2..6] == b[i + 2..i + 6];
      HexMoves(b, i + 2, f, 2, 4, 0);
    }
    assert StringFrom(b, i + n).Ok?;
    var c := StringFrom(b, i).value.0[0];
    assert StringFrom(b, i) == ConsText(c, StringFrom(b, i + n));
    assert ([c] + StringFrom(b, i + n).value.0)[1..] == StringFrom(b, i + n).value.0;
  }

  /** A string that is read was written: its forms, the closing quote, and the rest. */
  lemma {:induction false} StringRead(b: Bytes, i: nat) returns (forms: seq<Bytes>)
    requires i <= |b| && StringFrom(b, i).Ok?
    ensures var (t, j) := StringFrom(b, i).value;
            WritesText(forms, t) && j <= |b| && b[i..] == Flat(forms) + ([QUOTE] + b[j..])
    decreases |b| - i
  {
    hide Writes;
    if b[i] == QUOTE {
      forms := [];
      assert b[i..] == [QUOTE] + b[i + 1..];
      assert Flat(forms) + ([QUOTE] + b[i + 1..]) == [QUOTE] + b[i + 1..];
    } else {
      hide StringFrom;
      var f := PointRead(b, i);
      var more := StringRead(b, i + |f|);
      forms := [f] + more;
      assert forms[1..] == more;
      var j := StringFrom(b, i).value.1;
      assert f + (Flat(more) + ([QUOTE] + b[j..])) == Flat(forms) + ([QUOTE] + b[j..]);
    }
  }

  /** The byte at `i`, taken off. */
  lemma Marked(b: Bytes, i: nat, c: bv8)
    requires At(b, i, c)
    ensures b[i..] == [c] + b[i + 1..]
  {
  }

  lemma MemberParts(b: Bytes, i: nat)
    requires i < |b| && MemberFrom(b, i).Ok?
    ensures StringFrom(b, i + 1).Ok?
    ensures var (key, n) := StringFrom(b, i + 1).value;
            && n <= |b| && At(b, SkipSpace(b, n), COLON)
            && var v := SkipSpace(b, SkipSpace(b, n) + 1);
            && At(b, v, QUOTE) && StringFrom(b, v + 1).Ok?
            && MemberFrom(b, i) == Ok((Pair(key, StringFrom(b, v + 1).value.0), StringFrom(b, v + 1).value.1))
  {
    hide StringFrom, SkipSpace;
  }

  lemma MemberRead(b: Bytes, i: nat, before: Bytes, after: Bytes) returns (m: Member)
    requires At(b, i, QUOTE) && MemberFrom(b, i).Ok? && AllSpace(before) && AllSpace(after)
    ensures m.Valid() && m.before == before && m.after == after
    ensures var (p, n) := MemberFrom(b, i).value; m.pair == p && n <= |b| && b[i..] == m.Core() + b[n..]
  {
    hide StringFrom, SkipSpace, Flat, WritesText, AllSpace, Member.Core, MemberFrom;
    MemberParts(b, i);
    var (key, n) := StringFrom(b, i + 1).value;
    var c := SkipSpace(b, n);
    var v := SkipSpace(b, c + 1);
    var (value, j) := StringFrom(b, v + 1).value;
    var keyForms, left, colon := QuotedRead(b, i, COLON);
    var valueForms := StringRead(b, v + 1);
    var right, quote := SpaceRead(b, c + 1);
    Marked(b, v, QUOTE);
    m := Member(Pair(key, value), keyForms, valueForms, before, left, right, after);
    CoreThen(m, b[i..], b[i + 1..], b[n..], colon, b[c + 1..], quote, b[v + 1..], b[j..]);
  }

  /** A quoted string, the whitespace after it, and the mark that follows. */
  lemma QuotedRead(b: Bytes, i: nat, mark: bv8) returns (forms: seq<Bytes>, space: Bytes, rest: Bytes)
    requires At(b, i, QUOTE) && StringFrom(b, i + 1).Ok?
    requires At(b, SkipSpace(b, StringFrom(b, i + 1).value.1), mark)
    ensures var (t, n) := StringFrom(b, i + 1).value;
            && n <= |b| && WritesText(forms, t) && AllSpace(space)
            && b[i..] == [QUOTE] + b[i + 1..] && b[i + 1..] == Flat(forms) + ([QUOTE] + b[n..])
            && b[n..] == space + rest && rest == [mark] + b[SkipSpace(b, n) + 1..]
  {
    hide StringFrom, SkipSpace, Flat, WritesText, AllSpace;
    forms := StringRead(b, i + 1);
    Marked(b, i, QUOTE);
    var n := StringFrom(b, i + 1).value.1;
    space, rest := SpaceRead(b, n);
    Marked(b, SkipSpace(b, n), mark);
  }

  lemma SpaceRead(b: Bytes, i: nat) returns (space: Bytes, rest: Bytes)
    requires i <= |b|
    ensures AllSpace(space) && b[i..] == space + rest && rest == b[SkipSpace(b, i)..]
    ensures i + |space| == SkipSpace(b, i)
  {
    hide SkipSpace, AllSpace;
    Skipped(b, i);
    space, rest := b[i..SkipSpace(b, i)], b[SkipSpace(b, i)..];
  }

  lemma CoreThen(m: Member, s: Bytes, key: Bytes, left: Bytes, colon: Bytes, right: Bytes, quote: Bytes, value: Bytes,
                 rest: Bytes)
    requires s == [QUOTE] + key && key == Flat(m.key) + ([QUOTE] + left) && left == m.left + colon
    requires colon == [COLON] + right && right == m.right + quote && quote == [QUOTE] + value
    requires value == Flat(m.value) + ([QUOTE] + rest)
    ensures s == m.Core() + rest
  {
    hide Flat;
  }

  /** The entries that are read were written as members. */
  lemma {:induction false} EntriesRead(b: Bytes, i: nat)
    returns (ms: seq<Member>, trailing: bool, last: Bytes, rest: Bytes)
    requires i <= |b| && EntriesFrom(b, i).Ok?
    ensures (forall k :: 0 <= k < |ms| ==> ms[k].Valid()) && AllSpace(last)
    ensures Pairs(ms) == EntriesFrom(b, i).value && b[i..] == Members(ms, trailing, last, rest)
    decreases |b| - i
  {
    hide MemberFrom, SkipSpace, Member.Valid, Member.Core, AllSpace, Members, Pairs;
    NoSpace();
    if At(b, SkipSpace(b, i), CLOSE) {
      var skipped, more := SpaceRead(b, i);
      Marked(b, SkipSpace(b, i), CLOSE);
      ms, trailing, last, rest := [], false, skipped, more[1..];
      NoMembers(trailing, last, rest);
    } else {
      var m, j := EntryRead(b, i);
      if At(b, j, COMMA) {
        Marked(b, j, COMMA);
        ms, trailing, last, rest := EntriesRead(b, j + 1);
        OneMore(m, ms, trailing, last, rest);
        trailing := trailing || ms == [];
        ms := [m] + ms;
      } else {
        Marked(b, j, CLOSE);
        trailing, last, rest := false, [], b[j + 1..];
        OnlyOne(m, last, rest);
        ms := [m];
      }
    }
  }

  /** The first entry with the whitespace around it, and where the mark after it stands. */
  lemma EntryRead(b: Bytes, i: nat) returns (m: Member, j: nat)
    requires i <= |b| && EntriesFrom(b, i).Ok? && !At(b, SkipSpace(b, i), CLOSE)
    ensures m.Valid() && i < j <= |b| && b[i..] == m.before + (m.Core() + (m.after + b[j..]))
    ensures At(b, j, COMMA) || At(b, j, CLOSE)
    ensures EntriesFrom(b, i) == if At(b, j, COMMA) then ConsPair(m.pair, EntriesFrom(b, j + 1)) else Ok([m.pair])
  {
    hide MemberFrom, SkipSpace, Member.Valid, Member.Core, AllSpace;
    var k := SkipSpace(b, i);
    var n := MemberFrom(b, k).value.1;
    j := SkipSpace(b, n);
    var before, core := SpaceRead(b, i);
    var after, more := SpaceRead(b, n);
    m := MemberRead(b, k, before, after);
    assert core == m.Core() + (after + more);
  }

  lemma NoSpace()
    ensures AllSpace([])
  {
  }

  lemma NoMembers(trailing: bool, last: Bytes, rest: Bytes)
    ensures Members([], trailing, last, rest) == last + ([CLOSE] + rest) && Pairs([]) == []
  {
  }

  lemma OnlyOne(m: Member, last: Bytes, rest: Bytes)
    ensures Members([m], false, last, rest) == m.before + (m.Core() + (m.after + ([CLOSE] + rest)))
    ensures Pairs([m]) == [m.pair]
  {
    hide Member.Core;
  }

  lemma OneMore(m: Member, ms: seq<Member>, trailing: bool, last: Bytes, rest: Bytes)
    ensures Members([m] + ms, trailing || ms == [], last, rest)
            == m.before + (m.Core() + (m.after + ([COMMA] + Members(ms, trailing, last, rest))))
    ensures Pairs([m] + ms) == [m.pair] + Pairs(ms)
  {
    hide Member.Core;
    assert ([m] + ms)[1..] == ms;
  }

  /** `b` is a printing of `ps`. */
  ghost predicate Prints(b: Bytes, ps: seq<Pair>) {
    exists w: Bytes, ms: seq<Member>, trailing: bool, last: Bytes, rest: Bytes ::
      && (forall k :: 0 <= k < |ms| ==> ms[k].Valid()) && AllSpace(w) && AllSpace(last)
      && Pairs(ms) == ps && b == w + ([OPEN] + Members(ms, trailing, last, rest))
  }

  /** The scanner accepts exactly the printings, and gives back what they print; so no text prints two lists. */
  lemma ParsesExactly(b: Bytes, ps: seq<Pair>)
    ensures Parsed(b) == Ok(ps) <==> Prints(b, ps)
  {
    hide EntriesFrom, SkipSpace, Members, Member.Valid, AllSpace, Pairs;
    if Prints(b, ps) {
      var w: Bytes, ms: seq<Member>, trailing: bool, last: Bytes, rest: Bytes :|
        && (forall k :: 0 <= k < |ms| ==> ms[k].Valid()) && AllSpace(w) && AllSpace(last)
        && Pairs(ms) == ps && b == w + ([OPEN] + Members(ms, trailing, last, rest));
      ParseInvertsPrint(w, ms, trailing, last, rest);
    }
    if Parsed(b) == Ok(ps) {
      var i := SkipSpace(b, 0);
      Skipped(b, 0);
      Marked(b, i, OPEN);
      var ms, trailing, last, rest := EntriesRead(b, i + 1);
      assert b[0..] == b;
      assert b == b[0..i] + ([OPEN] + Members(ms, trailing, last, rest));
    }
  }

  // ---- the tables, spelled out ----

  /** The eight short escapes of section 7 of RFC 8259, and no other. */
  lemma ShortEscapes(e: bv8, c: bv32)
    ensures ShortEscape(e) == Some(c) <==>
            || (e == 0x22 && c == 0x22) || (e == 0x5C && c == 0x5C) || (e == 0x2F && c == 0x2F)
            || (e == 0x62 && c == 0x08) || (e == 0x66 && c == 0x0C) || (e == 0x6E && c == 0x0A)
            || (e == 0x72 && c == 0x0D) || (e == 0x74 && c == 0x09)
  {
  }

  /** The hexadecimal digits in both cases, and no other byte. */
  lemma HexDigits(c: bv8, d: bv32)
    ensures HexDigit(c) == Some(d) <==>
            || (c == 0x30 && d == 0) || (c == 0x31 && d == 1) || (c == 0x32 && d == 2) || (c == 0x33 && d == 3)
            || (c == 0x34 && d == 4) || (c == 0x35 && d == 5) || (c == 0x36 && d == 6) || (c == 0x37 && d == 7)
            || (c == 0x38 && d == 8) || (c == 0x39 && d == 9)
            || ((c == 0x61 || c == 0x41) && d == 10) || ((c == 0x62 || c == 0x42) && d == 11)
            || ((c == 0x63 || c == 0x43) && d == 12) || ((c == 0x64 || c == 0x44) && d == 13)
            || ((c == 0x65 || c == 0x45) && d == 14) || ((c == 0x66 || c == 0x46) && d == 15)
  {
  }

  /** Four of them are taken most significant first, and nothing else is. */
  lemma HexFour(b: Bytes, i: nat)
    requires i + 4 <= |b|
    ensures var h0, h1, h2, h3 := HexDigit(b[i]), HexDigit(b[i + 1]), HexDigit(b[i + 2]), HexDigit(b[i + 3]);
            if h0.Some? && h1.Some? && h2.Some? && h3.Some? then
              HexFrom(b, i, 4, 0) == Ok(Append(Append(Append(Append(0, h0.value), h1.value), h2.value), h3.value))
            else HexFrom(b, i, 4, 0).Err?
  {
    hide HexDigit, Append;
    if HexDigit(b[i]).Some? {
      var c0 := Append(0, HexDigit(b[i]).value);
      assert HexFrom(b, i, 4, 0) == HexFrom(b, i + 1, 3, c0);
      if HexDigit(b[i + 1]).Some? {
        var c1 := Append(c0, HexDigit(b[i + 1]).value);
        assert HexFrom(b, i + 1, 3, c0) == HexFrom(b, i + 2, 2, c1);
        if HexDigit(b[i + 2]).Some? {
          assert HexFrom(b, i + 2, 2, c1) == HexFrom(b, i + 3, 1, Append(c1, HexDigit(b[i + 2]).value));
        }
      }
    }
  }

  /** A `\u` escape of a surrogate, D800 to DFFF, is refused wherever it stands. */
  lemma SurrogateRefused(b: Bytes, i: nat, cp: bv32)
    requires i + 6 <= |b| && b[i] == 0x5C && b[i + 1] == 0x75 && HexFrom(b, i + 2, 4, 0) == Ok(cp)
    requires 0xD800 <= cp <= 0xDFFF
    ensures StringFrom(b, i) == Err(InvalidData)
  {
    hide HexFrom, ShortEscape;
  }

  // ---- how far that reaches ----

  function Digit(d: bv32): bv8
    requires d < 16
  {
    if d < 10 then 0x30 + Base64.Low8(d) else 0x61 + Base64.Low8(d - 10)
  }

  function HexForm(c: bv32): Bytes {
    [BACKSLASH, LETTER_U, Digit((c >> 12) & 15), Digit((c >> 8) & 15), Digit((c >> 4) & 15), Digit(c & 15)]
  }

  lemma DigitValue(d: bv32)
    requires d < 16
    ensures HexDigit(Digit(d)) == Some(d)
  {
  }

  lemma Nibbles(c: bv32)
    requires c <= 0xFFFF
    ensures Append(Append(Append(Append(0, (c >> 12) & 15), (c >> 8) & 15), (c >> 4) & 15), c & 15) == c
    ensures (c >> 12) & 15 < 16 && (c >> 8) & 15 < 16 && (c >> 4) & 15 < 16 && c & 15 < 16
  {
  }

  lemma HexRoundTrip(b: Bytes, i: nat, d0: bv32, d1: bv32, d2: bv32, d3: bv32)
    requires d0 < 16 && d1 < 16 && d2 < 16 && d3 < 16 && i + 4 <= |b|
    requires b[i] == Digit(d0) && b[i + 1] == Digit(d1) && b[i + 2] == Digit(d2) && b[i + 3] == Digit(d3)
    ensures HexFrom(b, i, 4, 0) == Ok(Append(Append(Append(Append(0, d0), d1), d2), d3))
  {
    hide HexDigit, Digit, Append;
    DigitValue(d0);
    DigitValue(d1);
    DigitValue(d2);
    DigitValue(d3);
    var c1 := Append(Append(0, d0), d1);
    var c2 := Append(c1, d2);
    assert HexFrom(b, i + 3, 1, c2) == HexFrom(b, i + 4, 0, Append(c2, d3));
    assert HexFrom(b, i + 2, 2, c1) == HexFrom(b, i + 3, 1, c2);
  }

  /** Every code point of the basic plane but the surrogates can be written. */
  lemma Writable(c: bv32)
    requires c <= 0xFFFF && !Surrogate(c)
    ensures Writes(HexForm(c), c)
  {
    hide Digit, HexFrom, Surrogate, Append;
    Nibbles(c);
    var f := HexForm(c);
    HexRoundTrip(f, 2, (c >> 12) & 15, (c >> 8) & 15, (c >> 4) & 15, c & 15);
  }

  // ---- raw text ----

  predicate Scalar(c: bv32) { c <= 0x10FFFF && !Surrogate(c) }

  /** The UTF-8 encoding of a scalar value. */
  function Utf8(c: bv32): (u: Bytes)
    ensures 1 <= |u| <= 4 && (|u| == 1 <==> c < 0x80)
  {
    if c < 0x80 then [Base64.Low8(c)]
    else if c < 0x800 then [0xC0 | Base64.Low8(c >> 6), Tail(c)]
    else if c < 0x1_0000 then [0xE0 | Base64.Low8(c >> 12), Tail(c >> 6), Tail(c)]
    else [0xF0 | Base64.Low8(c >> 18), Tail(c >> 12), Tail(c >> 6), Tail(c)]
  }

  function Tail(c: bv32): bv8 { 0x80 | Base64.Low8(c & 0x3F) }

  function Utf8Text(t: Text): Bytes {
    if t == [] then [] else Utf8(t[0]) + Utf8Text(t[1..])
  }

  predicate Plain(c: bv8) { c != QUOTE && c != BACKSLASH }

  /** A scalar value that needs no escape. */
  predicate Raw(c: bv32) { Scalar(c) && c != 0x22 && c != 0x5C }

  function Widen(c: bv8): bv32 { c as bv32 }

  /** A byte run as the scanner takes it: one code point per byte. */
  function PerByte(u: Bytes): (t: Text)
    ensures |t| == |u|
  {
    seq(|u|, i requires 0 <= i < |u| => Widen(u[i]))
  }

  /** Any run without quote or backslash is read one code point per byte, up to the closing quote. */
  lemma {:induction false} ReadsRaw(b: Bytes, i: nat, u: Bytes, rest: Bytes)
    requires PlainRun(u) && Ahead(b, i, u + ([QUOTE] + rest))
    ensures StringFrom(b, i) == Ok((PerByte(u), i + |u| + 1))
    decreases |u|
  {
    if u == [] {
      assert u + ([QUOTE] + rest) == [QUOTE] + rest;
      ReadsEnd(b, i, rest);
    } else {
      var more := u[1..] + ([QUOTE] + rest);
      assert u + ([QUOTE] + rest) == [u[0]] + more;
      Past(b, i, [u[0]], more);
      ReadsRaw(b, i + 1, u[1..], rest);
      assert [Widen(u[0])] + PerByte(u[1..]) == PerByte(u);
    }
  }

  lemma Utf8Bytes(c: bv32)
    requires Raw(c)
    ensures c < 0x80 ==> Widen(Utf8(c)[0]) == c && Plain(Utf8(c)[0])
    ensures c >= 0x80 ==> forall k :: 0 <= k < |Utf8(c)| ==> Utf8(c)[k] >= 0x80 && Plain(Utf8(c)[k])
  {
    HighByte(0xC0, Base64.Low8(c >> 6));
    HighByte(0xE0, Base64.Low8(c >> 12));
    HighByte(0xF0, Base64.Low8(c >> 18));
    HighByte(0x80, Base64.Low8(c & 0x3F));
    HighByte(0x80, Base64.Low8((c >> 6) & 0x3F));
    HighByte(0x80, Base64.Low8((c >> 12) & 0x3F));
  }

  lemma HighByte(mark: bv8, x: bv8)
    requires mark >= 0x80
    ensures mark | x >= 0x80
  {
  }

  predicate RawText(t: Text) {
    forall k :: 0 <= k < |t| ==> Raw(t[k])
  }

  predicate PlainRun(u: Bytes) {
    forall k :: 0 <= k < |u| ==> Plain(u[k])
  }

  /** Written raw, a text stays free of quotes and backslashes. */
  lemma {:induction false} RawIsPlain(t: Text)
    requires RawText(t)
    ensures PlainRun(Utf8Text(t))
    decreases |t|
  {
    hide Utf8, Raw, Plain;
    if t != [] {
      assert RawText(t[1..]);
      RawIsPlain(t[1..]);
      Utf8Bytes(t[0]);
      var u := Utf8(t[0]);
      assert forall k :: 0 <= k < |u| ==> Plain(u[k]);
    }
  }

  /** It is as long as its encoding exactly when it is all ASCII. */
  lemma {:induction false} RawLength(t: Text)
    ensures |Utf8Text(t)| >= |t| && (|Utf8Text(t)| == |t| <==> Ascii(t))
    decreases |t|
  {
    hide Utf8;
    if t != [] {
      RawLength(t[1..]);
      if Ascii(t[1..]) && t[0] < 0x80 {
        forall k | 0 <= k < |t|
          ensures t[k] < 0x80
        {
          assert k > 0 ==> t[k] == t[1..][k - 1];
        }
      } else if Ascii(t) {
        assert forall k :: 0 <= k < |t[1..]| ==> t[1..][k] == t[k + 1];
      }
    }
  }

  /** Then the bytes are the characters. */
  lemma {:induction false} AsciiBytes(t: Text)
    requires RawText(t) && Ascii(t)
    ensures PerByte(Utf8Text(t)) == t
    decreases |t|
  {
    hide Utf8, Raw, Widen, Plain;
    if t != [] {
      var u, rest := Utf8(t[0]), Utf8Text(t[1..]);
      assert RawText(t[1..]) && Ascii(t[1..]);
      AsciiBytes(t[1..]);
      Utf8Bytes(t[0]);
      assert |u| == 1 && Widen(u[0]) == t[0];
      assert PerByte(u + rest) == [Widen(u[0])] + PerByte(rest);
    }
  }

  predicate Ascii(t: Text) {
    forall k :: 0 <= k < |t| ==> t[k] < 0x80
  }

  /** A string written raw, without quotes and backslashes, is recovered if and only if it is all ASCII. */
  lemma RawRecovered(b: Bytes, i: nat, t: Text, rest: Bytes)
    requires RawText(t) && Ahead(b, i, Utf8Text(t) + ([QUOTE] + rest))
    ensures StringFrom(b, i) == Ok((PerByte(Utf8Text(t)), i + |Utf8Text(t)| + 1))
    ensures StringFrom(b, i) == Ok((t, i + |Utf8Text(t)| + 1)) <==> Ascii(t)
  {
    hide Utf8Text, StringFrom, Raw, Ascii, Plain;
    RawIsPlain(t);
    ReadsRaw(b, i, Utf8Text(t), rest);
    RawLength(t);
    if Ascii(t) {
      AsciiBytes(t);
    }
  }

  /** A two-byte character comes back as two code points, wherever it stands. */
  lemma RawNonAsciiSplits(b: Bytes, i: nat, lead: bv8, tail: bv8)
    requires 0xC2 <= lead <= 0xDF && 0x80 <= tail < 0xC0 && i + 2 <= |b| && b[i] == lead && b[i + 1] == tail
    ensures StringFrom(b, i) == ConsText(Widen(lead), ConsText(Widen(tail), StringFrom(b, i + 2)))
  {
    hide HexFrom, ShortEscape, ConsText, Surrogate;
    assert StringFrom(b, i + 1) == ConsText(Widen(tail), StringFrom(b, i + 2));
  }
}
