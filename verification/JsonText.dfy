/** JSON texts (RFC 8259) as UTF-16 code units: a writer, a reader, and their round trip. */
module JsonText {
  import opened Options
  import opened Seqs
  import opened Utf16

  /** A value that a caller can pass. A number is its JSON text; Undefined is no JSON value,
      but a caller's object may hold it. */
  datatype Json =
    | Undefined
    | Null
    | Bool(truth: bool)
    | Num(digits: Text)
    | Str(text: Text)
    | Arr(items: seq<Json>)
    | Obj(members: seq<Member>)

  datatype Member = Member(key: Text, value: Json)

  const QUOTE: nat := 0x22
  const BACKSLASH: nat := 0x5C
  const COMMA: nat := 0x2C
  const COLON: nat := 0x3A
  const OPEN_LIST: nat := 0x5B
  const CLOSE_LIST: nat := 0x5D
  const OPEN_OBJECT: nat := 0x7B
  const CLOSE_OBJECT: nat := 0x7D
  const NULL: Text := [0x6E, 0x75, 0x6C, 0x6C]
  const TRUE: Text := [0x74, 0x72, 0x75, 0x65]
  const FALSE: Text := [0x66, 0x61, 0x6C, 0x73, 0x65]

  // ---- strings ----

  function HexDigit(d: nat): nat
    requires d < 16
  {
    if d < 10 then 0x30 + d else 0x57 + d
  }

  function HexValue(c: nat): (d: Option<nat>)
    ensures d.Some? ==> d.value < 16
  {
    if 0x30 <= c < 0x3A then Some(c - 0x30) else if 0x61 <= c < 0x67 then Some(c - 0x57) else None
  }

  function Hex(u: nat): Text
    requires u < 0x10000
  {
    [BACKSLASH, 0x75, HexDigit(u / 0x1000), HexDigit(u / 0x100 % 16), HexDigit(u / 16 % 16), HexDigit(u % 16)]
  }

  /** The letter of a two-character escape. */
  function Short(u: nat): Option<nat> {
    if u == QUOTE || u == BACKSLASH then Some(u)
    else if u == 0x08 then Some(0x62)
    else if u == 0x0C then Some(0x66)
    else if u == 0x0A then Some(0x6E)
    else if u == 0x0D then Some(0x72)
    else if u == 0x09 then Some(0x74)
    else None
  }

  function Unshort(c: nat): Option<nat> {
    if c == QUOTE || c == BACKSLASH then Some(c)
    else if c == 0x62 then Some(0x08)
    else if c == 0x66 then Some(0x0C)
    else if c == 0x6E then Some(0x0A)
    else if c == 0x72 then Some(0x0D)
    else if c == 0x74 then Some(0x09)
    else None
  }

  /** A unit that is not part of a surrogate pair. */
  function EscapeUnit(u: nat): Text {
    if Short(u).Some? then [BACKSLASH, Short(u).value]
    else if u < 0x20 || High(u) || Low(u) then Hex(u)
    else [u]
  }

  /** What `JSON.stringify` puts between the quotes: surrogate pairs stay, lone surrogates
      and control characters are escaped. */
  function Escape(s: Text): Text {
    if s == [] then []
    else if |s| >= 2 && High(s[0]) && Low(s[1]) then [s[0], s[1]] + Escape(s[2..])
    else EscapeUnit(s[0]) + Escape(s[1..])
  }

  function Quote(s: Text): Text {
    [QUOTE] + Escape(s) + [QUOTE]
  }

  /** One unit of a string, and what is left. */
  function ReadUnit(t: Text): (r: Option<(nat, Text)>)
    ensures r.Some? ==> |r.value.1| < |t|
  {
    if t == [] then None
    else if t[0] != BACKSLASH then Some((t[0], t[1..]))
    else if |t| < 2 then None
    else if Unshort(t[1]).Some? then Some((Unshort(t[1]).value, t[2..]))
    else if t[1] == 0x75 && |t| >= 6 then
      match (HexValue(t[2]), HexValue(t[3]), HexValue(t[4]), HexValue(t[5]))
      case (Some(a), Some(b), Some(c), Some(d)) => Some((0x1000 * a + 0x100 * b + 16 * c + d, t[6..]))
      case _ => None
    else None
  }

  /** The units up to the closing quote, and what follows it. */
  function Unescape(t: Text): (r: Option<(Text, Text)>)
    ensures r.Some? ==> |r.value.1| < |t|
    decreases |t|
  {
    if t != [] && t[0] == QUOTE then Some(([], t[1..]))
    else
      match ReadUnit(t)
      case None => None
      case Some((u, rest)) =>
        match Unescape(rest)
        case None => None
        case Some((s, after)) => Some(([u] + s, after))
  }

  lemma HexReads(u: nat, x: Text)
    requires u < 0x10000
    ensures ReadUnit(Hex(u) + x) == Some((u, x))
  {
    var t := Hex(u) + x;
    assert t[6..] == x;
    HexDigits(u);
  }

  lemma HexDigits(u: nat)
    requires u < 0x10000
    ensures u / 0x1000 < 16 && 0x1000 * (u / 0x1000) + 0x100 * (u / 0x100 % 16) + 16 * (u / 16 % 16) + u % 16 == u
  {
    assert u / 0x100 == 16 * (u / 0x1000) + u / 0x100 % 16;
    assert u / 16 == 16 * (u / 0x100) + u / 16 % 16;
  }

  lemma UnitReads(u: nat, x: Text)
    ensures ReadUnit(EscapeUnit(u) + x) == Some((u, x)) && EscapeUnit(u)[0] != QUOTE
  {
    var t := EscapeUnit(u) + x;
    if Short(u).Some? {
      assert t[2..] == x;
    } else if u < 0x20 || High(u) || Low(u) {
      HexReads(u, x);
    } else {
      assert t[1..] == x;
    }
  }

  /** An escaped unit in front of a string that can be read. */
  lemma UnitInFront(u: nat, t: Text)
    requires Unescape(t).Some?
    ensures Unescape(EscapeUnit(u) + t) == Some(([u] + Unescape(t).value.0, Unescape(t).value.1))
  {
    UnitReads(u, t);
    assert (EscapeUnit(u) + t)[0] == EscapeUnit(u)[0];
  }

  lemma PlainInFront(u: nat, t: Text)
    requires u != QUOTE && u != BACKSLASH && Unescape(t).Some?
    ensures Unescape([u] + t) == Some(([u] + Unescape(t).value.0, Unescape(t).value.1))
  {
    assert ([u] + t)[1..] == t;
  }

  lemma PairInFront(u: nat, v: nat, t: Text)
    requires High(u) && Low(v) && Unescape(t).Some?
    ensures Unescape([u, v] + t) == Some(([u, v] + Unescape(t).value.0, Unescape(t).value.1))
  {
    var s := Unescape(t).value.0;
    PlainInFront(v, t);
    PlainInFront(u, [v] + t);
    TwoInFront(u, v, t);
    TwoInFront(u, v, s);
  }

  lemma TwoInFront(u: nat, v: nat, t: Text)
    ensures [u] + ([v] + t) == [u, v] + t
  {
  }

  /** Reading an escaped string gives it back, whatever follows the closing quote. */
  lemma {:induction false} UnescapeReads(s: Text, x: Text)
    ensures Unescape(Escape(s) + ([QUOTE] + x)) == Some((s, x))
    decreases |s|
  {
    var end := [QUOTE] + x;
    if s == [] {
      assert [] + end == end && end[1..] == x;
    } else if |s| >= 2 && High(s[0]) && Low(s[1]) {
      UnescapeReads(s[2..], x);
      Assoc([s[0], s[1]], Escape(s[2..]), end);
      PairInFront(s[0], s[1], Escape(s[2..]) + end);
      assert [s[0], s[1]] + s[2..] == s;
    } else {
      UnescapeReads(s[1..], x);
      Assoc(EscapeUnit(s[0]), Escape(s[1..]), end);
      UnitInFront(s[0], Escape(s[1..]) + end);
      assert [s[0]] + s[1..] == s;
    }
  }
}
