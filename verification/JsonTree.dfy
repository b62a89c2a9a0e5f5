/** Whole JSON values as text, and back. */
module JsonTree {
  import opened Options
  import opened Utf16
  import opened JsonText

  predicate NumChar(c: nat) {
    0x30 <= c < 0x3A || c == 0x2D || c == 0x2B || c == 0x2E || c == 0x65 || c == 0x45
  }

  predicate IsNumber(t: Text) {
    t != [] && forall i :: 0 <= i < |t| ==> NumChar(t[i])
  }

  // ---- writing ----

  function Write(v: Json): Text {
    match v
    case Undefined => NULL
    case Null => NULL
    case Bool(b) => if b then TRUE else FALSE
    case Num(d) => d
    case Str(s) => Quote(s)
    case Arr(items) => [OPEN_LIST] + JoinItems(items) + [CLOSE_LIST]
    case Obj(members) => [OPEN_OBJECT] + JoinMembers(members) + [CLOSE_OBJECT]
  }

  function JoinItems(items: seq<Json>): Text {
    if items == [] then []
    else if |items| == 1 then Write(items[0])
    else Write(items[0]) + [COMMA] + JoinItems(items[1..])
  }

  function WriteMember(m: Member): Text {
    Quote(m.key) + [COLON] + Write(m.value)
  }

  function JoinMembers(members: seq<Member>): Text {
    if members == [] then []
    else if |members| == 1 then WriteMember(members[0])
    else WriteMember(members[0]) + [COMMA] + JoinMembers(members[1..])
  }

  /** The tokens of RFC 8259, written out. */
  lemma TokensAre()
    ensures Write(Null) == Units("null") && Write(Bool(true)) == Units("true") && Write(Bool(false)) == Units("false")
    ensures [OPEN_LIST, COMMA, CLOSE_LIST] == Units("[,]")
    ensures [OPEN_OBJECT, QUOTE, COLON, CLOSE_OBJECT] == Units("{\":}")
  {
  }

  /** How a unit stands inside quotes: by a letter, by four hexadecimal digits, or as it is. */
  lemma EscapesAre(u: nat)
    ensures u < 0x10000 && !(u < 0x20 || u == 0x22 || u == 0x5C || High(u) || Low(u)) ==> EscapeUnit(u) == [u]
    ensures EscapeUnit(0x22) == Units("\\\"") && EscapeUnit(0x5C) == Units("\\\\")
    ensures EscapeUnit(0x08) == Units("\\b") && EscapeUnit(0x0C) == Units("\\f") && EscapeUnit(0x0A) == Units("\\n")
    ensures EscapeUnit(0x0D) == Units("\\r") && EscapeUnit(0x09) == Units("\\t")
    ensures EscapeUnit(0x1F) == Units("\\u001f") && EscapeUnit(0xD8AB) == Units("\\ud8ab")
  {
  }

  // ---- reading ----

  function NumLength(t: Text): (n: nat)
    ensures n <= |t| && (forall i :: 0 <= i < n ==> NumChar(t[i])) && (n < |t| ==> !NumChar(t[n]))
  {
    if t != [] && NumChar(t[0]) then 1 + NumLength(t[1..]) else 0
  }

  function Parse(t: Text): (r: Option<(Json, Text)>)
    ensures r.Some? ==> |r.value.1| < |t|
    decreases |t|, 0
  {
    if t == [] then None
    else if t[0] == QUOTE then
      match Unescape(t[1..])
      case None => None
      case Some((s, rest)) => Some((Str(s), rest))
    else if t[0] == OPEN_LIST then
      if |t| > 1 && t[1] == CLOSE_LIST then Some((Arr([]), t[2..]))
      else
        match ParseItems(t[1..])
        case None => None
        case Some((items, rest)) => Some((Arr(items), rest))
    else if t[0] == OPEN_OBJECT then
      if |t| > 1 && t[1] == CLOSE_OBJECT then Some((Obj([]), t[2..]))
      else
        match ParseMembers(t[1..])
        case None => None
        case Some((members, rest)) => Some((Obj(members), rest))
    else if NumChar(t[0]) then Some((Num(t[..NumLength(t)]), t[NumLength(t)..]))
    else if NULL <= t then Some((Null, t[4..]))
    else if TRUE <= t then Some((Bool(true), t[4..]))
    else if FALSE <= t then Some((Bool(false), t[5..]))
    else None
  }

  function ParseItems(t: Text): (r: Option<(seq<Json>, Text)>)
    ensures r.Some? ==> |r.value.1| < |t|
    decreases |t|, 1
  {
    match Parse(t)
    case None => None
    case Some((v, rest)) =>
      if rest != [] && rest[0] == CLOSE_LIST then Some(([v], rest[1..]))
      else if rest != [] && rest[0] == COMMA then
        match ParseItems(rest[1..])
        case None => None
        case Some((items, after)) => Some(([v] + items, after))
      else None
  }

  function ParseMember(t: Text): (r: Option<(Member, Text)>)
    ensures r.Some? ==> |r.value.1| < |t|
    decreases |t|, 1
  {
    if t == [] || t[0] != QUOTE then None
    else
      match Unescape(t[1..])
      case None => None
      case Some((key, rest)) =>
        if rest == [] || rest[0] != COLON then None
        else
          match Parse(rest[1..])
          case None => None
          case Some((v, after)) => Some((Member(key, v), after))
  }

  function ParseMembers(t: Text): (r: Option<(seq<Member>, Text)>)
    ensures r.Some? ==> |r.value.1| < |t|
    decreases |t|, 2
  {
    match ParseMember(t)
    case None => None
    case Some((m, rest)) =>
      if rest != [] && rest[0] == CLOSE_OBJECT then Some(([m], rest[1..]))
      else if rest != [] && rest[0] == COMMA then
        match ParseMembers(rest[1..])
        case None => None
        case Some((members, after)) => Some(([m] + members, after))
      else None
  }

  // ---- reading back what was written ----

  /** A JSON value proper: no Undefined in it, and numbers that are numbers. */
  predicate Proper(v: Json) {
    match v
    case Undefined => false
    case Num(d) => IsNumber(d)
    case Arr(items) => forall i :: 0 <= i < |items| ==> Proper(items[i])
    case Obj(members) => forall i :: 0 <= i < |members| ==> Proper(members[i].value)
    case _ => true
  }

  /** What may follow a value: nothing that would prolong a number. */
  predicate Ends(x: Text) {
    x == [] || !NumChar(x[0])
  }

  lemma {:induction false} NumReads(d: Text, x: Text)
    requires IsNumber(d) && Ends(x)
    ensures NumLength(d + x) == |d|
  {
    assert (d + x)[1..] == d[1..] + x;
    if |d| > 1 { NumReads(d[1..], x); } else { assert d[1..] + x == x; }
  }

  lemma LeafReads(v: Json, x: Text)
    requires Proper(v) && Ends(x) && (v.Null? || v.Bool? || v.Num?)
    ensures Parse(Write(v) + x) == Some((v, x))
  {
    var w := Write(v);
    assert (w + x)[0] == w[0] && w <= w + x && (w + x)[|w|..] == x && (w + x)[..|w|] == w;
    if v.Num? { NumReads(w, x); }
  }

  lemma QuoteReads(s: Text, x: Text)
    ensures var t := Quote(s) + x; t != [] && t[0] == QUOTE && Unescape(t[1..]) == Some((s, x))
  {
    UnescapeReads(s, x);
    assert (Quote(s) + x)[1..] == Escape(s) + ([QUOTE] + x);
  }

  // One step of each reading function, on texts of the right shape.

  lemma ListStep(body: Text, items: seq<Json>, x: Text)
    requires body != [] && body[0] != CLOSE_LIST && ParseItems(body) == Some((items, x))
    ensures Parse([OPEN_LIST] + body) == Some((Arr(items), x))
  {
    assert ([OPEN_LIST] + body)[1..] == body;
  }

  lemma ObjectStep(body: Text, members: seq<Member>, x: Text)
    requires body != [] && body[0] != CLOSE_OBJECT && ParseMembers(body) == Some((members, x))
    ensures Parse([OPEN_OBJECT] + body) == Some((Obj(members), x))
  {
    assert ([OPEN_OBJECT] + body)[1..] == body;
  }

  lemma EmptyStep(x: Text)
    ensures Parse([OPEN_LIST, CLOSE_LIST] + x) == Some((Arr([]), x))
    ensures Parse([OPEN_OBJECT, CLOSE_OBJECT] + x) == Some((Obj([]), x))
  {
    assert ([OPEN_LIST, CLOSE_LIST] + x)[2..] == x && ([OPEN_OBJECT, CLOSE_OBJECT] + x)[2..] == x;
  }

  lemma LastItem(t: Text, v: Json, x: Text)
    requires Parse(t) == Some((v, [CLOSE_LIST] + x))
    ensures ParseItems(t) == Some(([v], x))
  {
    assert ([CLOSE_LIST] + x)[1..] == x;
  }

  lemma NextItem(t: Text, v: Json, rest: Text, items: seq<Json>, x: Text)
    requires Parse(t) == Some((v, [COMMA] + rest)) && ParseItems(rest) == Some((items, x))
    ensures ParseItems(t) == Some(([v] + items, x))
  {
    assert ([COMMA] + rest)[1..] == rest;
  }

  lemma LastMember(t: Text, m: Member, x: Text)
    requires ParseMember(t) == Some((m, [CLOSE_OBJECT] + x))
    ensures ParseMembers(t) == Some(([m], x))
  {
    assert ([CLOSE_OBJECT] + x)[1..] == x;
  }

  lemma NextMember(t: Text, m: Member, rest: Text, members: seq<Member>, x: Text)
    requires ParseMember(t) == Some((m, [COMMA] + rest)) && ParseMembers(rest) == Some((members, x))
    ensures ParseMembers(t) == Some(([m] + members, x))
  {
    assert ([COMMA] + rest)[1..] == rest;
  }

  lemma MemberStep(key: Text, body: Text, v: Json, x: Text)
    requires Parse(body) == Some((v, x))
    ensures ParseMember(Quote(key) + ([COLON] + body)) == Some((Member(key, v), x))
  {
    QuoteReads(key, [COLON] + body);
    assert ([COLON] + body)[1..] == body;
  }

  lemma Regroup(a: Text, b: Text, c: Text, d: Text)
    ensures (a + b + c) + d == a + (b + (c + d))
  {
  }

  lemma {:induction false} ValueReads(v: Json, x: Text)
    requires Proper(v) && Ends(x)
    ensures Parse(Write(v) + x) == Some((v, x))
    decreases v, 3
  {
    match v
    case Str(s) => QuoteReads(s, x);
    case Arr(items) =>
      if items == [] {
        EmptyStep(x);
        assert Write(v) == [OPEN_LIST, CLOSE_LIST];
      } else {
        ItemsRead(items, x);
        StartsValue(items[0], JoinItems(items), [CLOSE_LIST] + x);
        ListStep(JoinItems(items) + ([CLOSE_LIST] + x), items, x);
        Regroup([OPEN_LIST], JoinItems(items), [CLOSE_LIST], x);
      }
    case Obj(members) =>
      if members == [] {
        EmptyStep(x);
        assert Write(v) == [OPEN_OBJECT, CLOSE_OBJECT];
      } else {
        MembersRead(members, x);
        ObjectStep(JoinMembers(members) + ([CLOSE_OBJECT] + x), members, x);
        Regroup([OPEN_OBJECT], JoinMembers(members), [CLOSE_OBJECT], x);
      }
    case _ => LeafReads(v, x);
  }

  lemma StartsValue(v: Json, t: Text, x: Text)
    requires Proper(v) && Write(v) <= t
    ensures (t + x) != [] && (t + x)[0] != CLOSE_LIST
  {
    assert Write(v) != [] && t[0] == Write(v)[0];
  }

  lemma {:induction false} ItemsRead(items: seq<Json>, x: Text)
    requires items != [] && forall i :: 0 <= i < |items| ==> Proper(items[i])
    ensures ParseItems(JoinItems(items) + ([CLOSE_LIST] + x)) == Some((items, x))
    decreases items, 2
  {
    var end := [CLOSE_LIST] + x;
    assert items == [items[0]] + items[1..] && (|items| == 1 ==> items == [items[0]]);
    if |items| == 1 {
      ValueReads(items[0], end);
      LastItem(Write(items[0]) + end, items[0], x);
    } else {
      var rest := JoinItems(items[1..]) + end;
      ValueReads(items[0], [COMMA] + rest);
      ItemsRead(items[1..], x);
      NextItem(Write(items[0]) + ([COMMA] + rest), items[0], rest, items[1..], x);
      Regroup(Write(items[0]), [COMMA], JoinItems(items[1..]), end);
    }
  }

  lemma {:induction false} MemberReads(m: Member, x: Text)
    requires Proper(m.value) && Ends(x)
    ensures ParseMember(WriteMember(m) + x) == Some((m, x))
    decreases m, 4
  {
    ValueReads(m.value, x);
    MemberStep(m.key, Write(m.value) + x, m.value, x);
    Regroup(Quote(m.key), [COLON], Write(m.value), x);
  }

  lemma {:induction false} MembersRead(members: seq<Member>, x: Text)
    requires members != [] && forall i :: 0 <= i < |members| ==> Proper(members[i].value)
    ensures ParseMembers(JoinMembers(members) + ([CLOSE_OBJECT] + x)) == Some((members, x))
    decreases members, 5
  {
    var end := [CLOSE_OBJECT] + x;
    assert members == [members[0]] + members[1..] && (|members| == 1 ==> members == [members[0]]);
    if |members| == 1 {
      MemberReads(members[0], end);
      LastMember(WriteMember(members[0]) + end, members[0], x);
    } else {
      var rest := JoinMembers(members[1..]) + end;
      MemberReads(members[0], [COMMA] + rest);
      MembersRead(members[1..], x);
      NextMember(WriteMember(members[0]) + ([COMMA] + rest), members[0], rest, members[1..], x);
      Regroup(WriteMember(members[0]), [COMMA], JoinMembers(members[1..]), end);
    }
  }

  /** Reading a written value gives the value back. */
  lemma ReadsBack(v: Json)
    requires Proper(v)
    ensures Parse(Write(v)) == Some((v, []))
  {
    ValueReads(v, []);
    assert Write(v) + [] == Write(v);
  }
}
