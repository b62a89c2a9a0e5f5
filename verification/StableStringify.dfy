/** The serialiser behind the render cache key: object keys in sorted order, at every depth. */
module StableStringify {
  import opened Options
  import opened Utf16
  import opened JsonText
  import opened JsonTree

  // ---- the order of keys ----

  /** Strings are compared unit by unit. */
  predicate Less(a: Text, b: Text) {
    b != [] && (a == [] || a[0] < b[0] || (a[0] == b[0] && Less(a[1..], b[1..])))
  }

  /** The first unit in which they differ decides, and a proper prefix comes first. */
  ghost predicate DiffersAt(a: Text, b: Text, k: nat) {
    k <= |a| && k < |b| && a[..k] == b[..k] && (k == |a| || a[k] < b[k])
  }

  lemma {:induction false} LessIs(a: Text, b: Text)
    ensures Less(a, b) <==> exists k: nat :: DiffersAt(a, b, k)
  {
    if a == [] || b == [] || a[0] < b[0] {
      if b != [] { assert DiffersAt(a, b, 0); }
    } else {
      LessIs(a[1..], b[1..]);
      if a[0] == b[0] {
        if k: nat :| DiffersAt(a[1..], b[1..], k) {
          assert a[..k + 1] == [a[0]] + a[1..][..k] && b[..k + 1] == [b[0]] + b[1..][..k];
          assert DiffersAt(a, b, k + 1);
        }
      }
      if k: nat :| DiffersAt(a, b, k) {
        assert k > 0 && a[..k][0] == b[..k][0];
        assert a[1..][..k - 1] == a[..k][1..] && b[1..][..k - 1] == b[..k][1..];
        assert DiffersAt(a[1..], b[1..], k - 1);
      }
    }
  }

  lemma {:induction false} LessIsTotal(a: Text, b: Text)
    ensures a == b || Less(a, b) || Less(b, a)
    ensures !(Less(a, b) && Less(b, a)) && (a == b ==> !Less(a, b))
  {
    if a != [] && b != [] {
      LessIsTotal(a[1..], b[1..]);
      assert a == [a[0]] + a[1..] && b == [b[0]] + b[1..];
    }
  }

  lemma {:induction false} LessIsTransitive(a: Text, b: Text, c: Text)
    requires Less(a, b) && Less(b, c)
    ensures Less(a, c)
  {
    if a != [] && a[0] == b[0] == c[0] { LessIsTransitive(a[1..], b[1..], c[1..]); }
  }

  // ---- sorting ----

  function Insert(members: seq<Member>, m: Member): (r: seq<Member>)
    ensures forall x :: x in r <==> x in members || x == m
  {
    if members == [] || !Less(members[0].key, m.key) then [m] + members
    else
      assert members == [members[0]] + members[1..];
      [members[0]] + Insert(members[1..], m)
  }

  function SortByKey(members: seq<Member>): (r: seq<Member>)
    ensures forall x :: x in r <==> x in members
  {
    if members == [] then []
    else
      assert members == [members[0]] + members[1..];
      Insert(SortByKey(members[1..]), members[0])
  }

  function Present(members: seq<Member>): (r: seq<Member>)
    ensures forall x :: x in r <==> x in members && !x.value.Undefined?
  {
    if members == [] then []
    else
      assert members == [members[0]] + members[1..];
      if members[0].value.Undefined? then Present(members[1..]) else [members[0]] + Present(members[1..])
  }

  // ---- the serialiser ----

  function Stringify(v: Json): Text
    decreases v, 1, 0
  {
    match v
    case Arr(items) => [OPEN_LIST] + Items(items) + [CLOSE_LIST]
    case Obj(members) => [OPEN_OBJECT] + Entries(v, SortByKey(Present(members))) + [CLOSE_OBJECT]
    case _ => Write(v)
  }

  function Items(items: seq<Json>): Text
    decreases items, 0, 0
  {
    if items == [] then []
    else if |items| == 1 then Stringify(items[0])
    else Stringify(items[0]) + [COMMA] + Items(items[1..])
  }

  function Entry(v: Json, m: Member): Text
    requires v.Obj? && m in v.members
    decreases v, 0, 0
  {
    Quote(m.key) + [COLON] + Stringify(m.value)
  }

  function Entries(v: Json, members: seq<Member>): Text
    requires v.Obj? && forall x :: x in members ==> x in v.members
    decreases v, 0, |members|
  {
    if members == [] then []
    else if |members| == 1 then Entry(v, members[0])
    else Entry(v, members[0]) + [COMMA] + Entries(v, members[1..])
  }

  // ---- the canonical value ----

  /** What the cache key depends on: keys sorted, undefined members dropped, any other
      undefined a null. */
  function Canon(v: Json): Json {
    match v
    case Undefined => Null
    case Arr(items) => Arr(CanonItems(items))
    case Obj(members) => Obj(SortByKey(CanonMembers(members)))
    case _ => v
  }

  function CanonItems(items: seq<Json>): (r: seq<Json>)
    ensures |r| == |items| && forall i :: 0 <= i < |items| ==> r[i] == Canon(items[i])
  {
    if items == [] then [] else [Canon(items[0])] + CanonItems(items[1..])
  }

  function CanonMember(m: Member): Member {
    Member(m.key, Canon(m.value))
  }

  function CanonMembers(members: seq<Member>): seq<Member> {
    if members == [] then []
    else if members[0].value.Undefined? then CanonMembers(members[1..])
    else [CanonMember(members[0])] + CanonMembers(members[1..])
  }

  lemma {:induction false} CanonMembersIn(members: seq<Member>, c: Member)
    ensures c in CanonMembers(members) <==> exists m :: m in members && !m.value.Undefined? && c == CanonMember(m)
  {
    if members != [] {
      assert members == [members[0]] + members[1..];
      CanonMembersIn(members[1..], c);
    }
  }

  /** The member that a canonical member comes from. */
  lemma CanonSource(members: seq<Member>, c: Member) returns (i: nat)
    requires c in CanonMembers(members)
    ensures i < |members| && !members[i].value.Undefined? && c == CanonMember(members[i])
  {
    CanonMembersIn(members, c);
    var m :| m in members && !m.value.Undefined? && c == CanonMember(m);
    i :| 0 <= i < |members| && members[i] == m;
  }

  lemma CanonTarget(members: seq<Member>, i: nat)
    requires i < |members| && !members[i].value.Undefined?
    ensures CanonMember(members[i]) in CanonMembers(members)
  {
    CanonMembersIn(members, CanonMember(members[i]));
    assert members[i] in members;
  }

  lemma {:induction false} InsertCommutes(members: seq<Member>, m: Member)
    requires !m.value.Undefined? && forall x :: x in members ==> !x.value.Undefined?
    ensures CanonMembers(Insert(members, m)) == Insert(CanonMembers(members), CanonMember(m))
  {
    if members == [] || !Less(members[0].key, m.key) {
      assert ([m] + members)[1..] == members;
    } else {
      assert members == [members[0]] + members[1..];
      InsertCommutes(members[1..], m);
      assert ([members[0]] + Insert(members[1..], m))[1..] == Insert(members[1..], m);
      var canon := CanonMembers(members);
      assert canon[1..] == CanonMembers(members[1..]);
    }
  }

  lemma {:induction false} SortCommutes(members: seq<Member>)
    ensures SortByKey(CanonMembers(members)) == CanonMembers(SortByKey(Present(members)))
  {
    if members != [] {
      SortCommutes(members[1..]);
      if !members[0].value.Undefined? {
        var present := Present(members[1..]);
        assert ([members[0]] + present)[1..] == present;
        var canon := CanonMembers(members[1..]);
        assert ([CanonMember(members[0])] + canon)[1..] == canon;
        InsertCommutes(SortByKey(present), members[0]);
      }
    }
  }

  /** The serialiser writes the canonical value. */
  lemma {:induction false} StringifyWritesCanon(v: Json)
    ensures Stringify(v) == Write(Canon(v))
    decreases v, 1, 0
  {
    match v
    case Arr(items) => ItemsWriteCanon(items);
    case Obj(members) =>
      SortCommutes(members);
      EntriesWriteCanon(v, SortByKey(Present(members)));
    case _ =>
  }

  lemma {:induction false} ItemsWriteCanon(items: seq<Json>)
    ensures Items(items) == JoinItems(CanonItems(items))
    decreases items, 0, 0
  {
    if items != [] {
      StringifyWritesCanon(items[0]);
      ItemsWriteCanon(items[1..]);
      assert CanonItems(items)[1..] == CanonItems(items[1..]);
    }
  }

  lemma {:induction false} EntriesWriteCanon(v: Json, members: seq<Member>)
    requires v.Obj? && forall x :: x in members ==> x in v.members && !x.value.Undefined?
    ensures Entries(v, members) == JoinMembers(CanonMembers(members))
    decreases v, 0, |members|
  {
    if members != [] {
      assert members[0] in v.members;
      StringifyWritesCanon(members[0].value);
      EntriesWriteCanon(v, members[1..]);
      assert CanonMembers(members)[1..] == CanonMembers(members[1..]);
      assert |members| > 1 ==> CanonMembers(members[1..]) != [];
    }
  }

  // ---- equal up to key order ----

  ghost predicate DistinctKeys(members: seq<Member>) {
    forall i, j :: 0 <= i < j < |members| ==> members[i].key != members[j].key
  }

  /** What every value of the source language satisfies: an object has each key once, and a
      number's text is a number. */
  ghost predicate WellFormed(v: Json) {
    match v
    case Num(d) => IsNumber(d)
    case Arr(items) => forall i :: 0 <= i < |items| ==> WellFormed(items[i])
    case Obj(members) => DistinctKeys(members) && forall i :: 0 <= i < |members| ==> WellFormed(members[i].value)
    case _ => true
  }

  /** Equal up to the order of keys at every depth, an undefined member counting as absent
      and any other undefined as null. */
  ghost predicate Same(a: Json, b: Json)
    decreases a, 1
  {
    match a
    case Undefined => b.Undefined? || b.Null?
    case Null => b.Undefined? || b.Null?
    case Arr(xs) => b.Arr? && |xs| == |b.items| && forall i :: 0 <= i < |xs| ==> Same(xs[i], b.items[i])
    case Obj(ms) => b.Obj? && Covered(ms, b.members) && Covering(ms, b.members)
    case _ => a == b
  }

  /** Every member of the first list has its match in the second. */
  ghost predicate Covered(ms: seq<Member>, ns: seq<Member>)
    decreases ms, 3
  {
    forall i :: 0 <= i < |ms| && !ms[i].value.Undefined? ==> exists j :: 0 <= j < |ns| && SameMember(ms[i], ns[j])
  }

  /** Every member of the second list has its match in the first. */
  ghost predicate Covering(ms: seq<Member>, ns: seq<Member>)
    decreases ms, 3
  {
    forall j :: 0 <= j < |ns| && !ns[j].value.Undefined? ==> exists i :: 0 <= i < |ms| && SameMember(ms[i], ns[j])
  }

  ghost predicate SameMember(m: Member, n: Member)
    decreases m, 2
  {
    m.key == n.key && !m.value.Undefined? && !n.value.Undefined? && Same(m.value, n.value)
  }

  // ---- sorted lists are unique ----

  ghost predicate Ascending(members: seq<Member>) {
    forall i, j :: 0 <= i < j < |members| ==> Less(members[i].key, members[j].key)
  }

  lemma {:induction false} InsertAscending(members: seq<Member>, m: Member)
    requires Ascending(members) && forall x :: x in members ==> x.key != m.key
    ensures Ascending(Insert(members, m))
  {
    if members != [] {
      assert members[0] in members;
      LessIsTotal(members[0].key, m.key);
      if Less(members[0].key, m.key) {
        assert members == [members[0]] + members[1..];
        InsertAscending(members[1..], m);
        var tail := Insert(members[1..], m);
        forall j | 0 <= j < |tail| ensures Less(members[0].key, tail[j].key) {
          assert tail[j] in tail;
        }
      } else {
        forall j | 0 < j < |members| ensures Less(m.key, members[j].key) {
          LessIsTransitive(m.key, members[0].key, members[j].key);
        }
      }
    }
  }

  lemma {:induction false} SortAscending(members: seq<Member>)
    requires DistinctKeys(members)
    ensures Ascending(SortByKey(members))
  {
    if members != [] {
      SortAscending(members[1..]);
      forall x | x in members[1..] ensures x.key != members[0].key {
        var i :| 0 <= i < |members| - 1 && members[1..][i] == x;
        assert members[1..][i] == members[i + 1];
      }
      InsertAscending(SortByKey(members[1..]), members[0]);
    }
  }

  lemma TailMember(a: seq<Member>, x: Member)
    requires a != [] && Ascending(a)
    ensures x in a[1..] <==> x in a && x != a[0]
  {
    assert a == [a[0]] + a[1..];
    forall i | 0 < i < |a| ensures a[i] != a[0] {
      LessIsTotal(a[0].key, a[i].key);
    }
  }

  lemma HeadLeast(a: seq<Member>, x: Member)
    requires Ascending(a) && x in a
    ensures x == a[0] || Less(a[0].key, x.key)
  {
  }

  /** Two ascending lists with the same members are the same list. */
  lemma {:induction false} AscendingUnique(a: seq<Member>, b: seq<Member>)
    requires Ascending(a) && Ascending(b) && forall x :: x in a <==> x in b
    ensures a == b
  {
    if b != [] { assert b[0] in b; }
    if a != [] {
      assert a[0] in a;
      HeadLeast(a, b[0]);
      HeadLeast(b, a[0]);
      LessIsTotal(a[0].key, b[0].key);
      forall x ensures x in a[1..] <==> x in b[1..] {
        TailMember(a, x);
        TailMember(b, x);
      }
      AscendingUnique(a[1..], b[1..]);
      assert a == [a[0]] + a[1..] && b == [b[0]] + b[1..];
    }
  }

  lemma {:induction false} CanonKeysDistinct(members: seq<Member>)
    requires DistinctKeys(members)
    ensures DistinctKeys(CanonMembers(members))
  {
    if members != [] {
      CanonKeysDistinct(members[1..]);
      var rest := CanonMembers(members[1..]);
      forall j | 0 <= j < |rest| ensures rest[j].key != members[0].key {
        assert rest[j] in rest;
        var i := CanonSource(members[1..], rest[j]);
        assert members[1..][i] == members[i + 1];
      }
    }
  }

  // ---- the canonical value decides ----

  /** Canonical members agree exactly where the members themselves match. */
  ghost predicate Agree(ms: seq<Member>, ns: seq<Member>) {
    forall i, j :: 0 <= i < |ms| && 0 <= j < |ns| ==>
      (SameMember(ms[i], ns[j]) <==>
         !ms[i].value.Undefined? && !ns[j].value.Undefined? && CanonMember(ms[i]) == CanonMember(ns[j]))
  }

  ghost predicate Within(a: seq<Member>, b: seq<Member>) {
    forall c :: c in a ==> c in b
  }

  lemma CoveredIsWithin(ms: seq<Member>, ns: seq<Member>)
    requires Agree(ms, ns) && Covered(ms, ns)
    ensures Within(CanonMembers(ms), CanonMembers(ns))
  {
    forall c | c in CanonMembers(ms) ensures c in CanonMembers(ns) {
      var i := CanonSource(ms, c);
      var j: nat :| j < |ns| && SameMember(ms[i], ns[j]);
      CanonTarget(ns, j);
    }
  }

  lemma WithinIsCovered(ms: seq<Member>, ns: seq<Member>)
    requires Agree(ms, ns) && Within(CanonMembers(ms), CanonMembers(ns))
    ensures Covered(ms, ns)
  {
    forall i | 0 <= i < |ms| && !ms[i].value.Undefined? ensures exists j :: 0 <= j < |ns| && SameMember(ms[i], ns[j]) {
      CanonTarget(ms, i);
      var j := CanonSource(ns, CanonMember(ms[i]));
      assert SameMember(ms[i], ns[j]);
    }
  }

  lemma CoveringIsWithin(ms: seq<Member>, ns: seq<Member>)
    requires Agree(ms, ns) && Covering(ms, ns)
    ensures Within(CanonMembers(ns), CanonMembers(ms))
  {
    forall c | c in CanonMembers(ns) ensures c in CanonMembers(ms) {
      var j := CanonSource(ns, c);
      var i: nat :| i < |ms| && SameMember(ms[i], ns[j]);
      CanonTarget(ms, i);
    }
  }

  lemma WithinIsCovering(ms: seq<Member>, ns: seq<Member>)
    requires Agree(ms, ns) && Within(CanonMembers(ns), CanonMembers(ms))
    ensures Covering(ms, ns)
  {
    forall j | 0 <= j < |ns| && !ns[j].value.Undefined? ensures exists i :: 0 <= i < |ms| && SameMember(ms[i], ns[j]) {
      CanonTarget(ns, j);
      var i := CanonSource(ms, CanonMember(ns[j]));
      assert SameMember(ms[i], ns[j]);
    }
  }

  /** Sorting forgets the order and nothing else. */
  lemma SortedIffSameMembers(a: seq<Member>, b: seq<Member>)
    requires DistinctKeys(a) && DistinctKeys(b)
    ensures SortByKey(a) == SortByKey(b) <==> Within(a, b) && Within(b, a)
  {
    if Within(a, b) && Within(b, a) {
      SortAscending(a);
      SortAscending(b);
      AscendingUnique(SortByKey(a), SortByKey(b));
    }
    if SortByKey(a) == SortByKey(b) {
      forall c ensures c in a <==> c in b {
        assert c in SortByKey(a) <==> c in a;
        assert c in SortByKey(b) <==> c in b;
      }
    }
  }

  lemma SortedIffMatched(ms: seq<Member>, ns: seq<Member>)
    requires Agree(ms, ns) && DistinctKeys(ms) && DistinctKeys(ns)
    ensures SortByKey(CanonMembers(ms)) == SortByKey(CanonMembers(ns)) <==> Covered(ms, ns) && Covering(ms, ns)
  {
    CanonKeysDistinct(ms);
    CanonKeysDistinct(ns);
    SortedIffSameMembers(CanonMembers(ms), CanonMembers(ns));
    if Covered(ms, ns) && Covering(ms, ns) {
      CoveredIsWithin(ms, ns);
      CoveringIsWithin(ms, ns);
    }
    if Within(CanonMembers(ms), CanonMembers(ns)) && Within(CanonMembers(ns), CanonMembers(ms)) {
      WithinIsCovered(ms, ns);
      WithinIsCovering(ms, ns);
    }
  }

  /** Two values have the same canonical form exactly if they are equal up to key order. */
  lemma {:induction false} SameIffCanon(a: Json, b: Json)
    requires WellFormed(a) && WellFormed(b)
    ensures Canon(a) == Canon(b) <==> Same(a, b)
    decreases a
  {
    if a.Arr? && b.Arr? && |a.items| == |b.items| {
      forall i | 0 <= i < |a.items| ensures Canon(a.items[i]) == Canon(b.items[i]) <==> Same(a.items[i], b.items[i]) {
        SameIffCanon(a.items[i], b.items[i]);
      }
      ItemsEqualIff(a.items, b.items);
    } else if a.Obj? && b.Obj? {
      forall i, j | 0 <= i < |a.members| && 0 <= j < |b.members|
        ensures Canon(a.members[i].value) == Canon(b.members[j].value) <==> Same(a.members[i].value, b.members[j].value)
      {
        SameIffCanon(a.members[i].value, b.members[j].value);
      }
      assert Agree(a.members, b.members);
      SortedIffMatched(a.members, b.members);
    } else if a.Arr? && b.Arr? {
      assert |CanonItems(a.items)| != |CanonItems(b.items)|;
    }
  }

  lemma ItemsEqualIff(xs: seq<Json>, ys: seq<Json>)
    requires |xs| == |ys|
    ensures CanonItems(xs) == CanonItems(ys) <==> forall i :: 0 <= i < |xs| ==> Canon(xs[i]) == Canon(ys[i])
  {
    var a, b := CanonItems(xs), CanonItems(ys);
    assert a == b <==> forall i :: 0 <= i < |xs| ==> a[i] == b[i];
  }

  lemma {:induction false} CanonIsProper(v: Json)
    requires WellFormed(v)
    ensures Proper(Canon(v))
    decreases v
  {
    match v
    case Arr(items) =>
      forall i | 0 <= i < |items| ensures Proper(Canon(items[i])) {
        CanonIsProper(items[i]);
      }
    case Obj(members) =>
      var canon := SortByKey(CanonMembers(members));
      forall k | 0 <= k < |canon| ensures Proper(canon[k].value) {
        assert canon[k] in canon;
        var i := CanonSource(members, canon[k]);
        CanonIsProper(members[i].value);
      }
    case _ =>
  }

  // ---- the result ----

  /** The text can be read, and gives the canonical value. */
  lemma StringifyReadsBack(v: Json)
    requires WellFormed(v)
    ensures Parse(Stringify(v)) == Some((Canon(v), []))
  {
    StringifyWritesCanon(v);
    CanonIsProper(v);
    ReadsBack(Canon(v));
  }

  /** Two values get the same text exactly if they are equal up to key order at every depth. */
  lemma SameTextIffSame(a: Json, b: Json)
    requires WellFormed(a) && WellFormed(b)
    ensures Stringify(a) == Stringify(b) <==> Same(a, b)
  {
    StringifyReadsBack(a);
    StringifyReadsBack(b);
    StringifyWritesCanon(a);
    StringifyWritesCanon(b);
    SameIffCanon(a, b);
  }
}
