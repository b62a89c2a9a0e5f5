/** Cutting a tool result to a byte budget. */
module TruncateText {
  import opened Utf16

  /** Bytes of one code point below U+10000 (section 3 of RFC 3629). A surrogate without its
      partner is encoded as U+FFFD. */
  function Width(u: nat): nat {
    if u < 0x80 then 1 else if u < 0x800 then 2 else 3
  }

  /** The length of the UTF-8 form: a surrogate pair is one code point of 4 bytes. */
  function Utf8(text: Text): nat {
    if text == [] then 0
    else if |text| >= 2 && High(text[0]) && Low(text[1]) then 4 + Utf8(text[2..])
    else Width(text[0]) + Utf8(text[1..])
  }

  const MARKER_TEXT :=
    "\n\n[truncated: response exceeded the size limit " +
    "\U{2014} narrow the query, use a smaller `limit`, or fetch one item at a time]"

  const MARKER: Text := Units(MARKER_TEXT)

  function CeilQuarter(n: nat): nat {
    (n + 3) / 4
  }

  // ---- the bytes themselves ----

  /** The bytes of a code point (section 3 of RFC 3629). */
  function Bytes(cp: nat): seq<nat> {
    if cp < 0x80 then [cp]
    else if cp < 0x800 then [0xC0 + cp / 0x40, 0x80 + cp % 0x40]
    else if cp < 0x10000 then [0xE0 + cp / 0x1000, 0x80 + cp / 0x40 % 0x40, 0x80 + cp % 0x40]
    else [0xF0 + cp / 0x40000, 0x80 + cp / 0x1000 % 0x40, 0x80 + cp / 0x40 % 0x40, 0x80 + cp % 0x40]
  }

  /** What `TextEncoder` makes of a text: pairs are one code point, other surrogates U+FFFD. */
  function Encode(text: Text): seq<nat> {
    if text == [] then []
    else if |text| >= 2 && High(text[0]) && Low(text[1]) then
      Bytes(0x10000 + (text[0] - 0xD800) * 0x400 + (text[1] - 0xDC00)) + Encode(text[2..])
    else Bytes(if High(text[0]) || Low(text[0]) then 0xFFFD else text[0]) + Encode(text[1..])
  }

  lemma UnitLength(u: nat)
    requires u < 0x10000
    ensures |Bytes(if High(u) || Low(u) then 0xFFFD else u)| == Width(u)
  {
  }

  lemma PairLength(u: nat, v: nat)
    requires High(u) && Low(v)
    ensures |Bytes(0x10000 + (u - 0xD800) * 0x400 + (v - 0xDC00))| == 4
  {
  }

  lemma {:induction false} Utf8IsLength(text: Text)
    requires forall i :: 0 <= i < |text| ==> text[i] < 0x10000
    ensures Utf8(text) == |Encode(text)|
  {
    if text != [] {
      if |text| >= 2 && High(text[0]) && Low(text[1]) {
        PairLength(text[0], text[1]);
        Utf8IsLength(text[2..]);
      } else {
        UnitLength(text[0]);
        Utf8IsLength(text[1..]);
      }
    }
  }

  // ---- the length of a prefix ----

  /** What one more unit adds to the encoded length. */
  lemma {:induction false} Utf8Snoc(text: Text, u: nat)
    ensures Utf8(text + [u]) ==
      Utf8(text) + if text != [] && High(text[|text| - 1]) && Low(u) then 1 else Width(u)
    decreases |text|
  {
    if text == [] {
      assert [u][1..] == [];
    } else if |text| >= 2 && High(text[0]) && Low(text[1]) {
      assert (text + [u])[2..] == text[2..] + [u];
      Utf8Snoc(text[2..], u);
    } else if |text| == 1 {
      assert text[1..] == [] && (text + [u])[1..] == [u] && [u][1..] == [] && (text + [u])[2..] == [];
    } else {
      assert (text + [u])[1..] == text[1..] + [u];
      Utf8Snoc(text[1..], u);
    }
  }

  /** Every unit costs from one to three bytes. */
  lemma {:induction false} PrefixGrows(text: Text, i: nat, j: nat)
    requires i <= j <= |text|
    ensures Utf8(text[..i]) + (j - i) <= Utf8(text[..j]) <= Utf8(text[..i]) + 3 * (j - i)
    decreases j
  {
    if i < j {
      PrefixGrows(text, i, j - 1);
      assert text[..j] == text[..j - 1] + [text[j - 1]];
      Utf8Snoc(text[..j - 1], text[j - 1]);
    }
  }

  /** Lengths add up unless the seam makes a pair. */
  lemma {:induction false} Utf8Concat(a: Text, b: Text)
    requires b == [] || !Low(b[0])
    ensures Utf8(a + b) == Utf8(a) + Utf8(b)
    decreases |a|
  {
    if a == [] {
      assert a + b == b;
    } else if |a| >= 2 && High(a[0]) && Low(a[1]) {
      assert (a + b)[2..] == a[2..] + b;
      Utf8Concat(a[2..], b);
    } else {
      assert (a + b)[1..] == a[1..] + b;
      assert |a| == 1 && b != [] ==> (a + b)[1] == b[0];
      assert |a| == 1 ==> |a + b| < 2 || (a + b)[1] == b[0];
      Utf8Concat(a[1..], b);
    }
  }

  // ---- the search for the cut ----

  lemma StepBack(text: Text, budget: nat, end: nat)
    requires end <= |text| && Utf8(text[..end]) > budget
    ensures var step := CeilQuarter(Utf8(text[..end]) - budget);
      1 <= step <= end && Utf8(text[..end - step]) + 2 >= budget
  {
    var step := CeilQuarter(Utf8(text[..end]) - budget);
    PrefixGrows(text, 0, end);
    assert text[..0] == [];
    PrefixGrows(text, end - step, end);
  }

  /** Where the loop ends that shrinks by a quarter of the overshoot. */
  function Shrink(text: Text, budget: nat, end: nat): nat
    requires end <= |text|
    decreases end
  {
    if end > 0 && Utf8(text[..end]) > budget then
      StepBack(text, budget, end);
      Shrink(text, budget, end - CeilQuarter(Utf8(text[..end]) - budget))
    else end
  }

  /** The loop stops inside the budget, and no more than two bytes short of it. */
  lemma {:induction false} ShrinkIsTight(text: Text, budget: nat, end: nat)
    requires end <= |text| && Utf8(text[..end]) + 2 >= budget
    ensures var cut := Shrink(text, budget, end);
      cut <= end && budget <= Utf8(text[..cut]) + 2 && Utf8(text[..cut]) <= budget
    decreases end
  {
    if end > 0 && Utf8(text[..end]) > budget {
      StepBack(text, budget, end);
      ShrinkIsTight(text, budget, end - CeilQuarter(Utf8(text[..end]) - budget));
    } else {
      assert end == 0 ==> text[..end] == [];
    }
  }

  function Max(a: nat, b: int): nat {
    if a < b then b else a
  }

  function Min(a: nat, b: nat): nat {
    if a < b then a else b
  }

  function Budget(maxBytes: int): nat {
    Max(0, maxBytes - Utf8(MARKER))
  }

  function Cut(text: Text, maxBytes: int): (cut: nat)
    ensures cut <= |text|
  {
    var start := Min(|text|, Budget(maxBytes));
    ShrinkStays(text, Budget(maxBytes), start);
    Shrink(text, Budget(maxBytes), start)
  }

  lemma {:induction false} ShrinkStays(text: Text, budget: nat, end: nat)
    requires end <= |text|
    ensures Shrink(text, budget, end) <= end
    decreases end
  {
    if end > 0 && Utf8(text[..end]) > budget {
      StepBack(text, budget, end);
      ShrinkStays(text, budget, end - CeilQuarter(Utf8(text[..end]) - budget));
    }
  }

  function Truncated(text: Text, maxBytes: int): Text {
    if Utf8(text) <= maxBytes then text else text[..Cut(text, maxBytes)] + MARKER
  }

  method TruncateText(text: Text, maxBytes: int) returns (r: Text)
    ensures r == Truncated(text, maxBytes)
  {
    if Utf8(text) <= maxBytes { return text; }
    var budget := Budget(maxBytes);
    var end := ShrinkLoop(text, budget, Min(|text|, budget));
    r := text[..end] + MARKER;
  }

  method ShrinkLoop(text: Text, budget: nat, start: nat) returns (end: int)
    requires start <= |text|
    ensures 0 <= end <= start && end == Shrink(text, budget, start)
  {
    end := start;
    while end > 0 && Utf8(text[..end]) > budget
      invariant 0 <= end <= start && Shrink(text, budget, end) == Shrink(text, budget, start)
    {
      StepBack(text, budget, end);
      end := end - CeilQuarter(Utf8(text[..end]) - budget);
    }
  }

  predicate IsTruncated(text: Text) {
    |text| >= |MARKER| && text[|text| - |MARKER|..] == MARKER
  }

  // ---- what a reader of the result may rely on ----

  /** A cut text keeps a prefix that uses the budget up to two bytes. */
  lemma CutIsTight(text: Text, maxBytes: int)
    requires Utf8(text) > maxBytes
    ensures Budget(maxBytes) <= Utf8(text[..Cut(text, maxBytes)]) + 2
    ensures Utf8(text[..Cut(text, maxBytes)]) <= Budget(maxBytes)
  {
    var budget := Budget(maxBytes);
    var start := Min(|text|, budget);
    PrefixGrows(text, 0, start);
    assert text[..0] == [] && text[..|text|] == text;
    ShrinkIsTight(text, budget, start);
  }

  /** The result never takes more than the budget, except that the marker is never cut. */
  lemma TruncatedFits(text: Text, maxBytes: int)
    ensures Utf8(Truncated(text, maxBytes)) <= (if maxBytes > Utf8(MARKER) then maxBytes else Utf8(MARKER))
  {
    if Utf8(text) > maxBytes {
      CutIsTight(text, maxBytes);
      MarkerStartsPlain();
      Utf8Concat(text[..Cut(text, maxBytes)], MARKER);
    }
  }

  /** Text that fits is returned as it is; any other keeps a prefix, as long as the marker's
      bytes and two more allow, and ends with the marker. */
  lemma TruncatedIs(text: Text, maxBytes: int)
    ensures Utf8(text) <= maxBytes ==> Truncated(text, maxBytes) == text
    ensures Utf8(text) > maxBytes ==> exists n :: 0 <= n <= |text| && KeepsPrefix(text, maxBytes, n)
  {
    if Utf8(text) > maxBytes {
      CutIsTight(text, maxBytes);
      assert KeepsPrefix(text, maxBytes, Cut(text, maxBytes));
    }
  }

  ghost predicate KeepsPrefix(text: Text, maxBytes: int, n: nat)
    requires n <= |text|
  {
    var budget := if maxBytes > Utf8(MARKER) then maxBytes - Utf8(MARKER) else 0;
    && Truncated(text, maxBytes) == text[..n] + MARKER
    && budget - 2 <= Utf8(text[..n]) <= budget
  }

  lemma MarkerStartsPlain()
    ensures |MARKER| == |MARKER_TEXT| && MARKER != [] && !Low(MARKER[0])
  {
    assert MARKER[0] == MARKER_TEXT[0] as int;
  }

  /** The marker test tells cut texts from whole ones, unless the text came with the marker. */
  lemma TruncatedIsMarked(text: Text, maxBytes: int)
    ensures IsTruncated(Truncated(text, maxBytes)) <==> Utf8(text) > maxBytes || IsTruncated(text)
  {
    if Utf8(text) > maxBytes {
      var kept := text[..Cut(text, maxBytes)];
      assert (kept + MARKER)[|kept + MARKER| - |MARKER|..] == MARKER;
    }
  }

  // ---- when the cut splits a character ----

  /** A cut at this place falls between the halves of a surrogate pair. */
  predicate SplitsPair(text: Text, cut: nat) {
    0 < cut < |text| && High(text[cut - 1]) && Low(text[cut])
  }

  /** A pair begins at p, exactly three bytes short of the budget. */
  predicate PairAtBudget(text: Text, budget: nat, p: nat) {
    p + 2 <= |text| && High(text[p]) && Low(text[p + 1]) && Utf8(text[..p]) + 3 == budget
  }

  /** The halves of a pair cost three bytes and one. */
  lemma PairCosts(text: Text, p: nat)
    requires p + 2 <= |text| && High(text[p]) && Low(text[p + 1])
    ensures Utf8(text[..p + 1]) == Utf8(text[..p]) + 3
    ensures Utf8(text[..p + 2]) == Utf8(text[..p]) + 4
  {
    assert text[..p + 1] == text[..p] + [text[p]] && text[..p + 2] == text[..p + 1] + [text[p + 1]];
    Utf8Snoc(text[..p], text[p]);
    Utf8Snoc(text[..p + 1], text[p + 1]);
  }

  /** A step that stops inside a pair cannot have gone below the budget. */
  lemma StepIntoPair(text: Text, budget: nat, end: nat, cut: nat)
    requires end <= |text| && Utf8(text[..end]) > budget
    requires cut == end - CeilQuarter(Utf8(text[..end]) - budget) && SplitsPair(text, cut)
    ensures Utf8(text[..cut]) >= budget
  {
    PairCosts(text, cut - 1);
    PrefixGrows(text, cut + 1, end);
  }

  /** If the loop moves and stops inside a pair, what is kept is exactly the budget. */
  lemma {:induction false} ShrinkIntoPair(text: Text, budget: nat, end: nat)
    requires end <= |text| && end > 0 && Utf8(text[..end]) > budget && SplitsPair(text, Shrink(text, budget, end))
    ensures Utf8(text[..Shrink(text, budget, end)]) == budget
    decreases end
  {
    StepBack(text, budget, end);
    var next := end - CeilQuarter(Utf8(text[..end]) - budget);
    if next > 0 && Utf8(text[..next]) > budget {
      ShrinkIntoPair(text, budget, next);
    } else {
      StepIntoPair(text, budget, end, next);
    }
  }

  lemma SplitMeansPairAtBudget(text: Text, maxBytes: int)
    requires Utf8(text) > maxBytes && SplitsPair(text, Cut(text, maxBytes))
    ensures PairAtBudget(text, Budget(maxBytes), Cut(text, maxBytes) - 1)
  {
    var budget, cut := Budget(maxBytes), Cut(text, maxBytes);
    var start := Min(|text|, budget);
    ShrinkStays(text, budget, start);
    PairCosts(text, cut - 1);
    PrefixGrows(text, 0, cut - 1);
    CutIsTight(text, maxBytes);
    assert cut < start by {
      assert cut == start ==> cut == budget;
    }
    ShrinkIntoPair(text, budget, start);
  }

  lemma PairAtBudgetIsSplit(text: Text, maxBytes: int, p: nat)
    requires Utf8(text) > maxBytes && PairAtBudget(text, Budget(maxBytes), p)
    ensures Cut(text, maxBytes) == p + 1
  {
    var cut := Cut(text, maxBytes);
    CutIsTight(text, maxBytes);
    PairCosts(text, p);
    if cut <= p {
      PrefixGrows(text, cut, p);
    } else {
      PrefixGrows(text, p + 1, cut);
    }
  }

  /** A text that is cut is cut inside a character exactly if a surrogate pair begins three
      bytes short of the budget. */
  lemma CutSplitsPairIff(text: Text, maxBytes: int)
    requires Utf8(text) > maxBytes
    ensures SplitsPair(text, Cut(text, maxBytes)) <==> exists p :: PairAtBudget(text, Budget(maxBytes), p)
  {
    if SplitsPair(text, Cut(text, maxBytes)) {
      SplitMeansPairAtBudget(text, maxBytes);
    }
    if exists p :: PairAtBudget(text, Budget(maxBytes), p) {
      var p: nat :| PairAtBudget(text, Budget(maxBytes), p);
      PairAtBudgetIsSplit(text, maxBytes, p);
    }
  }

  /** It happens: with three bytes to spare, a text that begins with a pair and is too long
      is cut after the first half. */
  lemma CutMaySplitPair(text: Text)
    requires |text| >= 2 && High(text[0]) && Low(text[1]) && Utf8(text) > Utf8(MARKER) + 3
    ensures Cut(text, Utf8(MARKER) + 3) == 1 && SplitsPair(text, 1)
  {
    assert text[..0] == [];
    assert PairAtBudget(text, Budget(Utf8(MARKER) + 3), 0);
    PairAtBudgetIsSplit(text, Utf8(MARKER) + 3, 0);
  }
}
