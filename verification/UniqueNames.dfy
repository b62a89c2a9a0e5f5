/** Renaming repeated score names. */
module UniqueNames {

  datatype Score = Score(name: string, rest: string)

  const MAX_NAME: nat := 100

  /** `slice(0, end)`: a negative end counts from the back. */
  function Slice(s: string, end: int): (r: string)
    ensures r <= s
  {
    var stop := if end < 0 then |s| + end else end;
    if stop <= 0 then "" else if stop >= |s| then s else s[..stop]
  }

  function Clip(name: string): string {
    Slice(name, MAX_NAME)
  }

  function Digit(d: nat): (c: char)
    requires d < 10
    ensures c as int == '0' as int + d
  {
    ('0' as int + d) as char
  }

  function Digits(n: nat): (s: string)
    ensures |s| > 0 && forall k :: 0 <= k < |s| ==> s[k] != '_'
  {
    if n < 10 then [Digit(n)] else Digits(n / 10) + [Digit(n % 10)]
  }

  function Suffix(n: nat): string {
    "_" + Digits(n)
  }

  /** The n-th name to try for a repeat of `name`. */
  function Candidate(name: string, n: nat): string {
    Slice(name, MAX_NAME - |Suffix(n)|) + Suffix(n)
  }

  /** A clipped name is the first hundred characters. */
  lemma ClipIs(name: string)
    ensures Clip(name) == if |name| <= 100 then name else name[..100]
  {
  }

  /** A candidate is as much of the name as leaves room for an underscore and the number. */
  lemma CandidateIs(name: string, n: nat)
    ensures var tail := "_" + Digits(n);
      |tail| <= 100 ==>
        Candidate(name, n) == (if |name| <= 100 - |tail| then name else name[..100 - |tail|]) + tail
  {
  }

  /** The number is written in decimal, without leading zeros. */
  lemma {:induction false} DigitsAre(n: nat)
    ensures Value(Digits(n)) == n && (forall c :: c in Digits(n) ==> '0' <= c <= '9')
    ensures |Digits(n)| > 1 ==> Digits(n)[0] != '0'
  {
    DigitsValue(n);
    if n >= 10 {
      DigitsAre(n / 10);
      DigitsValue(n / 10);
      if |Digits(n / 10)| == 1 { assert Digits(n / 10)[..0] == ""; }
    }
  }

  // ---- different numbers give different candidates ----

  function Value(s: string): int {
    if s == "" then 0 else 10 * Value(s[..|s| - 1]) + (s[|s| - 1] as int - '0' as int)
  }

  lemma {:induction false} DigitsValue(n: nat)
    ensures Value(Digits(n)) == n
  {
    if n < 10 {
      assert [Digit(n)][..0] == "";
    } else {
      DigitsValue(n / 10);
      assert (Digits(n / 10) + [Digit(n % 10)])[..|Digits(n / 10)|] == Digits(n / 10);
    }
  }

  /** A candidate's last underscore is the one its suffix starts with. */
  lemma LastUnderscore(name: string, n: nat)
    ensures var s, p := Candidate(name, n), |Candidate(name, n)| - |Digits(n)| - 1;
      p >= 0 && s[p] == '_' && s[p + 1..] == Digits(n) && forall k :: p < k < |s| ==> s[k] != '_'
  {
    var s, p := Candidate(name, n), |Candidate(name, n)| - |Digits(n)| - 1;
    assert s[p + 1..] == Digits(n);
    forall k | p < k < |s| ensures s[k] != '_' {
      assert s[k] == s[p + 1..][k - p - 1];
    }
  }

  lemma CandidatesDiffer(name: string, n: nat, m: nat)
    requires Candidate(name, n) == Candidate(name, m)
    ensures n == m
  {
    LastUnderscore(name, n);
    LastUnderscore(name, m);
    DigitsValue(n);
    DigitsValue(m);
  }

  lemma {:induction false} DigitsGrow(n: nat, m: nat)
    requires n <= m
    ensures |Digits(n)| <= |Digits(m)|
    decreases m
  {
    if n >= 10 { DigitsGrow(n / 10, m / 10); }
  }

  // ---- the search ----

  /** The first candidate that is not taken. */
  ghost predicate IsFirstFree(name: string, taken: set<string>, n: nat) {
    n >= 2 && Candidate(name, n) !in taken && forall k :: 2 <= k < n ==> Candidate(name, k) in taken
  }

  ghost function Tried(name: string, n: nat): (tried: set<string>)
    requires n >= 2
    ensures |tried| == n - 2 && forall s :: s in tried ==> exists k :: 2 <= k < n && s == Candidate(name, k)
    decreases n
  {
    if n == 2 then {}
    else
      var before := Tried(name, n - 1);
      assert Candidate(name, n - 1) !in before by {
        forall k | 2 <= k < n - 1 ensures Candidate(name, k) != Candidate(name, n - 1) {
          if Candidate(name, k) == Candidate(name, n - 1) { CandidatesDiffer(name, k, n - 1); }
        }
      }
      before + {Candidate(name, n - 1)}
  }

  lemma SubsetSize(a: set<string>, b: set<string>)
    requires a <= b
    ensures |a| <= |b|
  {
    assert a + (b - a) == b;
  }

  /** All candidates tried so far being taken bounds how many there were. */
  lemma TriedBound(name: string, taken: set<string>, n: nat)
    requires n >= 2 && forall k :: 2 <= k < n ==> Candidate(name, k) in taken
    ensures n - 2 <= |taken|
  {
    SubsetSize(Tried(name, n), taken);
  }

  /** The candidate with the lowest suffix that is free, with a bound on the suffix. */
  ghost predicate IsFound(name: string, taken: set<string>, bound: nat, candidate: string) {
    exists n: nat :: n <= bound && IsFirstFree(name, taken, n) && candidate == Candidate(name, n)
  }

  method FirstFree(name: string, used: set<string>, reserved: set<string>) returns (candidate: string)
    ensures IsFound(name, used + reserved, |used + reserved| + 2, candidate)
  {
    var i := 2;
    candidate := Candidate(name, i);
    while candidate in used || candidate in reserved
      invariant i >= 2 && candidate == Candidate(name, i)
      invariant forall k :: 2 <= k < i ==> Candidate(name, k) in used + reserved
      invariant i - 2 <= |used + reserved|
      decreases |used + reserved| + 2 - i
    {
      TriedBound(name, used + reserved, i + 1);
      i := i + 1;
      candidate := Candidate(name, i);
    }
    assert IsFirstFree(name, used + reserved, i);
  }

  // ---- the whole list ----

  function Names(scores: seq<Score>): (names: seq<string>)
    ensures |names| == |scores| && forall i :: 0 <= i < |names| ==> names[i] == Clip(scores[i].name)
  {
    seq(|scores|, i requires 0 <= i < |scores| => Clip(scores[i].name))
  }

  predicate FirstUse(scores: seq<Score>, i: nat)
    requires i < |scores|
  {
    forall j :: 0 <= j < i ==> Clip(scores[j].name) != Clip(scores[i].name)
  }

  /** The names that the given results have taken. */
  ghost function Taken(out: seq<Score>): set<string> {
    set s | s in out :: s.name
  }

  function ReservedNames(scores: seq<Score>): set<string> {
    set x | x in Names(scores)
  }

  /** The lowest suffix that is neither taken by an earlier result nor any score's own name. */
  ghost predicate IsRename(scores: seq<Score>, taken: set<string>, i: nat, name: string)
    requires i < |scores|
  {
    IsFound(Clip(scores[i].name), taken + ReservedNames(scores), 2 * |scores| + 2, name)
  }

  /** Result i: the first use of a clipped name keeps it, a repeat gets a suffix. */
  ghost predicate Renamed(scores: seq<Score>, taken: set<string>, i: nat, s: Score)
    requires i < |scores|
  {
    && s.rest == scores[i].rest
    && (if FirstUse(scores, i) then s.name == Clip(scores[i].name) else IsRename(scores, taken, i, s.name))
  }

  lemma TakenSnoc(out: seq<Score>, s: Score)
    ensures Taken(out + [s]) == Taken(out) + {s.name}
  {
    assert forall t :: t in out + [s] <==> t in out || t == s;
  }

  lemma {:induction false} TakenSize(out: seq<Score>)
    ensures |Taken(out)| <= |out|
  {
    if out != [] {
      var front, last := out[..|out| - 1], out[|out| - 1];
      TakenSize(front);
      TakenSnoc(front, last);
      assert out == front + [last];
    }
  }

  lemma {:induction false} NameSetSize(names: seq<string>)
    ensures |set x | x in names| <= |names|
  {
    if names != [] {
      var front, last := names[..|names| - 1], names[|names| - 1];
      NameSetSize(front);
      assert names == front + [last];
      assert (set x | x in names) == (set x | x in front) + {last};
    }
  }

  /** A clipped name is taken exactly if an earlier score has it: no rename takes it. */
  lemma UsedIffRepeat(scores: seq<Score>, out: seq<Score>, i: nat)
    requires i < |scores| && |out| == i && AllRenamed(scores, out)
    ensures Clip(scores[i].name) in Taken(out) <==> !FirstUse(scores, i)
    decreases i
  {
    var clipped := Clip(scores[i].name);
    assert Names(scores)[i] == clipped;
    if clipped in Taken(out) {
      var s :| s in out && s.name == clipped;
      var k :| 0 <= k < i && out[k] == s;
      assert Renamed(scores, Taken(out[..k]), k, out[k]);
    }
    if !FirstUse(scores, i) {
      var k := FirstOf(scores, i);
      assert Renamed(scores, Taken(out[..k]), k, out[k]) && out[k] in out;
    }
  }

  lemma {:induction false} FirstOf(scores: seq<Score>, i: nat) returns (k: nat)
    requires i < |scores|
    ensures k <= i && Clip(scores[k].name) == Clip(scores[i].name) && FirstUse(scores, k)
    ensures !FirstUse(scores, i) ==> k < i
    decreases i
  {
    k := i;
    if !FirstUse(scores, i) {
      var j :| 0 <= j < i && Clip(scores[j].name) == Clip(scores[i].name);
      k := FirstOf(scores, j);
    }
  }

  ghost predicate Distinct(out: seq<Score>) {
    forall i, j :: 0 <= i < j < |out| ==> out[i].name != out[j].name
  }

  ghost predicate AllRenamed(scores: seq<Score>, out: seq<Score>) {
    |out| <= |scores| && forall i :: 0 <= i < |out| ==> Renamed(scores, Taken(out[..i]), i, out[i])
  }

  lemma Appended(scores: seq<Score>, out: seq<Score>, s: Score)
    requires |out| < |scores| && AllRenamed(scores, out) && Distinct(out)
    requires Renamed(scores, Taken(out), |out|, s) && s.name !in Taken(out)
    ensures AllRenamed(scores, out + [s]) && Distinct(out + [s])
  {
    forall k | 0 <= k < |out| ensures out[k].name != s.name && (out + [s])[..k] == out[..k] {
      assert out[k] in out;
    }
    assert (out + [s])[..|out|] == out;
  }

  /** The search stays within the bound: there are not enough names to block more candidates. */
  lemma SearchBound(scores: seq<Score>, out: seq<Score>)
    requires |out| <= |scores|
    ensures |Taken(out) + ReservedNames(scores)| <= 2 * |scores|
  {
    TakenSize(out);
    NameSetSize(Names(scores));
    SetSum(Taken(out), ReservedNames(scores));
  }

  lemma SetSum(a: set<string>, b: set<string>)
    ensures |a + b| <= |a| + |b|
  {
    assert a + b == a + (b - a);
    SubsetSize(b - a, b);
  }

  method UniqueNames(scores: seq<Score>) returns (out: seq<Score>)
    ensures |out| == |scores| && AllRenamed(scores, out) && Distinct(out)
  {
    var reserved := ReservedNames(scores);
    var used: set<string> := {};
    out := [];
    for i := 0 to |scores|
      invariant |out| == i && used == Taken(out)
      invariant AllRenamed(scores, out) && Distinct(out)
    {
      var clipped := Clip(scores[i].name);
      var name := clipped;
      UsedIffRepeat(scores, out, i);
      if clipped in used {
        SearchBound(scores, out);
        name := FirstFree(clipped, used, reserved);
      }
      var s := Score(name, scores[i].rest);
      Appended(scores, out, s);
      TakenSnoc(out, s);
      used := used + {name};
      out := out + [s];
    }
  }

  lemma CandidateFits(name: string, n: nat, limit: nat)
    requires n <= limit && |Suffix(limit)| <= MAX_NAME
    ensures |Candidate(name, n)| <= MAX_NAME
  {
    DigitsGrow(n, limit);
  }

  /** Every name stays within the cap as long as the suffixes themselves fit into it. */
  lemma NamesFit(scores: seq<Score>, out: seq<Score>)
    requires AllRenamed(scores, out) && |Suffix(2 * |scores| + 2)| <= MAX_NAME
    ensures forall i :: 0 <= i < |out| ==> |out[i].name| <= MAX_NAME
  {
    forall i | 0 <= i < |out| ensures |out[i].name| <= MAX_NAME {
      assert Renamed(scores, Taken(out[..i]), i, out[i]);
      if !FirstUse(scores, i) {
        var n: nat :| n <= 2 * |scores| + 2 && out[i].name == Candidate(Clip(scores[i].name), n);
        CandidateFits(Clip(scores[i].name), n, 2 * |scores| + 2);
      }
    }
  }

  /** A suffixed name is never one that some score already has. */
  lemma RenamesAvoidNames(scores: seq<Score>, out: seq<Score>, i: nat, j: nat)
    requires AllRenamed(scores, out) && i < |out| && j < |scores| && !FirstUse(scores, i)
    ensures out[i].name != Clip(scores[j].name)
  {
    assert Renamed(scores, Taken(out[..i]), i, out[i]);
    assert Names(scores)[j] == Clip(scores[j].name);
  }
}
