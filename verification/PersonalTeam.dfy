/** Giving a user one team of their own: concurrent callers, advisory locks, read-committed lookups. */
module PersonalTeam {
  import opened Options

  type User = nat
  type Team = nat

  datatype Membership = Membership(user: User, team: Team)
  datatype TeamRow = TeamRow(team: Team, owner: User)

  /** Where one call of `resolveActiveTeam` stands. From Locked on it is inside the transaction;
      TeamMade and MemberMade hold rows that no other transaction sees yet. */
  datatype Stage =
    | Fresh
    | NoDefault
    | Waiting
    | Locked
    | LookedUp
    | TeamMade(team: Team)
    | MemberMade(team: Team)
    | Found(team: Team)
    | Returned(team: Team)
    | Aborted

  datatype Caller = Caller(user: User, stage: Stage)

  /** The committed rows, the advisory locks with their holders, and the callers. Rows are in
      commit order; `initial` memberships were there before any of the calls. */
  datatype State = State(
    callers: seq<Caller>, locks: map<nat, nat>, initial: nat, members: seq<Membership>,
    teams: seq<TeamRow>, defaults: map<User, Team>, nextTeam: Team)

  /** The oldest membership of a user. */
  function Oldest(members: seq<Membership>, user: User): Option<Team> {
    if members == [] then None
    else if members[0].user == user then Some(members[0].team)
    else Oldest(members[1..], user)
  }

  predicate Inside(stage: Stage) {
    stage.Locked? || stage.LookedUp? || stage.TeamMade? || stage.MemberMade? || stage.Found?
  }

  predicate Over(stage: Stage) {
    stage.Returned? || stage.Aborted?
  }

  /** A caller can move unless it is done, or waits for a lock that someone holds. */
  predicate Enabled(s: State, hash: User -> nat, i: nat) {
    && i < |s.callers|
    && !Over(s.callers[i].stage)
    && (s.callers[i].stage.Waiting? ==> hash(s.callers[i].user) !in s.locks)
  }

  function At(s: State, i: nat, stage: Stage): State
    requires i < |s.callers|
  {
    s.(callers := s.callers[i := s.callers[i].(stage := stage)])
  }

  function Unlock(s: State, hash: User -> nat, i: nat): State
    requires i < |s.callers|
  {
    s.(locks := s.locks - {hash(s.callers[i].user)})
  }

  /** The next step of caller i. */
  function Move(s: State, hash: User -> nat, i: nat): State
    requires Enabled(s, hash, i)
  {
    var user := s.callers[i].user;
    match s.callers[i].stage
    case Fresh =>
      if user in s.defaults && Membership(user, s.defaults[user]) in s.members then At(s, i, Returned(s.defaults[user]))
      else At(s, i, NoDefault)
    case NoDefault =>
      (match Oldest(s.members, user)
       case Some(team) => At(s, i, Returned(team))
       case None => At(s, i, Waiting))
    case Waiting => At(s, i, Locked).(locks := s.locks[hash(user) := i])
    case Locked =>
      (match Oldest(s.members, user)
       case Some(team) => At(s, i, Found(team))
       case None => At(s, i, LookedUp))
    case LookedUp => At(s, i, TeamMade(s.nextTeam)).(nextTeam := s.nextTeam + 1)
    case TeamMade(team) => At(s, i, MemberMade(team))
    case MemberMade(team) =>
      Unlock(At(s, i, Returned(team)), hash, i).(
        members := s.members + [Membership(user, team)], teams := s.teams + [TeamRow(team, user)])
    case Found(team) => Unlock(At(s, i, Returned(team)), hash, i)
    case _ => s
  }

  /** A call fails: its uncommitted rows are gone, and so is its lock. */
  function Abort(s: State, hash: User -> nat, i: nat): State
    requires Enabled(s, hash, i)
  {
    if Inside(s.callers[i].stage) then Unlock(At(s, i, Aborted), hash, i) else At(s, i, Aborted)
  }

  datatype Event = Step(caller: nat) | Fail(caller: nat)

  function Next(s: State, hash: User -> nat, e: Event): State
    requires Enabled(s, hash, e.caller)
  {
    if e.Step? then Move(s, hash, e.caller) else Abort(s, hash, e.caller)
  }

  // ---- what holds in every state ----

  /** A caller is inside its transaction exactly while it holds the lock of its user. */
  ghost predicate LocksHeld(callers: seq<Caller>, locks: map<nat, nat>, hash: User -> nat) {
    && (forall i :: 0 <= i < |callers| && Inside(callers[i].stage) ==>
          hash(callers[i].user) in locks && locks[hash(callers[i].user)] == i)
    && (forall k :: k in locks ==>
          locks[k] < |callers| && Inside(callers[locks[k]].stage) && hash(callers[locks[k]].user) == k)
  }

  ghost predicate HasNone(members: seq<Membership>, user: User) {
    forall m :: m in members ==> m.user != user
  }

  /** What a caller has read still holds. */
  ghost predicate StageOk(s: State, c: Caller) {
    match c.stage
    case LookedUp => HasNone(s.members, c.user)
    case TeamMade(_) => HasNone(s.members, c.user)
    case MemberMade(_) => HasNone(s.members, c.user)
    case Found(team) => Membership(c.user, team) in s.members
    case Returned(team) => Membership(c.user, team) in s.members
    case _ => true
  }

  /** The calls only ever add one membership per user that had none, each with its team. */
  ghost predicate RowsOk(s: State) {
    && s.initial <= |s.members|
    && |s.members| == s.initial + |s.teams|
    && (forall k :: 0 <= k < |s.teams| ==>
          s.members[s.initial + k] == Membership(s.teams[k].owner, s.teams[k].team)
          && HasNone(s.members[..s.initial + k], s.teams[k].owner))
  }

  ghost predicate Inv(s: State, hash: User -> nat) {
    LocksHeld(s.callers, s.locks, hash) && RowsOk(s) && forall i :: 0 <= i < |s.callers| ==> StageOk(s, s.callers[i])
  }

  lemma {:induction false} OldestIs(members: seq<Membership>, user: User)
    ensures Oldest(members, user).None? <==> HasNone(members, user)
    ensures Oldest(members, user).Some? ==> Membership(user, Oldest(members, user).value) in members
  {
    if members != [] {
      assert members == [members[0]] + members[1..];
      OldestIs(members[1..], user);
    }
  }

  /** The caller that commits is the only one inside for its user. */
  lemma OthersOutside(s: State, hash: User -> nat, i: nat, j: nat)
    requires LocksHeld(s.callers, s.locks, hash) && i < |s.callers| && j < |s.callers| && i != j
    requires Inside(s.callers[i].stage) && s.callers[i].user == s.callers[j].user
    ensures !Inside(s.callers[j].stage)
  {
  }

  lemma LockTaken(callers: seq<Caller>, locks: map<nat, nat>, hash: User -> nat, i: nat, c: Caller)
    requires LocksHeld(callers, locks, hash) && i < |callers| && c.user == callers[i].user
    requires !Inside(callers[i].stage) && Inside(c.stage) && hash(c.user) !in locks
    ensures LocksHeld(callers[i := c], locks[hash(c.user) := i], hash)
  {
  }

  lemma LockFreed(callers: seq<Caller>, locks: map<nat, nat>, hash: User -> nat, i: nat, c: Caller)
    requires LocksHeld(callers, locks, hash) && i < |callers| && c.user == callers[i].user
    requires Inside(callers[i].stage) && !Inside(c.stage)
    ensures LocksHeld(callers[i := c], locks - {hash(c.user)}, hash)
  {
  }

  lemma LockUnchanged(callers: seq<Caller>, locks: map<nat, nat>, hash: User -> nat, i: nat, c: Caller)
    requires LocksHeld(callers, locks, hash) && i < |callers| && c.user == callers[i].user
    requires Inside(callers[i].stage) == Inside(c.stage)
    ensures LocksHeld(callers[i := c], locks, hash)
  {
  }

  lemma LocksKept(s: State, hash: User -> nat, e: Event)
    requires LocksHeld(s.callers, s.locks, hash) && Enabled(s, hash, e.caller)
    ensures LocksHeld(Next(s, hash, e).callers, Next(s, hash, e).locks, hash)
  {
    var i := e.caller;
    var before, after := s.callers[i], Next(s, hash, e).callers[i];
    if Inside(before.stage) == Inside(after.stage) {
      LockUnchanged(s.callers, s.locks, hash, i, after);
    } else if Inside(before.stage) {
      LockFreed(s.callers, s.locks, hash, i, after);
    } else {
      LockTaken(s.callers, s.locks, hash, i, after);
    }
  }

  lemma CommitKeepsRows(s: State, user: User, team: Team)
    requires RowsOk(s) && HasNone(s.members, user)
    ensures RowsOk(s.(members := s.members + [Membership(user, team)], teams := s.teams + [TeamRow(team, user)]))
  {
    var members := s.members + [Membership(user, team)];
    assert forall n: nat :: n <= |s.members| ==> members[..n] == s.members[..n];
    assert s.members[..|s.members|] == s.members;
  }

  lemma StagesKept(s: State, hash: User -> nat, e: Event)
    requires Inv(s, hash) && Enabled(s, hash, e.caller)
    ensures forall j :: 0 <= j < |s.callers| ==> StageOk(Next(s, hash, e), Next(s, hash, e).callers[j])
  {
    var t := Next(s, hash, e);
    var c := s.callers[e.caller];
    OldestIs(s.members, c.user);
    assert StageOk(s, c);
    forall j | 0 <= j < |s.callers| ensures StageOk(t, t.callers[j]) {
      if j != e.caller {
        assert StageOk(s, s.callers[j]);
        if t.members != s.members && s.callers[j].user == c.user { OthersOutside(s, hash, e.caller, j); }
      }
    }
  }

  lemma RowsKept(s: State, hash: User -> nat, e: Event)
    requires RowsOk(s) && Enabled(s, hash, e.caller) && StageOk(s, s.callers[e.caller])
    ensures RowsOk(Next(s, hash, e))
  {
    var c := s.callers[e.caller];
    if e.Step? && c.stage.MemberMade? { CommitKeepsRows(s, c.user, c.stage.team); }
  }

  lemma NextKeeps(s: State, hash: User -> nat, e: Event)
    requires Inv(s, hash) && Enabled(s, hash, e.caller)
    ensures Inv(Next(s, hash, e), hash) && |Next(s, hash, e).callers| == |s.callers|
  {
    LocksKept(s, hash, e);
    StagesKept(s, hash, e);
    RowsKept(s, hash, e);
  }

  // ---- runs ----

  predicate IsRun(s: State, hash: User -> nat, events: seq<Event>)
    decreases |events|
  {
    events == [] || (Enabled(s, hash, events[0].caller) && IsRun(Next(s, hash, events[0]), hash, events[1..]))
  }

  function After(s: State, hash: User -> nat, events: seq<Event>): State
    requires IsRun(s, hash, events)
    decreases |events|
  {
    if events == [] then s else After(Next(s, hash, events[0]), hash, events[1..])
  }

  /** Calls start with no lock held and no row made. */
  function Start(users: seq<User>, members: seq<Membership>, defaults: map<User, Team>, nextTeam: Team): State {
    State(seq(|users|, i requires 0 <= i < |users| => Caller(users[i], Fresh)),
      map[], |members|, members, [], defaults, nextTeam)
  }

  lemma {:induction false} RunsKeepInv(s: State, hash: User -> nat, events: seq<Event>)
    requires Inv(s, hash) && IsRun(s, hash, events)
    ensures Inv(After(s, hash, events), hash)
    decreases |events|
  {
    if events != [] {
      NextKeeps(s, hash, events[0]);
      RunsKeepInv(Next(s, hash, events[0]), hash, events[1..]);
    }
  }

  ghost predicate Follows(s: State, t: State) {
    && t.initial == s.initial && s.members <= t.members && |t.callers| == |s.callers|
    && forall i :: 0 <= i < |s.callers| ==> t.callers[i].user == s.callers[i].user
  }

  lemma NextFollows(s: State, hash: User -> nat, e: Event)
    requires Enabled(s, hash, e.caller)
    ensures Follows(s, Next(s, hash, e))
  {
  }

  lemma {:induction false} RunsFollow(s: State, hash: User -> nat, events: seq<Event>)
    requires IsRun(s, hash, events)
    ensures Follows(s, After(s, hash, events))
    decreases |events|
  {
    if events != [] {
      NextFollows(s, hash, events[0]);
      RunsFollow(Next(s, hash, events[0]), hash, events[1..]);
    }
  }

  function TeamsOf(teams: seq<TeamRow>, user: User): seq<Team> {
    if teams == [] then []
    else
      var front, last := TeamsOf(teams[..|teams| - 1], user), teams[|teams| - 1];
      if last.owner == user then front + [last.team] else front
  }

  // ---- one team ----

  /** A user has at most one row among those that the calls added. */
  lemma OneRow(s: State, j: nat, k: nat)
    requires RowsOk(s) && j < k < |s.teams|
    ensures s.teams[j].owner != s.teams[k].owner
  {
    assert s.members[..s.initial + k][s.initial + j] == s.members[s.initial + j];
  }

  lemma {:induction false} TeamsOfIs(s: State, n: nat, user: User)
    requires RowsOk(s) && n <= |s.teams|
    ensures |TeamsOf(s.teams[..n], user)| <= 1
    ensures TeamsOf(s.teams[..n], user) == [] <==> forall k :: 0 <= k < n ==> s.teams[k].owner != user
    ensures forall k :: 0 <= k < n && s.teams[k].owner == user ==> TeamsOf(s.teams[..n], user) == [s.teams[k].team]
    decreases n
  {
    if n > 0 {
      TeamsOfIs(s, n - 1, user);
      assert s.teams[..n][..n - 1] == s.teams[..n - 1];
      forall k | 0 <= k < n - 1 ensures s.teams[k].owner != s.teams[n - 1].owner {
        OneRow(s, k, n - 1);
      }
    }
  }

  /** A membership of a user who had none comes with that user's one team. */
  lemma MemberIsOwner(s: State, user: User, team: Team)
    requires RowsOk(s) && HasNone(s.members[..s.initial], user) && Membership(user, team) in s.members
    ensures TeamsOf(s.teams, user) == [team]
  {
    forall k | 0 <= k < s.initial ensures s.members[k].user != user {
      assert s.members[..s.initial][k] in s.members[..s.initial];
    }
    var m :| 0 <= m < |s.members| && s.members[m] == Membership(user, team);
    TeamsOfIs(s, |s.teams|, user);
    assert s.teams[..|s.teams|] == s.teams;
    assert s.teams[m - s.initial] == TeamRow(team, user);
  }

  /** However the calls interleave and whichever of them fail: a user who had no membership
      is given at most one team, and every call that returns, returns that team. A user who
      had one is given none. */
  lemma OneTeamForAllCallers(
    users: seq<User>, members: seq<Membership>, defaults: map<User, Team>, nextTeam: Team,
    hash: User -> nat, events: seq<Event>, i: nat)
    requires IsRun(Start(users, members, defaults, nextTeam), hash, events) && i < |users|
    ensures var t := After(Start(users, members, defaults, nextTeam), hash, events);
      && |TeamsOf(t.teams, users[i])| <= 1
      && |t.callers| == |users|
      && (!HasNone(members, users[i]) ==> TeamsOf(t.teams, users[i]) == [])
      && (HasNone(members, users[i]) && t.callers[i].stage.Returned? ==>
            TeamsOf(t.teams, users[i]) == [t.callers[i].stage.team])
  {
    var s := Start(users, members, defaults, nextTeam);
    RunsKeepInv(s, hash, events);
    RunsFollow(s, hash, events);
    Answers(After(s, hash, events), hash, members, i);
  }

  lemma Answers(t: State, hash: User -> nat, members: seq<Membership>, i: nat)
    requires Inv(t, hash) && i < |t.callers| && t.initial == |members| && members <= t.members
    ensures |TeamsOf(t.teams, t.callers[i].user)| <= 1
    ensures !HasNone(members, t.callers[i].user) ==> TeamsOf(t.teams, t.callers[i].user) == []
    ensures HasNone(members, t.callers[i].user) && t.callers[i].stage.Returned? ==>
      TeamsOf(t.teams, t.callers[i].user) == [t.callers[i].stage.team]
  {
    var user := t.callers[i].user;
    assert t.members[..t.initial] == members;
    TeamsOfIs(t, |t.teams|, user);
    assert t.teams[..|t.teams|] == t.teams;
    assert StageOk(t, t.callers[i]);
    if HasNone(members, user) && t.callers[i].stage.Returned? {
      MemberIsOwner(t, user, t.callers[i].stage.team);
    }
    if !HasNone(members, user) {
      var m :| m in members && m.user == user;
      forall k | 0 <= k < |t.teams| ensures t.teams[k].owner != user {
        assert members <= t.members[..t.initial + k];
        assert m in t.members[..t.initial + k];
      }
    }
  }

  // ---- nobody waits for ever ----

  function Steps(stage: Stage): nat {
    match stage
    case Fresh => 7
    case NoDefault => 6
    case Waiting => 5
    case Locked => 4
    case LookedUp => 3
    case TeamMade(_) => 2
    case MemberMade(_) => 1
    case Found(_) => 1
    case Returned(_) => 0
    case Aborted => 0
  }

  function StepsLeft(callers: seq<Caller>): nat {
    if callers == [] then 0 else StepsLeft(callers[..|callers| - 1]) + Steps(callers[|callers| - 1].stage)
  }

  lemma {:induction false} StepsAfter(callers: seq<Caller>, i: nat, c: Caller)
    requires i < |callers|
    ensures StepsLeft(callers[i := c]) + Steps(callers[i].stage) == StepsLeft(callers) + Steps(c.stage)
    decreases |callers|
  {
    var last := |callers| - 1;
    if i == last {
      assert callers[i := c][..last] == callers[..last];
    } else {
      assert callers[i := c][..last] == callers[..last][i := c];
      StepsAfter(callers[..last], i, c);
    }
  }

  lemma StageFalls(s: State, hash: User -> nat, e: Event)
    requires Enabled(s, hash, e.caller)
    ensures var callers := Next(s, hash, e).callers;
      |callers| == |s.callers| && callers == s.callers[e.caller := callers[e.caller]]
      && Steps(callers[e.caller].stage) < Steps(s.callers[e.caller].stage)
  {
  }

  lemma NextSpends(s: State, hash: User -> nat, e: Event)
    requires Enabled(s, hash, e.caller)
    ensures StepsLeft(Next(s, hash, e).callers) < StepsLeft(s.callers)
  {
    StageFalls(s, hash, e);
    StepsAfter(s.callers, e.caller, Next(s, hash, e).callers[e.caller]);
  }

  lemma {:induction false} StartSteps(users: seq<User>, callers: seq<Caller>)
    requires |callers| == |users| && forall i :: 0 <= i < |users| ==> callers[i] == Caller(users[i], Fresh)
    ensures StepsLeft(callers) == 7 * |users|
  {
    if users != [] { StartSteps(users[..|users| - 1], callers[..|users| - 1]); }
  }

  lemma {:induction false} RunsShort(s: State, hash: User -> nat, events: seq<Event>)
    requires IsRun(s, hash, events)
    ensures |events| <= StepsLeft(s.callers)
    decreases |events|
  {
    if events != [] {
      NextSpends(s, hash, events[0]);
      RunsShort(Next(s, hash, events[0]), hash, events[1..]);
    }
  }

  /** If nobody can move, everybody is done: whoever holds the lock can always go on. */
  lemma NoDeadlock(s: State, hash: User -> nat)
    requires Inv(s, hash) && forall j :: !Enabled(s, hash, j)
    ensures forall i :: 0 <= i < |s.callers| ==> Over(s.callers[i].stage)
  {
    forall i | 0 <= i < |s.callers| ensures Over(s.callers[i].stage) {
      assert !Enabled(s, hash, i);
      var key := hash(s.callers[i].user);
      if key in s.locks { assert !Enabled(s, hash, s.locks[key]); }
    }
  }

  /** Every run is short, and one that cannot go on has answered every call or failed it. */
  lemma EveryCallEnds(
    users: seq<User>, members: seq<Membership>, defaults: map<User, Team>, nextTeam: Team,
    hash: User -> nat, events: seq<Event>)
    requires IsRun(Start(users, members, defaults, nextTeam), hash, events)
    ensures var t := After(Start(users, members, defaults, nextTeam), hash, events);
      && |events| <= 7 * |users|
      && ((forall j :: !Enabled(t, hash, j)) ==> forall i :: 0 <= i < |t.callers| ==> Over(t.callers[i].stage))
  {
    var s := Start(users, members, defaults, nextTeam);
    RunsKeepInv(s, hash, events);
    RunsShort(s, hash, events);
    StartSteps(users, s.callers);
    var t := After(s, hash, events);
    if forall j :: !Enabled(t, hash, j) { NoDeadlock(t, hash); }
  }

  // ---- a user who has teams ----

  /** Row k is the user's oldest. */
  ghost predicate OldestRow(members: seq<Membership>, user: User, team: Team, k: nat) {
    k < |members| && members[k] == Membership(user, team) && forall j :: 0 <= j < k ==> members[j].user != user
  }

  /** The team for a user with memberships: the default one if it is among them, else the oldest. */
  ghost predicate IsAnswer(members: seq<Membership>, defaults: map<User, Team>, user: User, team: Team) {
    if user in defaults && Membership(user, defaults[user]) in members then team == defaults[user]
    else exists k: nat :: OldestRow(members, user, team, k)
  }

  lemma {:induction false} OldestIsRow(members: seq<Membership>, user: User)
    requires !HasNone(members, user)
    ensures Oldest(members, user).Some? && exists k: nat :: OldestRow(members, user, Oldest(members, user).value, k)
  {
    if members != [] {
      assert members == [members[0]] + members[1..];
      if members[0].user == user {
        assert OldestRow(members, user, members[0].team, 0);
      } else {
        OldestIsRow(members[1..], user);
        var k: nat :| OldestRow(members[1..], user, Oldest(members[1..], user).value, k);
        assert OldestRow(members, user, Oldest(members, user).value, k + 1);
      }
    }
  }

  /** The calls add no row for a user who had one. */
  lemma NoRowAdded(s: State, user: User, k: nat)
    requires RowsOk(s) && !HasNone(s.members[..s.initial], user) && k < |s.teams|
    ensures s.teams[k].owner != user
  {
    var before := s.members[..s.initial];
    var r :| r in before && r.user == user;
    var j :| 0 <= j < |before| && before[j] == r;
    assert s.members[..s.initial + k][j] == r;
  }

  lemma RowFrom(s: State, i: nat)
    requires RowsOk(s) && i < |s.members|
    ensures i < s.initial || s.members[i].user == s.teams[i - s.initial].owner
  {
    if i >= s.initial {
      var k := i - s.initial;
      assert s.members[s.initial + k] == Membership(s.teams[k].owner, s.teams[k].team);
    }
  }

  lemma OwnRowsStay(s: State, members: seq<Membership>, user: User, m: Membership)
    requires RowsOk(s) && members == s.members[..s.initial] && !HasNone(members, user)
    requires m in s.members && m.user == user
    ensures m in members
  {
    var i :| 0 <= i < |s.members| && s.members[i] == m;
    forall k | 0 <= k < |s.teams| ensures s.teams[k].owner != user {
      NoRowAdded(s, user, k);
    }
    RowFrom(s, i);
    assert members[i] == m;
  }

  /** Where a call of such a user can stand. */
  ghost predicate OnItsWay(members: seq<Membership>, defaults: map<User, Team>, c: Caller) {
    match c.stage
    case Fresh => true
    case NoDefault => !(c.user in defaults && Membership(c.user, defaults[c.user]) in members)
    case Returned(team) => IsAnswer(members, defaults, c.user, team)
    case Aborted => true
    case _ => false
  }

  lemma StaysOnItsWay(s: State, hash: User -> nat, e: Event, i: nat)
    requires Inv(s, hash) && Enabled(s, hash, e.caller) && i < |s.callers|
    requires !HasNone(s.members[..s.initial], s.callers[i].user)
    requires OnItsWay(s.members[..s.initial], s.defaults, s.callers[i])
    ensures i < |Next(s, hash, e).callers|
    ensures OnItsWay(s.members[..s.initial], s.defaults, Next(s, hash, e).callers[i])
  {
    var members, user := s.members[..s.initial], s.callers[i].user;
    if i == e.caller && e.Step? {
      if s.callers[i].stage.Fresh? && user in s.defaults && Membership(user, s.defaults[user]) in s.members {
        OwnRowsStay(s, members, user, Membership(user, s.defaults[user]));
      } else if s.callers[i].stage.NoDefault? {
        OldestOfPrefix(s.members, s.initial, user);
        OldestIsRow(members, user);
      }
    }
  }

  lemma {:induction false} OldestOfPrefix(members: seq<Membership>, n: nat, user: User)
    requires n <= |members| && !HasNone(members[..n], user)
    ensures Oldest(members, user) == Oldest(members[..n], user)
  {
    var front := members[..n];
    assert front != [] && members[0] == front[0];
    if members[0].user != user {
      assert front == [front[0]] + front[1..] && members[1..][..n - 1] == front[1..];
      OldestOfPrefix(members[1..], n - 1, user);
    }
  }

  lemma {:induction false} RunsStayOnTheirWay(s: State, hash: User -> nat, events: seq<Event>, i: nat)
    requires Inv(s, hash) && IsRun(s, hash, events) && i < |s.callers|
    requires !HasNone(s.members[..s.initial], s.callers[i].user)
    requires OnItsWay(s.members[..s.initial], s.defaults, s.callers[i])
    ensures var t := After(s, hash, events);
      i < |t.callers| && OnItsWay(s.members[..s.initial], s.defaults, t.callers[i])
    decreases |events|
  {
    if events != [] {
      var t := Next(s, hash, events[0]);
      NextKeeps(s, hash, events[0]);
      NextFollows(s, hash, events[0]);
      StaysOnItsWay(s, hash, events[0], i);
      assert t.members[..t.initial] == s.members[..s.initial];
      RunsStayOnTheirWay(t, hash, events[1..], i);
    }
  }

  /** Every call for a user who had memberships returns the default team if that is one of
      them, and the oldest of them otherwise, whatever goes on for other users. */
  lemma MembersGetTheirs(
    users: seq<User>, members: seq<Membership>, defaults: map<User, Team>, nextTeam: Team,
    hash: User -> nat, events: seq<Event>, i: nat)
    requires IsRun(Start(users, members, defaults, nextTeam), hash, events)
    requires i < |users| && !HasNone(members, users[i])
    ensures var t := After(Start(users, members, defaults, nextTeam), hash, events);
      && i < |t.callers|
      && (t.callers[i].stage.Returned? ==> IsAnswer(members, defaults, users[i], t.callers[i].stage.team))
  {
    var s := Start(users, members, defaults, nextTeam);
    assert s.members[..s.initial] == members;
    RunsFollow(s, hash, events);
    RunsStayOnTheirWay(s, hash, events, i);
  }

  // ---- no two users share a new team ----

  /** The team that a caller has made and not committed yet. */
  function Made(stage: Stage): Option<Team> {
    match stage
    case TeamMade(team) => Some(team)
    case MemberMade(team) => Some(team)
    case _ => None
  }

  /** A made team is new, and not among those committed. */
  ghost predicate IsNew(s: State, first: Team, made: Option<Team>) {
    made.Some? ==> first <= made.value < s.nextTeam && forall k :: 0 <= k < |s.teams| ==> s.teams[k].team != made.value
  }

  /** Teams made by the calls are new and differ from each other, committed or not. */
  ghost predicate TeamsApart(s: State, first: Team) {
    && first <= s.nextTeam
    && (forall k :: 0 <= k < |s.teams| ==> first <= s.teams[k].team < s.nextTeam)
    && (forall j, k :: 0 <= j < k < |s.teams| ==> s.teams[j].team != s.teams[k].team)
    && (forall i :: 0 <= i < |s.callers| ==> IsNew(s, first, Made(s.callers[i].stage)))
    && (forall i, j :: 0 <= i < |s.callers| && 0 <= j < |s.callers| && i != j && Made(s.callers[i].stage).Some? ==>
          Made(s.callers[i].stage) != Made(s.callers[j].stage))
  }

  /** What a move does to the teams: it makes one, commits the mover's own, or nothing. */
  lemma TeamMoves(s: State, hash: User -> nat, e: Event)
    requires Enabled(s, hash, e.caller)
    ensures var t, was := Next(s, hash, e), Made(s.callers[e.caller].stage);
      && |t.callers| == |s.callers|
      && (forall i :: 0 <= i < |s.callers| && i != e.caller ==> t.callers[i] == s.callers[i])
      && var now := Made(t.callers[e.caller].stage);
         || (t.teams == s.teams && t.nextTeam == s.nextTeam && (now.None? || now == was))
         || (t.teams == s.teams && t.nextTeam == s.nextTeam + 1 && now == Some(s.nextTeam))
         || (was.Some? && now.None? && t.nextTeam == s.nextTeam &&
             t.teams == s.teams + [TeamRow(was.value, s.callers[e.caller].user)])
  {
  }

  lemma NextKeepsApart(s: State, hash: User -> nat, e: Event, first: Team)
    requires TeamsApart(s, first) && Enabled(s, hash, e.caller)
    ensures TeamsApart(Next(s, hash, e), first)
  {
    var t, c := Next(s, hash, e), e.caller;
    TeamMoves(s, hash, e);
    assert IsNew(s, first, Made(s.callers[c].stage));
    forall i | 0 <= i < |t.callers| ensures IsNew(t, first, Made(t.callers[i].stage)) {
      assert IsNew(s, first, Made(s.callers[i].stage));
    }
    forall i, j | 0 <= i < |t.callers| && 0 <= j < |t.callers| && i != j && Made(t.callers[i].stage).Some?
      ensures Made(t.callers[i].stage) != Made(t.callers[j].stage)
    {
      assert IsNew(s, first, Made(s.callers[i].stage)) && IsNew(s, first, Made(s.callers[j].stage));
    }
  }

  lemma {:induction false} RunsKeepApart(s: State, hash: User -> nat, events: seq<Event>, first: Team)
    requires TeamsApart(s, first) && IsRun(s, hash, events)
    ensures TeamsApart(After(s, hash, events), first)
    decreases |events|
  {
    if events != [] {
      NextKeepsApart(s, hash, events[0], first);
      RunsKeepApart(Next(s, hash, events[0]), hash, events[1..], first);
    }
  }

  /** However the calls interleave, each team they make is new and belongs to one user only. */
  lemma NewTeamsDiffer(
    users: seq<User>, members: seq<Membership>, defaults: map<User, Team>, nextTeam: Team,
    hash: User -> nat, events: seq<Event>, j: nat, k: nat)
    requires IsRun(Start(users, members, defaults, nextTeam), hash, events)
    ensures var t := After(Start(users, members, defaults, nextTeam), hash, events);
      j < k < |t.teams| ==> t.teams[j].team != t.teams[k].team && nextTeam <= t.teams[j].team
  {
    RunsKeepApart(Start(users, members, defaults, nextTeam), hash, events, nextTeam);
  }
}
