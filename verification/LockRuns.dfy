/** What the gate promises over whole runs: any number of requests and clients using
    one lock system, their calls of it interleaved in any order. */
module LockRuns {
  import opened Locks

  // ----- Runs

  function Run(acts: seq<Action>): State
    requires Legal(acts)
    decreases |acts|, 1
  {
    if acts == [] then START else Next(Run(acts[..|acts| - 1]), acts[|acts| - 1])
  }

  predicate Legal(acts: seq<Action>)
    decreases |acts|, 0
  {
    acts == [] || (Legal(acts[..|acts| - 1]) && Can(Run(acts[..|acts| - 1]), acts[|acts| - 1]))
  }

  lemma Extends(acts: seq<Action>, a: Action)
    requires Legal(acts) && Can(Run(acts), a)
    ensures Legal(acts + [a]) && Run(acts + [a]) == Next(Run(acts), a)
  {
    assert (acts + [a])[..|acts|] == acts;
  }

  /** The lock system is sound in every state of every run. */
  lemma {:induction false} EveryRunIsOk(acts: seq<Action>)
    requires Legal(acts)
    ensures Ok(Run(acts))
  {
    if acts == [] {
    } else {
      EveryRunIsOk(acts[..|acts| - 1]);
      StepKeeps(Run(acts[..|acts| - 1]), acts[|acts| - 1]);
    }
  }

  // ----- What a request that was let in has

  /** A request was let in on a name: by a lock it took for itself, or by its claim of
      one that reaches the name. */
  ghost predicate Has(s: State, r: nat, name: string) {
    r in s.guards
    && ((exists t :: t in s.guards[r].briefs && s.guards[r].briefs[t].root == name)
        || (exists t :: t in s.guards[r].holds && t in s.locks && Reaches(s.locks[t], name)))
  }

  /** No lock of its own has run out. */
  predicate Unexpired(s: State, r: nat) {
    r in s.guards && forall t :: t in s.guards[r].briefs ==> s.clock < s.guards[r].briefs[t].expiry
  }

  /** One request claims a lock another took for itself. */
  ghost predicate Spells(s: State, r: nat, q: nat) {
    r in s.guards && q in s.guards && exists t :: t in s.guards[r].briefs && t in s.guards[q].holds
  }

  /** A client gave back or cut short a lock a request took for itself. */
  predicate Undone(s: State, r: nat) {
    r in s.guards && exists t :: t in s.guards[r].briefs && t in s.undone
  }

  ghost predicate Share(s: State, r: nat, q: nat, name: string) {
    r != q && Has(s, r, name) && Has(s, q, name) && Unexpired(s, r) && Unexpired(s, q)
  }

  ghost predicate SomebodyShares(s: State) {
    exists r, q, name :: Share(s, r, q, name)
  }

  /** What a request was let in with is still in the table, unless a client undid it. */
  lemma HasALock(s: State, r: nat, name: string) returns (t: Token)
    requires Ok(s) && Has(s, r, name) && Unexpired(s, r) && !Undone(s, r)
    ensures t in s.locks && Reaches(s.locks[t], name) && (t in s.guards[r].briefs || t in s.guards[r].holds)
  {
    assert GuardOk(s, s.guards[r]);
    if u :| u in s.guards[r].holds && u in s.locks && Reaches(s.locks[u], name) {
      t := u;
    } else {
      t :| t in s.guards[r].briefs && s.guards[r].briefs[t].root == name;
      assert BriefOk(s, t, s.guards[r].briefs[t]);
    }
  }

  /** No lock but its own reaches a name a request was let in on. */
  lemma NoForeignLock(s: State, r: nat, name: string, u: Token)
    requires Ok(s) && Has(s, r, name) && Unexpired(s, r) && !Undone(s, r)
    requires u in s.locks && Reaches(s.locks[u], name)
    ensures u in s.guards[r].briefs || u in s.guards[r].holds
  {
    var t := HasALock(s, r, name);
    OneReaches(s.locks, t, u, name);
  }

  /** A client undid a lock a request took, and the other has since been let in on its
      name. */
  ghost predicate UndoneFor(s: State, r: nat, q: nat) {
    r in s.guards && exists t :: t in s.guards[r].briefs && t in s.undone && Has(s, q, s.guards[r].briefs[t].root)
  }

  /** How two requests can come to have one name. */
  ghost predicate Crossed(s: State, r: nat, q: nat) {
    Spells(s, r, q) || Spells(s, q, r) || UndoneFor(s, r, q) || UndoneFor(s, q, r)
  }

  /** What a request was let in on a name with is in the table, or a client undid it. */
  lemma StandsOrUndone(s: State, r: nat, q: nat, name: string) returns (t: Token)
    requires Ok(s) && Has(s, r, name) && Unexpired(s, r) && Has(s, q, name) && !UndoneFor(s, r, q)
    ensures t in s.locks && Reaches(s.locks[t], name) && (t in s.guards[r].briefs || t in s.guards[r].holds)
  {
    assert GuardOk(s, s.guards[r]);
    if u :| u in s.guards[r].holds && u in s.locks && Reaches(s.locks[u], name) {
      t := u;
    } else {
      t :| t in s.guards[r].briefs && s.guards[r].briefs[t].root == name;
      assert BriefOk(s, t, s.guards[r].briefs[t]);
    }
  }

  lemma SharersCross(s: State, r: nat, q: nat, name: string)
    requires Ok(s) && Share(s, r, q, name)
    ensures Crossed(s, r, q)
  {
    if !UndoneFor(s, r, q) && !UndoneFor(s, q, r) {
      var t := StandsOrUndone(s, r, q, name);
      var u := StandsOrUndone(s, q, r, name);
      OneReaches(s.locks, t, u, name);
      OneApart(s, r, q);
    }
  }

  lemma SpellersShare(s: State, r: nat, q: nat) returns (name: string)
    requires Ok(s) && r != q && Spells(s, r, q) && Unexpired(s, r) && Unexpired(s, q)
    ensures Share(s, r, q, name)
  {
    var t :| t in s.guards[r].briefs && t in s.guards[q].holds;
    assert GuardOk(s, s.guards[q]) && GuardOk(s, s.guards[r]);
    assert BriefOk(s, t, s.guards[r].briefs[t]);
    name := s.guards[r].briefs[t].root;
  }

  lemma CrossedShare(s: State, r: nat, q: nat) returns (name: string)
    requires Ok(s) && r != q && Crossed(s, r, q) && Unexpired(s, r) && Unexpired(s, q)
    ensures Share(s, r, q, name)
  {
    if Spells(s, r, q) {
      name := SpellersShare(s, r, q);
    } else if Spells(s, q, r) {
      name := SpellersShare(s, q, r);
    } else if UndoneFor(s, r, q) {
      var t :| t in s.guards[r].briefs && t in s.undone && Has(s, q, s.guards[r].briefs[t].root);
      name := s.guards[r].briefs[t].root;
    } else {
      var t :| t in s.guards[q].briefs && t in s.undone && Has(s, r, s.guards[q].briefs[t].root);
      name := s.guards[q].briefs[t].root;
    }
  }

  /** Lock safety, exactly: in every state of every run, while the locks two requests
      took for themselves last and no client has undone one, they have a name in common
      if and only if the list that let one of them in spelled the token of a lock the
      other took for itself. When a client has undone one, its name can be common too,
      and nothing but these two ways makes one so. */
  lemma SharedExactly(acts: seq<Action>, r: nat, q: nat)
    requires Legal(acts) && r != q && Unexpired(Run(acts), r) && Unexpired(Run(acts), q)
    ensures !Undone(Run(acts), r) && !Undone(Run(acts), q) ==>
              ((exists name :: Share(Run(acts), r, q, name)) <==> Spells(Run(acts), r, q) || Spells(Run(acts), q, r))
    ensures (exists name :: Share(Run(acts), r, q, name)) <==> Crossed(Run(acts), r, q)
  {
    EveryRunIsOk(acts);
    var s := Run(acts);
    if name :| Share(s, r, q, name) { SharersCross(s, r, q, name); }
    if Crossed(s, r, q) { var name := CrossedShare(s, r, q); }
  }

  // ----- What headers may say

  /** Whether an If header may spell the token of a lock some request took for itself,
      whether an UNLOCK may, and whether a refresh may and how far its moment may then be
      behind the latest anybody has used. No such token is ever shown to a client, and
      none is hard to guess. */
  datatype Ways = Ways(lists: bool, unlocks: bool, refreshes: bool, behind: nat)

  predicate Allowed(w: Ways, s: State, a: Action) {
    match a
    case Claim(_, _, tokens) => w.lists || tokens !! s.taken.Keys
    case ClientUnlock(_, t) => w.unlocks || t !in s.taken
    case ClientRefresh(now, t) => (w.refreshes && s.clock - w.behind <= now) || t !in s.taken
    case _ => true
  }

  /** A client can take from a request a lock it took for itself. A refresh gives an
      hour from its own moment, and cuts a minute short only when that is most of an
      hour late. */
  predicate CanUndo(w: Ways) {
    w.unlocks || (w.refreshes && LOCK_TIMEOUT - BRIEF_LOCK < w.behind)
  }

  predicate RunOf(w: Ways, acts: seq<Action>) {
    acts == []
    || (RunOf(w, acts[..|acts| - 1]) && Legal(acts) && Allowed(w, Run(acts[..|acts| - 1]), acts[|acts| - 1]))
  }

  lemma RunOfIsLegal(w: Ways, acts: seq<Action>)
    requires RunOf(w, acts)
    ensures Legal(acts)
  {
  }

  /** No lock a request took for itself is for more than a minute. */
  predicate BriefFor(s: State) {
    forall t :: t in s.taken ==> s.taken[t] <= s.clock + BRIEF_LOCK
  }

  /** What nobody may spell nobody has claimed, and what nobody can undo nobody has. */
  lemma {:induction false} Untouched(w: Ways, acts: seq<Action>)
    requires RunOf(w, acts)
    ensures Legal(acts)
    ensures !w.lists ==> Run(acts).claims !! Run(acts).taken.Keys
    ensures !CanUndo(w) ==> Run(acts).undone !! Run(acts).taken.Keys
    ensures BriefFor(Run(acts))
  {
    if acts == [] {
    } else {
      var front := acts[..|acts| - 1];
      Untouched(w, front);
      EveryRunIsOk(front);
      assert Minted(Run(front));
      hide Ok, CanCreate, Minted;
      StillUntouched(w, Run(front), acts[|acts| - 1]);
    }
  }

  lemma StillUntouched(w: Ways, s: State, a: Action)
    requires Minted(s) && Can(s, a) && Allowed(w, s, a)
    requires !w.lists ==> s.claims !! s.taken.Keys
    requires !CanUndo(w) ==> s.undone !! s.taken.Keys
    requires BriefFor(s)
    ensures var after := Next(s, a);
            && (!w.lists ==> after.claims !! after.taken.Keys)
            && (!CanUndo(w) ==> after.undone !! after.taken.Keys)
            && BriefFor(after)
  {
    hide CanCreate;
  }

  /** When nobody spells such a token, no two requests that were let in have one name
      while the locks they took last, and no lock reaches it but one the request has. */
  lemma EveryRunIsSafe(w: Ways, acts: seq<Action>, r: nat, name: string)
    requires RunOf(w, acts) && !w.lists && !CanUndo(w)
    requires Legal(acts) && Has(Run(acts), r, name) && Unexpired(Run(acts), r)
    ensures forall q :: !Share(Run(acts), r, q, name)
    ensures forall u :: u in Run(acts).locks && Reaches(Run(acts).locks[u], name) ==>
                          u in Run(acts).guards[r].briefs || u in Run(acts).guards[r].holds
  {
    NobodyShares(w, acts);
    var s := Run(acts);
    EveryRunIsOk(acts);
    NothingUndone(w, acts, r);
    forall u | u in s.locks && Reaches(s.locks[u], name) ensures u in s.guards[r].briefs || u in s.guards[r].holds {
      NoForeignLock(s, r, name, u);
    }
    forall q ensures !Share(s, r, q, name) {
      if Share(s, r, q, name) { assert SomebodyShares(s); }
    }
  }

  lemma UndoneWasNamed(s: State, r: nat) returns (t: Token)
    requires Ok(s) && Undone(s, r)
    ensures t in s.taken && t in s.undone
  {
    t :| t in s.guards[r].briefs && t in s.undone;
    assert GuardOk(s, s.guards[r]) && BriefOk(s, t, s.guards[r].briefs[t]);
  }

  lemma NothingUndone(w: Ways, acts: seq<Action>, r: nat)
    requires RunOf(w, acts) && !CanUndo(w)
    ensures Legal(acts) && !Undone(Run(acts), r)
  {
    Untouched(w, acts);
    EveryRunIsOk(acts);
    if Undone(Run(acts), r) {
      var t := UndoneWasNamed(Run(acts), r);
      assert false;
    }
  }

  lemma NobodyShares(w: Ways, acts: seq<Action>)
    requires RunOf(w, acts) && !w.lists && !CanUndo(w)
    ensures Legal(acts) && !SomebodyShares(Run(acts))
  {
    Untouched(w, acts);
    EveryRunIsOk(acts);
    var s := Run(acts);
    if SomebodyShares(s) {
      var r, q, name :| Share(s, r, q, name);
      NothingUndone(w, acts, r);
      NothingUndone(w, acts, q);
      SharersCross(s, r, q, name);
      var t;
      if Spells(s, r, q) { t := SpelledWasClaimed(s, r, q); } else { t := SpelledWasClaimed(s, q, r); }
      assert false;
    }
  }

  /** What was spelled was a lock a request took, and was claimed. */
  lemma SpelledWasClaimed(s: State, r: nat, q: nat) returns (t: Token)
    requires Ok(s) && Spells(s, r, q)
    ensures t in s.taken && t in s.claims
  {
    t :| t in s.guards[r].briefs && t in s.guards[q].holds;
    assert GuardOk(s, s.guards[r]) && GuardOk(s, s.guards[q]) && BriefOk(s, t, s.guards[r].briefs[t]);
  }

  // ----- What a lock outlives

  /** A lock some request took for itself, and no request under way goes by. */
  ghost predicate LeftBehind(s: State, t: Token) {
    t in s.taken && t in s.locks && !SomebodysOwn(s, t)
  }

  ghost predicate SomethingLeft(s: State) {
    exists t :: LeftBehind(s, t)
  }

  /** A lock a request took for itself is gone when the request is, unless some list
      had spelled it. */
  lemma LeftWasClaimed(acts: seq<Action>, t: Token)
    requires Legal(acts) && LeftBehind(Run(acts), t)
    ensures t in Run(acts).claims
  {
    EveryRunIsOk(acts);
  }

  // ----- The ways it fails

  const PUT := "/a"
  const OURS := Lock(PUT, true, BRIEF_LOCK, false)
  const FIRST := Guard(map[0 := Brief(PUT, BRIEF_LOCK)], {})
  const TOOK := map[0 := BRIEF_LOCK]
  const SECOND := Guard(map[], {0})

  lemma Step(w: Ways, acts: seq<Action>, a: Action, after: State)
    requires RunOf(w, acts) && Legal(acts) && Can(Run(acts), a) && Allowed(w, Run(acts), a)
             && Next(Run(acts), a) == after
    ensures RunOf(w, acts + [a]) && Legal(acts + [a]) && Run(acts + [a]) == after
  {
    Extends(acts, a);
    assert (acts + [a])[..|acts|] == acts;
  }

  /** Request 0 has taken a lock for itself on the name it writes. */
  lemma TakesIt(w: Ways) returns (acts: seq<Action>)
    ensures RunOf(w, acts) && Legal(acts)
    ensures Run(acts) == State(map[0 := OURS], 1, map[0 := FIRST], 0, TOOK, {}, {})
  {
    acts := [];
    assert START.guards[0 := NOTHING] == map[0 := NOTHING];
    Step(w, acts, Arrive(0), START.(guards := map[0 := NOTHING]));
    acts := acts + [Arrive(0)];
    var s := Run(acts);
    assert CollectedAt(s, 0) == s by { assert Collected(s.locks, 0) == s.locks; }
    Step(w, acts, Take(0, 0, PUT), State(map[0 := OURS], 1, map[0 := FIRST], 0, TOOK, {}, {}));
    acts := acts + [Take(0, 0, PUT)];
  }

  /** Two requests write one name: the second's list spells the token of the lock the
      first has just taken. */
  lemma ListSpellsIt(w: Ways) returns (acts: seq<Action>)
    requires w.lists
    ensures RunOf(w, acts) && Legal(acts) && Share(Run(acts), 0, 1, PUT)
    ensures Run(acts) == State(map[0 := OURS.(held := true)], 1, map[0 := FIRST, 1 := SECOND], 0, TOOK, {0}, {})
  {
    acts := TakesIt(w);
    var s := Run(acts);
    var guards := map[0 := FIRST, 1 := NOTHING];
    assert s.guards[1 := NOTHING] == guards;
    Step(w, acts, Arrive(1), s.(guards := guards));
    acts := acts + [Arrive(1)];
    s := Run(acts);
    assert Collected(s.locks, 0) == s.locks && SetHeld(s.locks, {0}, true) == map[0 := OURS.(held := true)];
    assert guards[1 := SECOND] == map[0 := FIRST, 1 := SECOND] && NOTHING.holds + {0} == {0};
    Step(w, acts, Claim(1, 0, {0}), State(map[0 := OURS.(held := true)], 1, map[0 := FIRST, 1 := SECOND], 0, TOOK, {0},
        {}));
    acts := acts + [Claim(1, 0, {0})];
    s := Run(acts);
    assert 0 in s.guards[0].briefs && 0 in s.guards[1].holds && Reaches(s.locks[0], PUT);
  }

  const TAKES := Guard(map[1 := Brief(PUT, BRIEF_LOCK)], {})

  lemma UnlocksIt(w: Ways) returns (acts: seq<Action>)
    requires w.unlocks
    ensures RunOf(w, acts) && Legal(acts)
    ensures Run(acts) == State(map[], 1, map[0 := FIRST, 1 := NOTHING], 0, TOOK, {}, {0})
  {
    acts := TakesIt(w);
    var s := Run(acts);
    assert Collected(s.locks, 0) == s.locks && s.locks - {0} == map[];
    Step(w, acts, ClientUnlock(0, 0), s.(locks := map[], undone := {0}));
    acts := acts + [ClientUnlock(0, 0)];
    s := Run(acts);
    assert s.guards[1 := NOTHING] == map[0 := FIRST, 1 := NOTHING];
    Step(w, acts, Arrive(1), s.(guards := map[0 := FIRST, 1 := NOTHING]));
    acts := acts + [Arrive(1)];
  }

  /** A client gives back a lock it never had, and another request takes the name. */
  lemma UnlockSpellsIt(w: Ways) returns (acts: seq<Action>)
    requires w.unlocks
    ensures RunOf(w, acts) && Legal(acts) && Share(Run(acts), 0, 1, PUT)
  {
    acts := UnlocksIt(w);
    var s := Run(acts);
    assert Collected(s.locks, 0) == map[];
    assert s.guards[1 := TAKES] == map[0 := FIRST, 1 := TAKES] && TOOK[1 := BRIEF_LOCK] == TOOK + map[1 := BRIEF_LOCK];
    Step(w, acts, Take(1, 0, PUT), State(map[1 := OURS], 2, map[0 := FIRST, 1 := TAKES], 0, TOOK[1 := BRIEF_LOCK], {},
        {0}));
    acts := acts + [Take(1, 0, PUT)];
    s := Run(acts);
    assert 0 in s.guards[0].briefs && 1 in s.guards[1].briefs;
  }

  // A moment at which a lock refreshed as late as this is gone, and one taken for a
  // minute is not.
  function Between(behind: nat): (now: int)
    requires LOCK_TIMEOUT - BRIEF_LOCK < behind
    ensures LOCK_TIMEOUT - behind <= now && 0 <= now < BRIEF_LOCK
  {
    if behind < LOCK_TIMEOUT then LOCK_TIMEOUT - behind else 0
  }

  function LaterGuard(now: int): Guard { Guard(map[1 := Brief(PUT, now + BRIEF_LOCK)], {}) }

  lemma RefreshesIt(w: Ways) returns (acts: seq<Action>, late: Lock)
    requires w.refreshes && LOCK_TIMEOUT - BRIEF_LOCK < w.behind
    ensures late == OURS.(expiry := LOCK_TIMEOUT - w.behind)
    ensures RunOf(w, acts) && Legal(acts)
    ensures Run(acts) == State(map[0 := late], 1, map[0 := FIRST, 1 := NOTHING], 0, TOOK, {}, {0})
  {
    acts := TakesIt(w);
    late := OURS.(expiry := LOCK_TIMEOUT - w.behind);
    var s := Run(acts);
    var moment: int := w.behind;
    moment := -moment;
    assert Collected(s.locks, moment) == s.locks && s.locks[0 := late] == map[0 := late];
    Step(w, acts, ClientRefresh(moment, 0), s.(locks := map[0 := late], undone := {0}));
    acts := acts + [ClientRefresh(moment, 0)];
    s := Run(acts);
    assert s.guards[1 := NOTHING] == map[0 := FIRST, 1 := NOTHING];
    Step(w, acts, Arrive(1), s.(guards := map[0 := FIRST, 1 := NOTHING]));
    acts := acts + [Arrive(1)];
  }

  lemma TakesAfter(late: Lock, now: int)
    requires !late.held && late.expiry <= now && 0 <= now
    ensures var s := State(map[0 := late], 1, map[0 := FIRST, 1 := NOTHING], 0, TOOK, {}, {0});
            var take := Take(1, now, PUT);
            Can(s, take) && Next(s, take) == ByTwo(now)
  {
    var s := State(map[0 := late], 1, map[0 := FIRST, 1 := NOTHING], 0, TOOK, {}, {0});
    assert Collected(s.locks, now) == map[];
    assert s.guards[1 := LaterGuard(now)] == map[0 := FIRST, 1 := LaterGuard(now)];
  }

  function ByTwo(now: int): State {
    State(map[1 := OURS.(expiry := now + BRIEF_LOCK)], 2, map[0 := FIRST, 1 := LaterGuard(now)], now,
          TOOK[1 := now + BRIEF_LOCK], {}, {0})
  }

  /** A refresh that comes most of an hour late leaves the lock it renews run out: the
      next request to write the name takes one of its own. */
  lemma RefreshCutsItShort(w: Ways) returns (acts: seq<Action>)
    requires w.refreshes && LOCK_TIMEOUT - BRIEF_LOCK < w.behind
    ensures RunOf(w, acts) && Legal(acts) && Share(Run(acts), 0, 1, PUT)
  {
    hide Next, Can, Run, Legal, RunOf;
    var late;
    acts, late := RefreshesIt(w);
    var now := Between(w.behind);
    TakesAfter(late, now);
    Step(w, acts, Take(1, now, PUT), ByTwo(now));
    acts := acts + [Take(1, now, PUT)];
    var s := Run(acts);
    assert s.guards[0] == FIRST && s.guards[1] == LaterGuard(now);
    assert 0 in s.guards[0].briefs && 1 in s.guards[1].briefs;
  }

  /** A request cannot give its lock back while another claims it; it is left to run
      out. */
  lemma LeavesItBehind(w: Ways) returns (acts: seq<Action>)
    requires w.lists
    ensures RunOf(w, acts) && Legal(acts) && LeftBehind(Run(acts), 0)
  {
    acts := ListSpellsIt(w);
    var s := Run(acts);
    assert Collected(s.locks, 0) == s.locks && FIRST.briefs - {0} == map[];
    assert s.guards[0 := NOTHING] == map[0 := NOTHING, 1 := SECOND];
    Step(w, acts, GiveBack(0, 0, 0), s.(guards := map[0 := NOTHING, 1 := SECOND]));
    acts := acts + [GiveBack(0, 0, 0)];
  }

  // ----- What the gate promises is exactly what headers may not say

  ghost predicate CanShare(w: Ways) {
    exists acts :: RunOf(w, acts) && Legal(acts) && SomebodyShares(Run(acts))
  }

  ghost predicate CanLeave(w: Ways) {
    exists acts :: RunOf(w, acts) && Legal(acts) && SomethingLeft(Run(acts))
  }

  /** Some run lets two requests in on one name if and only if a list or an UNLOCK may
      spell the token of a lock a request took for itself, or a refresh may that is more
      than fifty-nine minutes late. */
  lemma SharingIsExact(w: Ways)
    ensures CanShare(w) <==> w.lists || w.unlocks || (w.refreshes && LOCK_TIMEOUT - BRIEF_LOCK < w.behind)
  {
    if w.lists {
      var acts := ListSpellsIt(w);
      assert SomebodyShares(Run(acts));
    } else if w.unlocks {
      var acts := UnlockSpellsIt(w);
      assert SomebodyShares(Run(acts));
    } else if CanUndo(w) {
      var acts := RefreshCutsItShort(w);
      assert SomebodyShares(Run(acts));
    } else if CanShare(w) {
      var acts :| RunOf(w, acts) && Legal(acts) && SomebodyShares(Run(acts));
      NobodyShares(w, acts);
    }
  }

  /** And a lock outlives the request that took it in some run if and only if a list
      may. */
  lemma LeavingIsExact(w: Ways)
    ensures CanLeave(w) <==> w.lists
  {
    if w.lists {
      var acts := LeavesItBehind(w);
      assert SomethingLeft(Run(acts));
    } else if CanLeave(w) {
      var acts :| RunOf(w, acts) && Legal(acts) && SomethingLeft(Run(acts));
      var t :| LeftBehind(Run(acts), t);
      LeftWasClaimed(acts, t);
      Untouched(w, acts);
    }
  }
}
