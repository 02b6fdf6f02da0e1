/** The lock gate (internal/dav/locks.go and memlocks.go): which writes are let in
    while others hold locks, ask for them and give them back. The lock system itself
    -- golang.org/x/net/webdav's -- is taken by its contract; each call of it is one
    step, and steps of any number of requests and clients interleave. */
module Locks {
  import opened Text
  import opened Paths

  /** What the lock system calls a lock. Anybody may spell any of them: nothing about
      a token says whose it is, and none is a secret. */
  type Token = nat

  datatype Lock = Lock(root: string, zeroDepth: bool, expiry: int, held: bool)

  type Table = map<Token, Lock>

  const MINUTE := 60 * 1_000_000_000
  const BRIEF_LOCK := MINUTE
  const LOCK_TIMEOUT := 60 * MINUTE

  /** A lock a request took for itself: on what, and until when. */
  datatype Brief = Brief(root: string, expiry: int)

  /** What a request goes by: locks of its own, and locks it claims. */
  datatype Guard = Guard(briefs: map<Token, Brief>, holds: set<Token>)

  const NOTHING := Guard(map[], {})

  /** The table, what each request under way goes by, and the latest moment anybody
      has used it at; and, for the proofs, until when requests took locks for themselves,
      which were ever claimed, and which a client gave back or cut short. */
  datatype State = State(locks: Table, next: nat, guards: map<nat, Guard>, clock: int,
                         taken: map<Token, int>, claims: set<Token>, undone: set<Token>)

  const START := State(map[], 0, map[], 0, map[], {}, {})

  // ----- What locks cover

  predicate StrictlyUnder(name: string, root: string) {
    name != root && (root == "/" || root + "/" <= name)
  }

  /** A lock on a name, or to every depth on a collection above it. */
  predicate Reaches(l: Lock, name: string) {
    l.root == name || (!l.zeroDepth && StrictlyUnder(name, l.root))
  }

  /** Two locks that could not both be granted. */
  predicate Clash(a: Lock, b: Lock) {
    Reaches(a, b.root) || Reaches(b, a.root)
  }

  predicate NoClash(locks: Table) {
    forall t, u :: t in locks && u in locks && t != u ==> !Clash(locks[t], locks[u])
  }

  /** A lock of a request's own may be granted exactly when none there reaches its name. */
  lemma CanTakeIs(locks: Table, name: string)
    ensures CanCreate(locks, name, true) <==> forall t :: t in locks ==> !Reaches(locks[t], name)
  {
    assert forall t :: t in locks ==> (Clash(locks[t], Lock(name, true, 0, false)) <==> Reaches(locks[t], name));
  }

  /** A lock on a file's name, or to every depth on a directory's, reaches a file exactly
      when it is that one, or the file climbs to it; the root's reaches everything. */
  lemma ReachesIs(dir: string, path: string, zeroDepth: bool, expiry: int, held: bool)
    requires path != ""
    ensures Reaches(Lock(LockName(dir), zeroDepth, expiry, held), LockName(path)) <==>
            path == dir || (!zeroDepth && Climbs(path, dir))
  {
    FourReadingsOfUnder(path, dir);
    if dir == "" { assert LockName(path) != "/"; }
  }

  lemma PrefixesNest(a: string, b: string, name: string)
    requires |a| < |b| && a + "/" <= name && b + "/" <= name
    ensures a + "/" <= b
  {
    assert (a + "/") == name[..|a| + 1] && b == (b + "/")[..|b|] == name[..|b|];
  }

  lemma RootsAbove(a: string, b: string, name: string)
    requires (a == name || StrictlyUnder(name, a)) && (b == name || StrictlyUnder(name, b))
    ensures a == b || StrictlyUnder(a, b) || StrictlyUnder(b, a)
  {
    if a != name && b != name && a != "/" && b != "/" {
      if |a| < |b| {
        PrefixesNest(a, b, name);
      } else if |b| < |a| {
        PrefixesNest(b, a, name);
      } else {
        assert name[..|a|] == a && name[..|b|] == b;
      }
    }
  }

  /** At most one lock reaches a name. */
  lemma OneReaches(locks: Table, t: Token, u: Token, name: string)
    requires NoClash(locks) && t in locks && u in locks && Reaches(locks[t], name) && Reaches(locks[u], name)
    ensures t == u
  {
    RootsAbove(locks[t].root, locks[u].root, name);
  }

  // ----- The steps

  datatype Action =
    | Arrive(r: nat)                                     // a request begins
    | Leave(r: nat)                                      // one ends, going by nothing
    | Take(r: nat, now: int, root: string)               // a lock for the request, if it may be granted
    | GiveBack(r: nat, now: int, t: Token)               // and its return
    | Claim(r: nat, now: int, tokens: set<Token>)        // Confirm, and what it claims
    | Ask(now: int)                                      // Confirm, claiming nothing
    | LetGo(r: nat, tokens: set<Token>)                  // the release Confirm hands out
    | ClientLock(now: int, root: string, zeroDepth: bool)
    | ClientUnlock(now: int, t: Token)
    | ClientRefresh(now: int, t: Token)

  /** Whose step it is, if a request's. */
  function Actor(a: Action): Option<nat> {
    if a.Ask? || a.ClientLock? || a.ClientUnlock? || a.ClientRefresh? then None else Some(a.r)
  }

  /** What is left once the locks that have expired are gone. One that is held does
      not expire. */
  function Collected(locks: Table, now: int): Table {
    map t | t in locks && (locks[t].held || now < locks[t].expiry) :: locks[t]
  }

  function CollectedAt(s: State, now: int): State {
    s.(locks := Collected(s.locks, now), clock := if s.clock < now then now else s.clock)
  }

  /** Whether a lock may be granted. */
  predicate CanCreate(locks: Table, root: string, zeroDepth: bool) {
    forall t :: t in locks ==> !Clash(locks[t], Lock(root, zeroDepth, 0, false))
  }

  function SetHeld(locks: Table, tokens: set<Token>, held: bool): Table {
    map t | t in locks :: if t in tokens then locks[t].(held := held) else locks[t]
  }

  /** Whether a lock can be given back or renewed: it is there, and nobody claims it. */
  predicate Free(locks: Table, t: Token) { t in locks && !locks[t].held }

  predicate Can(s: State, a: Action) {
    match a
    case Arrive(r) => r !in s.guards
    case Leave(r) => r in s.guards && s.guards[r] == NOTHING
    case Take(r, _, _) => r in s.guards
    case GiveBack(r, _, t) => r in s.guards && t in s.guards[r].briefs
    case Claim(r, now, tokens) => r in s.guards && forall t :: t in tokens ==> Free(Collected(s.locks, now), t)
    case LetGo(r, tokens) => r in s.guards && tokens <= s.guards[r].holds
    case _ => true
  }

  function Granted(s: State, root: string, zeroDepth: bool, expiry: int): State {
    s.(locks := s.locks[s.next := Lock(root, zeroDepth, expiry, false)], next := s.next + 1)
  }

  function Taken(s: State, r: nat, root: string, expiry: int): State
    requires r in s.guards
  {
    var g := s.guards[r];
    Granted(s, root, true, expiry).(guards := s.guards[r := g.(briefs := g.briefs[s.next := Brief(root, expiry)])],
                                    taken := s.taken[s.next := expiry])
  }

  /** A lock of a request's own given back: it stays behind if it is claimed, and the
      request goes by it no longer either way. */
  function GivenBack(s: State, r: nat, t: Token): State
    requires r in s.guards
  {
    var g := s.guards[r];
    s.(locks := if Free(s.locks, t) then s.locks - {t} else s.locks,
        guards := s.guards[r := g.(briefs := g.briefs - {t})])
  }

  function Claimed(s: State, r: nat, tokens: set<Token>): State
    requires r in s.guards
  {
    var g := s.guards[r];
    s.(locks := SetHeld(s.locks, tokens, true), guards := s.guards[r := g.(holds := g.holds + tokens)],
       claims := s.claims + tokens)
  }

  function Released(s: State, r: nat, tokens: set<Token>): State
    requires r in s.guards
  {
    var g := s.guards[r];
    s.(locks := SetHeld(s.locks, tokens, false), guards := s.guards[r := g.(holds := g.holds - tokens)])
  }

  function Unlocked(s: State, t: Token): State {
    if Free(s.locks, t) then s.(locks := s.locks - {t}, undone := s.undone + {t}) else s
  }

  /** A lock that runs out at another time. One a request took for itself is cut short
      when that is before it would have. */
  function Refreshed(s: State, t: Token, expiry: int): State {
    if !Free(s.locks, t) then s
    else s.(locks := s.locks[t := s.locks[t].(expiry := expiry)],
            undone := if t in s.taken && expiry < s.taken[t] then s.undone + {t} else s.undone)
  }

  function Next(s: State, a: Action): State
    requires Can(s, a)
  {
    match a
    case Arrive(r) => s.(guards := s.guards[r := NOTHING])
    case Leave(r) => s.(guards := s.guards - {r})
    case Take(r, now, root) =>
      var c := CollectedAt(s, now);
      if CanCreate(c.locks, root, true) then Taken(c, r, root, now + BRIEF_LOCK) else c
    case GiveBack(r, now, t) => GivenBack(CollectedAt(s, now), r, t)
    case Claim(r, now, tokens) => Claimed(CollectedAt(s, now), r, tokens)
    case Ask(now) => CollectedAt(s, now)
    case LetGo(r, tokens) => Released(s, r, tokens)
    case ClientLock(now, root, zeroDepth) =>
      var c := CollectedAt(s, now);
      if CanCreate(c.locks, root, zeroDepth) then Granted(c, root, zeroDepth, now + LOCK_TIMEOUT) else c
    case ClientUnlock(now, t) => Unlocked(CollectedAt(s, now), t)
    case ClientRefresh(now, t) => Refreshed(CollectedAt(s, now), t, now + LOCK_TIMEOUT)
  }

  // ----- What every step keeps

  ghost predicate SomebodyClaims(s: State, t: Token) {
    exists r :: r in s.guards && t in s.guards[r].holds
  }

  ghost predicate SomebodysOwn(s: State, t: Token) {
    exists r :: r in s.guards && t in s.guards[r].briefs
  }

  /** A lock a request took for itself is there for as long as it was taken for, unless
      a client gave it back or cut it short. */
  predicate BriefOk(s: State, t: Token, b: Brief) {
    && t in s.taken && s.taken[t] == b.expiry
    && (t in s.locks ==> s.locks[t].root == b.root && s.locks[t].zeroDepth)
    && (t !in s.undone ==> (t in s.locks && b.expiry <= s.locks[t].expiry) || (t !in s.locks && b.expiry <= s.clock))
  }

  predicate GuardOk(s: State, g: Guard) {
    && (forall t :: t in g.briefs ==> BriefOk(s, t, g.briefs[t]))
    && (forall t :: t in g.holds ==> t in s.locks && s.locks[t].held)
  }

  predicate Apart(g: Guard, h: Guard) {
    g.briefs.Keys !! h.briefs.Keys && g.holds !! h.holds
  }

  predicate AllApart(guards: map<nat, Guard>) {
    forall r, q :: r in guards && q in guards && r != q ==> Apart(guards[r], guards[q])
  }

  predicate Minted(s: State) {
    && (forall t :: t in s.locks ==> t < s.next)
    && (forall t :: t in s.taken ==> t < s.next)
    && (forall t :: t in s.claims ==> t < s.next)
    && (forall t :: t in s.undone ==> t < s.next)
  }

  ghost predicate TableOk(s: State) {
    && NoClash(s.locks)
    && (forall t :: t in s.locks && s.locks[t].held ==> SomebodyClaims(s, t) && t in s.claims)
    && (forall t :: t in s.locks && t in s.taken ==> SomebodysOwn(s, t) || t in s.claims)
  }

  ghost predicate Ok(s: State) {
    Minted(s) && TableOk(s) && AllApart(s.guards) && forall r :: r in s.guards ==> GuardOk(s, s.guards[r])
  }

  /** What a request can count on over a step: no lock it goes on claiming moves, and
      none that is gone comes back. */
  ghost predicate Steady(s: State, after: State, r: nat) {
    && r in s.guards && r in after.guards && s.next <= after.next && s.clock <= after.clock
    && s.undone <= after.undone && s.claims <= after.claims
    && (forall t :: t in s.guards[r].holds && t in after.guards[r].holds && t in s.locks ==>
          t in after.locks && after.locks[t].root == s.locks[t].root
              && after.locks[t].zeroDepth == s.locks[t].zeroDepth)
    && (forall t :: t in after.locks && t < s.next ==> t in s.locks)
  }

  /** What it can count on over anybody else's. */
  ghost predicate Rely(s: State, after: State, r: nat) {
    Steady(s, after, r) && after.guards[r] == s.guards[r]
  }

  lemma CollectOk(s: State, now: int)
    requires Ok(s)
    ensures Ok(CollectedAt(s, now))
    ensures forall r :: r in s.guards ==> Rely(s, CollectedAt(s, now), r)
  {
    var after := CollectedAt(s, now);
    forall t | t in after.locks && after.locks[t].held ensures SomebodyClaims(after, t) {
      assert SomebodyClaims(s, t);
    }
    forall t | t in after.locks && t in after.taken ensures SomebodysOwn(after, t) || t in after.claims {
      assert SomebodysOwn(s, t) || t in s.claims;
    }
    forall r | r in s.guards ensures GuardOk(after, after.guards[r]) && Rely(s, after, r) {
      assert GuardOk(s, s.guards[r]);
    }
  }

  lemma GrantOk(s: State, root: string, zeroDepth: bool, expiry: int)
    requires Ok(s) && CanCreate(s.locks, root, zeroDepth)
    ensures Ok(Granted(s, root, zeroDepth, expiry))
  {
    var after := Granted(s, root, zeroDepth, expiry);
    forall t | t in s.locks ensures !Clash(s.locks[t], after.locks[s.next]) {
      assert !Clash(s.locks[t], Lock(root, zeroDepth, 0, false));
    }
    forall t | t in after.locks && after.locks[t].held ensures SomebodyClaims(after, t) {
      assert SomebodyClaims(s, t);
    }
    forall t | t in after.locks && t in after.taken ensures SomebodysOwn(after, t) || t in after.claims {
      assert SomebodysOwn(s, t) || t in s.claims;
    }
    forall r | r in after.guards ensures GuardOk(after, after.guards[r]) {
      assert GuardOk(s, s.guards[r]);
    }
  }

  // One request's guard changing, and nobody else's.

  predicate OnlyGuard(s: State, after: State, r: nat) {
    && (forall q :: q in s.guards && q != r ==> q in after.guards && after.guards[q] == s.guards[q])
    && (forall q :: q in after.guards && q != r ==> q in s.guards)
  }

  function GuardOf(s: State, r: nat): Guard {
    if r in s.guards then s.guards[r] else NOTHING
  }

  lemma ClaimsCarry(s: State, after: State, r: nat, t: Token)
    requires OnlyGuard(s, after, r) && SomebodyClaims(s, t)
    requires t in GuardOf(s, r).holds ==> t in GuardOf(after, r).holds
    ensures SomebodyClaims(after, t)
  {
    var q :| q in s.guards && t in s.guards[q].holds;
    assert q in after.guards && t in after.guards[q].holds;
  }

  lemma OwnCarries(s: State, after: State, r: nat, t: Token)
    requires OnlyGuard(s, after, r) && SomebodysOwn(s, t)
    requires t in GuardOf(s, r).briefs ==> t in GuardOf(after, r).briefs
    ensures SomebodysOwn(after, t)
  {
    var q :| q in s.guards && t in s.guards[q].briefs;
    assert q in after.guards && t in after.guards[q].briefs;
  }

  lemma ApartKept(s: State, after: State, r: nat)
    requires AllApart(s.guards) && OnlyGuard(s, after, r)
    requires forall q :: q in s.guards && q != r ==> Apart(s.guards[q], GuardOf(after, r))
    ensures AllApart(after.guards)
  {
    forall p, q | p in after.guards && q in after.guards && p != q ensures Apart(after.guards[p], after.guards[q]) {
      if p != r && q != r {
        assert Apart(s.guards[p], s.guards[q]);
      } else if p == r {
        assert Apart(s.guards[q], GuardOf(after, r));
      } else {
        assert Apart(s.guards[p], GuardOf(after, r));
      }
    }
  }

  lemma TakeGuards(s: State, r: nat, root: string, expiry: int, q: nat)
    requires Ok(s) && r in s.guards && q in s.guards && CanCreate(s.locks, root, true)
    ensures var after := Taken(s, r, root, expiry); GuardOk(after, after.guards[q]) && s.next !in s.guards[q].briefs
  {
    hide Clash, NoClash, AllApart, TableOk, CanCreate;
    assert GuardOk(s, s.guards[q]);
  }

  lemma TakeOk(s: State, r: nat, root: string, expiry: int)
    requires Ok(s) && r in s.guards && CanCreate(s.locks, root, true)
    ensures Ok(Taken(s, r, root, expiry))
  {
    hide Clash, NoClash, CanCreate, AllApart, GuardOk;
    GrantOk(s, root, true, expiry);
    var mid, after := Granted(s, root, true, expiry), Taken(s, r, root, expiry);
    forall t | t in after.locks && after.locks[t].held ensures SomebodyClaims(after, t) {
      ClaimsCarry(mid, after, r, t);
    }
    forall t | t in after.locks && t in after.taken ensures SomebodysOwn(after, t) || t in after.claims {
      if t == s.next {
        assert t in after.guards[r].briefs;
      } else if t !in after.claims {
        OwnCarries(mid, after, r, t);
      }
    }
    forall q | q in s.guards ensures GuardOk(after, after.guards[q]) && s.next !in s.guards[q].briefs {
      TakeGuards(s, r, root, expiry, q);
    }
    forall q | q in s.guards && q != r ensures Apart(s.guards[q], GuardOf(after, r)) {
      OneApart(s, q, r);
    }
    ApartKept(s, after, r);
  }

  lemma OneApart(s: State, q: nat, r: nat)
    requires AllApart(s.guards) && q in s.guards && r in s.guards && q != r
    ensures Apart(s.guards[q], s.guards[r])
  {
  }

  lemma GiveBackGuards(s: State, r: nat, t: Token, q: nat)
    requires Ok(s) && r in s.guards && t in s.guards[r].briefs && q in s.guards
    ensures var after := GivenBack(s, r, t); GuardOk(after, after.guards[q])
  {
    hide Clash, NoClash, AllApart, TableOk;
    assert GuardOk(s, s.guards[q]);
    if q != r { OneApart(s, q, r); }
  }

  lemma GiveBackOk(s: State, r: nat, t: Token)
    requires Ok(s) && r in s.guards && t in s.guards[r].briefs
    ensures Ok(GivenBack(s, r, t))
  {
    hide Clash, AllApart, GuardOk;
    var after := GivenBack(s, r, t);
    forall u | u in after.locks && after.locks[u].held ensures SomebodyClaims(after, u) {
      ClaimsCarry(s, after, r, u);
    }
    forall u | u in after.locks && u in after.taken ensures SomebodysOwn(after, u) || u in after.claims {
      if u !in after.claims { OwnCarries(s, after, r, u); }
    }
    forall q | q in s.guards && q != r ensures Apart(s.guards[q], GuardOf(after, r)) {
      OneApart(s, q, r);
    }
    forall q | q in after.guards ensures GuardOk(after, after.guards[q]) {
      GiveBackGuards(s, r, t, q);
    }
    ApartKept(s, after, r);
  }

  lemma SameRoots(locks: Table, tokens: set<Token>, held: bool)
    requires NoClash(locks)
    ensures NoClash(SetHeld(locks, tokens, held))
  {
    var after := SetHeld(locks, tokens, held);
    forall t, u | t in after && u in after && t != u ensures !Clash(after[t], after[u]) {
      assert !Clash(locks[t], locks[u]);
    }
  }

  lemma ClaimGuards(s: State, r: nat, tokens: set<Token>, q: nat)
    requires Ok(s) && r in s.guards && q in s.guards && forall t :: t in tokens ==> Free(s.locks, t)
    ensures var after := Claimed(s, r, tokens); GuardOk(after, after.guards[q])
    ensures tokens !! s.guards[q].holds
  {
    hide Clash, NoClash, AllApart, TableOk;
    assert GuardOk(s, s.guards[q]);
  }

  /** What is claimed is nobody else's claim. */
  lemma ClaimOk(s: State, r: nat, tokens: set<Token>)
    requires Ok(s) && r in s.guards && forall t :: t in tokens ==> Free(s.locks, t)
    ensures Ok(Claimed(s, r, tokens)) && forall q :: q in s.guards ==> tokens !! s.guards[q].holds
  {
    hide Clash, NoClash, AllApart, GuardOk;
    var after := Claimed(s, r, tokens);
    SameRoots(s.locks, tokens, true);
    forall q | q in s.guards ensures tokens !! s.guards[q].holds && GuardOk(after, after.guards[q]) {
      ClaimGuards(s, r, tokens, q);
    }
    forall t | t in after.locks && after.locks[t].held ensures SomebodyClaims(after, t) && t in after.claims {
      if t in tokens {
        assert t in after.guards[r].holds;
      } else {
        assert s.locks[t].held;
        ClaimsCarry(s, after, r, t);
      }
    }
    forall t | t in after.locks && t in after.taken ensures SomebodysOwn(after, t) || t in after.claims {
      if t !in after.claims { OwnCarries(s, after, r, t); }
    }
    forall q | q in s.guards && q != r ensures Apart(s.guards[q], GuardOf(after, r)) {
      OneApart(s, q, r);
    }
    ApartKept(s, after, r);
  }

  lemma ReleaseGuards(s: State, r: nat, tokens: set<Token>, q: nat)
    requires Ok(s) && r in s.guards && q in s.guards && tokens <= s.guards[r].holds
    ensures var after := Released(s, r, tokens); GuardOk(after, after.guards[q])
  {
    hide Clash, NoClash, AllApart, TableOk;
    assert GuardOk(s, s.guards[q]);
    if q != r { OneApart(s, q, r); }
  }

  lemma ReleaseOk(s: State, r: nat, tokens: set<Token>)
    requires Ok(s) && r in s.guards && tokens <= s.guards[r].holds
    ensures Ok(Released(s, r, tokens))
  {
    hide Clash, NoClash, AllApart, GuardOk;
    var after := Released(s, r, tokens);
    assert NoClash(after.locks) by { SameRoots(s.locks, tokens, false); }
    forall t | t in after.locks && after.locks[t].held ensures SomebodyClaims(after, t) && t in after.claims {
      assert t !in tokens && s.locks[t].held;
      ClaimsCarry(s, after, r, t);
    }
    forall t | t in after.locks && t in after.taken ensures SomebodysOwn(after, t) || t in after.claims {
      if t !in after.claims { OwnCarries(s, after, r, t); }
    }
    forall q | q in s.guards && q != r ensures Apart(s.guards[q], GuardOf(after, r)) {
      OneApart(s, q, r);
    }
    forall q | q in after.guards ensures GuardOk(after, after.guards[q]) {
      ReleaseGuards(s, r, tokens, q);
    }
    ApartKept(s, after, r);
  }

  lemma UnlockOk(s: State, t: Token)
    requires Ok(s)
    ensures Ok(Unlocked(s, t))
  {
    hide Clash, CanCreate;
    var after := Unlocked(s, t);
    forall u | u in after.locks && after.locks[u].held ensures SomebodyClaims(after, u) {
      assert SomebodyClaims(s, u);
    }
    forall u | u in after.locks && u in after.taken ensures SomebodysOwn(after, u) || u in after.claims {
      assert SomebodysOwn(s, u) || u in s.claims;
    }
    forall q | q in after.guards ensures GuardOk(after, after.guards[q]) {
      assert GuardOk(s, s.guards[q]);
    }
  }

  lemma RefreshGuards(s: State, t: Token, expiry: int, q: nat)
    requires Ok(s) && q in s.guards
    ensures var after := Refreshed(s, t, expiry); GuardOk(after, after.guards[q])
  {
    hide Clash, NoClash, AllApart, TableOk;
    assert GuardOk(s, s.guards[q]);
  }

  lemma RefreshOk(s: State, t: Token, expiry: int)
    requires Ok(s)
    ensures Ok(Refreshed(s, t, expiry))
  {
    hide GuardOk, AllApart;
    var after := Refreshed(s, t, expiry);
    forall u, v | u in after.locks && v in after.locks && u != v ensures !Clash(after.locks[u], after.locks[v]) {
      assert !Clash(s.locks[u], s.locks[v]);
    }
    forall u | u in after.locks && after.locks[u].held ensures SomebodyClaims(after, u) {
      assert SomebodyClaims(s, u);
    }
    forall u | u in after.locks && u in after.taken ensures SomebodysOwn(after, u) || u in after.claims {
      assert SomebodysOwn(s, u) || u in s.claims;
    }
    forall q | q in after.guards ensures GuardOk(after, after.guards[q]) {
      RefreshGuards(s, t, expiry, q);
    }
  }

  lemma ArriveOk(s: State, r: nat)
    requires Ok(s) && r !in s.guards
    ensures Ok(s.(guards := s.guards[r := NOTHING]))
  {
    hide NoClash, AllApart;
    var after := s.(guards := s.guards[r := NOTHING]);
    forall u | u in after.locks && after.locks[u].held ensures SomebodyClaims(after, u) {
      ClaimsCarry(s, after, r, u);
    }
    forall u | u in after.locks && u in after.taken ensures SomebodysOwn(after, u) || u in after.claims {
      if u !in after.claims { OwnCarries(s, after, r, u); }
    }
    forall q | q in after.guards ensures GuardOk(after, after.guards[q]) {
      assert q != r ==> GuardOk(s, s.guards[q]);
    }
    ApartKept(s, after, r);
  }

  lemma LeaveOk(s: State, r: nat)
    requires Ok(s) && r in s.guards && s.guards[r] == NOTHING
    ensures Ok(s.(guards := s.guards - {r}))
  {
    hide NoClash, AllApart;
    var after := s.(guards := s.guards - {r});
    forall u | u in after.locks && after.locks[u].held ensures SomebodyClaims(after, u) {
      ClaimsCarry(s, after, r, u);
    }
    forall u | u in after.locks && u in after.taken ensures SomebodysOwn(after, u) || u in after.claims {
      if u !in after.claims { OwnCarries(s, after, r, u); }
    }
    forall q | q in after.guards ensures GuardOk(after, after.guards[q]) {
      assert GuardOk(s, s.guards[q]);
    }
    ApartKept(s, after, r);
  }

  /** Every step of anybody's keeps what holds of the lock system. */
  lemma StepKeeps(s: State, a: Action)
    requires Ok(s) && Can(s, a)
    ensures Ok(Next(s, a))
  {
    hide Ok, CanCreate;
    match a
    case Arrive(r) => ArriveOk(s, r);
    case Leave(r) => LeaveOk(s, r);
    case Take(r, now, root) =>
      CollectOk(s, now);
      var c := CollectedAt(s, now);
      if CanCreate(c.locks, root, true) { TakeOk(c, r, root, now + BRIEF_LOCK); }
    case GiveBack(r, now, t) =>
      CollectOk(s, now);
      GiveBackOk(CollectedAt(s, now), r, t);
    case Claim(r, now, tokens) =>
      CollectOk(s, now);
      ClaimOk(CollectedAt(s, now), r, tokens);
    case Ask(now) => CollectOk(s, now);
    case LetGo(r, tokens) => ReleaseOk(s, r, tokens);
    case ClientLock(now, root, zeroDepth) =>
      CollectOk(s, now);
      var c := CollectedAt(s, now);
      if CanCreate(c.locks, root, zeroDepth) { GrantOk(c, root, zeroDepth, now + LOCK_TIMEOUT); }
    case ClientUnlock(now, t) =>
      CollectOk(s, now);
      UnlockOk(CollectedAt(s, now), t);
    case ClientRefresh(now, t) =>
      CollectOk(s, now);
      RefreshOk(CollectedAt(s, now), t, now + LOCK_TIMEOUT);
  }

  lemma RelyTwice(s: State, mid: State, after: State, r: nat)
    requires Rely(s, mid, r) && Rely(mid, after, r)
    ensures Rely(s, after, r)
  {
  }

  lemma OthersGuard(s: State, after: State, a: Action, q: nat)
    requires Ok(s) && Can(s, a) && q in s.guards && Actor(a) != Some(q)
    requires (a.Arrive? || a.Leave? || a.LetGo?) && after == Next(s, a)
    ensures Rely(s, after, q)
  {
    hide Clash, TableOk, AllApart;
    assert GuardOk(s, s.guards[q]);
  }

  lemma OthersStep(s: State, c: State, a: Action, q: nat)
    requires Ok(s) && Ok(c) && Can(s, a) && q in s.guards && Actor(a) != Some(q)
    requires !a.Arrive? && !a.Leave? && !a.LetGo? && c == CollectedAt(s, a.now)
    ensures Rely(c, Next(s, a), q)
  {
    hide CanCreate, Clash, TableOk, AllApart, Collected;
    assert GuardOk(c, c.guards[q]);
  }

  /** And nobody's touches what another request goes by: the guarantee the rest of the
      gate relies on. */
  lemma Guarantee(s: State, a: Action, q: nat)
    requires Ok(s) && Can(s, a) && q in s.guards && Actor(a) != Some(q)
    ensures Rely(s, Next(s, a), q)
  {
    hide CanCreate, Clash;
    if a.Arrive? || a.Leave? || a.LetGo? {
      OthersGuard(s, Next(s, a), a, q);
    } else {
      CollectOk(s, a.now);
      OthersStep(s, CollectedAt(s, a.now), a, q);
      RelyTwice(s, CollectedAt(s, a.now), Next(s, a), q);
    }
  }

  /** A request's own steps leave what it goes on claiming where it is. */
  lemma OwnStep(s: State, a: Action, r: nat)
    requires Ok(s) && Can(s, a) && r in s.guards && Actor(a) == Some(r) && !a.Arrive? && !a.Leave?
    ensures Steady(s, Next(s, a), r)
  {
    hide CanCreate, Clash, TableOk, AllApart;
    assert GuardOk(s, s.guards[r]);
  }
}
