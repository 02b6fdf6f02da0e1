/** The gate itself: one request asking to write, over a lock system that other
    requests and clients use between any two of its calls. */
module Gate {
  import opened Text
  import opened Locks
  import opened LockRuns
  import opened IfHeader
  import Paths

  const LOCK_URI_SCHEME := "opaquelocktoken:"

  datatype Outcome = Admitted | BadRequest | Locked | PreconditionFailed

  /** The lock system's own spelling of a token, or "" for one that is not its. */
  function InnerToken(token: string): string {
    match CutPrefix(token, LOCK_URI_SCHEME)
    case None => ""
    case Some(rest) => rest
  }

  /** What a list's tag is about, if it is something this request touches: the
      resource itself or a collection above it. `named` is the name a tag's URL has
      here, if it is this server's. */
  function About(named: string -> Option<string>, src: string, dst: string, tag: string): Option<string> {
    match named(tag)
    case None => None
    case Some(name) => if Paths.Covers(name, src) || Paths.Covers(name, dst) then Some(name) else None
  }

  /** A lock on a resource could reach a name the request writes to. */
  predicate CouldReach(name: string, src: string, dst: string) {
    var deep := Lock(name, false, 0, false);
    (src != "" && Reaches(deep, src)) || (dst != "" && Reaches(deep, dst))
  }

  /** A tagged list is heeded exactly when a lock on what it is tagged with could reach
      a name the request writes to, and one that is not can have no lock that does. */
  lemma HeededIfItCouldReach(named: string -> Option<string>, src: string, dst: string, tag: string)
    ensures About(named, src, dst, tag).Some? <==> named(tag).Some? && CouldReach(named(tag).value, src, dst)
    ensures named(tag).Some? && About(named, src, dst, tag).None? ==>
              forall l: Lock :: l.root == named(tag).value ==>
                                  (src != "" ==> !Reaches(l, src)) && (dst != "" ==> !Reaches(l, dst))
  {
    if named(tag).Some? {
      var name := named(tag).value;
      CoversIsReach(name, src);
      CoversIsReach(name, dst);
    }
  }

  lemma CoversIsReach(name: string, target: string)
    ensures Paths.Covers(name, target) <==> target != "" && Reaches(Lock(name, false, 0, false), target)
  {
    if name != target && name + "/" <= target {
      assert StrictlyUnder(target, name);
    }
  }

  /** The conditions that can take a lock: a token, said in the positive. */
  function Claimable(conditions: seq<Condition>): seq<Condition>
    decreases |conditions|
  {
    if conditions == [] then []
    else
      var front := Claimable(conditions[..|conditions| - 1]);
      var c := conditions[|conditions| - 1];
      if c.token != "" && !c.not then front + [c] else front
  }

  lemma {:induction false} ClaimableHas(conditions: seq<Condition>)
    ensures forall c :: c in Claimable(conditions) <==> c in conditions && c.token != "" && !c.not
    decreases |conditions|
  {
    if conditions == [] {
    } else {
      ClaimableHas(conditions[..|conditions| - 1]);
      assert conditions == conditions[..|conditions| - 1] + [conditions[|conditions| - 1]];
    }
  }

  /** The first lock one of the conditions names that is not held and reaches a name. */
  function Lookup(minted: string -> Option<Token>, locks: Table, name: string,
                  conditions: seq<Condition>): (t: Option<Token>)
    ensures t.Some? ==> t.value in locks && !locks[t.value].held && Reaches(locks[t.value], name)
                        && exists c :: c in conditions && minted(InnerToken(c.token)) == t
    decreases |conditions|
  {
    if conditions == [] then None
    else
      var t := minted(InnerToken(conditions[0].token));
      if t.Some? && t.value in locks && !locks[t.value].held && Reaches(locks[t.value], name) then t
      else Lookup(minted, locks, name, conditions[1..])
  }

  /** There is one exactly when some condition names some such lock; and of locks that
      were all granted it is the only one that reaches the name. */
  lemma {:induction false} LookupExactly(minted: string -> Option<Token>, locks: Table, name: string,
                                         conditions: seq<Condition>)
    ensures Lookup(minted, locks, name, conditions).Some? <==>
            exists t, c :: t in locks && !locks[t].held && Reaches(locks[t], name) && c in conditions
                           && minted(InnerToken(c.token)) == Some(t)
    ensures NoClash(locks) && Lookup(minted, locks, name, conditions).Some? ==>
              forall t :: t in locks && Reaches(locks[t], name) <==> Lookup(minted, locks, name, conditions) == Some(t)
    decreases |conditions|
  {
    hide InnerToken, Reaches, NoClash;
    if conditions == [] {
    } else {
      LookupExactly(minted, locks, name, conditions[1..]);
      if t, c :| t in locks && !locks[t].held && Reaches(locks[t], name) && c in conditions
                 && minted(InnerToken(c.token)) == Some(t) {
        assert c == conditions[0] || c in conditions[1..];
      }
      var found := Lookup(minted, locks, name, conditions);
      if NoClash(locks) && found.Some? {
        forall t | t in locks && Reaches(locks[t], name) ensures found == Some(t) {
          OneReaches(locks, t, found.value, name);
        }
      }
    }
  }

  /** Whether, in a table, a token names a lock that reaches a name and nobody is
      claiming. */
  predicate CoversIn(minted: string -> Option<Token>, locks: Table, token: string, name: string) {
    token != "" && name != "" && Lookup(minted, locks, name, [Condition(false, token, "")]).Some?
  }

  /** Whether a condition is true of a name, given the table it was asked of and what
      the file's validator is. */
  predicate True(minted: string -> Option<Token>, etagIs: (string, string) -> bool, locks: Table, c: Condition,
                 name: string) {
    (c.token != "" || c.etag != "")
    && (if c.token != "" then CoversIn(minted, locks, c.token, name) else etagIs(name, c.etag)) != c.not
  }

  /** A token is one of the lock system's by its scheme, and by nothing else. */
  lemma InnerTokenIs(token: string)
    ensures InnerToken("opaquelocktoken:" + token) == token
    ensures !("opaquelocktoken:" <= token) ==> InnerToken(token) == ""
  {
  }

  /** What a condition says: of a token, that one of the locks there, unclaimed, is the one
      it names and reaches the name; of a tag, that it is the file's; after a Not, that it
      is not so. One that says nothing is not true. */
  lemma TrueExactly(minted: string -> Option<Token>, etagIs: (string, string) -> bool, locks: Table, c: Condition,
                    name: string)
    ensures var there := name != "" && exists t :: t in locks && !locks[t].held
                                                   && minted(InnerToken(c.token)) == Some(t) && Reaches(locks[t], name);
            True(minted, etagIs, locks, c, name) <==>
            if c.token != "" then there <==> !c.not else c.etag != "" && (etagIs(name, c.etag) <==> !c.not)
  {
    if c.token != "" && name != "" { LookupOne(minted, locks, name, Condition(false, c.token, "")); }
  }

  lemma LookupOne(minted: string -> Option<Token>, locks: Table, name: string, c: Condition)
    ensures Lookup(minted, locks, name, [c]).Some? <==>
            exists t :: t in locks && !locks[t].held && minted(InnerToken(c.token)) == Some(t)
                && Reaches(locks[t], name)
  {
    hide InnerToken, Reaches;
    assert [c][1..] == [];
    var t := minted(InnerToken(c.token));
    if u :| u in locks && !locks[u].held && t == Some(u) && Reaches(locks[u], name) {
      assert t.value == u;
    }
  }

  /** Of a condition and its denial one is true and the other false. */
  lemma OneOfTheTwo(minted: string -> Option<Token>, etagIs: (string, string) -> bool, locks: Table, c: Condition,
                    name: string)
    requires c.token != "" || c.etag != ""
    ensures True(minted, etagIs, locks, c.(not := true), name) <==>
            !True(minted, etagIs, locks, c.(not := false), name)
  {
    hide CoversIn;
  }

  function AsSet(tokens: seq<Token>): set<Token> { set t | t in tokens }

  predicate Distinct(tokens: seq<Token>) {
    forall i, j :: 0 <= i < j < |tokens| ==> tokens[i] != tokens[j]
  }

  lemma SetFront(tokens: seq<Token>, i: nat)
    requires Distinct(tokens) && i < |tokens|
    ensures AsSet(tokens[..i + 1]) - {tokens[i]} == AsSet(tokens[..i]) && tokens[i] in tokens[..i + 1]
  {
    assert tokens[..i + 1] == tokens[..i] + [tokens[i]];
    forall j | 0 <= j < i ensures tokens[..i][j] != tokens[i] {
      assert tokens[..i][j] == tokens[j];
    }
  }

  // ----- What a request still has when others have been at work

  lemma StillHas(s: State, after: State, r: nat, name: string)
    requires Steady(s, after, r) && Has(s, r, name)
    requires forall t :: t in s.guards[r].briefs ==>
             t in after.guards[r].briefs
             && after.guards[r].briefs[t] == s.guards[r].briefs[t]
    requires s.guards[r].holds <= after.guards[r].holds
    ensures Has(after, r, name)
  {
    if t :| t in s.guards[r].holds && t in s.locks && Reaches(s.locks[t], name) {
      assert t in after.guards[r].holds && t in after.locks && Reaches(after.locks[t], name);
    } else {
      var t :| t in s.guards[r].briefs && s.guards[r].briefs[t].root == name;
      assert t in after.guards[r].briefs && after.guards[r].briefs[t].root == name;
    }
  }

  lemma ThenSteady(s: State, mid: State, after: State, r: nat)
    requires Rely(s, mid, r) && Steady(mid, after, r)
    ensures Steady(s, after, r)
  {
  }

  lemma AndBack(s: State, between: State, after: State, r: nat, claimed: set<Token>)
    requires Steady(s, between, r) && Steady(between, after, r) && after.guards[r] == s.guards[r]
    requires between.guards[r] == s.guards[r].(holds := s.guards[r].holds + claimed)
    ensures Steady(s, after, r)
  {
  }

  lemma SteadySelf(s: State, r: nat)
    requires r in s.guards
    ensures Rely(s, s, r)
  {
  }

  lemma RelyIsSteady(s: State, after: State, r: nat)
    requires Rely(s, after, r)
    ensures Steady(s, after, r) && r in s.guards && r in after.guards && after.guards[r] == s.guards[r]
  {
  }

  lemma SteadyGuard(s: State, after: State, r: nat)
    requires Steady(s, after, r)
    ensures r in s.guards && r in after.guards
  {
  }

  lemma SteadyNow(s: State, r: nat)
    requires r in s.guards
    ensures Steady(s, s, r)
  {
  }

  /** What a claim does for the request that makes it. */
  lemma ClaimDoes(s: State, r: nat, now: int, claimed: set<Token>)
    requires r in s.guards && GuardOk(s, s.guards[r]) && Can(s, Claim(r, now, claimed))
    ensures var after := Next(s, Claim(r, now, claimed));
            && after.guards[r] == s.guards[r].(holds := s.guards[r].holds + claimed) && claimed !! s.guards[r].holds
            && forall t, name :: t in claimed && Reaches(Collected(s.locks, now)[t], name) ==> Has(after, r, name)
  {
    var after := Next(s, Claim(r, now, claimed));
    forall t, name | t in claimed && Reaches(Collected(s.locks, now)[t], name) ensures Has(after, r, name) {
      assert t in after.guards[r].holds && t in after.locks && Reaches(after.locks[t], name);
    }
  }

  // ----- What the lock system was asked, and what it knew then

  /** The locks there were at a place in a run, those gone that had expired by `now`. */
  function TableAt(tr: seq<Action>, k: nat, now: int): Table {
    if k <= |tr| && Legal(tr[..k]) then Collected(Run(tr[..k]).locks, now) else map[]
  }

  lemma TableHere(tr: seq<Action>, a: Action, now: int)
    requires Legal(tr)
    ensures TableAt(tr + [a], |tr|, now) == TableAt(tr, |tr|, now) == Collected(Run(tr).locks, now)
  {
    assert (tr + [a])[..|tr|] == tr && tr[..|tr|] == tr;
  }

  lemma TableStays(tr: seq<Action>, more: seq<Action>, k: nat, now: int)
    requires tr <= more && k <= |tr|
    ensures TableAt(more, k, now) == TableAt(tr, k, now)
  {
    assert more[..k] == tr[..k];
  }

  /** A request asked for a lock of its own, and was or was not given one: it is given
      one exactly when no lock there then clashed with it. */
  predicate Taking(tr: seq<Action>, k: nat, r: nat, now: int, name: string, granted: bool) {
    k < |tr| && tr[k] == Take(r, now, name) && (CanCreate(TableAt(tr, k, now), name, true) <==> granted)
  }

  ghost predicate Took(tr: seq<Action>, from: nat, r: nat, now: int, name: string, granted: bool) {
    exists k: nat :: from <= k && Taking(tr, k, r, now, name, granted)
  }

  /** The conditions name a lock for each name given, among the locks there are. */
  predicate BothFound(minted: string -> Option<Token>, locks: Table, name0: string, name1: string,
                      conditions: seq<Condition>) {
    && (name0 != "" ==> Lookup(minted, locks, name0, conditions).Some?)
    && (name1 != "" ==> Lookup(minted, locks, name1, conditions).Some?)
  }

  /** And which they are. */
  function Found(minted: string -> Option<Token>, locks: Table, name: string, conditions: seq<Condition>): set<Token> {
    var t := if name == "" then None else Lookup(minted, locks, name, conditions);
    if t.Some? then {t.value} else {}
  }

  /** A request asked to claim the locks that reach two names, and was or was not let:
      it is let exactly when its conditions name them among the locks there were then,
      and claims those. */
  predicate Asking(minted: string -> Option<Token>, tr: seq<Action>, k: nat, r: nat, now: int, name0: string,
                   name1: string, conditions: seq<Condition>, claimed: set<Token>, ok: bool) {
    k < |tr| && tr[k] == (if ok then Claim(r, now, claimed) else Ask(now))
    && (ok <==> BothFound(minted, TableAt(tr, k, now), name0, name1, conditions))
    && claimed == (if ok then Found(minted, TableAt(tr, k, now), name0, conditions)
                              + Found(minted, TableAt(tr, k, now), name1, conditions) else {})
  }

  /** A place where a request was refused a lock had one there that reached the name. */
  lemma TookIs(tr: seq<Action>, from: nat, r: nat, now: int, name: string, granted: bool)
    requires Took(tr, from, r, now, name, granted)
    ensures exists k :: from <= k < |tr| && tr[k] == Take(r, now, name)
                        && (!granted <==> exists u :: u in TableAt(tr, k, now) && Reaches(TableAt(tr, k, now)[u], name))
  {
    hide TableAt, CanCreate, Reaches;
    var k: nat :| from <= k && Taking(tr, k, r, now, name, granted);
    CanTakeIs(TableAt(tr, k, now), name);
  }

  /** The locks there are at any place could all be granted. */
  lemma TableApart(tr: seq<Action>, k: nat, now: int)
    ensures NoClash(TableAt(tr, k, now))
  {
    hide Clash;
    if k <= |tr| && Legal(tr[..k]) { EveryRunIsOk(tr[..k]); }
  }

  /** A claim is let exactly when some condition names, for each name, a lock there that
      reaches it and that nobody claims; and it is of the locks that reach the names. */
  lemma AskingIs(minted: string -> Option<Token>, tr: seq<Action>, k: nat, r: nat, now: int, name0: string,
                 name1: string, conditions: seq<Condition>, claimed: set<Token>, ok: bool)
    requires Asking(minted, tr, k, r, now, name0, name1, conditions, claimed, ok)
    ensures var locks := TableAt(tr, k, now);
            ok <==>
            && (name0 != "" ==> exists t, c :: t in locks && !locks[t].held && Reaches(locks[t], name0)
                                               && c in conditions && minted(InnerToken(c.token)) == Some(t))
            && (name1 != "" ==> exists t, c :: t in locks && !locks[t].held && Reaches(locks[t], name1)
                                               && c in conditions && minted(InnerToken(c.token)) == Some(t))
    ensures var locks := TableAt(tr, k, now);
            ok ==> forall t :: t in claimed <==>
                     t in locks && ((name0 != "" && Reaches(locks[t], name0))
                         || (name1 != "" && Reaches(locks[t], name1)))
  {
    hide TableAt, Reaches, NoClash, Lookup, InnerToken;
    var locks := TableAt(tr, k, now);
    TableApart(tr, k, now);
    LookupExactly(minted, locks, name0, conditions);
    LookupExactly(minted, locks, name1, conditions);
  }

  ghost predicate Unclaimed(minted: string -> Option<Token>, tr: seq<Action>, from: nat, r: nat, now: int,
                            name0: string, name1: string, conditions: seq<Condition>) {
    exists k: nat :: from <= k && Asking(minted, tr, k, r, now, name0, name1, conditions, {}, false)
  }

  /** What was once asked stays asked. */
  lemma TookStays(tr: seq<Action>, more: seq<Action>, from: nat, since: nat, r: nat, now: int, name: string,
                  granted: bool)
    requires tr <= more && since <= from && Took(tr, from, r, now, name, granted)
    ensures Took(more, since, r, now, name, granted)
  {
    hide TableAt, CanCreate;
    var k: nat :| from <= k && Taking(tr, k, r, now, name, granted);
    TableStays(tr, more, k, now);
    assert Taking(more, k, r, now, name, granted);
  }

  lemma UnclaimedStays(minted: string -> Option<Token>, tr: seq<Action>, more: seq<Action>, from: nat, since: nat,
                       r: nat,
                       now: int, name0: string, name1: string, conditions: seq<Condition>)
    requires tr <= more && since <= from && Unclaimed(minted, tr, from, r, now, name0, name1, conditions)
    ensures Unclaimed(minted, more, since, r, now, name0, name1, conditions)
  {
    hide TableAt, BothFound, Found;
    var k: nat :| from <= k && Asking(minted, tr, k, r, now, name0, name1, conditions, {}, false);
    TableStays(tr, more, k, now);
    assert Asking(minted, more, k, r, now, name0, name1, conditions, {}, false);
  }

  // ----- When a list is refused

  /** What a list is about: the resource asked for, or its tag's. */
  function Subject(l: IfList, requested: string, about: string -> Option<string>): Option<string> {
    if l.resourceTag == "" then Some(requested) else about(l.resourceTag)
  }

  /** Some condition was false when it was asked. */
  ghost predicate SomeFalse(minted: string -> Option<Token>, tr: seq<Action>, from: nat, now: int,
                            conditions: seq<Condition>, name: string, etagIs: (string, string) -> bool) {
    exists i: nat, k: nat :: FalseAt(minted, tr, from, now, conditions, name, etagIs, i, k)
  }

  predicate FalseAt(minted: string -> Option<Token>, tr: seq<Action>, from: nat, now: int, conditions: seq<Condition>,
                    name: string, etagIs: (string, string) -> bool, i: nat, k: nat) {
    i < |conditions| && from <= k <= |tr| && !True(minted, etagIs, TableAt(tr, k, now), conditions[i], name)
  }

  /** Neither could one name be claimed nor the other held: one of the two was refused. */
  ghost predicate CannotHalf(minted: string -> Option<Token>, tr: seq<Action>, from: nat, r: nat, now: int,
                             claimed: string, free: string, conditions: seq<Condition>) {
    Unclaimed(minted, tr, from, r, now, claimed, "", conditions) || Took(tr, from, r, now, free, false)
  }

  /** No way of claiming with the conditions was open. */
  ghost predicate CannotClaim(minted: string -> Option<Token>, tr: seq<Action>, from: nat, r: nat, now: int,
                              src: string, dst: string, conditions: seq<Condition>) {
    && Unclaimed(minted, tr, from, r, now, src, dst, conditions)
    && (dst != "" ==> CannotHalf(minted, tr, from, r, now, src, dst, conditions))
    && (dst != "" && src != "" ==> CannotHalf(minted, tr, from, r, now, dst, src, conditions))
  }

  /** One of the names was not free. */
  ghost predicate NotFree(tr: seq<Action>, from: nat, r: nat, now: int, src: string, dst: string) {
    (src != "" && Took(tr, from, r, now, src, false)) || (dst != "" && Took(tr, from, r, now, dst, false))
  }

  ghost predicate NotFreeThen(tr: seq<Action>, from: nat, r: nat, src: string, dst: string) {
    exists later :: NotFree(tr, from, r, later, src, dst)
  }

  /** A list lets nobody in: it is about nothing the request touches, or a condition of
      it was false, or it could claim nothing and what is touched was not free. */
  ghost predicate ListRefused(minted: string -> Option<Token>, tr: seq<Action>, from: nat, r: nat, now: int, l: IfList,
                              requested: string, src: string, dst: string, about: string -> Option<string>,
                              etagIs: (string, string) -> bool) {
    var name := Subject(l, requested, about);
    || name.None?
    || SomeFalse(minted, tr, from, now, l.conditions, name.value, etagIs)
    || (CannotClaim(minted, tr, from, r, now, src, dst, Claimable(l.conditions)) && NotFreeThen(tr, from, r, src, dst))
  }

  /** Every condition of a list was true of what the list is about, each asked in its
      turn, at a place in the run. */
  ghost predicate ListTrue(minted: string -> Option<Token>, tr: seq<Action>, from: nat, now: int, l: IfList,
                           requested: string, about: string -> Option<string>, etagIs: (string, string) -> bool,
                           asked: seq<nat>) {
    var name := Subject(l, requested, about);
    name.Some? && |asked| == |l.conditions| && InTurn(asked, from, |tr|)
    && forall i :: 0 <= i < |asked| ==> True(minted, etagIs, TableAt(tr, asked[i], now), l.conditions[i], name.value)
  }

  predicate InTurn(asked: seq<nat>, from: nat, until: nat) {
    && (forall i :: 0 <= i < |asked| ==> from <= asked[i] <= until)
    && (forall i, j :: 0 <= i < j < |asked| ==> asked[i] <= asked[j])
  }

  lemma FalseStays(minted: string -> Option<Token>, tr: seq<Action>, more: seq<Action>, from: nat, since: nat, now: int,
                   conditions: seq<Condition>, name: string, etagIs: (string, string) -> bool)
    requires tr <= more && since <= from && SomeFalse(minted, tr, from, now, conditions, name, etagIs)
    ensures SomeFalse(minted, more, since, now, conditions, name, etagIs)
  {
    hide TableAt, True;
    var i: nat, k: nat :| FalseAt(minted, tr, from, now, conditions, name, etagIs, i, k);
    TableStays(tr, more, k, now);
    assert FalseAt(minted, more, since, now, conditions, name, etagIs, i, k);
  }

  lemma HalfStays(minted: string -> Option<Token>, tr: seq<Action>, more: seq<Action>, from: nat, since: nat, r: nat,
                  now: int, claimed: string, free: string, conditions: seq<Condition>)
    requires tr <= more && since <= from && CannotHalf(minted, tr, from, r, now, claimed, free, conditions)
    ensures CannotHalf(minted, more, since, r, now, claimed, free, conditions)
  {
    hide Unclaimed, Took;
    if Unclaimed(minted, tr, from, r, now, claimed, "", conditions) {
      UnclaimedStays(minted, tr, more, from, since, r, now, claimed, "", conditions);
    } else {
      TookStays(tr, more, from, since, r, now, free, false);
    }
  }

  lemma ClaimStays(minted: string -> Option<Token>, tr: seq<Action>, more: seq<Action>, from: nat, since: nat, r: nat,
                   now: int, src: string, dst: string, conditions: seq<Condition>)
    requires tr <= more && since <= from && CannotClaim(minted, tr, from, r, now, src, dst, conditions)
    ensures CannotClaim(minted, more, since, r, now, src, dst, conditions)
  {
    hide Unclaimed, CannotHalf;
    UnclaimedStays(minted, tr, more, from, since, r, now, src, dst, conditions);
    if dst != "" {
      HalfStays(minted, tr, more, from, since, r, now, src, dst, conditions);
      if src != "" { HalfStays(minted, tr, more, from, since, r, now, dst, src, conditions); }
    }
  }

  lemma NotFreeStays(tr: seq<Action>, more: seq<Action>, from: nat, since: nat, r: nat, now: int, src: string,
                     dst: string)
    requires tr <= more && since <= from && NotFree(tr, from, r, now, src, dst)
    ensures NotFree(more, since, r, now, src, dst)
  {
    hide Took;
    if src != "" && Took(tr, from, r, now, src, false) {
      TookStays(tr, more, from, since, r, now, src, false);
    } else {
      TookStays(tr, more, from, since, r, now, dst, false);
    }
  }

  lemma RefusedStays(minted: string -> Option<Token>, tr: seq<Action>, more: seq<Action>, from: nat, r: nat, now: int,
                     l: IfList, requested: string, src: string, dst: string, about: string -> Option<string>,
                     etagIs: (string, string) -> bool)
    requires tr <= more && ListRefused(minted, tr, from, r, now, l, requested, src, dst, about, etagIs)
    ensures ListRefused(minted, more, from, r, now, l, requested, src, dst, about, etagIs)
  {
    hide SomeFalse, CannotClaim, NotFree;
    var name := Subject(l, requested, about);
    if name.Some? {
      if SomeFalse(minted, tr, from, now, l.conditions, name.value, etagIs) {
        FalseStays(minted, tr, more, from, from, now, l.conditions, name.value, etagIs);
      } else {
        ClaimStays(minted, tr, more, from, from, r, now, src, dst, Claimable(l.conditions));
        var later :| NotFree(tr, from, r, later, src, dst);
        NotFreeStays(tr, more, from, from, r, later, src, dst);
      }
    }
  }

  lemma TrueStays(minted: string -> Option<Token>, tr: seq<Action>, more: seq<Action>, from: nat, since: nat, now: int,
                  l: IfList, requested: string, about: string -> Option<string>, etagIs: (string, string) -> bool,
                  asked: seq<nat>)
    requires tr <= more && since <= from && ListTrue(minted, tr, from, now, l, requested, about, etagIs, asked)
    ensures ListTrue(minted, more, since, now, l, requested, about, etagIs, asked)
  {
    hide TableAt, True;
    forall i | 0 <= i < |asked| ensures TableAt(more, asked[i], now) == TableAt(tr, asked[i], now) {
      TableStays(tr, more, asked[i], now);
    }
  }

  lemma NoneClaimed(minted: string -> Option<Token>, tr: seq<Action>, k: nat, r: nat, now: int, name0: string,
                    name1: string, conditions: seq<Condition>, claimed: set<Token>)
    requires Asking(minted, tr, k, r, now, name0, name1, conditions, claimed, false)
    ensures claimed == {} && Unclaimed(minted, tr, k, r, now, name0, name1, conditions)
  {
    assert Asking(minted, tr, k, r, now, name0, name1, conditions, {}, false);
  }

  lemma NoneClaimedSince(minted: string -> Option<Token>, tr: seq<Action>, from: nat, k: nat, r: nat, now: int,
                         name0: string, name1: string, conditions: seq<Condition>, claimed: set<Token>)
    requires from <= k && Asking(minted, tr, k, r, now, name0, name1, conditions, claimed, false)
    ensures claimed == {} && Unclaimed(minted, tr, from, r, now, name0, name1, conditions)
  {
    hide Asking;
    NoneClaimed(minted, tr, k, r, now, name0, name1, conditions, claimed);
    UnclaimedStays(minted, tr, tr, k, from, r, now, name0, name1, conditions);
  }

  lemma StillInTurn(asked: seq<nat>, from: nat, until: nat, later: nat)
    requires InTurn(asked, from, until) && until <= later
    ensures InTurn(asked, from, later)
  {
  }

  // ----- One list of a header

  lemma NotAbout(minted: string -> Option<Token>, tr: seq<Action>, from: nat, r: nat, now: int, l: IfList,
                 requested: string, src: string, dst: string, about: string -> Option<string>,
                 etagIs: (string, string) -> bool)
    requires Subject(l, requested, about).None?
    ensures ListRefused(minted, tr, from, r, now, l, requested, src, dst, about, etagIs)
  {
  }

  lemma WasFalse(minted: string -> Option<Token>, tr: seq<Action>, from: nat, since: nat, r: nat, now: int, l: IfList,
                 requested: string, name: string, src: string, dst: string, about: string -> Option<string>,
                 etagIs: (string, string) -> bool)
    requires Subject(l, requested, about) == Some(name) && from <= since
    requires SomeFalse(minted, tr, since, now, l.conditions, name, etagIs)
    ensures ListRefused(minted, tr, from, r, now, l, requested, src, dst, about, etagIs)
  {
    hide SomeFalse;
    FalseStays(minted, tr, tr, since, from, now, l.conditions, name, etagIs);
  }

  lemma WasTrue(minted: string -> Option<Token>, tr: seq<Action>, from: nat, now: int, l: IfList, requested: string,
                name: string, about: string -> Option<string>, etagIs: (string, string) -> bool, asked: seq<nat>)
    requires Subject(l, requested, about) == Some(name) && |asked| == |l.conditions| && InTurn(asked, from, |tr|)
    requires forall i :: 0 <= i < |asked| ==> True(minted, etagIs, TableAt(tr, asked[i], now), l.conditions[i], name)
    ensures ListTrue(minted, tr, from, now, l, requested, about, etagIs, asked)
  {
  }

  lemma NoWayIn(minted: string -> Option<Token>, first: seq<Action>, tr: seq<Action>, from: nat, since: nat, r: nat,
                now: int, later: int, l: IfList, requested: string, name: string, src: string, dst: string,
                about: string -> Option<string>, etagIs: (string, string) -> bool)
    requires Subject(l, requested, about) == Some(name) && first <= tr && from <= since <= |first|
    requires CannotClaim(minted, first, since, r, now, src, dst, Claimable(l.conditions))
    requires NotFree(tr, |first|, r, later, src, dst)
    ensures ListRefused(minted, tr, from, r, now, l, requested, src, dst, about, etagIs)
  {
    hide CannotClaim, NotFree;
    ClaimStays(minted, first, tr, since, from, r, now, src, dst, Claimable(l.conditions));
    NotFreeStays(tr, tr, |first|, from, r, later, src, dst);
  }

  lemma AllRefused(minted: string -> Option<Token>, tr: seq<Action>, more: seq<Action>, from: nat, r: nat, now: int,
                   lists: seq<IfList>, requested: string, src: string, dst: string, about: string -> Option<string>,
                   etagIs: (string, string) -> bool)
    requires tr <= more
    requires forall l :: l in lists ==> ListRefused(minted, tr, from, r, now, l, requested, src, dst, about, etagIs)
    ensures forall l :: l in lists ==> ListRefused(minted, more, from, r, now, l, requested, src, dst, about, etagIs)
  {
    hide ListRefused;
    forall l | l in lists ensures ListRefused(minted, more, from, r, now, l, requested, src, dst, about, etagIs) {
      RefusedStays(minted, tr, more, from, r, now, l, requested, src, dst, about, etagIs);
    }
  }

  lemma Since(ls: LockSystem, r: nat, from: nat, since: nat, tokens: seq<Token>, holds: set<Token>, src: string,
              dst: string, at: int)
    requires ls.LetIn(r, from, tokens, holds, src, dst, at) && since <= from
    ensures ls.LetIn(r, since, tokens, holds, src, dst, at) && ls.LetIn(r, since, tokens, holds, dst, src, at)
  {
    hide Took, Has;
    forall t | t in ls.guards[r].briefs ensures Took(ls.trace, since, r, at, ls.guards[r].briefs[t].root, true) {
      TookStays(ls.trace, ls.trace, from, since, r, at, ls.guards[r].briefs[t].root, true);
    }
  }

  // ----- A condition denied

  const TAG := "\"e\""
  const NOT_ITS_TAG := IfList("", [Condition(true, "", TAG)])

  /** A header that denies a tag lets nobody in on a file that has it, and on one that has
      another refuses only for want of a free name. */
  lemma DeniesATag(minted: string -> Option<Token>, tr: seq<Action>, from: nat, r: nat, now: int, requested: string,
                   src: string, dst: string, about: string -> Option<string>, etagIs: (string, string) -> bool)
    ensures Parse("(Not [\"e\"])") == Some([NOT_ITS_TAG])
    ensures etagIs(requested, TAG) ==>
              forall asked :: !ListTrue(minted, tr, from, now, NOT_ITS_TAG, requested, about, etagIs, asked)
    ensures !etagIs(requested, TAG) && ListRefused(minted, tr, from, r, now, NOT_ITS_TAG, requested, src, dst, about,
                                                   etagIs) ==>
              NotFreeThen(tr, from, r, src, dst)
  {
    hide Parse, TableAt, CannotClaim, NotFreeThen;
    var c := Condition(true, "", TAG);
    OneNotReads(c);
    assert "(Not " + (("[" + TAG + "]") + ")") == "(Not [\"e\"])";
    forall locks: Table ensures True(minted, etagIs, locks, c, requested) <==> !etagIs(requested, TAG) {
      TrueExactly(minted, etagIs, locks, c, requested);
    }
    hide True;
    Alone(minted, tr, from, now, c, requested, about, etagIs);
  }

  const NO_LOCK := IfList("", [Condition(true, "DAV:no-lock", "")])

  lemma NoLockReads()
    ensures Parse("(Not <DAV:no-lock>)") == Some([NO_LOCK]) && InnerToken("DAV:no-lock") == ""
  {
    hide Parse, Spelled, Value, GoodCondition, InnerToken;
    var c := Condition(true, "DAV:no-lock", "");
    NoLockSpelled();
    OneNotReads(c);
    NotOurs();
    InnerTokenIs("DAV:no-lock");
  }

  lemma NotOurs()
    ensures !("opaquelocktoken:" <= "DAV:no-lock")
  {
    assert "opaquelocktoken:"[0] != "DAV:no-lock"[0];
  }

  lemma NoLockSpelled()
    ensures var c := Condition(true, "DAV:no-lock", "");
            GoodCondition(c) && "(Not " + (Spelled(Value(c)) + ")") == "(Not <DAV:no-lock>)"
  {
    assert Spelled(Value(Condition(true, "DAV:no-lock", ""))) == "<DAV:no-lock>";
  }

  /** Section 10.4.8 of RFC 4918: the header that denies a lock nobody can have is refused
      only for want of a free name. */
  lemma DeniesNoLock(minted: string -> Option<Token>, tr: seq<Action>, from: nat, r: nat, now: int, requested: string,
                     src: string, dst: string, about: string -> Option<string>, etagIs: (string, string) -> bool)
    requires minted("") == None
    ensures Parse("(Not <DAV:no-lock>)") == Some([NO_LOCK])
    ensures ListRefused(minted, tr, from, r, now, NO_LOCK, requested, src, dst, about, etagIs) ==>
              NotFreeThen(tr, from, r, src, dst)
  {
    hide Parse, TableAt, CannotClaim, NotFreeThen, True, Reaches, InnerToken;
    NoLockReads();
    var c := Condition(true, "DAV:no-lock", "");
    forall locks: Table ensures True(minted, etagIs, locks, c, requested) {
      TrueExactly(minted, etagIs, locks, c, requested);
    }
    Alone(minted, tr, from, now, c, requested, about, etagIs);
  }

  /** A list of one condition is true, or some condition of it false, as that one is. */
  lemma Alone(minted: string -> Option<Token>, tr: seq<Action>, from: nat, now: int, c: Condition, requested: string,
              about: string -> Option<string>, etagIs: (string, string) -> bool)
    ensures (exists asked :: ListTrue(minted, tr, from, now, IfList("", [c]), requested, about, etagIs, asked)) ==>
              exists locks :: True(minted, etagIs, locks, c, requested)
    ensures SomeFalse(minted, tr, from, now, [c], requested, etagIs) ==>
              exists locks :: !True(minted, etagIs, locks, c, requested)
  {
    hide True, TableAt;
    if asked :| ListTrue(minted, tr, from, now, IfList("", [c]), requested, about, etagIs, asked) {
      assert True(minted, etagIs, TableAt(tr, asked[0], now), [c][0], requested);
    }
    if i: nat, k: nat :| FalseAt(minted, tr, from, now, [c], requested, etagIs, i, k) {
      assert !True(minted, etagIs, TableAt(tr, k, now), [c][i], requested);
    }
  }

  // ----- A token anybody can spell

  const NAMES_IT := Condition(false, LOCK_URI_SCHEME + "0", "")
  const SPELLED := "(<" + LOCK_URI_SCHEME + "0>)"

  /** The header that lets a second request in on a name the first has just taken: its
      list is true of the name and claims the first's own lock. What follows is the
      run LockRuns.ListSpellsIt. */
  lemma SpelledByHeader(minted: string -> Option<Token>, etagIs: (string, string) -> bool)
    requires minted("0") == Some(0)
    ensures Parse(SPELLED) == Some([IfList("", [NAMES_IT])])
    ensures True(minted, etagIs, map[0 := OURS], NAMES_IT, PUT)
    ensures Lookup(minted, map[0 := OURS], PUT, Claimable([NAMES_IT])) == Some(0)
  {
    var token := LOCK_URI_SCHEME + "0";
    assert token[..|LOCK_URI_SCHEME|] == LOCK_URI_SCHEME && token[|LOCK_URI_SCHEME|..] == "0";
    assert InnerToken(token) == "0";
    assert '>' !in token && SPELLED == "(<" + token + ">)";
    OneTokenReads(token);
  }

  class LockSystem {
    var locks: Table
    var next: nat
    var guards: map<nat, Guard>            // what each request under way goes by
    var clock: int                         // the latest moment it has been used at
    var taken: map<Token, int>             // until when each lock was, that a request took,
    var claims: set<Token>                 // every lock that was ever claimed,
    var undone: set<Token>                 // and every one a client gave back or cut short
    ghost var trace: seq<Action>           // everything that has been done with it
    const minted: string -> Option<Token>  // which token a string spells

    constructor (minted: string -> Option<Token>)
      ensures this.minted == minted && Now() == START && trace == [] && Sound()
    {
      this.minted := minted;
      locks, next, guards, clock, taken, claims, undone, trace := map[], 0, map[], 0, map[], {}, {}, [];
    }

    function Now(): State
      reads this
    {
      State(locks, next, guards, clock, taken, claims, undone)
    }

    /** It is in a state of a run. */
    ghost predicate Sound()
      reads this
    {
      Legal(trace) && Run(trace) == Now()
    }

    ghost predicate Valid(r: nat)
      reads this
    {
      Sound() && r in guards
    }

    function Named(c: Condition): Option<Token> { minted(InnerToken(c.token)) }

    // ----- What a request is let in with

    /** Locks of its own that last a minute from when they were taken, claims, and by
        one or the other every name it writes. It has asked for each of its own since
        `from`, on a name that was free. */
    ghost predicate LetIn(r: nat, from: nat, tokens: seq<Token>, holds: set<Token>, src: string, dst: string, at: int)
      reads this
    {
      && r in guards && guards[r].briefs.Keys == AsSet(tokens) && guards[r].holds == holds && Distinct(tokens)
      && (src != "" ==> Has(Now(), r, src)) && (dst != "" ==> Has(Now(), r, dst))
      && forall t :: t in guards[r].briefs ==>
                       guards[r].briefs[t].expiry == at + BRIEF_LOCK
                       && Took(trace, from, r, at, guards[r].briefs[t].root, true)
    }

    /** What was claimed was named by the conditions. */
    ghost predicate NamedBy(holds: set<Token>, conditions: seq<Condition>) {
      forall t :: t in holds ==> exists c :: c in conditions && Named(c) == Some(t)
    }

    ghost predicate Says(c: Condition, locks: Table, name: string, etagIs: (string, string) -> bool) {
      var there := name != "" && exists t :: t in locks && !locks[t].held && Named(c) == Some(t)
                                             && Reaches(locks[t], name);
      if c.token != "" then there <==> !c.not else c.etag != "" && (etagIs(name, c.etag) <==> !c.not)
    }

    // ----- Steps

    /** One call of the lock system, by anybody. */
    method Do(a: Action)
      requires Sound() && Can(Now(), a)
      modifies this
      ensures Sound() && Now() == Next(old(Now()), a) && trace == old(trace) + [a]
    {
      hide Next, Can;
      Extends(trace, a);
      var s := Next(Now(), a);
      locks, next, guards, clock := s.locks, s.next, s.guards, s.clock;
      taken, claims, undone := s.taken, s.claims, s.undone;
      trace := trace + [a];
    }

    /** One by the request itself. */
    method Own(r: nat, a: Action)
      requires Valid(r) && Can(Now(), a) && Actor(a) == Some(r) && !a.Arrive? && !a.Leave?
      modifies this
      ensures Valid(r) && Now() == Next(old(Now()), a) && Steady(old(Now()), Now(), r) && Ok(Now())
      ensures trace == old(trace) + [a]
    {
      hide Next, Can, Ok, Steady;
      EveryRunIsOk(trace);
      OwnStep(Now(), a, r);
      SteadyGuard(Now(), Next(Now(), a), r);
      Do(a);
      EveryRunIsOk(trace);
    }

    /** Any number of steps of anybody else's. */
    method Others(r: nat)
      requires Valid(r)
      modifies this
      ensures Valid(r) && Rely(old(Now()), Now(), r) && Ok(Now()) && old(trace) <= trace
    {
      hide Next, Can, Ok, Rely;
      ghost var start := Now();
      SteadySelf(start, r);
      var more: seq<Action> := *;
      for i := 0 to |more|
        invariant Valid(r) && Rely(start, Now(), r) && old(trace) <= trace
      {
        if Can(Now(), more[i]) && Actor(more[i]) != Some(r) {
          ghost var before := Now();
          EveryRunIsOk(trace);
          Guarantee(before, more[i], r);
          RelyTwice(start, before, Next(before, more[i]), r);
          RelyIsSteady(start, Next(before, more[i]), r);
          Do(more[i]);
        }
      }
      EveryRunIsOk(trace);
    }

    // ----- The lock system's calls, each with what may have come before it

    /** A lock of the request's own, for as long as a request may take. It is refused
        exactly when a lock there clashed with it as it was asked for. */
    method HoldBriefly(r: nat, now: int, path: string) returns (t: Option<Token>)
      requires Valid(r)
      modifies this
      ensures Valid(r) && Steady(old(Now()), Now(), r) && old(trace) <= trace
      ensures Took(trace, |old(trace)|, r, now, path, t.Some?)
      ensures t.None? ==> guards[r] == old(guards[r])
      ensures t.Some? ==>
                && t.value !in old(guards[r].briefs) && Has(Now(), r, path)
                && guards[r]
                   == old(guards[r]).(briefs := old(guards[r].briefs)[t.value := Brief(path, now + BRIEF_LOCK)])
    {
      hide Rely, Steady, CanCreate, Collected, TableOk, AllApart, TableAt, Reaches;
      ghost var start := Now();
      Others(r);
      ghost var met := Now();
      RelyIsSteady(start, met, r);
      assert GuardOk(met, met.guards[r]);
      var n, granted := next, CanCreate(Collected(locks, now), path, true);
      ghost var k := |trace|;
      TableHere(trace, Take(r, now, path), now);
      Own(r, Take(r, now, path));
      assert Taking(trace, k, r, now, path, granted);
      ThenSteady(start, met, Now(), r);
      if !granted { return None; }
      assert n in guards[r].briefs && guards[r].briefs[n].root == path;
      return Some(n);
    }

    /** Gives a lock of the request's own back. It stays behind exactly when somebody
        claims it. */
    method Unlock(r: nat, now: int, t: Token)
      requires Valid(r) && t in guards[r].briefs
      modifies this
      ensures Valid(r) && Steady(old(Now()), Now(), r) && old(trace) <= trace
      ensures t in locks <==> SomebodyClaims(Now(), t)
      ensures t < next && (t in locks ==> t in claims)
      ensures guards[r] == old(guards[r]).(briefs := old(guards[r].briefs) - {t})
    {
      hide Rely, Steady, Collected, AllApart, NoClash;
      ghost var start := Now();
      Others(r);
      ghost var met := Now();
      RelyIsSteady(start, met, r);
      Own(r, GiveBack(r, now, t));
      ThenSteady(start, met, Now(), r);
      if SomebodyClaims(Now(), t) {
        ghost var q :| q in guards && t in guards[q].holds;
        assert GuardOk(Now(), guards[q]);
      }
    }

    /** Claims the lock that reaches each name given, or nothing: exactly the ones the
        conditions name among the locks there were at `k`, when it was asked. */
    method Confirm(r: nat, now: int, name0: string, name1: string, conditions: seq<Condition>)
      returns (claimed: set<Token>, ok: bool, ghost k: nat)
      requires Valid(r)
      modifies this
      ensures Valid(r) && Steady(old(Now()), Now(), r) && old(trace) <= trace && |old(trace)| <= k
      ensures Asking(minted, trace, k, r, now, name0, name1, conditions, claimed, ok)
      ensures !ok ==> guards[r] == old(guards[r])
      ensures ok ==>
                && claimed !! old(guards[r].holds) && NamedBy(claimed, conditions)
                && guards[r] == old(guards[r]).(holds := old(guards[r].holds) + claimed)
                && (name0 != "" ==> Has(Now(), r, name0)) && (name1 != "" ==> Has(Now(), r, name1))
    {
      hide Rely, Steady, Ok, Has, InnerToken, Collected, Reaches, TableAt;
      ghost var start := Now();
      Others(r);
      ghost var met := Now();
      RelyIsSteady(start, met, r);
      var collected := Collected(locks, now);
      k := |trace|;
      claimed, ok := {}, false;
      var n0: Option<Token>, n1: Option<Token> := None, None;
      if name0 != "" {
        n0 := Lookup(minted, collected, name0, conditions);
        if n0.None? { Look(r, start, now); return; }
        claimed := {n0.value};
      }
      if name1 != "" {
        n1 := Lookup(minted, collected, name1, conditions);
        if n1.None? { claimed := {}; Look(r, start, now); return; }
        claimed := claimed + {n1.value};
      }
      ok := true;
      Grab(r, start, now, claimed);
    }

    /** Claims locks nobody is claiming. */
    method Grab(r: nat, ghost start: State, now: int, claimed: set<Token>)
      requires Valid(r) && Rely(start, Now(), r) && forall t :: t in claimed ==> Free(Collected(locks, now), t)
      modifies this
      ensures Valid(r) && Steady(start, Now(), r) && trace == old(trace) + [Claim(r, now, claimed)]
      ensures TableAt(trace, |old(trace)|, now) == Collected(old(locks), now)
      ensures claimed !! start.guards[r].holds
      ensures guards[r] == start.guards[r].(holds := start.guards[r].holds + claimed)
      ensures forall t, name :: t in claimed && Reaches(Collected(old(locks), now)[t], name) ==> Has(Now(), r, name)
    {
      hide Rely, Steady, AllApart, TableOk, Has, Collected, Next, Reaches, TableAt;
      ghost var met := Now();
      EveryRunIsOk(trace);
      RelyIsSteady(start, met, r);
      assert GuardOk(met, met.guards[r]);
      ClaimDoes(met, r, now, claimed);
      TableHere(trace, Claim(r, now, claimed), now);
      Own(r, Claim(r, now, claimed));
      ThenSteady(start, met, Now(), r);
    }

    /** Asks and claims nothing: what has expired is gone, and that is all. */
    method Look(r: nat, ghost start: State, now: int)
      requires Valid(r) && Rely(start, Now(), r)
      modifies this
      ensures Valid(r) && Steady(start, Now(), r) && guards[r] == start.guards[r] && trace == old(trace) + [Ask(now)]
      ensures TableAt(trace, |old(trace)|, now) == Collected(old(locks), now)
    {
      hide Rely, Ok, TableAt;
      ghost var met := Now();
      EveryRunIsOk(trace);
      Guarantee(met, Ask(now), r);
      RelyTwice(start, met, Next(met, Ask(now)), r);
      RelyIsSteady(start, Next(met, Ask(now)), r);
      TableHere(trace, Ask(now), now);
      Do(Ask(now));
    }

    /** Lets go of what was claimed. */
    method Release(r: nat, claimed: set<Token>)
      requires Valid(r) && claimed <= guards[r].holds
      modifies this
      ensures Valid(r) && Steady(old(Now()), Now(), r) && old(trace) <= trace
      ensures guards[r] == old(guards[r]).(holds := old(guards[r].holds) - claimed)
    {
      hide Rely, Steady, Ok;
      ghost var start := Now();
      Others(r);
      ghost var met := Now();
      RelyIsSteady(start, met, r);
      Own(r, LetGo(r, claimed));
      ThenSteady(start, met, Now(), r);
    }

    /** Whether a token names a live lock that reaches a name: a claim, and straight
        back. What it says was so of the locks there were at `k`. */
    method Covers(r: nat, now: int, token: string, name: string) returns (yes: bool, ghost k: nat)
      requires Valid(r)
      modifies this
      ensures Valid(r) && Steady(old(Now()), Now(), r) && guards[r] == old(guards[r])
      ensures old(trace) <= trace && |old(trace)| <= k <= |trace|
      ensures yes <==> CoversIn(minted, TableAt(trace, k, now), token, name)
    {
      hide Ok, Rely, Steady, Has, TableAt, InnerToken;
      ghost var start := Now();
      SteadyNow(start, r);
      if token == "" || name == "" { return false, |trace|; }
      var claimed;
      claimed, yes, k := Confirm(r, now, name, "", [Condition(false, token, "")]);
      if !yes { return; }
      ghost var between, sofar := Now(), trace;
      Release(r, claimed);
      TableStays(sofar, trace, k, now);
      assert guards[r] == start.guards[r];
      AndBack(start, between, Now(), r, claimed);
    }

    // ----- The gate

    /** Whether every condition of a list is true of a name, each asked in its turn; it
        stops at the first that is not. */
    method Holds(r: nat, now: int, conditions: seq<Condition>, name: string, etagIs: (string, string) -> bool)
      returns (all: bool, ghost asked: seq<nat>)
      requires Valid(r)
      modifies this
      ensures Valid(r) && guards[r] == old(guards[r]) && old(trace) <= trace
      ensures |asked| <= |conditions| && InTurn(asked, |old(trace)|, |trace|)
      ensures all ==> |asked| == |conditions| && forall i :: 0 <= i < |asked| ==>
              True(minted, etagIs, TableAt(trace, asked[i], now), conditions[i], name)
      ensures !all ==> SomeFalse(minted, trace, |old(trace)|, now, conditions, name, etagIs)
      ensures all ==> forall i :: 0 <= i < |asked| ==>
              var c, locks := conditions[i], TableAt(trace, asked[i], now);
              var there := name != "" && exists t :: t in locks && !locks[t].held && Named(c) == Some(t)
                                                     && Reaches(locks[t], name);
              if c.token != "" then there <==> !c.not else c.etag != "" && (etagIs(name, c.etag) <==> !c.not)
    {
      hide Ok, Rely, Steady, Lookup, InnerToken, Legal, Run, TableAt, CoversIn, Reaches;
      asked := [];
      var i := 0;
      while i < |conditions|
        invariant i == |asked| <= |conditions| && Valid(r) && guards[r] == old(guards[r]) && old(trace) <= trace
        invariant InTurn(asked, |old(trace)|, |trace|)
        invariant forall j :: 0 <= j < i ==> True(minted, etagIs, TableAt(trace, asked[j], now), conditions[j], name)
      {
        var c := conditions[i];
        var ok: bool;
        ghost var k, sofar := |trace|, trace;
        if c.token != "" {
          ok, k := Covers(r, now, c.token, name);
        } else if c.etag != "" {
          ok := etagIs(name, c.etag);
        } else {
          assert FalseAt(minted, trace, |old(trace)|, now, conditions, name, etagIs, i, k);
          return false, asked;
        }
        if ok == c.not {
          assert FalseAt(minted, trace, |old(trace)|, now, conditions, name, etagIs, i, k);
          StillInTurn(asked, |old(trace)|, |sofar|, |trace|);
          return false, asked;
        }
        forall j | 0 <= j < i ensures TableAt(trace, asked[j], now) == TableAt(sofar, asked[j], now) {
          TableStays(sofar, trace, asked[j], now);
        }
        asked := asked + [k];
        i := i + 1;
      }
      forall i | 0 <= i < |asked| ensures Says(conditions[i], TableAt(trace, asked[i], now), name, etagIs) {
        TrueExactly(minted, etagIs, TableAt(trace, asked[i], now), conditions[i], name);
      }
      return true, asked;
    }

    /** What a request that was let in gives back when it is done: its own locks, the
        last taken first, and then its claims. A lock of its own stays behind only if
        somebody has claimed it. */
    method Finish(r: nat, now: int, tokens: seq<Token>, claimed: set<Token>)
      requires Valid(r) && guards[r].briefs.Keys == AsSet(tokens) && guards[r].holds == claimed && Distinct(tokens)
      modifies this
      ensures Valid(r) && guards[r] == NOTHING
      ensures forall t :: t in tokens && t in locks ==> t in claims
    {
      hide Ok, Rely, Legal, Run;
      var i := |tokens|;
      assert tokens[..i] == tokens;
      while 0 < i
        invariant 0 <= i <= |tokens| && Valid(r) && guards[r].briefs.Keys == AsSet(tokens[..i])
                  && guards[r].holds == claimed
        invariant forall j :: i <= j < |tokens| ==> tokens[j] < next && (tokens[j] in locks ==> tokens[j] in claims)
      {
        i := i - 1;
        SetFront(tokens, i);
        Unlock(r, now, tokens[i]);
      }
      assert AsSet(tokens[..i]) == {};
      Release(r, claimed);
    }

    /** No lock a request took stays in the table once no request goes by it, unless
        some list had claimed it. */
    ghost predicate NothingLeft()
      reads this
    {
      forall t :: LeftBehind(Now(), t) ==> t in claims
    }

    lemma IsNothingLeft()
      requires Sound()
      ensures NothingLeft()
    {
      forall t | LeftBehind(Now(), t) ensures t in claims { LeftWasClaimed(trace, t); }
    }

    /** No If header: a lock of its own on each name, so that anybody else's refuses it,
        and nothing else does. */
    method LockForTheRequest(r: nat, now: int, src: string, dst: string) returns (tokens: seq<Token>, outcome: Outcome)
      requires Valid(r) && guards[r] == NOTHING
      modifies this
      ensures Valid(r) && old(trace) <= trace
      ensures outcome.Admitted? ==> LetIn(r, |old(trace)|, tokens, {}, src, dst, now)
      ensures !outcome.Admitted? ==>
                && outcome.Locked? && guards[r] == NOTHING && NothingLeft()
                && NotFree(trace, |old(trace)|, r, now, src, dst)
    {
      hide Ok, Rely, Steady, Has, Legal, Run, Took, NothingLeft;
      tokens := [];
      assert AsSet(tokens) == {};
      if src != "" {
        var t := HoldBriefly(r, now, src);
        if t.None? { IsNothingLeft(); return [], Locked; }
        tokens := [t.value];
        assert AsSet(tokens) == {t.value};
      }
      if dst != "" {
        ghost var before, sofar := Now(), trace;
        var t := HoldBriefly(r, now, dst);
        TookStays(trace, trace, |sofar|, |old(trace)|, r, now, dst, t.Some?);
        if t.None? {
          if src != "" {
            ghost var refused := trace;
            Unlock(r, now, tokens[0]);
            TookStays(refused, trace, |old(trace)|, |old(trace)|, r, now, dst, false);
            assert guards[r].briefs == map[];
          }
          IsNothingLeft();
          return [], Locked;
        }
        if src != "" {
          StillHas(before, Now(), r, src);
          TookStays(sofar, trace, |old(trace)|, |old(trace)|, r, now, src, true);
        }
        tokens := tokens + [t.value];
        assert AsSet(tokens) == guards[r].briefs.Keys;
      }
      return tokens, Admitted;
    }

    /** Claims one name by the conditions and takes the other for the request; it does
        not only when one of the two was refused. */
    method ClaimOneHoldTheOther(r: nat, now: int, claimed: string, free: string, conditions: seq<Condition>)
      returns (tokens: seq<Token>, holds: set<Token>, ok: bool)
      requires Valid(r) && guards[r] == NOTHING && free != ""
      modifies this
      ensures Valid(r) && old(trace) <= trace
      ensures ok ==> LetIn(r, |old(trace)|, tokens, holds, claimed, free, now) && NamedBy(holds, conditions)
      ensures !ok ==> guards[r] == NOTHING
                      && CannotHalf(minted, trace, |old(trace)|, r, now, claimed, free, conditions)
    {
      hide Ok, Rely, Steady, Lookup, InnerToken, Has, Legal, Run, Took, Asking;
      tokens, holds, ok := [], {}, false;
      var confirmed: set<Token>;
      ghost var k: nat;
      confirmed, ok, k := Confirm(r, now, claimed, "", conditions);
      if !ok {
        NoneClaimed(minted, trace, k, r, now, claimed, "", conditions, confirmed);
        return;
      }
      assert confirmed + {} == {} + confirmed == confirmed;
      ghost var before, sofar := Now(), trace;
      var t := HoldBriefly(r, now, free);
      TookStays(trace, trace, |sofar|, |old(trace)|, r, now, free, t.Some?);
      if t.None? {
        ghost var refused := trace;
        Release(r, confirmed);
        TookStays(refused, trace, |old(trace)|, |old(trace)|, r, now, free, false);
        return [], {}, false;
      }
      if claimed != "" { StillHas(before, Now(), r, claimed); }
      tokens := [t.value];
      assert AsSet(tokens) == {t.value} == guards[r].briefs.Keys;
      return tokens, confirmed, true;
    }

    /** One list of conditions against what the request writes to: both names claimed
        at once, or one claimed and the other free; neither only when each was refused. */
    method ClaimTouched(r: nat, now: int, src: string, dst: string, conditions: seq<Condition>)
      returns (tokens: seq<Token>, holds: set<Token>, ok: bool)
      requires Valid(r) && guards[r] == NOTHING
      modifies this
      ensures Valid(r) && old(trace) <= trace
      ensures ok ==> LetIn(r, |old(trace)|, tokens, holds, src, dst, now) && NamedBy(holds, conditions)
      ensures !ok ==> guards[r] == NOTHING
                      && CannotClaim(minted, trace, |old(trace)|, r, now, src, dst, conditions)
    {
      hide Ok, Rely, Steady, Lookup, InnerToken, Has, Legal, Run, Took, Asking, Unclaimed, CannotHalf;
      tokens, holds, ok := [], {}, false;
      assert AsSet(tokens) == {};
      ghost var from := |trace|;
      var confirmed: set<Token>;
      ghost var k: nat;
      confirmed, ok, k := Confirm(r, now, src, dst, conditions);
      if ok {
        assert {} + confirmed == confirmed;
        return [], confirmed, true;
      }
      NoneClaimedSince(minted, trace, from, k, r, now, src, dst, conditions, confirmed);
      if dst == "" { return; }
      ghost var first := trace;
      tokens, holds, ok := ClaimOneHoldTheOther(r, now, src, dst, conditions);
      if ok { Since(this, r, |first|, from, tokens, holds, src, dst, now); return; }
      ghost var second := trace;
      UnclaimedStays(minted, first, second, from, from, r, now, src, dst, conditions);
      HalfStays(minted, second, second, |first|, from, r, now, src, dst, conditions);
      if src != "" {
        tokens, holds, ok := ClaimOneHoldTheOther(r, now, dst, src, conditions);
        if ok { Since(this, r, |second|, from, tokens, holds, dst, src, now); return; }
        UnclaimedStays(minted, second, trace, from, from, r, now, src, dst, conditions);
        HalfStays(minted, second, trace, from, from, r, now, src, dst, conditions);
        HalfStays(minted, trace, trace, |second|, from, r, now, dst, src, conditions);
      }
      return [], {}, false;
    }

    /** A request is let in with every name it writes to its own, claiming nothing but
        what a list that was true of the resource it is about claims; or it is refused
        and goes by nothing. A header that is not one is the client's mistake; one none
        of whose lists will do is a claim that was wrong, and none will: each is about
        something else, or was false, or could claim nothing and what it writes was not
        free. Without a header only a name that was not free refuses it. */
    method ConfirmLocks(r: nat, header: string, requested: string, src: string, dst: string,
                        named: string -> Option<string>, etagIs: (string, string) -> bool)
      returns (tokens: seq<Token>, holds: set<Token>, outcome: Outcome,
               ghost now: int, ghost at: int, ghost which: Option<IfList>, ghost asked: seq<nat>)
      requires Valid(r) && guards[r] == NOTHING
      modifies this
      ensures Valid(r) && old(trace) <= trace
      ensures outcome.Admitted? ==> LetIn(r, |old(trace)|, tokens, holds, src, dst, at)
      ensures outcome.Admitted? && header == "" ==> holds == {}
      ensures outcome.Admitted? && header != "" ==>
                && which.Some? && Parse(header).Some? && which.value in Parse(header).value
                && NamedBy(holds, Claimable(which.value.conditions))
                && ListTrue(minted, trace, |old(trace)|, now, which.value, requested,
                            tag => About(named, src, dst, tag), etagIs, asked)
      ensures !outcome.Admitted? ==> guards[r] == NOTHING && NothingLeft()
      ensures header == "" ==> outcome.Admitted? || outcome.Locked?
      ensures outcome.Locked? ==> NotFree(trace, |old(trace)|, r, now, src, dst)
      ensures header != "" ==> (outcome.BadRequest? <==> Parse(header).None?)
                               && (outcome.Admitted? || outcome.BadRequest? || outcome.PreconditionFailed?)
      ensures outcome.PreconditionFailed? ==>
                forall l :: l in Parse(header).value ==>
                              ListRefused(minted, trace, |old(trace)|, r, now, l, requested, src, dst,
                                          tag => About(named, src, dst, tag), etagIs)
    {
      hide Ok, Rely, Steady, Lookup, InnerToken, Parse, Has, CoversIn, True, Legal, Run, Took, TableAt, InTurn;
      hide Unclaimed, NotFree, NothingLeft, SomeFalse, CannotClaim, ListRefused, ListTrue, LetIn, About, Claimable;
      tokens, holds, which, asked := [], {}, None, [];
      var reading: int := *;
      now, at := reading, reading;
      ghost var from := |trace|;
      ghost var about := tag => About(named, src, dst, tag);
      if header == "" {
        tokens, outcome := LockForTheRequest(r, reading, src, dst);
        return tokens, {}, outcome, now, at, None, [];
      }
      var parsed := ParseIfHeader(header);
      if parsed.None? { IsNothingLeft(); return [], {}, BadRequest, now, at, None, []; }
      var i := 0;
      while i < |parsed.value|
        invariant i <= |parsed.value| && Valid(r) && guards[r] == NOTHING && old(trace) <= trace
        invariant forall l :: l in parsed.value[..i] ==>
                    ListRefused(minted, trace, from, r, now, l, requested, src, dst, about, etagIs)
      {
        var list := parsed.value[i];
        ghost var sofar := trace;
        i := i + 1;
        assert parsed.value[..i] == parsed.value[..i - 1] + [list];
        var name := requested;
        if list.resourceTag != "" {
          var tagged := About(named, src, dst, list.resourceTag);
          if tagged.None? {
            NotAbout(minted, trace, from, r, now, list, requested, src, dst, about, etagIs);
            continue;
          }
          name := tagged.value;
        }
        var all: bool;
        ghost var places: seq<nat>;
        all, places := Holds(r, reading, list.conditions, name, etagIs);
        AllRefused(minted, sofar, trace, from, r, now, parsed.value[..i - 1], requested, src, dst, about, etagIs);
        if !all {
          WasFalse(minted, trace, from, |sofar|, r, now, list, requested, name, src, dst, about, etagIs);
          continue;
        }
        ghost var truth := trace;
        WasTrue(minted, truth, |sofar|, now, list, requested, name, about, etagIs, places);
        var ok;
        tokens, holds, ok := ClaimTouched(r, reading, src, dst, Claimable(list.conditions));
        TrueStays(minted, truth, trace, |sofar|, from, now, list, requested, about, etagIs, places);
        if ok {
          Since(this, r, |truth|, from, tokens, holds, src, dst, now);
          return tokens, holds, Admitted, now, now, Some(list), places;
        }
        // True, and it claims no lock: what is touched still has to be free.
        ghost var claiming := trace;
        var later: int := *;
        tokens, outcome := LockForTheRequest(r, later, src, dst);
        TrueStays(minted, claiming, trace, from, from, now, list, requested, about, etagIs, places);
        if outcome.Admitted? {
          Since(this, r, |claiming|, from, tokens, {}, src, dst, later);
          return tokens, {}, Admitted, now, later, Some(list), places;
        }
        AllRefused(minted, truth, trace, from, r, now, parsed.value[..i - 1], requested, src, dst, about, etagIs);
        NoWayIn(minted, claiming, trace, from, |truth|, r, now, later, list, requested, name, src, dst, about, etagIs);
      }
      IsNothingLeft();
      assert parsed.value[..i] == parsed.value;
      return [], {}, PreconditionFailed, now, at, None, [];
    }
  }

  /** Whatever state the gate is in, two requests it let in have one name exactly as
      LockRuns has it. */
  lemma SharedInTheGate(ls: LockSystem, r: nat, q: nat)
    requires ls.Sound() && r != q && Unexpired(ls.Now(), r) && Unexpired(ls.Now(), q)
    ensures (exists name :: Share(ls.Now(), r, q, name)) <==> Crossed(ls.Now(), r, q)
  {
    SharedExactly(ls.trace, r, q);
  }

  /** While the locks it took last and no client has undone one, the only locks that
      reach a name a request was let in on are its own and the ones its list supplied. */
  lemma OnlyWhatItSupplied(ls: LockSystem, r: nat, name: string, conditions: seq<Condition>, u: Token)
    requires ls.Valid(r) && Has(ls.Now(), r, name) && ls.NamedBy(ls.guards[r].holds, conditions)
    requires Unexpired(ls.Now(), r) && !Undone(ls.Now(), r)
    requires u in ls.locks && Reaches(ls.locks[u], name)
    ensures u in ls.guards[r].briefs || exists c :: c in conditions && ls.Named(c) == Some(u)
  {
    EveryRunIsOk(ls.trace);
    NoForeignLock(ls.Now(), r, name, u);
  }
}
