/** Sync as a protocol (internal/dav/caldavsync.go over internal/calendar): clients
    whose every sync is several reads of the server, with writes landing between
    any two of them. */
module SyncRuns {
  import opened Text
  import opened Sync

  /** What a client holds of the collection, by name. */
  type Replica = map<string, string>

  /** How far a sync has got: the calendar read, and its token; or the changes read,
      the answer's token, the answer so far, and the members still to read. */
  datatype Phase =
    | Idle
    | ReadCalendar(since: nat, token: nat)
    | ReadMembers(next: nat, draft: Replica, todo: set<string>)

  datatype Client = Client(token: nat, replica: Replica, phase: Phase)

  datatype World = World(server: Server, clients: map<nat, Client>)

  const FIRST := Client(0, map[], Idle)

  datatype Action =
    | Write(name: string, uid: string, etag: string)
    | Remove(name: string, at: int)
    | Forget(before: int)
    | Join(id: nat)
    | StartOver(id: nat)
    | AskCalendar(id: nat)
    | AskChanges(id: nat, changes: seq<Change>)
    | AskMember(id: nat, name: string)
    | Finish(id: nat)
    | GiveUp(id: nat)

  predicate At(w: World, id: nat) { id in w.clients }

  ghost predicate Enabled(w: World, a: Action) {
    match a
    case Write(name, uid, etag) => !UidTaken(w.server, name, uid)
    case Remove(name, at) => name in w.server.objects
    case Forget(before) => true
    case Join(id) => id !in w.clients
    case StartOver(id) => At(w, id)
    case AskCalendar(id) => At(w, id) && w.clients[id].phase.Idle? && Answerable(w.server, w.clients[id].token)
    case AskChanges(id, changes) =>
      At(w, id) && w.clients[id].phase.ReadCalendar?
      && ListsChanges(changes, w.server, w.clients[id].phase.since, w.server.token)
    case AskMember(id, name) => At(w, id) && w.clients[id].phase.ReadMembers? && name in w.clients[id].phase.todo
    case Finish(id) => At(w, id) && w.clients[id].phase.ReadMembers? && w.clients[id].phase.todo == {}
    case GiveUp(id) => At(w, id)
  }

  /** Whether a token can be answered from; a client told it cannot starts over. */
  predicate Answerable(s: Server, since: nat) {
    since <= s.token && (since > 0 ==> s.pruned <= since)
  }

  /** Which is what Sync.Calendar.Changes answers. */
  lemma AnswerableExactly(s: Server, since: nat)
    ensures Answerable(s, since) <==> !(since > s.token || (since > 0 && since < s.pruned))
  {
  }

  function Snapshot(s: Server, name: string): Option<string> {
    if name in s.objects then Some(s.objects[name].etag) else None
  }

  function Held(r: Replica, name: string): Option<string> {
    if name in r then Some(r[name]) else None
  }

  function SetHeld(r: Replica, name: string, etag: Option<string>): Replica {
    match etag
    case Some(e) => r[name := e]
    case None => r
  }

  /** The names a list of changes says were deleted, and the ones it says were written. */
  function Names(changes: seq<Change>, deleted: bool): set<string> {
    set i | 0 <= i < |changes| && changes[i].deleted == deleted :: changes[i].name
  }

  ghost function Apply(w: World, a: Action): World
    requires Enabled(w, a)
  {
    match a
    case Write(name, uid, etag) => w.(server := Written(w.server, name, uid, etag))
    case Remove(name, at) => w.(server := Removed(w.server, name, at))
    case Forget(before) => w.(server := Pruned(w.server, before))
    case Join(id) => w.(clients := w.clients[id := FIRST])
    case StartOver(id) => w.(clients := w.clients[id := FIRST])
    case AskCalendar(id) =>
      w.(clients := w.clients[id := w.clients[id].(phase := ReadCalendar(w.clients[id].token, w.server.token))])
    case AskChanges(id, changes) =>
      var c := w.clients[id];
      w.(clients := w.clients[id := c.(phase := Answered(c, changes))])
    case AskMember(id, name) =>
      var c := w.clients[id];
      var draft := SetHeld(c.phase.draft, name, Snapshot(w.server, name));
      w.(clients := w.clients[id := c.(phase := c.phase.(draft := draft, todo := c.phase.todo - {name}))])
    case Finish(id) => w.(clients := w.clients[id := Client(w.clients[id].phase.next, w.clients[id].phase.draft, Idle)])
    case GiveUp(id) => w.(clients := w.clients[id := w.clients[id].(phase := Idle)])
  }

  /** The answer once the changes are read: deletions applied -- unless this is a
      first sync, which is told of none -- and the members to read. */
  function Answered(c: Client, changes: seq<Change>): Phase
    requires c.phase.ReadCalendar?
  {
    var kept := Kept(changes, c.phase.since);
    ReadMembers(Highest(changes, c.phase.token), c.replica - Names(kept, true), Names(kept, false))
  }

  /** What no line of the protocol enforces: whether passes that forget keep apart
      from a sync's calendar read and change read, and whether they forget the oldest
      deletions first. */
  datatype Rules = Rules(apart: bool, ordered: bool)

  ghost predicate Assumed(rules: Rules, w: World, a: Action) {
    a.Forget? ==>
      && (rules.ordered ==> InOrder(w.server, a.before))
      && (rules.apart ==> forall id :: id in w.clients ==> !w.clients[id].phase.ReadCalendar?)
  }

  ghost predicate Legal(rules: Rules, w: World, run: seq<Action>)
    decreases |run|
  {
    run == [] || (Enabled(w, run[0]) && Assumed(rules, w, run[0]) && Legal(rules, Apply(w, run[0]), run[1..]))
  }

  ghost function Play(rules: Rules, w: World, run: seq<Action>): World
    requires Legal(rules, w, run)
    decreases |run|
  {
    if run == [] then w else Play(rules, Apply(w, run[0]), run[1..])
  }

  // ----- Convergence

  /** A sync from this token cannot fail to mention the name: it was written or
      deleted after it, or the token is too old to be answered. */
  ghost predicate Pending(s: Server, token: nat, name: string) {
    (Record(s, name).Some? && Record(s, name).value > token) || token < s.pruned
  }

  ghost predicate Agrees(s: Server, token: nat, r: Replica, name: string) {
    Held(r, name) == Snapshot(s, name) || Pending(s, token, name)
  }

  /** Wherever a client differs from the server, its next sync will say so. */
  ghost predicate Converges(s: Server, c: Client) {
    forall n :: Agrees(s, c.token, c.replica, n)
  }

  ghost predicate SyncOk(s: Server, c: Client) {
    match c.phase
    case Idle => true
    case ReadCalendar(since, token) => since == c.token && since <= token <= s.token
        && (since > 0 ==> s.pruned <= since)
    case ReadMembers(next, draft, todo) =>
      && next <= s.token
      && (next == 0 ==> draft == map[] && todo == {})
      && (forall n :: n !in todo ==> Agrees(s, next, draft, n))
      && (forall n :: n in todo ==> n in s.objects || Pending(s, next, n))
  }

  ghost predicate ClientOk(s: Server, c: Client) {
    && c.token <= s.token && (c.token == 0 ==> c.replica == map[])
    && Converges(s, c) && SyncOk(s, c)
  }

  ghost predicate Inv(w: World) {
    && Stamped(w.server) && Remembers(w.server)
    && forall id :: id in w.clients ==> ClientOk(w.server, w.clients[id])
  }

  /** The server moved on: what was pending still is, and what changed is now. */
  ghost predicate Moved(s: Server, after: Server) {
    && s.token <= after.token && s.pruned <= after.pruned
    && (forall n :: Snapshot(after, n) != Snapshot(s, n) || (n in s.objects && n !in after.objects) ==>
          Record(after, n).Some? && Record(after, n).value > s.token)
    && (forall n, t: nat :: t <= s.token && Pending(s, t, n) ==> Pending(after, t, n))
  }

  lemma MovedKeeps(s: Server, after: Server, c: Client)
    requires Stamped(s) && Moved(s, after) && ClientOk(s, c)
    requires c.phase.ReadCalendar? ==> after.pruned == s.pruned
    ensures ClientOk(after, c)
  {
    hide Record, Stamped;
    forall n ensures Agrees(after, c.token, c.replica, n) { assert Agrees(s, c.token, c.replica, n); }
    if c.phase.ReadMembers? {
      forall n | n !in c.phase.todo ensures Agrees(after, c.phase.next, c.phase.draft, n) {
        assert Agrees(s, c.phase.next, c.phase.draft, n);
      }
    }
  }

  lemma WriteMoves(s: Server, name: string, uid: string, etag: string)
    requires Stamped(s)
    ensures Moved(s, Written(s, name, uid, etag))
  {
    WrittenRecords(s, name, uid, etag);
  }

  lemma RemoveMoves(s: Server, name: string, at: int)
    requires Stamped(s) && name in s.objects
    ensures Moved(s, Removed(s, name, at))
  {
    RemovedRecords(s, name, at);
  }

  lemma ForgetMoves(s: Server, before: int)
    requires Stamped(s) && Remembers(s)
    ensures Moved(s, Pruned(s, before))
  {
    PruneStamped(s, before);
    PruneKeepsMark(s, before);
    var after := Pruned(s, before);
    forall n, t: nat | t <= s.token && Pending(s, t, n) ensures Pending(after, t, n) {
      if Expired(s, n, before) {
        assert Record(s, n).Some? ==> Record(s, n).value == s.tombs[n].token;
      }
    }
  }

  /** Reading the changes: what they do not mention is held as the server has it,
      what they delete is dropped, and what they say was written is there to read. */
  lemma ChangesRead(s: Server, c: Client, changes: seq<Change>)
    requires Stamped(s) && ClientOk(s, c) && c.phase.ReadCalendar?
    requires ListsChanges(changes, s, c.phase.since, s.token)
    ensures ClientOk(s, c.(phase := Answered(c, changes)))
  {
    hide Kept, Highest, Record, Agrees;
    var since := c.phase.since;
    var kept := Kept(changes, since);
    var next := Highest(changes, c.phase.token);
    HighestBound(changes, c.phase.token, s.token);
    var draft, todo := c.replica - Names(kept, true), Names(kept, false);
    WrittenAreThere(s, changes, since);
    forall n | n !in todo ensures Agrees(s, next, draft, n) {
      Unmentioned(s, c, changes, n);
      HeldAgrees(s, next, draft, n);
    }
    if next == 0 { NothingYet(s, c, changes); }
  }

  lemma HeldAgrees(s: Server, token: nat, r: Replica, n: string)
    requires Held(r, n) == Snapshot(s, n)
    ensures Agrees(s, token, r, n)
  {
  }

  lemma WrittenAreThere(s: Server, changes: seq<Change>, since: nat)
    requires ListsChanges(changes, s, since, s.token)
    ensures forall n :: n in Names(Kept(changes, since), false) ==> n in s.objects
  {
    KeptHas(changes, since);
    var kept := Kept(changes, since);
    forall n | n in Names(kept, false) ensures n in s.objects {
      var i :| 0 <= i < |kept| && !kept[i].deleted && kept[i].name == n;
      assert kept[i] in changes && IsChange(kept[i], s);
    }
  }

  /** A name the changes do not say was written is held right once deletions are
      applied. */
  lemma Unmentioned(s: Server, c: Client, changes: seq<Change>, n: string)
    requires Stamped(s) && ClientOk(s, c) && c.phase.ReadCalendar?
    requires ListsChanges(changes, s, c.phase.since, s.token)
    requires n !in Names(Kept(changes, c.phase.since), false)
    ensures Held(c.replica - Names(Kept(changes, c.phase.since), true), n) == Snapshot(s, n)
  {
    var since := c.phase.since;
    var kept := Kept(changes, since);
    KeptHas(changes, since);
    if Record(s, n).Some? && Record(s, n).value > since {
      assert ListedIn(changes, n);
      var i :| 0 <= i < |changes| && changes[i].name == n;
      MentionedDeleted(s, changes, since, i);
    } else {
      assert Agrees(s, c.token, c.replica, n);
      forall k | 0 <= k < |kept| ensures kept[k].name != n {
        assert kept[k] in changes && IsChange(kept[k], s);
      }
    }
  }

  lemma MentionedDeleted(s: Server, changes: seq<Change>, since: nat, i: nat)
    requires i < |changes| && IsChange(changes[i], s)
    requires changes[i].name !in Names(Kept(changes, since), false)
    ensures changes[i].name !in s.objects
    ensures since > 0 ==> changes[i].name in Names(Kept(changes, since), true)
  {
    var kept := Kept(changes, since);
    KeptHas(changes, since);
    if changes[i] in kept {
      var k :| 0 <= k < |kept| && kept[k] == changes[i];
      assert kept[k].name in Names(kept, kept[k].deleted);
    }
  }

  lemma NothingYet(s: Server, c: Client, changes: seq<Change>)
    requires Stamped(s) && ClientOk(s, c) && c.phase.ReadCalendar?
    requires ListsChanges(changes, s, c.phase.since, s.token) && Highest(changes, c.phase.token) == 0
    ensures c.replica == map[] && Names(Kept(changes, c.phase.since), false) == {}
  {
    assert changes == [];
  }

  lemma {:induction false} KeptHas(changes: seq<Change>, since: int)
    ensures forall ch :: ch in Kept(changes, since) <==> ch in changes && !(since == 0 && ch.deleted)
    decreases |changes|
  {
    if changes == [] {
    } else {
      var front := changes[..|changes| - 1];
      KeptHas(front, since);
      assert changes == front + [changes[|changes| - 1]];
    }
  }

  lemma HighestBound(changes: seq<Change>, token: nat, bound: nat)
    requires token <= bound && forall i :: 0 <= i < |changes| ==> changes[i].token <= bound
    ensures token <= Highest(changes, token) <= bound
  {
  }

  /** A member read: held as it is, or gone since and pending. */
  lemma MemberRead(s: Server, c: Client, name: string)
    requires ClientOk(s, c) && c.phase.ReadMembers? && name in c.phase.todo
    ensures ClientOk(s, c.(phase := c.phase.(draft := SetHeld(c.phase.draft, name, Snapshot(s, name)),
            todo := c.phase.todo - {name})))
  {
    var draft := SetHeld(c.phase.draft, name, Snapshot(s, name));
    forall n | n !in c.phase.todo - {name} ensures Agrees(s, c.phase.next, draft, n) {
      if n != name { assert Agrees(s, c.phase.next, c.phase.draft, n); }
    }
  }

  lemma ServerMoves(w: World, after: Server)
    requires Inv(w) && Stamped(after) && Remembers(after) && Moved(w.server, after)
    requires after.pruned == w.server.pruned || forall id :: id in w.clients ==> !w.clients[id].phase.ReadCalendar?
    ensures Inv(w.(server := after))
  {
    hide ClientOk, Moved, Stamped, Remembers;
    forall id | id in w.clients ensures ClientOk(after, w.clients[id]) {
      MovedKeeps(w.server, after, w.clients[id]);
    }
  }

  lemma StepKeeps(w: World, a: Action)
    requires Inv(w) && Enabled(w, a) && Assumed(STRICT, w, a)
    ensures Inv(Apply(w, a))
  {
    hide Moved, Stamped, Remembers, InOrder, Written, Removed, Pruned, ListsChanges;
    match a
    case Write(name, uid, etag) =>
      WrittenKeeps(w.server, name, uid, etag);
      WriteMoves(w.server, name, uid, etag);
      SamePruned(w.server, name, uid, etag, 0);
      ServerMoves(w, Written(w.server, name, uid, etag));
    case Remove(name, at) =>
      RemovedKeeps(w.server, name, at);
      RemoveMoves(w.server, name, at);
      SamePruned(w.server, name, "", "", at);
      ServerMoves(w, Removed(w.server, name, at));
    case Forget(before) =>
      PrunedKeeps(w.server, before);
      PruneKeepsMark(w.server, before);
      ForgetMoves(w.server, before);
      ServerMoves(w, Pruned(w.server, before));
    case AskChanges(id, changes) =>
      ChangesRead(w.server, w.clients[id], changes);
    case AskMember(id, name) =>
      MemberRead(w.server, w.clients[id], name);
    case Join(id) => FirstOk(w.server);
    case StartOver(id) => FirstOk(w.server);
    case Finish(id) => FinishOk(w.server, w.clients[id]);
    case _ =>
  }

  lemma SamePruned(s: Server, name: string, uid: string, etag: string, at: int)
    ensures Written(s, name, uid, etag).pruned == s.pruned
    ensures name in s.objects ==> Removed(s, name, at).pruned == s.pruned
  {
  }

  lemma FirstOk(s: Server)
    requires Stamped(s)
    ensures ClientOk(s, FIRST)
  {
    forall n ensures Agrees(s, 0, map[], n) {}
  }

  lemma FinishOk(s: Server, c: Client)
    requires ClientOk(s, c) && c.phase.ReadMembers? && c.phase.todo == {}
    ensures ClientOk(s, Client(c.phase.next, c.phase.draft, Idle))
  {
    hide Agrees;
  }

  const STRICT := Rules(true, true)

  lemma {:induction false} RunKeeps(w: World, run: seq<Action>)
    requires Inv(w) && Legal(STRICT, w, run)
    ensures Inv(Play(STRICT, w, run))
    decreases |run|
  {
    hide Inv, Enabled, Assumed, Apply;
    if run == [] {
    } else {
      StepKeeps(w, run[0]);
      RunKeeps(Apply(w, run[0]), run[1..]);
    }
  }

  const START := World(BLANK, map[])

  ghost predicate AllConverge(w: World) {
    forall id :: id in w.clients ==> Converges(w.server, w.clients[id])
  }

  /** Over every run, with writes and deletions landing between a sync's reads, every
      client agrees with the server on every name but those its next sync mentions. */
  lemma EveryRunConverges(run: seq<Action>)
    requires Legal(STRICT, START, run)
    ensures AllConverge(Play(STRICT, START, run)) && Inv(Play(STRICT, START, run))
  {
    RunKeeps(START, run);
  }

  /** A client as far on as the server holds exactly what the server does. */
  lemma CaughtUp(s: Server, c: Client)
    requires Stamped(s) && ClientOk(s, c) && c.token == s.token
    ensures forall n :: Held(c.replica, n) == Snapshot(s, n)
  {
    forall n ensures Held(c.replica, n) == Snapshot(s, n) { assert Agrees(s, c.token, c.replica, n); }
  }

  // ----- A sync nothing interrupts

  function Reads(id: nat, order: seq<string>): seq<Action>
    decreases |order|
  {
    if order == [] then [Finish(id)] else [AskMember(id, order[0])] + Reads(id, order[1..])
  }

  lemma {:induction false} MembersRead(w: World, id: nat, order: seq<string>)
    requires Inv(w) && id in w.clients && w.clients[id].phase.ReadMembers? && w.clients[id].phase.next == w.server.token
    requires forall n :: n in order <==> n in w.clients[id].phase.todo
    requires forall i, j :: 0 <= i < j < |order| ==> order[i] != order[j]
    ensures Legal(STRICT, w, Reads(id, order))
    ensures var after := Play(STRICT, w, Reads(id, order));
            && after.server == w.server && id in after.clients
            && forall n :: Held(after.clients[id].replica, n) == Snapshot(w.server, n)
    decreases |order|
  {
    hide Inv;
    var step := Reads(id, order)[0];
    assert Assumed(STRICT, w, step);
    if order == [] {
      assert w.clients[id].phase.todo == {} by { if n :| n in w.clients[id].phase.todo { assert n in order; } }
      StepKeeps(w, step);
      var after := Apply(w, step);
      assert Reads(id, order)[1..] == [];
      InvClient(after, id);
      CaughtUp(after.server, after.clients[id]);
    } else {
      assert order[0] in order;
      StepKeeps(w, step);
      assert Reads(id, order)[1..] == Reads(id, order[1..]);
      forall n ensures n in order[1..] <==> n in w.clients[id].phase.todo - {order[0]} {
        assert order == [order[0]] + order[1..];
      }
      MembersRead(Apply(w, step), id, order[1..]);
    }
  }

  lemma InvClient(w: World, id: nat)
    requires Inv(w) && id in w.clients
    ensures Stamped(w.server) && ClientOk(w.server, w.clients[id])
  {
  }

  /** A sync with no write in the middle of it ends with the server's collection: a
      client whose token can be answered asks, reads what changed and every member
      written, and holds what the server holds. */
  lemma QuietSync(w: World, id: nat, changes: seq<Change>, order: seq<string>)
    requires Inv(w) && id in w.clients && w.clients[id].phase.Idle? && Answerable(w.server, w.clients[id].token)
    requires ListsChanges(changes, w.server, w.clients[id].token, w.server.token)
    requires forall n :: n in order <==> n in Names(Kept(changes, w.clients[id].token), false)
    requires forall i, j :: 0 <= i < j < |order| ==> order[i] != order[j]
    ensures var run := [AskCalendar(id), AskChanges(id, changes)] + Reads(id, order);
            && Legal(STRICT, w, run)
            && var after := Play(STRICT, w, run);
               && after.server == w.server && id in after.clients
               && forall n :: Held(after.clients[id].replica, n) == Snapshot(w.server, n)
  {
    hide Inv, ListsChanges, Kept, Reads, Snapshot, Held;
    var run := [AskCalendar(id), AskChanges(id, changes)] + Reads(id, order);
    var asked := Apply(w, AskCalendar(id));
    StepKeeps(w, AskCalendar(id));
    var answered := Apply(asked, AskChanges(id, changes));
    StepKeeps(asked, AskChanges(id, changes));
    TokensBound(changes, w.server, w.clients[id].token);
    MembersRead(answered, id, order);
    assert run[1..] == [AskChanges(id, changes)] + Reads(id, order) && run[1..][1..] == Reads(id, order);
    assert Legal(STRICT, asked, run[1..]);
  }

  lemma TokensBound(changes: seq<Change>, s: Server, since: nat)
    requires ListsChanges(changes, s, since, s.token)
    ensures Highest(changes, s.token) == s.token
  {
    HighestIs(changes, s.token);
  }

  // ----- What was written is what is synced

  /** Nobody writes or removes a name. */
  predicate LeavesAlone(run: seq<Action>, name: string) {
    forall i :: 0 <= i < |run| ==> !((run[i].Write? || run[i].Remove?) && run[i].name == name)
  }

  lemma {:induction false} StaysWritten(rules: Rules, w: World, run: seq<Action>, name: string)
    requires Legal(rules, w, run) && LeavesAlone(run, name)
    ensures var after := Play(rules, w, run).server;
            (name in after.objects <==> name in w.server.objects)
            && (name in after.objects ==> after.objects[name] == w.server.objects[name])
    decreases |run|
  {
    hide ListsChanges, Answered, SetHeld;
    if run == [] {
    } else {
      assert !((run[0].Write? || run[0].Remove?) && run[0].name == name);
      StaysWritten(rules, Apply(w, run[0]), run[1..], name) by {
        assert forall i :: 0 <= i < |run[1..]| ==> run[1..][i] == run[i + 1];
      }
    }
  }

  /** A write is read as it was written, with its tag and the token it was stamped with,
      until the name is next written or removed. */
  lemma WrittenIsRead(rules: Rules, w: World, name: string, uid: string, etag: string, run: seq<Action>)
    requires Enabled(w, Write(name, uid, etag)) && LeavesAlone(run, name)
    requires Legal(rules, Apply(w, Write(name, uid, etag)), run)
    ensures var after := Play(rules, Apply(w, Write(name, uid, etag)), run).server;
            && name in after.objects && after.objects[name] == Obj(uid, etag, w.server.token + 1)
            && Snapshot(after, name) == Some(etag)
  {
    hide Enabled, Legal, Play;
    StaysWritten(rules, Apply(w, Write(name, uid, etag)), run, name);
    WrittenThere(w, name, uid, etag);
  }

  lemma WrittenThere(w: World, name: string, uid: string, etag: string)
    requires Enabled(w, Write(name, uid, etag))
    ensures var after := Apply(w, Write(name, uid, etag)).server;
            name in after.objects && after.objects[name] == Obj(uid, etag, w.server.token + 1)
  {
  }

  /** And a removal as gone. */
  lemma RemovedIsGone(rules: Rules, w: World, name: string, at: int, run: seq<Action>)
    requires Enabled(w, Remove(name, at)) && LeavesAlone(run, name)
    requires Legal(rules, Apply(w, Remove(name, at)), run)
    ensures Snapshot(Play(rules, Apply(w, Remove(name, at)), run).server, name) == None
  {
    hide Enabled, Legal, Play;
    StaysWritten(rules, Apply(w, Remove(name, at)), run, name);
    assert name !in Apply(w, Remove(name, at)).server.objects by { RemovedThere(w, name, at); }
  }

  lemma RemovedThere(w: World, name: string, at: int)
    requires Enabled(w, Remove(name, at))
    ensures name !in Apply(w, Remove(name, at)).server.objects
  {
  }

  /** So a client that syncs with nothing in its way holds the tag of every name's last
      write, whatever has been done since that is not to the name. */
  lemma WrittenIsSynced(w: World, name: string, uid: string, etag: string, run: seq<Action>, id: nat,
                        changes: seq<Change>, order: seq<string>)
    requires Inv(w) && Enabled(w, Write(name, uid, etag)) && LeavesAlone(run, name)
    requires Legal(STRICT, Apply(w, Write(name, uid, etag)), run)
    requires var now := Play(STRICT, Apply(w, Write(name, uid, etag)), run);
             && id in now.clients && now.clients[id].phase.Idle? && Answerable(now.server, now.clients[id].token)
             && ListsChanges(changes, now.server, now.clients[id].token, now.server.token)
             && forall n :: n in order <==> n in Names(Kept(changes, now.clients[id].token), false)
    requires forall i, j :: 0 <= i < j < |order| ==> order[i] != order[j]
    ensures var now := Play(STRICT, Apply(w, Write(name, uid, etag)), run);
            var sync := [AskCalendar(id), AskChanges(id, changes)] + Reads(id, order);
            && Legal(STRICT, now, sync) && id in Play(STRICT, now, sync).clients
            && name in Play(STRICT, now, sync).clients[id].replica
            && Play(STRICT, now, sync).clients[id].replica[name] == etag
  {
    hide Inv, Enabled, Legal, Play, ListsChanges, Kept, Reads, Apply;
    var a := Write(name, uid, etag);
    StepKeeps(w, a) by { assert Assumed(STRICT, w, a); }
    RunKeeps(Apply(w, a), run);
    WrittenIsRead(STRICT, w, name, uid, etag, run);
    QuietSync(Play(STRICT, Apply(w, a), run), id, changes, order);
  }

  // ----- The answer as it is written

  datatype Response = Gone(name: string) | Member(name: string, etag: string)

  /** A deletion is an answer of its own; a member is what its read found, and one
      deleted since the changes were read is left out -- the next sync says so. */
  function Feed(changes: seq<Change>, found: seq<Option<string>>): seq<Response>
    requires |found| == |changes|
    decreases |changes|
  {
    if changes == [] then []
    else
      var last := |changes| - 1;
      Feed(changes[..last], found[..last]) + Told(changes[last], found[last])
  }

  function Told(change: Change, found: Option<string>): seq<Response> {
    if change.deleted then [Gone(change.name)]
    else if found.Some? then [Member(change.name, found.value)]
    else []
  }

  method WriteFeed(changes: seq<Change>, found: seq<Option<string>>) returns (responses: seq<Response>)
    requires |found| == |changes|
    ensures responses == Feed(changes, found)
  {
    responses := [];
    var i := 0;
    while i < |changes|
      invariant i <= |changes| && responses == Feed(changes[..i], found[..i])
    {
      assert changes[..i + 1][..i] == changes[..i] && found[..i + 1][..i] == found[..i];
      var ch := changes[i];
      i := i + 1;
      if ch.deleted {
        responses := responses + [Gone(ch.name)];
        continue;
      }
      if found[i - 1].None? { continue; }
      responses := responses + [Member(ch.name, found[i - 1].value)];
    }
    assert changes[..i] == changes && found[..i] == found;
  }

  /** A client doing what an answer says. */
  function Follow(r: Replica, responses: seq<Response>): Replica
    decreases |responses|
  {
    if responses == [] then r
    else Do(Follow(r, responses[..|responses| - 1]), responses[|responses| - 1])
  }

  function Do(r: Replica, response: Response): Replica {
    match response
    case Gone(name) => r - {name}
    case Member(name, etag) => r[name := etag]
  }

  /** What a client holds of a name after a change of it: what the read of the member
      found, and what it held when the member was not there to read. */
  function After(before: Option<string>, change: Change, found: Option<string>): Option<string> {
    if change.deleted then None else if found.Some? then found else before
  }

  /** Following an answer is what the protocol's steps do to a replica: deletions
      applied, and each member set to what its own read found. */
  lemma {:induction false} FollowedFeed(r: Replica, changes: seq<Change>, found: seq<Option<string>>, n: string)
    requires |found| == |changes|
    requires forall i, j :: 0 <= i < j < |changes| ==> changes[i].name != changes[j].name
    ensures forall i :: 0 <= i < |changes| && changes[i].name == n ==>
              Held(Follow(r, Feed(changes, found)), n) == After(Held(r, n), changes[i], found[i])
    ensures !ListedIn(changes, n) ==> Held(Follow(r, Feed(changes, found)), n) == Held(r, n)
    decreases |changes|
  {
    hide Follow, Told, Held, After;
    if changes == [] {
      FollowNothing(r);
    } else {
      var last := |changes| - 1;
      var front, read := changes[..last], found[..last];
      FollowedFeed(r, front, read, n);
      FollowMore(r, Feed(front, read), changes[last], found[last], n);
      if i :| 0 <= i < last && changes[i].name == n {
        assert front[i] == changes[i] && read[i] == found[i];
      } else {
        assert !ListedIn(front, n);
      }
      if changes[last].name == n { assert changes[last].name == n && ListedIn(changes, n); }
    }
  }

  lemma FollowNothing(r: Replica)
    ensures Follow(r, []) == r
  {
  }

  lemma FollowMore(r: Replica, front: seq<Response>, change: Change, found: Option<string>, n: string)
    ensures Held(Follow(r, front + Told(change, found)), n) ==
            if n == change.name then After(Held(Follow(r, front), n), change, found) else Held(Follow(r, front), n)
  {
    var all := front + Told(change, found);
    if Told(change, found) == [] {
      assert all == front;
    } else {
      assert all[..|all| - 1] == front;
    }
  }

  /** What the protocol's steps make of a replica: every deletion taken out when the
      changes are read, and then each member set to what its own read finds. */
  function Drafted(r: Replica, changes: seq<Change>, found: seq<Option<string>>): Replica
    requires |found| == |changes|
    decreases |changes|
  {
    if changes == [] then r
    else
      var last := |changes| - 1;
      var draft := Drafted(r, changes[..last], found[..last]);
      if changes[last].deleted then draft else SetHeld(draft, changes[last].name, found[last])
  }

  lemma {:induction false} DraftedAt(r: Replica, changes: seq<Change>, found: seq<Option<string>>, n: string)
    requires |found| == |changes|
    requires forall i, j :: 0 <= i < j < |changes| ==> changes[i].name != changes[j].name
    ensures forall i :: 0 <= i < |changes| && changes[i].name == n && !changes[i].deleted ==>
              Held(Drafted(r, changes, found), n) == After(Held(r, n), changes[i], found[i])
    ensures !ListedIn(changes, n) || n in Names(changes, true) ==> Held(Drafted(r, changes, found), n) == Held(r, n)
    decreases |changes|
  {
    hide Held, After;
    if changes == [] {
    } else {
      var last := |changes| - 1;
      var front, read := changes[..last], found[..last];
      DraftedAt(r, front, read, n);
      DraftMore(Drafted(r, front, read), changes[last], found[last], n);
      if changes[last].name == n {
        assert !ListedIn(front, n);
      } else {
        if i :| 0 <= i < last && changes[i].name == n { assert front[i] == changes[i] && read[i] == found[i]; }
        if n in Names(changes, true) {
          var i :| 0 <= i < |changes| && changes[i].deleted && changes[i].name == n;
          assert front[i].name == n && n in Names(front, true);
        }
        if !ListedIn(changes, n) { NotInFront(changes, n); }
      }
    }
  }

  lemma NotInFront(changes: seq<Change>, n: string)
    requires changes != [] && !ListedIn(changes, n)
    ensures !ListedIn(changes[..|changes| - 1], n)
  {
    var front := changes[..|changes| - 1];
    forall i | 0 <= i < |front| ensures front[i].name != n { assert front[i] == changes[i]; }
  }

  lemma DraftMore(draft: Replica, change: Change, found: Option<string>, n: string)
    ensures var more := if change.deleted then draft else SetHeld(draft, change.name, found);
            Held(more, n) == if n == change.name && !change.deleted then After(Held(draft, n), change, found)
                else Held(draft, n)
  {
  }

  /** A client that follows the answer ends with what those steps end with. */
  lemma FeedIsTheSteps(r: Replica, changes: seq<Change>, found: seq<Option<string>>)
    requires |found| == |changes|
    requires forall i, j :: 0 <= i < j < |changes| ==> changes[i].name != changes[j].name
    ensures Follow(r, Feed(changes, found)) == Drafted(r - Names(changes, true), changes, found)
  {
    var followed, drafted := Follow(r, Feed(changes, found)), Drafted(r - Names(changes, true), changes, found);
    forall n ensures Held(followed, n) == Held(drafted, n) {
      FollowedFeed(r, changes, found, n);
      DraftedAt(r - Names(changes, true), changes, found, n);
      if i :| 0 <= i < |changes| && changes[i].name == n {
        if changes[i].deleted { assert n in Names(changes, true); } else { NotDeleted(changes, i); }
      } else {
        assert n !in Names(changes, true);
      }
    }
    SameHeld(followed, drafted);
  }

  lemma NotDeleted(changes: seq<Change>, i: nat)
    requires i < |changes| && !changes[i].deleted
    requires forall j, k :: 0 <= j < k < |changes| ==> changes[j].name != changes[k].name
    ensures changes[i].name !in Names(changes, true)
  {
  }

  lemma SameHeld(a: Replica, b: Replica)
    requires forall n :: Held(a, n) == Held(b, n)
    ensures a == b
  {
    forall n ensures n in a <==> n in b { assert Held(a, n) == Held(b, n); }
    forall n | n in a ensures a[n] == b[n] { assert Held(a, n) == Held(b, n); }
  }

  // ----- The clock

  /** The deletions of a run come at moments that never run back, from `last` on. */
  predicate Forward(run: seq<Action>, last: int)
    decreases |run|
  {
    run == [] || ((run[0].Remove? ==> last <= run[0].at) && Forward(run[1..], Latest(run[0], last)))
  }

  function Latest(a: Action, last: int): int { if a.Remove? then a.at else last }

  /** Every deletion remembered was stamped by then, and they are in order. */
  ghost predicate Clocked(s: Server, last: int) {
    Stamped(s) && ClockForward(s) && forall n :: n in s.tombs ==> s.tombs[n].at <= last
  }

  /** Deletions stamped by a clock that does not run back are forgotten in order. */
  lemma ClockKeepsOrder(w: World, a: Action, last: int)
    requires Clocked(w.server, last) && Enabled(w, a) && (a.Remove? ==> last <= a.at)
    ensures Clocked(Apply(w, a).server, Latest(a, last))
    ensures a.Forget? ==> InOrder(w.server, a.before)
  {
    hide ClockForward, Stamped, InOrder;
    match a
    case Write(name, uid, etag) => WrittenKeeps(w.server, name, uid, etag);
    case Remove(name, at) => RemovedKeeps(w.server, name, at);
    case Forget(before) =>
      ForwardIsInOrder(w.server, before);
      PrunedForward(w.server, before);
      PrunedKeeps(w.server, before);
    case _ =>
  }

  lemma PrunedForward(s: Server, before: int)
    requires ClockForward(s)
    ensures ClockForward(Pruned(s, before)) && Pruned(s, before).tombs.Keys <= s.tombs.Keys
    ensures forall n :: n in Pruned(s, before).tombs ==> Pruned(s, before).tombs[n] == s.tombs[n]
  {
  }

  /** So over a whole run of them every pass forgets in order. */
  lemma {:induction false} ForwardIsOrdered(apart: bool, w: World, run: seq<Action>, last: int)
    requires Clocked(w.server, last) && Forward(run, last) && Legal(Rules(apart, false), w, run)
    ensures Legal(Rules(apart, true), w, run) && Play(Rules(apart, true), w, run) == Play(Rules(apart, false), w, run)
    decreases |run|
  {
    hide Clocked, Enabled, Apply;
    if run == [] {
    } else {
      ClockKeepsOrder(w, run[0], last);
      ForwardIsOrdered(apart, Apply(w, run[0]), run[1..], Latest(run[0], last));
    }
  }

  /** With such a clock the one thing left to assume is that no pass comes between a
      sync's two reads: over every run every client agrees with the server on every
      name but those its next sync mentions. */
  lemma ForwardRunConverges(run: seq<Action>, last: int)
    requires Legal(Rules(true, false), START, run) && Forward(run, last)
    ensures AllConverge(Play(Rules(true, false), START, run))
  {
    assert Clocked(START.server, last);
    ForwardIsOrdered(true, START, run, last);
    EveryRunConverges(run);
  }

  // ----- Neither assumption can be spared

  ghost predicate CanDiverge(rules: Rules, w: World) {
    exists run :: Legal(rules, w, run) && !AllConverge(Play(rules, w, run))
  }

  lemma DivergesNow(rules: Rules, w: World, id: nat, name: string)
    requires id in w.clients && !Agrees(w.server, w.clients[id].token, w.clients[id].replica, name)
    ensures CanDiverge(rules, w)
  {
    assert !Converges(w.server, w.clients[id]);
    assert Legal(rules, w, []) && Play(rules, w, []) == w;
  }

  lemma DivergesAfter(rules: Rules, w: World, a: Action, after: World)
    requires Enabled(w, a) && Assumed(rules, w, a) && Apply(w, a) == after && CanDiverge(rules, after)
    ensures CanDiverge(rules, w)
  {
    hide Enabled, Assumed, Apply, AllConverge;
    var run :| Legal(rules, after, run) && !AllConverge(Play(rules, after, run));
    assert ([a] + run)[1..] == run;
    assert Legal(rules, w, [a] + run);
  }

  const X := Obj("u", "e", 1)
  const Y := Obj("v", "e", 2)

  /** A deletion forgotten between the calendar read and the change read is in neither. */
  lemma ForgottenBetween(rules: Rules)
    requires !rules.apart
    ensures CanDiverge(rules, START)
  {
    hide CanDiverge;
    var s1 := Server(map["x" := X], map[], 1, 0);
    var s2 := Server(map[], map["x" := Tomb(2, 0)], 2, 0);
    var s3 := Server(map[], map[], 2, 2);
    var held := Client(1, map["x" := "e"], Idle);
    var asking := held.(phase := ReadCalendar(1, 2));
    ToldNothing(rules, s3, asking);
    var w2 := World(s2, map[0 := asking]);
    ForgetsOne(s2, "x", 1);
    DivergesAfter(rules, w2, Forget(1), World(s3, map[0 := asking]));
    var w1 := World(s2, map[0 := held]);
    DivergesAfter(rules, w1, AskCalendar(0), w2);
    var w0 := World(s1, map[0 := held]);
    assert Removed(s1, "x", 0) == s2;
    DivergesAfter(rules, w0, Remove("x", 0), w1);
    OneChange(s1, [Change("x", 1, false)]);
    SyncsOnce(rules, s1, [Change("x", 1, false)], "x");
    assert Written(BLANK, "x", "u", "e") == s1;
    DivergesAfter(rules, START, Write("x", "u", "e"), World(s1, map[]));
  }

  lemma ToldNothing(rules: Rules, s: Server, asking: Client)
    requires s == Server(map[], map[], 2, 2) && asking == Client(1, map["x" := "e"], ReadCalendar(1, 2))
    ensures CanDiverge(rules, World(s, map[0 := asking]))
  {
    hide CanDiverge;
    var told := asking.(phase := ReadMembers(2, map["x" := "e"], {}));
    var w5 := World(s, map[0 := Client(2, map["x" := "e"], Idle)]);
    DivergesNow(rules, w5, 0, "x");
    var w4 := World(s, map[0 := told]);
    DivergesAfter(rules, w4, Finish(0), w5);
    assert ListsChanges([], s, 1, 2);
    assert map["x" := "e"] - {} == map["x" := "e"];
    assert Answered(asking, []) == told.phase;
    DivergesAfter(rules, World(s, map[0 := asking]), AskChanges(0, []), w4);
  }

  /** Forgetting the only deletion there is, or the only one old enough. */
  lemma ForgetsOne(s: Server, name: string, before: int)
    requires name in s.tombs && s.tombs[name].at < before && s.tombs[name].token <= s.token && s.tombs[name].token > 0
    requires forall n :: n in s.tombs && n != name ==> s.tombs[n].at >= before
    ensures Pruned(s, before) == s.(tombs := s.tombs - {name}, pruned := s.tombs[name].token)
    ensures s.tombs.Keys == {name} ==> InOrder(s, before)
  {
    assert Expired(s, name, before);
    var mark := Mark(s, before, s.token);
    var top :| Expired(s, top, before) && s.tombs[top].token == mark;
  }

  /** A client joining and syncing once with a server that has one member. */
  lemma SyncsOnce(rules: Rules, s: Server, changes: seq<Change>, name: string)
    requires s.objects.Keys == {name} && ListsChanges(changes, s, 0, s.token)
    requires Answered(FIRST.(phase := ReadCalendar(0, s.token)), changes) == ReadMembers(s.token, map[], {name})
    requires CanDiverge(rules, World(s, map[0 := Client(s.token, map[name := s.objects[name].etag], Idle)]))
    ensures CanDiverge(rules, World(s, map[]))
  {
    hide CanDiverge, ListsChanges, Answered;
    var replica := map[name := s.objects[name].etag];
    var w4 := World(s, map[0 := FIRST.(phase := ReadMembers(s.token, replica, {}))]);
    DivergesAfter(rules, w4, Finish(0), World(s, map[0 := Client(s.token, replica, Idle)]));
    var w3 := World(s, map[0 := FIRST.(phase := ReadMembers(s.token, map[], {name}))]);
    assert {name} - {name} == {};
    DivergesAfter(rules, w3, AskMember(0, name), w4);
    var w2 := World(s, map[0 := FIRST.(phase := ReadCalendar(0, s.token))]);
    DivergesAfter(rules, w2, AskChanges(0, changes), w3);
    var w1 := World(s, map[0 := FIRST]);
    DivergesAfter(rules, w1, AskCalendar(0), w2);
    DivergesAfter(rules, World(s, map[]), Join(0), w1);
  }

  lemma OneChange(s: Server, changes: seq<Change>)
    requires s.objects == map["x" := X] && s.tombs == map[] && s.token == 1 && changes == [Change("x", 1, false)]
    ensures ListsChanges(changes, s, 0, 1)
    ensures Answered(FIRST.(phase := ReadCalendar(0, 1)), changes) == ReadMembers(1, map[], {"x"})
  {
    assert changes[0].name == "x" && ListedIn(changes, "x");
    assert changes[..0] == [] && Kept([], 0) == [];
    assert Kept(changes, 0) == changes;
    assert Names(changes, false) == {"x"} && Names(changes, true) == {};
    assert FIRST.replica - {} == FIRST.replica;
  }

  /** Deletions stamped out of order: forgetting the later one and then the earlier
      sets the mark back, and what the later one's mark covered is not covered. */
  lemma ForgottenOutOfOrder(rules: Rules)
    requires !rules.ordered
    ensures CanDiverge(rules, START)
  {
    hide CanDiverge;
    var s2 := Server(map["x" := X, "y" := Y], map[], 2, 0);
    var s3 := Server(map["y" := Y], map["x" := Tomb(3, 10)], 3, 0);
    MarkSetBack(rules);
    TwoChanges(s3, [Change("y", 2, false), Change("x", 3, true)]);
    SyncsOnce(rules, s3, [Change("y", 2, false), Change("x", 3, true)], "y");
    assert Removed(s2, "x", 10) == s3;
    DivergesAfter(rules, World(s2, map[]), Remove("x", 10), World(s3, map[]));
    var s1 := Server(map["x" := X], map[], 1, 0);
    assert Written(s1, "y", "v", "e") == s2;
    DivergesAfter(rules, World(s1, map[]), Write("y", "v", "e"), World(s2, map[]));
    assert Written(BLANK, "x", "u", "e") == s1;
    DivergesAfter(rules, START, Write("x", "u", "e"), World(s1, map[]));
  }

  lemma MarkSetBack(rules: Rules)
    requires !rules.ordered
    ensures CanDiverge(rules, World(Server(map["y" := Y], map["x" := Tomb(3, 10)], 3, 0),
            map[0 := Client(3, map["y" := "e"], Idle)]))
  {
    hide CanDiverge, Pruned;
    var clients := map[0 := Client(3, map["y" := "e"], Idle)];
    var s3 := Server(map["y" := Y], map["x" := Tomb(3, 10)], 3, 0);
    var s4 := Server(map[], map["x" := Tomb(3, 10), "y" := Tomb(4, 0)], 4, 0);
    var s5 := Server(map[], map["x" := Tomb(3, 10)], 4, 4);
    var s6 := Server(map[], map[], 4, 3);
    DivergesNow(rules, World(s6, clients), 0, "y");
    assert s5.tombs - {"x"} == map[];
    ForgetStep(rules, s5, "x", 11, s6, clients);
    assert s4.tombs - {"y"} == s5.tombs;
    ForgetStep(rules, s4, "y", 5, s5, clients);
    assert Removed(s3, "y", 0) == s4;
    DivergesAfter(rules, World(s3, clients), Remove("y", 0), World(s4, clients));
  }

  lemma ForgetStep(rules: Rules, s: Server, name: string, before: int, after: Server, clients: map<nat, Client>)
    requires !rules.ordered && forall id :: id in clients ==> clients[id].phase.Idle?
    requires name in s.tombs && s.tombs[name].at < before && s.tombs[name].token <= s.token && s.tombs[name].token > 0
    requires forall n :: n in s.tombs && n != name ==> s.tombs[n].at >= before
    requires after == s.(tombs := s.tombs - {name}, pruned := s.tombs[name].token)
    requires CanDiverge(rules, World(after, clients))
    ensures CanDiverge(rules, World(s, clients))
  {
    hide CanDiverge, Pruned;
    ForgetsOne(s, name, before);
    DivergesAfter(rules, World(s, clients), Forget(before), World(after, clients));
  }

  lemma TwoChanges(s: Server, changes: seq<Change>)
    requires s.objects == map["y" := Y] && s.tombs == map["x" := Tomb(3, 10)] && s.token == 3
    requires changes == [Change("y", 2, false), Change("x", 3, true)]
    ensures ListsChanges(changes, s, 0, 3)
    ensures Answered(FIRST.(phase := ReadCalendar(0, 3)), changes) == ReadMembers(3, map[], {"y"})
  {
    hide ListsChanges;
    TwoListed(s, changes);
    TwoKept(changes);
    var first := [Change("y", 2, false)];
    assert Names(first, false) == {"y"} && Names(first, true) == {};
    assert FIRST.replica - {} == FIRST.replica;
    HighestBound(changes, 3, 3);
  }

  lemma TwoListed(s: Server, changes: seq<Change>)
    requires s.objects == map["y" := Y] && s.tombs == map["x" := Tomb(3, 10)] && s.token == 3
    requires changes == [Change("y", 2, false), Change("x", 3, true)]
    ensures ListsChanges(changes, s, 0, 3)
  {
    assert changes[0].name == "y" && ListedIn(changes, "y");
    assert changes[1].name == "x" && ListedIn(changes, "x");
  }

  lemma TwoKept(changes: seq<Change>)
    requires changes == [Change("y", 2, false), Change("x", 3, true)]
    ensures Kept(changes, 0) == [Change("y", 2, false)]
  {
    var first := [Change("y", 2, false)];
    assert first[..0] == [] && Kept([], 0) == [];
    assert changes[..1] == first && Kept(first, 0) == first;
  }

  /** Some run leaves a client differing from the server on a name no sync of its will
      mention exactly when one of the two assumptions is not made. */
  lemma AssumptionsAreExact(rules: Rules)
    ensures CanDiverge(rules, START) <==> rules != STRICT
  {
    if rules == STRICT {
      if run :| Legal(rules, START, run) && !AllConverge(Play(rules, START, run)) {
        EveryRunConverges(run);
        assert false;
      }
    } else if !rules.apart {
      ForgottenBetween(rules);
    } else {
      ForgottenOutOfOrder(rules);
    }
  }
}
