/** A calendar's half of sync by token (internal/calendar/calendar.go over
    internal/db's contract): a counter, the objects and the tombstones stamped
    with it, and how far back deletions have been forgotten. */
module Sync {
  import opened Text

  datatype Obj = Obj(uid: string, etag: string, token: nat)
  datatype Tomb = Tomb(token: nat, at: int)

  datatype Server = Server(objects: map<string, Obj>, tombs: map<string, Tomb>, token: nat, pruned: nat)

  const BLANK := Server(map[], map[], 0, 0)

  /** Another object has the identifier, which CalDAV does not allow. */
  predicate UidTaken(s: Server, name: string, uid: string) {
    exists n :: n in s.objects && n != name && s.objects[n].uid == uid
  }

  function Written(s: Server, name: string, uid: string, etag: string): Server {
    s.(objects := s.objects[name := Obj(uid, etag, s.token + 1)], tombs := s.tombs - {name}, token := s.token + 1)
  }

  function Removed(s: Server, name: string, at: int): Server {
    s.(objects := s.objects - {name}, tombs := s.tombs[name := Tomb(s.token + 1, at)], token := s.token + 1)
  }

  predicate Expired(s: Server, name: string, before: int) {
    name in s.tombs && s.tombs[name].at < before
  }

  /** The highest token up to `bound` of a deletion being forgotten, or 0. */
  function Mark(s: Server, before: int, bound: nat): (mark: nat)
    ensures mark <= bound
    ensures forall n :: Expired(s, n, before) && s.tombs[n].token <= bound ==> s.tombs[n].token <= mark
    ensures mark > 0 ==> exists n :: Expired(s, n, before) && s.tombs[n].token == mark
  {
    if bound == 0 then 0
    else if exists n :: n in s.tombs && Expired(s, n, before) && s.tombs[n].token == bound then bound
    else Mark(s, before, bound - 1)
  }

  /** Forgets what was deleted before a time, and notes the highest token forgotten
      -- whatever was noted before. */
  function Pruned(s: Server, before: int): Server {
    if forall n :: n in s.tombs ==> !Expired(s, n, before) then s
    else s.(tombs := map n | n in s.tombs && !Expired(s, n, before) :: s.tombs[n], pruned := Mark(s, before, s.token))
  }

  // ----- What holds of a server

  /** The token of the last write of a name: its object's or its tombstone's. */
  function Record(s: Server, name: string): Option<nat> {
    if name in s.objects then Some(s.objects[name].token)
    else if name in s.tombs then Some(s.tombs[name].token)
    else None
  }

  ghost predicate Stamped(s: Server) {
    && s.objects.Keys !! s.tombs.Keys
    && (forall n :: Record(s, n).Some? ==> 1 <= Record(s, n).value <= s.token)
    && (forall m, n :: Record(s, m).Some? && Record(s, m) == Record(s, n) ==> m == n)
    && s.pruned <= s.token
  }

  ghost predicate UidsApart(s: Server) {
    forall m, n :: m in s.objects && n in s.objects && s.objects[m].uid == s.objects[n].uid ==> m == n
  }

  /** What is remembered is newer than what has been forgotten. */
  ghost predicate Remembers(s: Server) {
    forall n :: n in s.tombs ==> s.tombs[n].token > s.pruned
  }

  /** Whether a pass forgets the oldest deletions: none that stays is older than one
      that goes. So it is when the clock deletions are stamped by never runs back. */
  ghost predicate InOrder(s: Server, before: int) {
    forall m, n :: Expired(s, m, before) && n in s.tombs && !Expired(s, n, before) ==>
        s.tombs[m].token < s.tombs[n].token
  }

  ghost predicate ClockForward(s: Server) {
    forall m, n :: m in s.tombs && n in s.tombs && s.tombs[m].token < s.tombs[n].token ==>
        s.tombs[m].at <= s.tombs[n].at
  }

  lemma ForwardIsInOrder(s: Server, before: int)
    requires Stamped(s) && ClockForward(s)
    ensures InOrder(s, before)
  {
    forall m, n | Expired(s, m, before) && n in s.tombs && !Expired(s, n, before)
        ensures s.tombs[m].token < s.tombs[n].token {
      assert Record(s, m) == Some(s.tombs[m].token) && Record(s, n) == Some(s.tombs[n].token);
    }
  }

  lemma PruneStamped(s: Server, before: int)
    requires Stamped(s)
    ensures Stamped(Pruned(s, before))
    ensures forall n :: Record(Pruned(s, before), n) == if Expired(s, n, before) then None else Record(s, n)
  {
    forall n ensures Record(Pruned(s, before), n) == if Expired(s, n, before) then None else Record(s, n) {
      assert n in s.tombs ==> n !in s.objects;
    }
  }

  lemma PrunedKeeps(s: Server, before: int)
    requires Stamped(s)
    ensures Stamped(Pruned(s, before)) && (UidsApart(s) ==> UidsApart(Pruned(s, before)))
  {
    PruneStamped(s, before);
  }

  /** A pass takes what was deleted before a time, and its mark is the highest token of
      what it takes. */
  lemma PrunedIs(s: Server, before: int)
    requires Stamped(s)
    ensures var after := Pruned(s, before);
            && after.objects == s.objects && after.token == s.token
            && (forall m :: m in after.tombs <==> m in s.tombs && before <= s.tombs[m].at)
            && (forall m :: m in after.tombs ==> after.tombs[m] == s.tombs[m])
            && (after.tombs == s.tombs ==> after.pruned == s.pruned)
            && (after.tombs != s.tombs ==>
                  (exists m :: m in s.tombs && m !in after.tombs && s.tombs[m].token == after.pruned)
                  && forall m :: m in s.tombs && m !in after.tombs ==> s.tombs[m].token <= after.pruned)
  {
    hide Mark;
    var after := Pruned(s, before);
    if m :| m in s.tombs && Expired(s, m, before) {
      assert Record(s, m) == Some(s.tombs[m].token);
      var top :| Expired(s, top, before) && s.tombs[top].token == after.pruned;
      assert top in s.tombs && top !in after.tombs;
      forall n | n in s.tombs && n !in after.tombs ensures s.tombs[n].token <= after.pruned {
        assert Record(s, n) == Some(s.tombs[n].token);
      }
    }
  }

  /** A pass keeps the mark above everything forgotten exactly when it forgets in
      order: then, and only then, no deletion it keeps is below the mark it leaves --
      and the mark does not go back. */
  lemma PruneKeepsMark(s: Server, before: int)
    requires Stamped(s) && Remembers(s)
    ensures Remembers(Pruned(s, before)) <==> InOrder(s, before)
    ensures s.pruned <= Pruned(s, before).pruned
  {
    var after := Pruned(s, before);
    if after != s {
      var m :| m in s.tombs && Expired(s, m, before);
      assert Record(s, m) == Some(s.tombs[m].token);
      assert s.pruned < s.tombs[m].token <= after.pruned;
      var top :| Expired(s, top, before) && s.tombs[top].token == after.pruned;
      if Remembers(after) {
        forall a, n | Expired(s, a, before) && n in s.tombs && !Expired(s, n, before)
            ensures s.tombs[a].token < s.tombs[n].token {
          assert n in after.tombs && Record(s, a) == Some(s.tombs[a].token);
        }
      }
      if InOrder(s, before) {
        forall n | n in after.tombs ensures after.tombs[n].token > after.pruned {
          assert !Expired(s, n, before);
        }
      }
    }
  }

  lemma WrittenRecords(s: Server, name: string, uid: string, etag: string)
    ensures forall n :: Record(Written(s, name, uid, etag), n) == if n == name then Some(s.token + 1) else Record(s, n)
  {
  }

  lemma RemovedRecords(s: Server, name: string, at: int)
    requires name in s.objects
    ensures forall n :: Record(Removed(s, name, at), n) == if n == name then Some(s.token + 1) else Record(s, n)
  {
  }

  lemma NewStamp(s: Server, after: Server, name: string)
    requires Stamped(s) && after.token == s.token + 1 && after.pruned == s.pruned
    requires after.objects.Keys !! after.tombs.Keys
    requires forall n :: Record(after, n) == if n == name then Some(s.token + 1) else Record(s, n)
    ensures Stamped(after)
  {
    hide Record;
  }

  lemma WrittenKeeps(s: Server, name: string, uid: string, etag: string)
    requires Stamped(s)
    ensures Stamped(Written(s, name, uid, etag))
    ensures Remembers(s) ==> Remembers(Written(s, name, uid, etag))
    ensures ClockForward(s) ==> ClockForward(Written(s, name, uid, etag))
    ensures UidsApart(s) && !UidTaken(s, name, uid) ==> UidsApart(Written(s, name, uid, etag))
  {
    WrittenRecords(s, name, uid, etag);
    NewStamp(s, Written(s, name, uid, etag), name);
    hide Stamped;
  }

  lemma RemovedKeeps(s: Server, name: string, at: int)
    requires Stamped(s) && name in s.objects
    ensures Stamped(Removed(s, name, at))
    ensures Remembers(s) ==> Remembers(Removed(s, name, at))
    ensures ClockForward(s) && (forall n :: n in s.tombs ==> s.tombs[n].at <= at) ==> ClockForward(Removed(s, name, at))
    ensures UidsApart(s) ==> UidsApart(Removed(s, name, at))
  {
    RemovedRecords(s, name, at);
    NewStamp(s, Removed(s, name, at), name);
    forall n | n in s.tombs ensures s.tombs[n].token <= s.token { assert Record(s, n) == Some(s.tombs[n].token); }
    hide Stamped;
  }

  // ----- What is read

  datatype Change = Change(name: string, token: nat, deleted: bool)

  ghost predicate IsChange(c: Change, s: Server) {
    Record(s, c.name) == Some(c.token) && (c.deleted <==> c.name !in s.objects)
  }

  ghost predicate ListedIn(changes: seq<Change>, name: string) {
    exists i :: 0 <= i < |changes| && changes[i].name == name
  }

  /** Every name written or deleted after a token and up to another, in token order. */
  ghost predicate ListsChanges(changes: seq<Change>, s: Server, since: nat, upto: nat) {
    && (forall i :: 0 <= i < |changes| ==> IsChange(changes[i], s) && since < changes[i].token <= upto)
    && (forall i, j :: 0 <= i < j < |changes| ==> changes[i].token < changes[j].token)
    && (forall n :: Record(s, n).Some? && since < Record(s, n).value <= upto ==> ListedIn(changes, n))
  }

  /** The change stamped with the next token, if there is one, goes last. */
  lemma OneMore(changes: seq<Change>, s: Server, since: nat, t: nat)
    requires Stamped(s) && ListsChanges(changes, s, since, t) && since <= t
    ensures forall n :: n in s.objects && s.objects[n].token == t + 1 ==>
              ListsChanges(changes + [Change(n, t + 1, false)], s, since, t + 1)
    ensures forall n :: n in s.tombs && s.tombs[n].token == t + 1 ==>
              ListsChanges(changes + [Change(n, t + 1, true)], s, since, t + 1)
    ensures (forall n :: n in s.objects ==> s.objects[n].token != t + 1)
            && (forall n :: n in s.tombs ==> s.tombs[n].token != t + 1) ==>
              ListsChanges(changes, s, since, t + 1)
  {
    forall n | n in s.objects && s.objects[n].token == t + 1
      ensures ListsChanges(changes + [Change(n, t + 1, false)], s, since, t + 1)
    {
      Appended(changes, s, since, t, Change(n, t + 1, false));
    }
    forall n | n in s.tombs && s.tombs[n].token == t + 1
      ensures ListsChanges(changes + [Change(n, t + 1, true)], s, since, t + 1)
    {
      Appended(changes, s, since, t, Change(n, t + 1, true));
    }
  }

  lemma Appended(changes: seq<Change>, s: Server, since: nat, t: nat, c: Change)
    requires Stamped(s) && ListsChanges(changes, s, since, t) && since <= t
    requires c.token == t + 1 && IsChange(c, s)
    ensures ListsChanges(changes + [c], s, since, t + 1)
  {
    hide Record;
    var more := changes + [c];
    forall n | Record(s, n).Some? && since < Record(s, n).value <= t + 1 ensures ListedIn(more, n) {
      if Record(s, n).value <= t {
        assert ListedIn(changes, n);
        var i :| 0 <= i < |changes| && changes[i].name == n;
        assert more[i].name == n;
      } else {
        assert more[|changes|].name == n;
      }
    }
  }

  datatype Failure = NotFound | Conflict | Unsupported | PreconditionFailed | StaleToken

  class Calendar {
    var objects: map<string, Obj>
    var tombs: map<string, Tomb>
    var token: nat
    var pruned: nat

    constructor ()
      ensures Now() == BLANK && Valid()
    {
      objects, tombs, token, pruned := map[], map[], 0, 0;
    }

    ghost function Now(): Server
      reads this
    {
      Server(objects, tombs, token, pruned)
    }

    ghost predicate Valid()
      reads this
    {
      Stamped(Now()) && UidsApart(Now())
    }

    /** Writes an object under its name, if the calendar takes its kind, the caller's
        precondition agrees with what is there and nothing else has its identifier. It is
        what it was written as, stamped with the next token; nothing else is touched. */
    method Put(name: string, uid: string, etag: string, holds: bool, check: Option<string> -> bool)
        returns (failed: Option<Failure>)
      requires Valid()
      modifies this
      ensures Valid()
      ensures failed == if !holds then Some(Unsupported)
                        else if !check(old(ETag(name))) then Some(PreconditionFailed)
                        else if UidTaken(old(Now()), name, uid) then Some(Conflict)
                        else None
      ensures Now() == if failed.None? then Written(old(Now()), name, uid, etag) else old(Now())
      ensures failed.None? <==>
              && holds && check(if name in old(objects) then Some(old(objects)[name].etag) else None)
              && forall n :: n in old(objects) && n != name ==> old(objects)[n].uid != uid
      ensures failed.None? ==>
                && objects == old(objects)[name := Obj(uid, etag, old(token) + 1)] && tombs == old(tombs) - {name}
                && token == old(token) + 1 && pruned == old(pruned)
      ensures failed.Some? ==>
                objects == old(objects) && tombs == old(tombs) && token == old(token) && pruned == old(pruned)
    {
      hide Stamped, UidsApart;
      if !holds { return Some(Unsupported); }
      if !check(if name in objects then Some(objects[name].etag) else None) { return Some(PreconditionFailed); }
      // The counter moves first; a conflict rolls the transaction back.
      var was := Server(objects, tombs, token, pruned);
      token := token + 1;
      if UidTaken(was, name, uid) {
        token := was.token;
        return Some(Conflict);
      }
      WrittenKeeps(was, name, uid, etag);
      objects := objects[name := Obj(uid, etag, token)];
      tombs := tombs - {name};
      assert Now() == Written(was, name, uid, etag);
      return None;
    }

    ghost function ETag(name: string): Option<string>
      reads this
    {
      if name in objects then Some(objects[name].etag) else None
    }

    method Delete(name: string, at: int) returns (failed: Option<Failure>)
      requires Valid()
      modifies this
      ensures Valid()
      ensures failed == if name in old(objects) then None else Some(NotFound)
      ensures Now() == if failed.None? then Removed(old(Now()), name, at) else old(Now())
      ensures failed.None? ==>
                && objects == old(objects) - {name} && tombs == old(tombs)[name := Tomb(old(token) + 1, at)]
                && token == old(token) + 1 && pruned == old(pruned)
      ensures failed.Some? ==>
                objects == old(objects) && tombs == old(tombs) && token == old(token) && pruned == old(pruned)
    {
      if name !in objects { return Some(NotFound); }
      RemovedKeeps(Now(), name, at);
      hide Stamped, UidsApart;
      objects := objects - {name};
      token := token + 1;
      tombs := tombs[name := Tomb(token, at)];
      return None;
    }

    /** Forgets old deletions: the mark first, from what is about to go. */
    method Prune(before: int) returns (n: nat)
      requires Valid()
      modifies this
      ensures Valid() && Now() == Pruned(old(Now()), before)
      ensures n == |old(tombs)| - |tombs|
      ensures objects == old(objects) && token == old(token)
      ensures forall m :: m in tombs <==> m in old(tombs) && before <= old(tombs)[m].at
      ensures forall m :: m in tombs ==> tombs[m] == old(tombs)[m]
      ensures tombs == old(tombs) ==> pruned == old(pruned)
      ensures tombs != old(tombs) ==>
                && (exists m :: m in old(tombs) && m !in tombs && old(tombs)[m].token == pruned)
                && forall m :: m in old(tombs) && m !in tombs ==> old(tombs)[m].token <= pruned
    {
      var s := Server(objects, tombs, token, pruned);
      PrunedKeeps(s, before);
      PrunedIs(s, before);
      hide Stamped, UidsApart, Mark, Expired;
      var kept := map n | n in tombs && !Expired(s, n, before) :: tombs[n];
      Fewer(kept.Keys, tombs.Keys);
      n := |tombs| - |kept|;
      if exists n :: n in tombs && Expired(s, n, before) {
        pruned := Mark(s, before, token);
      } else {
        assert kept == tombs;
      }
      tombs := kept;
    }

    /** Every change after a token, in token order. */
    method CalendarChanges(since: nat) returns (changes: seq<Change>)
      requires Valid()
      ensures ListsChanges(changes, Now(), since, if since <= token then token else since)
    {
      hide Record, IsChange;
      changes := [];
      var t := since;
      while t < token
        invariant since <= t && (t <= token || t == since)
        invariant ListsChanges(changes, Now(), since, t)
      {
        hide ListsChanges;
        OneMore(changes, Now(), since, t);
        t := t + 1;
        if n :| n in objects && objects[n].token == t {
          changes := changes + [Change(n, t, false)];
        } else if n :| n in tombs && tombs[n].token == t {
          changes := changes + [Change(n, t, true)];
        }
      }
    }

    /** What changed after a token and the token to come back with: the higher of the
        calendar's, as it was read first, and the changes', which were read after. A
        first sync wants what is there and not what used to be. */
    method Changes(since: int) returns (kept: seq<Change>, next: nat, failed: Option<Failure>)
      requires Valid()
      ensures failed == if since < 0 || since > token || (since > 0 && since < pruned) then Some(StaleToken) else None
      ensures failed.None? ==> next == token
      ensures failed.None? ==> exists all :: ListsChanges(all, Now(), since, token) && kept == Kept(all, since)
    {
      if since < 0 || since > token || (since > 0 && since < pruned) { return [], 0, Some(StaleToken); }
      var all := CalendarChanges(since);
      kept, next := KeepChanges(all, since, token);
      HighestIs(all, token);
      return kept, next, None;
    }
  }

  lemma Fewer<T>(a: set<T>, b: set<T>)
    requires a <= b
    ensures |a| <= |b|
  {
    assert b == a + (b - a);
  }

  function Kept(all: seq<Change>, since: int): seq<Change>
    decreases |all|
  {
    if all == [] then []
    else Kept(all[..|all| - 1], since) + (if since == 0 && all[|all| - 1].deleted then [] else [all[|all| - 1]])
  }

  /** The highest token there is among some changes and one more. */
  function Highest(all: seq<Change>, token: nat): (h: nat)
    ensures h >= token && forall i :: 0 <= i < |all| ==> all[i].token <= h
    ensures h == token || exists i :: 0 <= i < |all| && all[i].token == h
    decreases |all|
  {
    if all == [] then token
    else
      var h := Highest(all[..|all| - 1], token);
      if all[|all| - 1].token > h then all[|all| - 1].token else h
  }

  lemma HighestIs(all: seq<Change>, token: nat)
    requires forall i :: 0 <= i < |all| ==> all[i].token <= token
    ensures Highest(all, token) == token
  {
  }

  /** The filter, over one slice: what is kept is written over what was read. */
  method KeepChanges(all: seq<Change>, since: int, token: nat) returns (kept: seq<Change>, next: nat)
    ensures kept == Kept(all, since) && next == Highest(all, token)
  {
    hide Kept, Highest;
    var a := new Change[|all|](i requires 0 <= i < |all| => all[i]);
    var n := 0;
    next := token;
    KeptStart(all, since, token);
    var i := 0;
    while i < |all|
      invariant n <= i <= |all| == a.Length
      invariant a[..n] == Kept(all[..i], since)
      invariant forall j :: i <= j < |all| ==> a[j] == all[j]
      invariant next == Highest(all[..i], token)
    {
      KeptStep(all, since, token, i);
      var ch := a[i];
      next := if next < ch.token then ch.token else next;
      if !(since == 0 && ch.deleted) {
        ghost var sofar := a[..n];
        a[n] := ch;
        n := n + 1;
        assert a[..n] == sofar + [ch];
      }
      i := i + 1;
    }
    assert all[..i] == all;
    return a[..n], next;
  }

  lemma KeptStart(all: seq<Change>, since: int, token: nat)
    ensures Kept(all[..0], since) == [] && Highest(all[..0], token) == token
  {
  }

  lemma KeptStep(all: seq<Change>, since: int, token: nat, i: nat)
    requires i < |all|
    ensures Kept(all[..i + 1], since) == Kept(all[..i], since) + (if since == 0 && all[i].deleted then [] else [all[i]])
    ensures Highest(all[..i + 1], token) == var h := Highest(all[..i], token);
            if all[i].token > h then all[i].token else h
  {
    assert all[..i + 1][..i] == all[..i];
  }

  // ----- Tokens on the wire

  const SYNC_TOKEN_PREFIX := "urn:stratus:sync:"

  function SyncToken(collection: nat, token: nat): string {
    SYNC_TOKEN_PREFIX + Itoa(collection) + ":" + Itoa(token)
  }

  /** Reads a token back; None for one this server did not write for the collection. */
  function ParseSyncToken(token: string, collection: nat): Option<int> {
    if token == "" then Some(0)
    else match CutPrefix(token, SYNC_TOKEN_PREFIX)
      case None => None
      case Some(rest) =>
        var cut := CutAt(rest, ':');
        if !cut.found || cut.before != Itoa(collection) then None
        else match ParseInt(cut.after)
          case None => None
          case Some(v) => if v >= 0 then Some(v) else None
  }

  /** A token is read back by the collection it came from, and by no other. */
  lemma TokenReadBack(collection: nat, other: nat, token: nat)
    requires token <= MAX_INT64
    ensures ParseSyncToken(SyncToken(collection, token), other) == if other == collection then Some(token) else None
  {
    hide Itoa, ParseInt, CutAt;
    var tail := Itoa(collection) + ":" + Itoa(token);
    TokenTail(Itoa(collection), Itoa(token));
    assert ':' !in Itoa(collection);
    CutJoined(Itoa(collection), ':', Itoa(token));
    ParseItoa(token);
    if Itoa(other) == Itoa(collection) { ItoaInjective(other, collection); }
  }

  lemma TokenTail(a: string, b: string)
    ensures CutPrefix(SYNC_TOKEN_PREFIX + a + ":" + b, SYNC_TOKEN_PREFIX) == Some(a + ":" + b)
  {
    assert SYNC_TOKEN_PREFIX + a + ":" + b == SYNC_TOKEN_PREFIX + (a + ":" + b);
  }
}
