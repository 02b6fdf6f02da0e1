/** The service's calls as runs of the transition system: what Files.Service does in one
    call is steps that anything may come between, and those steps are Stores.Action's. */
module ServiceRuns {
  import opened Tree
  import opened Stores
  import F = Files
  import B = Blobs
  import Keys
  import StoreTheorems
  import Trashes
  import C = Sweeping
  import opened Repository

  /** A world with the service's rows, and an object wherever the service has one. */
  ghost predicate Shows(w: World, b: B.Books) {
    w.files == b.files && w.trash == b.trash && w.blobs.Keys == b.objects.Keys
  }

  lemma {:induction false} RunsJoin(t: Timing, w: World, first: seq<Action>, second: seq<Action>)
    requires Legal(t, w, first) && Legal(t, Play(t, w, first), second)
    ensures Legal(t, w, first + second) && Play(t, w, first + second) == Play(t, Play(t, w, first), second)
    decreases |first|
  {
    hide Enabled, Assumed, Apply;
    if first == [] {
      assert first + second == second;
    } else {
      var all := first + second;
      assert all[0] == first[0] && all[1..] == first[1..] + second;
      RunsJoin(t, Apply(t, w, first[0]), first[1..], second);
    }
  }

  lemma OneStep(t: Timing, w: World, a: Action)
    requires Enabled(t, w, a) && Assumed(t, w, a)
    ensures Legal(t, w, [a]) && Play(t, w, [a]) == Apply(t, w, a)
  {
    hide Enabled, Assumed, Apply;
    assert [a][1..] == [];
    assert Legal(t, Apply(t, w, a), []);
  }

  /** Deletes of objects, by one process, and nothing else. */
  predicate OnlyDeletes(run: seq<Action>, pid: nat) {
    forall i :: 0 <= i < |run| ==> run[i].DeleteObject? && run[i].pid == pid
  }

  /** A process that is dropping keys can delete any of what belongs to them. */
  lemma {:induction false} DropsAreRuns(t: Timing, w: World, pid: nat, keys: set<string>, gone: set<string>)
    returns (run: seq<Action>)
    requires pid in w.procs && w.procs[pid] == Dropping(keys)
    requires forall k :: k in gone ==> k in keys || B.DerivedFrom(k, keys)
    ensures OnlyDeletes(run, pid) && Legal(t, w, run) && Play(t, w, run) == w.(blobs := w.blobs - gone)
    decreases |gone|
  {
    run := [];
    if gone == {} {
      assert w.blobs - gone == w.blobs;
      assert Legal(t, w, run) && Play(t, w, run) == w;
    } else {
      var k :| k in gone;
      var a, rest := DeleteObject(pid, k), gone - {k};
      assert Enabled(t, w, a) && Assumed(t, w, a);
      var after := w.(blobs := w.blobs - {k});
      OneStep(t, w, a);
      assert Apply(t, w, a) == after;
      var more := DropsAreRuns(t, after, pid, keys, rest);
      RunsJoin(t, w, [a], more);
      assert after.blobs - rest == w.blobs - gone;
      run := [a] + more;
    }
  }

  /** A key held in a world has the shape of one. */
  lemma HeldIsNamed(t: Timing, w: World, h: Holder, key: string)
    requires Inv(t, w) && Holds(w, h, key)
    ensures key in w.minted && key != ""
  {
    assert Keys.MintedShape(key);
  }

  /** A blob stored for a write. */
  lemma Storing(t: Timing, w: World, pid: nat, key: string) returns (after: World)
    requires pid !in w.procs && key !in w.minted && Keys.MintedShape(key)
    ensures Legal(t, w, [Store(pid, key)]) && after == Play(t, w, [Store(pid, key)])
    ensures after.procs == w.procs[pid := Writing(map[key := w.now])] && after.blobs.Keys == w.blobs.Keys + {key}
    ensures after.files == w.files && after.trash == w.trash && after.now == w.now
  {
    OneStep(t, w, Store(pid, key));
    after := Apply(t, w, Store(pid, key));
  }

  /** Its row given up, and the blob left or deleted. */
  lemma GivingUp(t: Timing, stored: World, pid: nat, key: string, at: int, after: B.Books) returns (run: seq<Action>)
    requires pid in stored.procs && stored.procs[pid] == Writing(map[key := at])
    requires stored.files == after.files && stored.trash == after.trash
    requires after.objects.Keys <= stored.blobs.Keys <= after.objects.Keys + {key}
    ensures Legal(t, stored, run) && Shows(Play(t, stored, run), after)
    ensures run != [] && run[0] == Action.Refused(pid) && OnlyDeletes(run[1..], pid)
  {
    var a := Action.Refused(pid);
    OneStep(t, stored, a);
    var w := Apply(t, stored, a);
    assert stored.procs[pid].stored.Keys == {key};
    var gone := stored.blobs.Keys - after.objects.Keys;
    var drops := DropsAreRuns(t, w, pid, {key}, gone);
    RunsJoin(t, stored, [a], drops);
    run := [a] + drops;
    assert run[1..] == drops;
  }

  /** Its row committed, and what it took the place of left or deleted, with what was
      made from it. */
  lemma Committing(t: Timing, stored: World, pid: nat, l: Loc, file: Row, at: int, before: B.Books, after: B.Books)
    returns (run: seq<Action>)
    requires pid in stored.procs && file.File? && stored.procs[pid] == Writing(map[file.key := at])
    requires stored.now - at <= t.deadline
    requires stored.files == before.files && stored.trash == before.trash == after.trash
    requires stored.blobs.Keys == before.objects.Keys + {file.key} && file.key in after.objects
    requires Insert(before.files, l, file) == Ok(after.files)
    requires B.DropsOnly(before.objects, after.objects - {file.key}, F.Superseded(before.files, l))
    requires l in before.files && before.files[l].File? ==> before.files[l].key != ""
    ensures Legal(t, stored, run) && Shows(Play(t, stored, run), after)
    ensures run != [] && run[0] == CommitWrite(pid, l, file) && OnlyDeletes(run[1..], pid)
  {
    var a := CommitWrite(pid, l, file);
    assert stored.procs[pid].stored.Keys == {file.key};
    assert Enabled(t, stored, a) && Assumed(t, stored, a);
    OneStep(t, stored, a);
    var w := Apply(t, stored, a);
    var keys := F.Superseded(before.files, l);
    var gone := stored.blobs.Keys - after.objects.Keys;
    assert forall k :: k in after.objects ==> k in stored.blobs by {
      forall k | k in after.objects && k != file.key ensures k in before.objects {
        assert k in after.objects - {file.key};
      }
    }
    forall k | k in gone ensures k in keys || B.DerivedFrom(k, keys) {
      assert k in before.objects && k !in after.objects - {file.key};
    }
    run := [a];
    if keys == {} {
      assert forall k :: !B.DerivedFrom(k, keys);
      assert gone == {} && run[1..] == [];
    } else {
      assert w.procs[pid] == Dropping(keys);
      var drops := DropsAreRuns(t, w, pid, keys, gone);
      RunsJoin(t, stored, [a], drops);
      run := [a] + drops;
      assert run[1..] == drops;
    }
  }

  /** What becomes of a blob that is in the store: its row committed or given up, and
      then deletes, of the blob it replaced and what was made from it, or of its own. */
  lemma Ending(t: Timing, w: World, stored: World, pid: nat, at: int, before: B.Books, after: B.Books, l: Loc,
               key: string, r: F.Answer<Row>)
    returns (run: seq<Action>)
    requires Inv(t, w) && Shows(w, before) && F.Wrote(before, after, l, key, r) && key !in before.objects
    requires pid in stored.procs && stored.procs[pid] == Writing(map[key := at]) && stored.now - at <= t.deadline
    requires stored.files == w.files && stored.trash == w.trash && stored.blobs.Keys == w.blobs.Keys + {key}
    ensures Legal(t, stored, run) && Shows(Play(t, stored, run), after)
    ensures |run| >= 1 && OnlyDeletes(run[1..], pid)
    ensures run[0] == if r.Done? then CommitWrite(pid, l, r.value) else Action.Refused(pid)
  {
    hide Inv, Enabled, Assumed, Apply, Legal, Play, B.DropsOnly, Keys.MintedShape;
    if r.Done? {
      if l in before.files && before.files[l].File? {
        assert Holds(w, AtRow(l), before.files[l].key);
        HeldIsNamed(t, w, AtRow(l), before.files[l].key);
      }
      run := Committing(t, stored, pid, l, r.value, at, before, after);
    } else {
      OneMore(before.objects, after.objects, key);
      run := GivingUp(t, stored, pid, key, at, after);
    }
  }

  /** A write is its blob stored; then its row committed or given up; and then deletes,
      of the blob it replaced and what was made from it, or of its own. */
  lemma WriteIsARun(t: Timing, w: World, pid: nat, before: B.Books, after: B.Books, l: Loc, key: string,
                    r: F.Answer<Row>)
    returns (run: seq<Action>)
    requires Inv(t, w) && Shows(w, before) && F.Wrote(before, after, l, key, r)
    requires pid !in w.procs && key !in w.minted && Keys.MintedShape(key) && key !in before.objects
    ensures Legal(t, w, run) && Shows(Play(t, w, run), after)
    ensures |run| >= 2 && run[0] == Store(pid, key) && OnlyDeletes(run[2..], pid)
    ensures run[1] == if r.Done? then CommitWrite(pid, l, r.value) else Action.Refused(pid)
  {
    hide Inv, Enabled, Assumed, Apply, Legal, Play, Keys.MintedShape, F.Wrote;
    var stored := Storing(t, w, pid, key);
    var rest := Ending(t, w, stored, pid, w.now, before, after, l, key, r);
    RunsJoin(t, w, [Store(pid, key)], rest);
    run := [Store(pid, key)] + rest;
    assert run[2..] == rest[1..];
  }

  /** Finishing an upload is its blob published, with the time the store gives it, and
      then what a write's blob comes to: or no step at all, when the store published
      nothing. */
  lemma CompleteIsARun(t: Timing, w: World, pid: nat, before: B.Books, after: B.Books, l: Loc, key: string, mtime: int,
                       r: F.Answer<Row>)
    returns (run: seq<Action>)
    requires Inv(t, w) && Shows(w, before) && F.Wrote(before, after, l, key, r)
    requires pid !in w.procs && key in w.uploads && w.now - t.deadline <= mtime <= w.now
    ensures Legal(t, w, run) && Shows(Play(t, w, run), after)
    ensures if r.Broken? && key !in after.objects then run == []
            else
              && |run| >= 2 && run[0] == Publish(pid, key, mtime) && OnlyDeletes(run[2..], pid)
              && run[1] == if r.Done? then CommitWrite(pid, l, r.value) else Action.Refused(pid)
  {
    NotThereYet(t, w, key);
    if r.Broken? && key !in after.objects {
      OneMore(before.objects, after.objects, key);
      assert Legal(t, w, []) && Play(t, w, []) == w;
      run := [];
    } else {
      hide Inv, F.Wrote;
      var a := Publish(pid, key, mtime);
      OneStep(t, w, a);
      hide Enabled, Assumed, Legal, Play;
      var rest := Ending(t, w, Apply(t, w, a), pid, mtime, before, after, l, key, r);
      RunsJoin(t, w, [a], rest);
      run := [a] + rest;
      assert run[2..] == rest[1..];
    }
  }

  /** An upload is seen by nobody till it is published. */
  lemma NotThereYet(t: Timing, w: World, key: string)
    requires Inv(t, w) && key in w.uploads
    ensures key !in w.blobs
  {
  }

  lemma OneMore(before: B.Objects, after: B.Objects, key: string)
    requires after - {key} == before
    ensures after.Keys <= before.Keys + {key} <= after.Keys + {key}
  {
    forall k | k in after ensures k in before || k == key { assert k != key ==> k in after - {key}; }
    forall k | k in before ensures k in after { assert k in after - {key}; }
  }

  /** So a write from any state the system can reach leaves one it can reach, with
      everything that holds of those. */
  lemma WriteKeeps(t: Timing, w: World, pid: nat, before: B.Books, after: B.Books, l: Loc, key: string,
                   r: F.Answer<Row>)
    returns (next: World)
    requires StoreTheorems.Sound(t)
    requires Inv(t, w) && Shows(w, before) && F.Wrote(before, after, l, key, r)
    requires pid !in w.procs && key !in w.minted && Keys.MintedShape(key) && key !in before.objects
    ensures Inv(t, next) && Shows(next, after)
  {
    hide Inv, Legal, Play, F.Wrote, Keys.MintedShape, StoreTheorems.Sound;
    var run := WriteIsARun(t, w, pid, before, after, l, key, r);
    StoreTheorems.RunKeeps(t, w, run);
    next := Play(t, w, run);
  }

  // ----- Deletions

  /** A removal is one step. */
  lemma RemoveIsARun(t: Timing, w: World, before: B.Books, after: B.Books, l: Loc, batch: string)
    requires Shows(w, before) && RemoveTree(before.files, l).Ok? && BatchId(l.owner, batch) !in before.trash
    requires after == before.(files := Without(before.files, l.owner, l.path),
                              trash := before.trash[BatchId(l.owner, batch) := RemoveTree(before.files, l).value])
    ensures Legal(t, w, [Action.Remove(l, batch)]) && Shows(Play(t, w, [Action.Remove(l, batch)]), after)
  {
    OneStep(t, w, Action.Remove(l, batch));
  }

  /** And so is a restore. */
  lemma RestoreIsARun(t: Timing, w: World, before: B.Books, after: B.Books, id: BatchId)
    requires Shows(w, before) && id in before.trash && Restore(before.files, id.owner, before.trash[id]).Ok?
    requires after == before.(files := Restore(before.files, id.owner, before.trash[id]).value.rows,
                              trash := before.trash - {id})
    requires t.apart ==> NoSweepBetweenReads(w)
    ensures Legal(t, w, [RestoreBatch(id)]) && Shows(Play(t, w, [RestoreBatch(id)]), after)
  {
    hide Restore;
    OneStep(t, w, RestoreBatch(id));
  }

  /** Destroying a deletion is its rows going and then deletes of its blobs and what was
      made from them; one that is not there is no step at all. */
  lemma DestroyIsARun(t: Timing, w: World, pid: nat, before: B.Books, after: B.Books, id: BatchId)
      returns (run: seq<Action>)
    requires Shows(w, before) && Trashes.Destroyed(before, after, id) && pid !in w.procs
    ensures Legal(t, w, run) && Shows(Play(t, w, run), after)
    ensures if id in before.trash then run != [] && run[0] == Destroy(pid, id) && OnlyDeletes(run[1..], pid)
            else run == []
  {
    run := [];
    if id in before.trash {
      var a := Destroy(pid, id);
      OneStep(t, w, a);
      var gone := before.objects.Keys - after.objects.Keys;
      var keys := KeysOf(before.trash[id]);
      var drops := DropsAreRuns(t, Apply(t, w, a), pid, keys, gone);
      RunsJoin(t, w, [a], drops);
      run := [a] + drops;
      assert run[1..] == drops;
    } else {
      assert before.trash - {id} == before.trash;
      forall k | k in before.objects ensures k in after.objects { assert !B.DerivedFrom(k, {}); }
      assert Legal(t, w, []) && Play(t, w, []) == w;
    }
  }

  // ----- A pass of the sweep

  /** And every object is as old in the world as it is in the store. */
  ghost predicate ShowsTimes(w: World, objects: B.Objects) {
    w.blobs.Keys == objects.Keys && forall k :: k in objects ==> w.blobs[k] == objects[k].mtime
  }

  function OrphansIn(keys: set<string>, objects: B.Objects, referenced: set<string>, cutoff: int): set<string> {
    set k | k in keys && C.Orphan(k, objects, referenced, cutoff)
  }

  function DerivedIn(keys: set<string>): set<string> {
    set k | k in keys && C.Derived(k)
  }

  /** What a pass has listed once it has looked at all these. */
  function Seen(s: Sweep, keys: set<string>, objects: B.Objects): Sweep
    requires s.Listing?
  {
    s.(orphans := s.orphans + OrphansIn(keys, objects, s.referenced, s.cutoff), derived := s.derived + DerivedIn(keys))
  }

  lemma SeenOne(s: Sweep, k: string, rest: set<string>, objects: B.Objects)
    requires s.Listing? && s.referenced != {} && C.Judgeable(k, objects, s.cutoff)
    ensures Judged(s, k).Listing? && Seen(Judged(s, k), rest, objects) == Seen(s, {k} + rest, objects)
    ensures Listed(s, k, objects[k].mtime)
  {
    hide C.Orphan, C.Derived, C.Judgeable, Listed;
    assert k in objects by { IsThere(k, objects, s.cutoff); }
    C.JudgedAlike(s, k, objects);
    var next := Judged(s, k);
    assert next.referenced == s.referenced && next.cutoff == s.cutoff && next.since == s.since;
    assert Seen(next, rest, objects).orphans == Seen(s, {k} + rest, objects).orphans;
    assert Seen(next, rest, objects).derived == Seen(s, {k} + rest, objects).derived;
  }

  lemma IsThere(k: string, objects: B.Objects, cutoff: int)
    requires C.Judgeable(k, objects, cutoff)
    ensures k in objects
  {
  }

  /** A pass that has its listing open can look at any of what is old enough. */
  lemma {:induction false} SeesAreRuns(t: Timing, w: World, pid: nat, objects: B.Objects, s: Sweep, keys: set<string>)
    returns (run: seq<Action>)
    requires ShowsTimes(w, objects) && pid in w.procs && s.Listing? && w.procs[pid] == Sweeping(s)
    requires s.referenced != {} && forall k :: k in keys ==> C.Judgeable(k, objects, s.cutoff)
    ensures Legal(t, w, run) && Play(t, w, run) == w.(procs := w.procs[pid := Sweeping(Seen(s, keys, objects))])
    decreases |keys|
  {
    hide C.Judgeable, Judged, Listed;
    run := [];
    if keys == {} {
      assert Seen(s, keys, objects) == s;
      assert w.procs[pid := Sweeping(s)] == w.procs;
      assert Legal(t, w, run) && Play(t, w, run) == w;
    } else {
      var k :| k in keys;
      var a, rest := SweepSees(pid, k), keys - {k};
      assert keys == {k} + rest;
      SeenOne(s, k, rest, objects);
      IsThere(k, objects, s.cutoff);
      assert Enabled(t, w, a) && Assumed(t, w, a);
      OneStep(t, w, a);
      var after := w.(procs := w.procs[pid := Sweeping(Judged(s, k))]);
      assert Apply(t, w, a) == after;
      SameTerms(s, k);
      var more := SeesAreRuns(t, after, pid, objects, Judged(s, k), rest);
      RunsJoin(t, w, [a], more);
      run := [a] + more;
    }
  }

  lemma SameTerms(s: Sweep, k: string)
    requires s.Listing?
    ensures Judged(s, k).Listing? && Judged(s, k).referenced == s.referenced && Judged(s, k).cutoff == s.cutoff
  {
  }

  /** And one that is deleting can delete any of what it listed. */
  lemma {:induction false} SweepsAreRuns(t: Timing, w: World, pid: nat, s: Sweep, gone: set<string>)
    returns (run: seq<Action>)
    requires pid in w.procs && s.Deleting? && w.procs[pid] == Sweeping(s) && gone <= s.derived
    ensures Legal(t, w, run) && Play(t, w, run) == w.(blobs := w.blobs - gone)
    decreases |gone|
  {
    run := [];
    if gone == {} {
      assert w.blobs - gone == w.blobs;
      assert Legal(t, w, run) && Play(t, w, run) == w;
    } else {
      var k :| k in gone;
      var a, rest := SweepDeletes(pid, k), gone - {k};
      assert Enabled(t, w, a) && Assumed(t, w, a);
      OneStep(t, w, a);
      var after := w.(blobs := w.blobs - {k});
      assert Apply(t, w, a) == after;
      var more := SweepsAreRuns(t, after, pid, s, rest);
      RunsJoin(t, w, [a], more);
      assert after.blobs - rest == w.blobs - gone;
      run := [a] + more;
    }
  }

  /** The keys a pass reads of the database: what Sweeping.Referenced is of the service. */
  function Kept(w: World): set<string> { FileKeys(w.files) + HeldKeys(w.trash, w.lost) }

  function OldEnough(objects: B.Objects, cutoff: int): set<string> {
    set k | k in objects && C.Judgeable(k, objects, cutoff)
  }

  /** What a pass leaves in the world that has taken its orphans into the trash and
      deleted so many of the rest. */
  ghost function Passed(w: World, pid: nat, objects: B.Objects, cutoff: int, batch: string, gone: set<string>): World {
    var orphans := C.Orphans(objects, Kept(w), cutoff);
    w.(blobs := w.blobs - gone,
       lost := if orphans == {} then w.lost else w.lost[batch := orphans],
       procs := w.procs[pid := Sweeping(Deleting(Kept(w) + orphans, DerivedIn(OldEnough(objects, cutoff))))])
  }

  /** The keys read, the files' and then the trash's, and the listing opened. */
  lemma Opening(t: Timing, w: World, pid: nat) returns (run: seq<Action>)
    requires pid !in w.procs
    ensures run == [SweepFiles(pid), SweepTrash(pid), SweepCutoff(pid)] && Legal(t, w, run)
    ensures var s := Listing(w.now, w.now - t.grace, Kept(w), {}, {});
            Play(t, w, run) == w.(procs := w.procs[pid := Sweeping(s)])
  {
    var a, b, c := SweepFiles(pid), SweepTrash(pid), SweepCutoff(pid);
    OneStep(t, w, a);
    var first := Apply(t, w, a);
    OneStep(t, first, b);
    var second := Apply(t, first, b);
    OneStep(t, second, c);
    hide Enabled, Assumed, Apply;
    RunsJoin(t, first, [b], [c]);
    RunsJoin(t, w, [a], [b] + [c]);
    run := [a] + ([b] + [c]);
    var s := Listing(w.now, w.now - t.grace, Kept(w), {}, {});
    assert Apply(t, second, c) == w.(procs := w.procs[pid := Sweeping(s)]) by { Opened(t, w, pid); }
  }

  lemma Opened(t: Timing, w: World, pid: nat)
    requires pid !in w.procs
    ensures var a, b, c := SweepFiles(pid), SweepTrash(pid), SweepCutoff(pid);
            var s := Listing(w.now, w.now - t.grace, Kept(w), {}, {});
            && Enabled(t, w, a) && Enabled(t, Apply(t, w, a), b) && Enabled(t, Apply(t, Apply(t, w, a), b), c)
            && Apply(t, Apply(t, Apply(t, w, a), b), c) == w.(procs := w.procs[pid := Sweeping(s)])
  {
    var s := Listing(w.now, w.now - t.grace, Kept(w), {}, {});
    var first := w.(procs := w.procs[pid := Sweeping(ReadFiles(w.now, FileKeys(w.files)))]);
    var second := w.(procs := w.procs[pid := Sweeping(ReadBoth(w.now, Kept(w)))]);
    assert first.procs[pid := Sweeping(ReadBoth(w.now, Kept(w)))] == second.procs;
    assert second.procs[pid := Sweeping(s)] == w.procs[pid := Sweeping(s)];
    assert TrashKeys(first) == HeldKeys(w.trash, w.lost);
  }

  /** A pass that meets nobody is a pass of the machine, which can delete whatever the
      pass judges garbage: the keys read, every object old enough looked at, the orphans
      taken into the trash, and then deletes. */
  lemma CollectIsARun(t: Timing, w: World, pid: nat, objects: B.Objects, later: int, batch: string, gone: set<string>)
    returns (run: seq<Action>)
    requires ShowsTimes(w, objects) && pid !in w.procs && batch !in w.lost && Kept(w) != {}
    requires var cutoff := w.now - t.grace;
             gone <= C.AllGarbage(objects, Kept(w) + C.Orphans(objects, Kept(w), cutoff), cutoff, later)
    ensures Legal(t, w, run) && Play(t, w, run) == Passed(w, pid, objects, w.now - t.grace, batch, gone)
  {
    hide Legal, Play, Inv, C.Orphans, C.AllGarbage, OldEnough;
    var cutoff := w.now - t.grace;
    var judged, s := OldEnough(objects, cutoff), Listing(w.now, cutoff, Kept(w), {}, {});
    var opening := Opening(t, w, pid);
    var listing := w.(procs := w.procs[pid := Sweeping(s)]);
    OnlyOldEnough(objects, cutoff);
    var looks := SeesAreRuns(t, listing, pid, objects, s, judged);
    RunsJoin(t, w, opening, looks);
    var all := Seen(s, judged, objects);
    AllSeen(objects, Kept(w), cutoff, s);
    var looked := w.(procs := w.procs[pid := Sweeping(all)]);
    assert listing.procs[pid := Sweeping(all)] == looked.procs;
    var taken := Trashing(t, w, looked, pid, objects, cutoff, batch, all);
    RunsJoin(t, w, opening + looks, [SweepTrashes(pid, batch)]);
    GarbageIsListed(objects, Kept(w) + all.orphans, cutoff, later);
    var deletes := SweepsAreRuns(t, taken, pid, Deleting(Kept(w) + all.orphans, all.derived), gone);
    RunsJoin(t, w, opening + looks + [SweepTrashes(pid, batch)], deletes);
    run := opening + looks + [SweepTrashes(pid, batch)] + deletes;
  }

  lemma OnlyOldEnough(objects: B.Objects, cutoff: int)
    ensures forall k :: k in OldEnough(objects, cutoff) <==> C.Judgeable(k, objects, cutoff)
  {
  }

  lemma AllSeen(objects: B.Objects, kept: set<string>, cutoff: int, s: Sweep)
    requires s.Listing? && s == Listing(s.since, cutoff, kept, {}, {})
    ensures var all := Seen(s, OldEnough(objects, cutoff), objects);
            all.Listing? && all.orphans == C.Orphans(objects, kept, cutoff) && all.referenced == kept
            && all.derived == DerivedIn(OldEnough(objects, cutoff))
  {
  }

  lemma GarbageIsListed(objects: B.Objects, kept: set<string>, cutoff: int, later: int)
    ensures C.AllGarbage(objects, kept, cutoff, later) <= DerivedIn(OldEnough(objects, cutoff))
  {
  }

  /** The orphans taken into the trash. */
  lemma Trashing(t: Timing, w: World, looked: World, pid: nat, objects: B.Objects, cutoff: int, batch: string,
                 all: Sweep)
    returns (taken: World)
    requires looked == w.(procs := w.procs[pid := Sweeping(all)]) && batch !in w.lost
    requires all.Listing? && all.orphans == C.Orphans(objects, Kept(w), cutoff) && all.referenced == Kept(w)
             && all.derived == DerivedIn(OldEnough(objects, cutoff))
    ensures taken == Passed(w, pid, objects, cutoff, batch, {})
    ensures var a := SweepTrashes(pid, batch);
            Legal(t, looked, [a]) && Play(t, looked, [a]) == taken
  {
    var a := SweepTrashes(pid, batch);
    OneStep(t, looked, a);
    taken := Apply(t, looked, a);
    assert w.blobs - {} == w.blobs;
    var next := Sweeping(Deleting(Kept(w) + all.orphans, all.derived));
    assert looked.procs[pid := next] == w.procs[pid := next];
  }
}
