/** internal/files/collect.go: the sweep that takes what nothing accounts for. */
module Sweeping {
  import opened Text
  import opened Tree
  import opened Repository
  import opened Blobs
  import opened Files
  import Keys
  import Stores

  const SECOND := 1_000_000_000
  const CACHE_RETENTION := 7 * 24 * 3600 * SECOND

  datatype End = Swept | EmptyIndex | Failed

  /** Old enough to be judged, and not one of the database's backups. */
  predicate Judgeable(k: string, objects: Objects, cutoff: int) {
    k in objects && !(Keys.BACKUP_PREFIX <= k) && objects[k].mtime <= cutoff
  }

  /** An original nobody accounts for. */
  predicate Orphan(k: string, objects: Objects, referenced: set<string>, cutoff: int) {
    Judgeable(k, objects, cutoff) && !Keys.ParentOf(k).derived && k !in referenced
  }

  /** Something made from a blob that is gone, by a generator that has moved on, or
      kept for a while and past it. */
  predicate Garbage(k: string, objects: Objects, kept: set<string>, cutoff: int, now: int) {
    && Judgeable(k, objects, cutoff) && Keys.ParentOf(k).derived && Keys.ParentOf(k).parent != ""
    && (Keys.ParentOf(k).parent !in kept || Keys.StaleGeneration(k)
        || (Keys.Cached(k) && now - objects[k].mtime > CACHE_RETENTION))
  }

  function Orphans(objects: Objects, referenced: set<string>, cutoff: int): set<string> {
    set k | k in objects && Orphan(k, objects, referenced, cutoff)
  }

  ghost function AllGarbage(objects: Objects, kept: set<string>, cutoff: int, now: int): set<string> {
    set k | k in objects && Garbage(k, objects, kept, cutoff, now)
  }

  ghost function Referenced(r: Repo): set<string>
    reads r
  {
    Stores.FileKeys(r.files) + HeldKeys(r.trash, r.lost)
  }

  /** Nothing has come or changed, and what has gone was garbage. */
  ghost predicate LostOnly(before: Objects, after: Objects, garbage: set<string>) {
    && (forall k :: k in after ==> k in before && after[k] == before[k])
    && (forall k :: k in before && k !in after ==> k in garbage)
  }

  ghost predicate OnlyBackups(objects: Objects) {
    forall k :: k in objects ==> Keys.BACKUP_PREFIX <= k
  }

  /** What the machine of Stores does with one listed object is what a pass does. */
  lemma JudgedAlike(s: Stores.Sweep, k: string, objects: Objects)
    requires s.Listing? && k in objects && s.referenced != {}
    ensures Stores.Listed(s, k, objects[k].mtime) <==> Judgeable(k, objects, s.cutoff)
    ensures Judgeable(k, objects, s.cutoff) ==>
              && Stores.Judged(s, k).orphans
                 == s.orphans + (if Orphan(k, objects, s.referenced, s.cutoff) then {k} else {})
              && Stores.Judged(s, k).derived == s.derived + (if Derived(k) then {k} else {})
  {
  }

  predicate Derived(k: string) {
    Keys.ParentOf(k).derived && Keys.ParentOf(k).parent != ""
  }

  /** An original nobody accounts for: not a derivative, not a backup, old enough. */
  lemma OrphanExactly(k: string, objects: Objects, referenced: set<string>, cutoff: int)
    ensures k in Orphans(objects, referenced, cutoff) <==>
            k in objects && !("backups/" <= k) && !("derived/" <= k) && k !in referenced && objects[k].mtime <= cutoff
  {
    Keys.ParentNone(k);
    hide Keys.ParentOf;
  }

  /** What goes of what was made from a blob: everything when the blob is gone, what
      another generation made, and a cache after its week. */
  lemma GarbageExactly(parent: string, leaf: string, objects: Objects, kept: set<string>, cutoff: int, now: int)
    requires parent != "" && '/' !in leaf
    ensures var k := "derived/" + parent + "/" + leaf;
            k in AllGarbage(objects, kept, cutoff, now) <==>
            && k in objects && objects[k].mtime <= cutoff
            && (parent !in kept || !Keys.SaysGeneration(leaf)
                || (now - objects[k].mtime > 7 * 24 * 3600 * 1_000_000_000
                    && exists before, name :: leaf == before + "-" + name && '-' !in before && "cache-" <= name))
  {
    var k := "derived/" + parent + "/" + leaf;
    Keys.ParentExactly(parent, leaf);
    Keys.StaleExactly(k);
    Keys.CachedExactly(k);
    hide Keys.ParentOf, Keys.StaleGeneration, Keys.Cached, Keys.SaysGeneration, Leaf;
    assert k[0] == 'd' && Keys.BACKUP_PREFIX[0] == 'b';
  }

  /** And nothing else goes. */
  lemma GarbageIsDerived(k: string, objects: Objects, kept: set<string>, cutoff: int, now: int)
    requires k in AllGarbage(objects, kept, cutoff, now)
    ensures var parent := Keys.ParentOf(k).parent;
            parent != "" && k == "derived/" + parent + "/" + Leaf(k) && '/' !in Leaf(k)
  {
    hide Keys.ParentOf, Keys.StaleGeneration, Keys.Cached, Leaf;
    Keys.ParentNone(k);
  }

  /** What is left of old derivatives belongs to a blob that is kept and was made by this
      generation. */
  lemma LeftAreCurrent(before: Objects, after: Objects, kept: set<string>, cutoff: int, now: int)
    requires after == before - AllGarbage(before, kept, cutoff, now)
    ensures forall parent, leaf :: parent != "" && '/' !in leaf && "derived/" + parent + "/" + leaf in after
                                   && after["derived/" + parent + "/" + leaf].mtime <= cutoff ==>
                                     parent in kept && Keys.SaysGeneration(leaf)
  {
    hide AllGarbage, Keys.SaysGeneration;
    forall parent, leaf | parent != "" && '/' !in leaf && "derived/" + parent + "/" + leaf in after
        && after["derived/" + parent + "/" + leaf].mtime <= cutoff
      ensures parent in kept && Keys.SaysGeneration(leaf)
    {
      GarbageExactly(parent, leaf, before, kept, cutoff, now);
    }
  }

  /** One pass. It takes every orphan into the trash and destroys the garbage judged
      against what is kept with them; it refuses an index that accounts for nothing;
      and a pass that fails has destroyed nothing but garbage. */
  method Collect(s: Service, olderThan: int, now: int, later: int, batch: string) returns (end: End)
    requires s.Valid() && batch !in s.repo.lost
    modifies s.repo`lost, s.repo`deletedAt, s.blobs
    ensures s.Valid()
    ensures end.EmptyIndex? ==> old(Referenced(s.repo)) == {} && !OnlyBackups(old(s.blobs.objects))
                                && s.repo.lost == old(s.repo.lost) && s.blobs.objects == old(s.blobs.objects)
    ensures end.Swept? ==>
              forall parent, leaf :: parent != "" && '/' !in leaf && "derived/" + parent + "/" + leaf in s.blobs.objects
                                     && s.blobs.objects["derived/" + parent + "/" + leaf].mtime <= now - olderThan ==>
                                       parent in Referenced(s.repo) && Keys.SaysGeneration(leaf)
    ensures var orphans := Orphans(old(s.blobs.objects), old(Referenced(s.repo)), now - olderThan);
            var garbage := AllGarbage(old(s.blobs.objects), old(Referenced(s.repo)) + orphans, now - olderThan, later);
            && (end.Swept? ==>
                  && (old(Referenced(s.repo)) != {} || OnlyBackups(old(s.blobs.objects)))
                  && s.repo.lost == (if orphans == {} then old(s.repo.lost) else old(s.repo.lost)[batch := orphans])
                  && s.blobs.objects == old(s.blobs.objects) - garbage)
            && (end.Failed? ==>
                  && (s.repo.lost == old(s.repo.lost) || s.repo.lost == old(s.repo.lost)[batch := orphans])
                  && LostOnly(old(s.blobs.objects), s.blobs.objects, garbage))
  {
    hide Sound, TreeOk, Orphans, AllGarbage, Candidates, ListsUnder, OnlyBackups, LostOnly, Stores.FileKeys, HeldKeys,
        Garbage, Keys.SaysGeneration;
    ghost var before := s.Now();
    var referenced := ReadKeys(s.repo);
    var cutoff := now - olderThan;
    NothingLost(before.objects);
    var found, ok := s.blobs.List("");
    if !ok { return Failed; }
    var orphans: set<string>, derived: seq<Info>;
    orphans, derived, ok := Look(found, s.blobs.objects, referenced, cutoff);
    if !ok { return EmptyIndex; }
    if orphans != {} {
      s.repo.TrashLost(batch, orphans, later);
    }
    GarbageListed(derived, found, before.objects, referenced + orphans, cutoff, later);
    ok := DeleteGarbage(s, derived, referenced + orphans, cutoff, later);
    GarbageIsSound(before, s.Now(), referenced + orphans, cutoff, later, s.digest);
    if !ok { return Failed; }
    NowHeld(s.repo.trash, old(s.repo.lost), s.repo.lost, batch, orphans);
    LeftAreCurrent(before.objects, s.blobs.objects, referenced + orphans, cutoff, later);
    return Swept;
  }

  lemma NowHeld(trash: map<BatchId, map<string, Row>>, before: map<string, set<string>>,
                after: map<string, set<string>>, batch: string, orphans: set<string>)
    requires batch !in before && after == if orphans == {} then before else before[batch := orphans]
    ensures HeldKeys(trash, after) == HeldKeys(trash, before) + orphans
  {
    var held := HeldKeys(trash, after);
    forall k | k in HeldKeys(trash, before) ensures k in held {
      if b :| b in before && k in before[b] { assert b in after && k in after[b]; }
    }
    forall k | k in orphans ensures k in held { assert batch in after && k in after[batch]; }
  }

  lemma NothingLost(objects: Objects)
    ensures forall garbage :: LostOnly(objects, objects, garbage)
  {
  }

  /** Every key the index names: the files' first and the trash's after. */
  method ReadKeys(r: Repo) returns (referenced: set<string>)
    ensures referenced == Referenced(r)
  {
    hide Stores.FileKeys, HeldKeys;
    referenced := {};
    var keys := r.BlobKeys();
    referenced := AddKeys(referenced, keys);
    keys := r.TrashKeys();
    referenced := AddKeys(referenced, keys);
  }

  method AddKeys(referenced: set<string>, keys: seq<string>) returns (more: set<string>)
    ensures more == referenced + AsSet(keys)
  {
    more := referenced;
    var i := 0;
    while i < |keys|
      invariant i <= |keys| && more == referenced + AsSet(keys[..i])
    {
      AsSetMore(keys[..i], keys[i]);
      assert keys[..i + 1] == keys[..i] + [keys[i]];
      more := more + {keys[i]};
      i := i + 1;
    }
    assert keys[..i] == keys;
  }

  /** The objects of a listing that are someone's derivatives and old enough. */
  ghost predicate Candidates(derived: seq<Info>, found: seq<Info>, n: nat, objects: Objects, cutoff: int)
    requires n <= |found|
  {
    && (forall i :: 0 <= i < |derived| ==>
          Describes(derived[i], objects) && Judgeable(derived[i].key, objects, cutoff) && Derived(derived[i].key))
    && (forall j :: 0 <= j < n && Judgeable(found[j].key, objects, cutoff) && Derived(found[j].key) ==>
        InListing(derived, found[j].key))
  }

  lemma CandidateMore(derived: seq<Info>, found: seq<Info>, n: nat, objects: Objects, cutoff: int)
    requires n < |found| && Candidates(derived, found, n, objects, cutoff) && Describes(found[n], objects)
    ensures var more := if Judgeable(found[n].key, objects, cutoff) && Derived(found[n].key) then derived + [found[n]]
            else derived;
            Candidates(more, found, n + 1, objects, cutoff)
  {
    hide Judgeable, Derived;
    var more := if Judgeable(found[n].key, objects, cutoff) && Derived(found[n].key) then derived + [found[n]]
        else derived;
    forall j | 0 <= j < n + 1 && Judgeable(found[j].key, objects, cutoff) && Derived(found[j].key)
        ensures InListing(more, found[j].key) {
      if j == n {
        assert more[|derived|].key == found[j].key;
      } else {
        assert InListing(derived, found[j].key);
        var i :| 0 <= i < |derived| && derived[i].key == found[j].key;
        assert more[i].key == found[j].key;
      }
    }
  }

  /** The orphans among the first `n` listed. */
  function OrphansAmong(found: seq<Info>, n: nat, objects: Objects, referenced: set<string>, cutoff: int): set<string>
    requires n <= |found|
  {
    set j | 0 <= j < n && Orphan(found[j].key, objects, referenced, cutoff) :: found[j].key
  }

  lemma OrphanMore(found: seq<Info>, n: nat, objects: Objects, referenced: set<string>, cutoff: int)
    requires n < |found|
    ensures OrphansAmong(found, n + 1, objects, referenced, cutoff)
            == OrphansAmong(found, n, objects, referenced, cutoff)
               + (if Orphan(found[n].key, objects, referenced, cutoff) then {found[n].key} else {})
  {
    hide Orphan;
  }

  lemma OrphansAll(found: seq<Info>, objects: Objects, referenced: set<string>, cutoff: int)
    requires ListsUnder(found, objects, "")
    ensures OrphansAmong(found, |found|, objects, referenced, cutoff) == Orphans(objects, referenced, cutoff)
  {
    hide Orphan;
    var among := OrphansAmong(found, |found|, objects, referenced, cutoff);
    forall k | k in objects && Orphan(k, objects, referenced, cutoff) ensures k in among {
      assert "" <= k && InListing(found, k);
      var i :| 0 <= i < |found| && found[i].key == k;
    }
    forall i | 0 <= i < |found| ensures found[i].key in objects { assert Describes(found[i], objects); }
  }

  lemma BackupsAll(found: seq<Info>, objects: Objects)
    requires ListsUnder(found, objects, "")
    ensures OnlyBackups(objects) <==> forall i :: 0 <= i < |found| ==> Keys.BACKUP_PREFIX <= found[i].key
  {
    forall k | k in objects ensures InListing(found, k) { assert "" <= k; }
    forall i | 0 <= i < |found| ensures found[i].key in objects { assert Describes(found[i], objects); }
  }

  /** Looks at everything listed and decides nothing yet; an index with no rows
      against a store with anything but backups in it stops the pass. */
  method Look(found: seq<Info>, objects: Objects, referenced: set<string>, cutoff: int)
    returns (orphans: set<string>, derived: seq<Info>, ok: bool)
    requires ListsUnder(found, objects, "")
    ensures ok <==> referenced != {} || OnlyBackups(objects)
    ensures ok ==> orphans == Orphans(objects, referenced, cutoff)
    ensures ok ==> Candidates(derived, found, |found|, objects, cutoff)
  {
    hide Keys.ParentOf, Candidates, OrphansAmong, Orphans, OnlyBackups;
    orphans, derived := {}, [];
    var i := 0;
    BackupsAll(found, objects);
    StartLooking(found, objects, referenced, cutoff);
    while i < |found|
      invariant i <= |found|
      invariant referenced != {} || forall j :: 0 <= j < i ==> Keys.BACKUP_PREFIX <= found[j].key
      invariant Candidates(derived, found, i, objects, cutoff)
      invariant orphans == OrphansAmong(found, i, objects, referenced, cutoff)
    {
      var info := found[i];
      assert Describes(info, objects);
      CandidateMore(derived, found, i, objects, cutoff);
      OrphanMore(found, i, objects, referenced, cutoff);
      i := i + 1;
      if Keys.BACKUP_PREFIX <= info.key { continue; }
      if referenced == {} { return {}, [], false; }
      if info.mtime > cutoff { continue; }
      var of := Keys.ParentOf(info.key);
      if of.derived {
        if of.parent != "" { derived := derived + [info]; }
      } else if info.key !in referenced {
        orphans := orphans + {info.key};
      }
    }
    ok := true;
    OrphansAll(found, objects, referenced, cutoff);
  }

  lemma StartLooking(found: seq<Info>, objects: Objects, referenced: set<string>, cutoff: int)
    ensures Candidates([], found, 0, objects, cutoff) && OrphansAmong(found, 0, objects, referenced, cutoff) == {}
  {
  }

  /** The garbage among the first `n` candidates. */
  ghost function GarbageAmong(derived: seq<Info>, n: nat, objects: Objects, kept: set<string>, cutoff: int,
                              now: int): set<string>
    requires n <= |derived|
  {
    set j | 0 <= j < n && Garbage(derived[j].key, objects, kept, cutoff, now) :: derived[j].key
  }

  lemma GarbageMore(derived: seq<Info>, n: nat, objects: Objects, kept: set<string>, cutoff: int, now: int)
    requires n < |derived|
    ensures GarbageAmong(derived, n + 1, objects, kept, cutoff, now)
            == GarbageAmong(derived, n, objects, kept, cutoff, now)
               + (if Garbage(derived[n].key, objects, kept, cutoff, now) then {derived[n].key} else {})
  {
    hide Garbage;
  }

  /** Every piece of garbage is among the candidates. */
  lemma GarbageListed(derived: seq<Info>, found: seq<Info>, objects: Objects, kept: set<string>, cutoff: int, now: int)
    requires ListsUnder(found, objects, "") && Candidates(derived, found, |found|, objects, cutoff)
    ensures GarbageAmong(derived, |derived|, objects, kept, cutoff, now) == AllGarbage(objects, kept, cutoff, now)
    ensures forall i :: 0 <= i < |derived| ==>
              Describes(derived[i], objects) && Judgeable(derived[i].key, objects, cutoff) && Derived(derived[i].key)
  {
    hide Keys.ParentOf, Keys.StaleGeneration, Keys.Cached;
    var among := GarbageAmong(derived, |derived|, objects, kept, cutoff, now);
    forall k | k in objects && Garbage(k, objects, kept, cutoff, now) ensures k in among {
      assert "" <= k && InListing(found, k);
      var i :| 0 <= i < |found| && found[i].key == k;
      assert InListing(derived, k);
      var j :| 0 <= j < |derived| && derived[j].key == k;
    }
    forall i | 0 <= i < |derived| ensures derived[i].key in objects { assert Describes(derived[i], objects); }
  }

  /** Destroys the garbage among the candidates, until a delete fails. */
  method DeleteGarbage(s: Service, derived: seq<Info>, kept: set<string>, cutoff: int, later: int) returns (ok: bool)
    requires forall i :: 0 <= i < |derived| ==>
               Describes(derived[i], s.blobs.objects) && Judgeable(derived[i].key, s.blobs.objects, cutoff)
                   && Derived(derived[i].key)
    modifies s.blobs
    ensures LostOnly(old(s.blobs.objects), s.blobs.objects,
                     GarbageAmong(derived, |derived|, old(s.blobs.objects), kept, cutoff, later))
    ensures ok ==> s.blobs.objects == old(s.blobs.objects)
                     - GarbageAmong(derived, |derived|, old(s.blobs.objects), kept, cutoff, later)
  {
    hide Keys.ParentOf, Keys.StaleGeneration, Keys.Cached, GarbageAmong;
    ghost var before := s.blobs.objects;
    ok := true;
    var i := 0;
    GarbageNone(derived, before, kept, cutoff, later);
    while i < |derived|
      invariant i <= |derived|
      invariant s.blobs.objects == before - GarbageAmong(derived, i, before, kept, cutoff, later)
    {
      var info := derived[i];
      assert Describes(info, before);
      GarbageMore(derived, i, before, kept, cutoff, later);
      GarbageFewer(derived, i + 1, before, kept, cutoff, later);
      var live := Keys.ParentOf(info.key).parent in kept;
      var stale := Keys.StaleGeneration(info.key);
      var expired := Keys.Cached(info.key) && later - info.mtime > CACHE_RETENTION;
      if !live || stale || expired {
        ok := s.blobs.Delete(info.key);
        if !ok { return; }
      }
      i := i + 1;
    }
  }

  lemma GarbageNone(derived: seq<Info>, objects: Objects, kept: set<string>, cutoff: int, now: int)
    ensures objects - GarbageAmong(derived, 0, objects, kept, cutoff, now) == objects
  {
    assert GarbageAmong(derived, 0, objects, kept, cutoff, now) == {};
    assert objects - {} == objects;
  }

  lemma GarbageFewer(derived: seq<Info>, n: nat, objects: Objects, kept: set<string>, cutoff: int, now: int)
    requires n <= |derived|
    ensures GarbageAmong(derived, n, objects, kept, cutoff, now)
            <= GarbageAmong(derived, |derived|, objects, kept, cutoff, now)
  {
    hide Garbage;
  }

  /** Only what was derived goes, so no row loses its bytes. */
  lemma GarbageIsSound(before: Books, after: Books, kept: set<string>, cutoff: int, now: int, digest: string -> string)
    requires Sound(before, digest) && after.files == before.files && after.trash == before.trash
    requires LostOnly(before.objects, after.objects, AllGarbage(before.objects, kept, cutoff, now))
    ensures Sound(after, digest)
  {
    hide Keys.StaleGeneration, Keys.Cached;
    forall h, row | Filed(after, h, row) && row.key in before.objects ensures row.key in after.objects {
      assert Filed(before, h, row);
    }
    CarriedIsSound(before, after, h => h, {}, digest);
  }
}
