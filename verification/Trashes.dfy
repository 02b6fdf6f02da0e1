/** internal/files/trash.go and adopt.go: deletions put back or destroyed, and rows
    made for blobs that are already there. */
module Trashes {
  import opened Text
  import opened Paths
  import opened Tree
  import opened Repository
  import opened Blobs
  import opened Files
  import Keys
  import Restores
  import Stores

  /** The first free name: the one asked for, or it with a number beside it. */
  method FreeName(r: Repo, owner: string, target: string) returns (free: Result<string>)
    ensures free == Tree.FreeName(r.files, owner, target, 1)
  {
    hide CopyName, ValidPath;
    var n := 1;
    while n <= MAX_COPIES
      invariant 1 <= n <= MAX_COPIES + 1
      invariant Tree.FreeName(r.files, owner, target, 1) == Tree.FreeName(r.files, owner, target, n)
    {
      var candidate := CopyName(target, n);
      var taken := r.FileByPath(Loc(owner, candidate));
      if taken == Err(NotFound) { return Ok(candidate); }
      if taken.Err? { return Err(taken.error); }
      n := n + 1;
    }
    return Err(Conflict);
  }

  /** Makes the directories missing above a path; a refusal may leave some made,
      for the transaction around it to undo. */
  method RestoreParents(r: Repo, owner: string, target: string) returns (failed: Option<Error>)
    modifies r`files
    ensures failed == Refusal(Tree.RestoreParents(old(r.files), owner, target))
    ensures failed.None? ==> Ok(r.files) == Tree.RestoreParents(old(r.files), owner, target)
    decreases |target|
  {
    hide ValidPath;
    var parent := ParentOf(target);
    if parent == "" { return None; }
    var f := r.FileByPath(Loc(owner, parent));
    if f.Ok? { return if f.value.Dir? then None else Some(Conflict); }
    if f.error != NotFound { return Some(f.error); }
    failed := RestoreParents(r, owner, parent);
    if failed.Some? { return; }
    failed := r.CreateDir(Loc(owner, parent));
  }

  function PathsOf(rows: seq<Planned>): (paths: seq<string>)
    ensures |paths| == |rows| && forall i :: 0 <= i < |rows| ==> paths[i] == rows[i].path
  {
    seq(|rows|, i requires 0 <= i < |rows| => rows[i].path)
  }

  lemma PathsInOrder(rows: seq<Planned>, tree: map<string, Row>)
    requires InPathOrder(rows, tree)
    ensures PathsOf(rows) == PathOrder(tree.Keys)
  {
    forall i | 0 <= i < |rows| ensures PathsOf(rows)[i] == PathOrder(tree.Keys)[i] {
      assert IsRow(rows[i], PathOrder(tree.Keys)[i], tree);
    }
  }

  lemma {:induction false} PutBackKeeps(rows: Rows, owner: string, order: seq<string>, tree: map<string, Row>,
                                        from: string, to: string)
    requires forall p :: p in order ==> p in tree
    requires PutBack(rows, owner, order, tree, from, to).Ok?
    ensures forall l :: l in rows ==> l in PutBack(rows, owner, order, tree, from, to).value
    ensures order != [] ==>
              Loc(owner, to + TrimPrefix(order[0], from)) in PutBack(rows, owner, order, tree, from, to).value
    decreases |order|
  {
    hide ValidPath, TrimPrefix;
    if order == [] {
    } else {
      var l := Loc(owner, to + TrimPrefix(order[0], from));
      PutBackKeeps(rows[l := tree[order[0]]], owner, order[1..], tree, from, to);
    }
  }

  /** A deletion put back under the first free name, whole or not at all. */
  method Restore(s: Service, owner: string, batch: string) returns (root: Result<string>)
    requires s.Valid()
    modifies s.repo`files, s.repo`trash
    ensures s.Valid()
    ensures owner == "" ==> root == Err(Conflict)
    ensures var id := BatchId.BatchId(owner, batch);
            var restored := Tree.Restore(old(s.repo.files), owner, old(s.repo.Deleted(id)));
            owner != "" ==>
              && Refusal(root) == Refusal(restored)
              && (root.Ok? ==> root.value == restored.value.to && s.repo.files == restored.value.rows
                               && s.repo.trash == old(s.repo.trash) - {id})
    ensures root.Err? ==> s.repo.files == old(s.repo.files) && s.repo.trash == old(s.repo.trash)
  {
    hide Sound, TreeOk, ValidPath, CopyName, Restores.Deletion, PathOrder, TrimPrefix;
    if owner == "" { return Err(Conflict); }
    ghost var before := s.Now();
    var id := BatchId.BatchId(owner, batch);
    var files := s.repo.files;
    ghost var tree := s.repo.Deleted(id);
    var rows := s.repo.TrashedIn(id);
    PathsInOrder(rows, tree);
    if |rows| == 0 { return Err(NotFound); }
    assert rows[0].path == PathsOf(rows)[0] && id in before.trash;
    var from := rows[0].path;
    var free := FreeName(s.repo, owner, from);
    if free.Err? { return Err(free.error); }
    var to := free.value;
    var failed := RestoreParents(s.repo, owner, to);
    if failed.Some? { s.repo.files := files; return Err(failed.value); }
    failed := PutRowsBack(s.repo, owner, rows, tree, from, to);
    if failed.Some? { s.repo.files := files; return Err(failed.value); }
    s.repo.DeleteTrash(id);
    RestoredIsSound(before, s.Now(), id, to, s.digest);
    return Ok(to);
  }

  /** The rows of a deletion made again, one after another. */
  method PutRowsBack(r: Repo, owner: string, rows: seq<Planned>, ghost tree: map<string, Row>, from: string, to: string)
    returns (failed: Option<Error>)
    requires InPathOrder(rows, tree) && PathsOf(rows) == PathOrder(tree.Keys)
    modifies r`files
    ensures failed == Refusal(PutBack(old(r.files), owner, PathOrder(tree.Keys), tree, from, to))
    ensures failed.None? ==> Ok(r.files) == PutBack(old(r.files), owner, PathOrder(tree.Keys), tree, from, to)
  {
    hide ValidPath, PathOrder, TrimPrefix;
    ghost var order := PathOrder(tree.Keys);
    ghost var before := r.files;
    failed := None;
    assert order[0..] == order;
    var i := 0;
    while i < |rows|
      invariant i <= |rows| == |order| && failed.None?
      invariant PutBack(before, owner, order, tree, from, to) == PutBack(r.files, owner, order[i..], tree, from, to)
    {
      assert IsRow(rows[i], order[i], tree);
      assert order[i..][0] == order[i] && order[i..][1..] == order[i + 1..];
      var l := Loc(owner, to + TrimPrefix(rows[i].path, from));
      if rows[i].row.Dir? {
        failed := r.CreateDir(l);
      } else {
        failed := r.PutFile(l, rows[i].row);
      }
      if failed.Some? { return; }
      i := i + 1;
    }
    assert order[i..] == [];
  }

  lemma RestoredIsSound(before: Books, after: Books, id: BatchId, to: string, digest: string -> string)
    requires Sound(before, digest) && TreeOk(before.files) && DeletionsOk(before.trash) && id in before.trash
    requires Tree.Restore(before.files, id.owner, before.trash[id]) == Ok(Restored(after.files, to))
    requires after.trash == before.trash - {id} && after.objects == before.objects
    ensures Sound(after, digest) && TreeOk(after.files) && DeletionsOk(after.trash)
    ensures ValidPath(to)
  {
    hide Sound, TreeOk, ValidPath, CopyName, Restores.Deletion, PathOrder, Tree.RestoreParents, Tree.FreeName,
        Tree.Restore, Renamed;
    var root :| Restores.Deletion(before.trash[id], root);
    Restores.RestoreIs(before.files, id.owner, before.trash[id], root);
    PutBackIsSound(before, after, id, root, Restored(after.files, to), digest);
  }

  lemma PutBackIsSound(before: Books, after: Books, id: BatchId, root: string, r: Restored, digest: string -> string)
    requires Sound(before, digest) && id in before.trash && Restores.RestoredAt(before.files, id.owner,
             before.trash[id], root, r)
    requires after.files == r.rows && after.trash == before.trash - {id} && after.objects == before.objects
    ensures Sound(after, digest)
  {
    hide Renamed, AtOrUnder, Rebase, Tree.RestoreParents, ValidPath, Climbs, OneEach, Faithful;
    var tree := before.trash[id];
    var back := Renamed(tree, id.owner, root, r.to);
    var origin := (h: Stores.Holder) =>
      if h.AtRow? && h.l in back && AtOrUnder(h.l.path, r.to) then Stores.AtTrash(id, Rebase(h.l.path, r.to, root))
          else h;
    RenamedFacts(tree, id.owner, root, r.to);
    CarriedIsSound(before, after, origin, {}, digest);
  }

  // ----- For good

  /** Nothing is left of the blobs the first `n` rows name, nor of what was made from them. */
  ghost predicate AllGone(rows: seq<Planned>, n: nat, objects: Objects)
    requires n <= |rows|
  {
    forall i, k :: 0 <= i < n && rows[i].row.File? && BelongsTo(k, rows[i].row.key) ==> k !in objects
  }

  /** Drops every blob named, until one cannot be. */
  method DropAll(s: Service, rows: seq<Planned>) returns (files: nat, ok: bool, ghost drops: string -> bool)
    modifies s.blobs
    ensures ok <==> forall k :: k in KeysIn(rows) ==> drops(k)
    ensures DropsOnly(old(s.blobs.objects), s.blobs.objects, KeysIn(rows))
    ensures ok ==> AllGone(rows, |rows|, s.blobs.objects)
  {
    hide DropsOnly;
    files, ok, drops := 0, true, _ => true;
    ghost var before := s.blobs.objects;
    NothingDropped(before, KeysIn(rows[..0]));
    var i := 0;
    while i < |rows|
      invariant i <= |rows| && DropsOnly(before, s.blobs.objects, KeysIn(rows[..i]))
      invariant forall k :: k in s.blobs.objects ==> k in before
      invariant AllGone(rows, i, s.blobs.objects)
    {
      KeysOfNext(rows, i);
      ghost var sofar := s.blobs.objects;
      if rows[i].row.File? {
        ok := s.DropBlob(rows[i].row.key);
        DropsCompose(before, sofar, s.blobs.objects, KeysIn(rows[..i]), {rows[i].row.key});
        DropsShrink(sofar, s.blobs.objects, {rows[i].row.key});
        if !ok {
          KeysOfAll(rows, i + 1);
          DropsAtMost(before, s.blobs.objects, KeysIn(rows[..i + 1]), KeysIn(rows));
          ghost var stuck := rows[i].row.key;
          assert stuck in KeysIn(rows);
          drops := k => k != stuck;
          return;
        }
        files := files + 1;
      } else {
        assert KeysIn(rows[..i + 1]) == KeysIn(rows[..i]);
      }
      i := i + 1;
    }
    assert rows[..i] == rows;
  }

  lemma NothingDropped(objects: Objects, keys: set<string>)
    ensures DropsOnly(objects, objects, keys)
  {
  }

  lemma DropsShrink(before: Objects, after: Objects, keys: set<string>)
    requires DropsOnly(before, after, keys)
    ensures forall k :: k in after ==> k in before && after[k] == before[k]
  {
  }

  function KeysIn(rows: seq<Planned>): set<string> {
    set i | 0 <= i < |rows| && rows[i].row.File? :: rows[i].row.key
  }

  lemma KeysOfNext(rows: seq<Planned>, i: nat)
    requires i < |rows|
    ensures KeysIn(rows[..i + 1]) == KeysIn(rows[..i]) + (if rows[i].row.File? then {rows[i].row.key} else {})
  {
    var more, fewer := rows[..i + 1], rows[..i];
    assert forall j :: 0 <= j < i ==> more[j] == fewer[j];
    assert more[i] == rows[i];
    forall k | k in KeysIn(fewer) ensures k in KeysIn(more) {
      var j :| 0 <= j < |fewer| && fewer[j].row.File? && fewer[j].row.key == k;
      assert more[j].row.key == k;
    }
    if rows[i].row.File? { assert more[i].row.key in KeysIn(more); }
    forall k | k in KeysIn(more) ensures k in KeysIn(fewer) || (rows[i].row.File? && k == rows[i].row.key) {
      var j :| 0 <= j < |more| && more[j].row.File? && more[j].row.key == k;
      if j < i { assert fewer[j].row.key in KeysIn(fewer); }
    }
  }

  lemma KeysOfAll(rows: seq<Planned>, i: nat)
    requires i <= |rows|
    ensures KeysIn(rows[..i]) <= KeysIn(rows)
  {
    forall k | k in KeysIn(rows[..i]) ensures k in KeysIn(rows) {
      var j :| 0 <= j < i && rows[..i][j].row.File? && rows[..i][j].row.key == k;
      assert rows[j].row.key == k;
    }
  }

  /** No row names any of some keys. */
  ghost predicate NobodyNames(b: Books, keys: set<string>) {
    forall h, row :: Filed(b, h, row) ==> row.key !in keys
  }

  /** What the sweep took nobody names. */
  ghost predicate LostAreNobodys(s: Service)
    reads s.repo, s.blobs
  {
    forall batch :: batch in s.repo.lost ==> NobodyNames(s.Now(), s.repo.lost[batch])
  }

  /** The blobs of a deletion; one without an owner is the sweep's. */
  function BatchKeys(trash: map<BatchId, map<string, Row>>, lost: map<string, set<string>>, id: BatchId): set<string> {
    (if id in trash then Stores.KeysOf(trash[id]) else {})
    + (if id.owner == "" && id.name in lost then lost[id.name] else {})
  }

  /** What is left of the sweep's batches once a deletion is destroyed. */
  function LostBut(lost: map<string, set<string>>, id: BatchId): map<string, set<string>> {
    if id.owner == "" then lost - {id.name} else lost
  }

  /** The transaction: what a deletion holds, and the deletion gone. */
  method TakeBatch(r: Repo, id: BatchId) returns (rows: seq<Planned>)
    modifies r`trash, r`lost
    ensures r.trash == old(r.trash) - {id} && r.lost == LostBut(old(r.lost), id)
    ensures KeysIn(rows) == BatchKeys(old(r.trash), old(r.lost), id)
  {
    hide PathOrder, KeysIn, Stores.KeysOf;
    NoKeys();
    ghost var tree, taken := r.Deleted(id), r.Lost(id.name);
    rows := r.TrashedIn(id);
    KeysInOrder(rows, tree);
    if id.owner == "" {
      var more := r.LostIn(id.name);
      LostKeysAre(more, taken);
      KeysTogether(rows, more);
      rows := rows + more;
      r.DeleteLost(id.name);
    }
    r.DeleteTrash(id);
  }

  /** What destroying a deletion that has an owner leaves of both stores. */
  ghost predicate Destroyed(before: Books, after: Books, id: BatchId) {
    && after.files == before.files && after.trash == before.trash - {id}
    && DropsOnly(before.objects, after.objects, if id in before.trash then Stores.KeysOf(before.trash[id]) else {})
  }

  /** A deletion gone for good: its rows first, then its bytes and what was made
      from them. A batch that is not there is nothing to do. */
  method DestroyTrashed(s: Service, owner: string, batch: string) returns (files: nat, ok: bool)
    modifies s.repo`trash, s.repo`lost, s.blobs
    ensures old(s.Valid() && LostAreNobodys(s)) ==> s.Valid() && LostAreNobodys(s)
    ensures var id := BatchId.BatchId(owner, batch);
            var keys := BatchKeys(old(s.repo.trash), old(s.repo.lost), id);
            && s.repo.trash == old(s.repo.trash) - {id} && s.repo.lost == LostBut(old(s.repo.lost), id)
            && DropsOnly(old(s.blobs.objects), s.blobs.objects, keys)
            && (ok ==> forall k, d :: d in keys && BelongsTo(k, d) ==> k !in s.blobs.objects)
    ensures owner != "" ==> Destroyed(old(s.Now()), s.Now(), BatchId.BatchId(owner, batch))
  {
    hide Sound, TreeOk, Restores.Deletion, PathOrder, DropsOnly, KeysIn, BatchKeys, NobodyNames, BelongsTo;
    ghost var before, lost := s.Now(), s.repo.lost;
    ghost var valid := s.Valid() && LostAreNobodys(s);
    var id := BatchId.BatchId(owner, batch);
    var rows := TakeBatch(s.repo, id);
    ghost var drops;
    files, ok, drops := DropAll(s, rows);
    if ok { AllBelongings(rows, s.blobs.objects); }
    if owner != "" { OwnedKeys(before.trash, lost, id); }
    if valid {
      BatchIsSound(before, lost, s.Now(), id, s.digest);
      StillNobodys(before, s.Now());
    }
  }

  lemma OwnedKeys(trash: map<BatchId, map<string, Row>>, lost: map<string, set<string>>, id: BatchId)
    requires id.owner != ""
    ensures BatchKeys(trash, lost, id) == if id in trash then Stores.KeysOf(trash[id]) else {}
  {
  }

  lemma BatchIsSound(before: Books, lost: map<string, set<string>>, after: Books, id: BatchId, digest: string -> string)
    requires Sound(before, digest) && forall batch :: batch in lost ==> NobodyNames(before, lost[batch])
    requires after.files == before.files && after.trash == before.trash - {id}
    requires DropsOnly(before.objects, after.objects, BatchKeys(before.trash, lost, id))
    ensures Sound(after, digest)
  {
    hide Sound, DropsOnly;
    NoKeys();
    var tree := if id in before.trash then before.trash[id] else map[];
    var taken := if id.owner == "" && id.name in lost then lost[id.name] else {};
    assert BatchKeys(before.trash, lost, id) == Stores.KeysOf(tree) + taken;
    DestroyedIsSound(before, after, id, tree, taken, digest);
  }

  lemma NoKeys()
    ensures Stores.KeysOf(map[]) == {}
  {
  }

  lemma LostKeysAre(rows: seq<Planned>, keys: set<string>)
    requires forall i :: 0 <= i < |rows| ==> rows[i].row.File? && rows[i].row.key in keys
    requires forall k :: k in keys ==> HasKey(rows, k)
    ensures KeysIn(rows) == keys
  {
    forall k | k in keys ensures k in KeysIn(rows) { assert HasKey(rows, k); }
  }

  lemma KeysTogether(rows: seq<Planned>, more: seq<Planned>)
    ensures KeysIn(rows + more) == KeysIn(rows) + KeysIn(more)
  {
    var all := rows + more;
    forall k | k in KeysIn(rows) || k in KeysIn(more) ensures k in KeysIn(all) {
      if i :| 0 <= i < |rows| && rows[i].row.File? && rows[i].row.key == k {
        assert all[i].row.key == k;
      } else {
        var i :| 0 <= i < |more| && more[i].row.File? && more[i].row.key == k;
        assert all[|rows| + i].row.key == k;
      }
    }
    forall k | k in KeysIn(all) ensures k in KeysIn(rows) || k in KeysIn(more) {
      var i :| 0 <= i < |all| && all[i].row.File? && all[i].row.key == k;
      assert i >= |rows| ==> more[i - |rows|].row.key == k;
    }
  }

  lemma AllBelongings(rows: seq<Planned>, objects: Objects)
    requires AllGone(rows, |rows|, objects)
    ensures forall k, d :: d in KeysIn(rows) && BelongsTo(k, d) ==> k !in objects
  {
    forall k, d | d in KeysIn(rows) && BelongsTo(k, d) ensures k !in objects {
      var i :| 0 <= i < |rows| && rows[i].row.File? && rows[i].row.key == d;
      assert BelongsTo(k, rows[i].row.key);
    }
  }

  /** Fewer rows name no more. */
  lemma StillNobodys(before: Books, after: Books)
    requires after.files == before.files && (forall id :: id in after.trash ==>
             id in before.trash && after.trash[id] == before.trash[id])
    ensures forall keys :: NobodyNames(before, keys) ==> NobodyNames(after, keys)
  {
    forall keys, h, row | NobodyNames(before, keys) && Filed(after, h, row) ensures row.key !in keys {
      assert Filed(before, h, row);
    }
  }

  lemma KeysInOrder(rows: seq<Planned>, tree: map<string, Row>)
    requires InPathOrder(rows, tree)
    ensures KeysIn(rows) == Stores.KeysOf(tree)
  {
    hide PathOrder;
    var order := PathOrder(tree.Keys);
    forall k | k in KeysIn(rows) ensures k in Stores.KeysOf(tree) {
      var i :| 0 <= i < |rows| && rows[i].row.File? && rows[i].row.key == k;
      assert IsRow(rows[i], order[i], tree);
    }
    forall k | k in Stores.KeysOf(tree) ensures k in KeysIn(rows) {
      var p :| p in tree && tree[p].File? && tree[p].key == k;
      assert p in order;
      var i :| 0 <= i < |order| && order[i] == p;
      assert IsRow(rows[i], order[i], tree);
    }
  }

  lemma DestroyedIsSound(before: Books, after: Books, id: BatchId, tree: map<string, Row>, taken: set<string>,
                         digest: string -> string)
    requires Sound(before, digest) && NobodyNames(before, taken)
    requires tree == (if id in before.trash then before.trash[id] else map[])
    requires after.files == before.files && after.trash == before.trash - {id}
    requires DropsOnly(before.objects, after.objects, Stores.KeysOf(tree) + taken)
    ensures Sound(after, digest)
  {
    hide DropsOnly;
    forall h, row | Filed(after, h, row) && row.key in before.objects
      ensures row.key in after.objects && after.objects[row.key] == before.objects[row.key]
    {
      assert Filed(before, h, row);
      KeptApart(before, id, tree, h, row);
      DropSpares(before.objects, after.objects, Stores.KeysOf(tree) + taken, row.key);
    }
    CarriedIsSound(before, after, h => h, {}, digest);
  }

  /** What is not in a deletion names none of its blobs. */
  lemma KeptApart(b: Books, id: BatchId, tree: map<string, Row>, h: Stores.Holder, row: Row)
    requires OneEach(b) && tree == (if id in b.trash then b.trash[id] else map[])
    requires Filed(b, h, row) && (h.AtTrash? ==> h.id != id)
    ensures row.key !in Stores.KeysOf(tree)
  {
    forall p | p in tree && tree[p].File? ensures tree[p].key != row.key {
      assert Filed(b, Stores.AtTrash(id, p), tree[p]);
    }
  }

  /** Deletions by name, which a pass goes on to. */
  ghost predicate OwnersOf(owners: map<string, string>, expired: seq<BatchId>, n: nat)
    requires n <= |expired|
  {
    && (forall name :: name in owners ==> BatchId.BatchId(owners[name], name) in expired)
    && (forall i :: 0 <= i < n ==> expired[i].name in owners)
  }

  /** The owner of each deletion by its name, a later one winning: the names are drawn
      at random, and no two deletions have one. */
  method ByName(expired: seq<BatchId>) returns (owners: map<string, string>)
    ensures OwnersOf(owners, expired, |expired|)
  {
    owners := map[];
    for i := 0 to |expired|
      invariant OwnersOf(owners, expired, i)
    {
      owners := owners[expired[i].name := expired[i].owner];
    }
  }

  /** The blobs of some deletions. */
  function AllKeys(trash: map<BatchId, map<string, Row>>, lost: map<string, set<string>>,
                   ids: set<BatchId>): set<string> {
    set id, k | id in ids && k in BatchKeys(trash, lost, id) :: k
  }

  /** What is left of the trash once some deletions are destroyed. */
  ghost predicate LeftOf(trash: map<BatchId, map<string, Row>>, lost: map<string, set<string>>, gone: set<BatchId>,
                         trashNow: map<BatchId, map<string, Row>>, lostNow: map<string, set<string>>) {
    && trashNow == trash - gone
    && (forall b :: b in lostNow <==> b in lost && BatchId.BatchId("", b) !in gone)
    && (forall b :: b in lostNow ==> lostNow[b] == lost[b])
  }

  lemma LeftAfter(trash: map<BatchId, map<string, Row>>, lost: map<string, set<string>>, gone: set<BatchId>,
                  trashNow: map<BatchId, map<string, Row>>, lostNow: map<string, set<string>>, id: BatchId)
    requires LeftOf(trash, lost, gone, trashNow, lostNow)
    ensures LeftOf(trash, lost, gone + {id}, trashNow - {id}, LostBut(lostNow, id))
    ensures AllKeys(trash, lost, gone) + BatchKeys(trashNow, lostNow, id) <= AllKeys(trash, lost, gone + {id})
  {
    hide Stores.KeysOf;
    assert id in gone + {id} && BatchKeys(trashNow, lostNow, id) <= BatchKeys(trash, lost, id);
    forall k | k in BatchKeys(trash, lost, id) ensures k in AllKeys(trash, lost, gone + {id}) {}
    forall k | k in AllKeys(trash, lost, gone) ensures k in AllKeys(trash, lost, gone + {id}) {
      var other :| other in gone && k in BatchKeys(trash, lost, other);
      assert other in gone + {id};
    }
  }

  lemma NothingGone(trash: map<BatchId, map<string, Row>>, lost: map<string, set<string>>)
    ensures LeftOf(trash, lost, {}, trash, lost)
  {
  }

  /** Whether every deletion old enough has a name of its own. */
  ghost predicate NamesApart(r: Repo, before: int)
    reads r
  {
    forall id, other :: r.Expired(id, before) && r.Expired(other, before) && id.name == other.name ==> id == other
  }

  /** When each has a name of its own, going through the names is going through them. */
  lemma AllGoneOver(owners: map<string, string>, expired: seq<BatchId>, gone: set<BatchId>)
    requires OwnersOf(owners, expired, |expired|)
    requires forall id, other :: id in expired && other in expired && id.name == other.name ==> id == other
    requires forall name :: name in owners ==> BatchId.BatchId(owners[name], name) in gone
    ensures forall id :: id in expired ==> id in gone
  {
    forall id | id in expired ensures id in gone {
      var i :| 0 <= i < |expired| && expired[i] == id;
      assert BatchId.BatchId(owners[id.name], id.name) in expired;
    }
  }

  /** Destroys every deletion old enough, the sweep's among them, whole ones one at a
      time until the store gives out: those in `gone`, and nothing else. */
  method EmptyTrash(s: Service, before: int) returns (batches: nat, ok: bool, ghost gone: set<BatchId>)
    modifies s.repo`trash, s.repo`lost, s.blobs
    ensures old(s.Valid() && LostAreNobodys(s)) ==> s.Valid() && LostAreNobodys(s)
    ensures LeftOf(old(s.repo.trash), old(s.repo.lost), gone, s.repo.trash, s.repo.lost) && batches == |gone|
    ensures DropsOnly(old(s.blobs.objects), s.blobs.objects, AllKeys(old(s.repo.trash), old(s.repo.lost), gone))
    ensures forall id :: id in gone ==> old(s.repo.Expired(id, before))
    ensures ok && old(NamesApart(s.repo, before)) ==> forall id :: old(s.repo.Expired(id, before)) ==> id in gone
  {
    hide Sound, TreeOk, Restores.Deletion, DropsOnly, LeftOf, BatchKeys, AllKeys, NobodyNames, Repo.Expired;
    batches, ok, gone := 0, true, {};
    var expired := s.repo.ExpiredTrash(before);
    var owners := ByName(expired);
    var left := owners.Keys;
    NothingGone(s.repo.trash, s.repo.lost);
    NothingDropped(s.blobs.objects, AllKeys(s.repo.trash, s.repo.lost, gone));
    while left != {}
      invariant left <= owners.Keys && batches == |gone|
      invariant forall id :: id in gone ==> id in expired && id.name in owners && id.name !in left
      invariant forall name :: name in owners && name !in left ==> BatchId.BatchId(owners[name], name) in gone
      invariant old(s.Valid() && LostAreNobodys(s)) ==> s.Valid() && LostAreNobodys(s)
      invariant LeftOf(old(s.repo.trash), old(s.repo.lost), gone, s.repo.trash, s.repo.lost)
      invariant DropsOnly(old(s.blobs.objects), s.blobs.objects, AllKeys(old(s.repo.trash), old(s.repo.lost), gone))
      decreases |left|
    {
      var name :| name in left;
      var id := BatchId.BatchId(owners[name], name);
      assert id !in gone;
      ghost var sofar, keys := s.blobs.objects, BatchKeys(s.repo.trash, s.repo.lost, id);
      LeftAfter(old(s.repo.trash), old(s.repo.lost), gone, s.repo.trash, s.repo.lost, id);
      var _, destroyed := DestroyTrashed(s, owners[name], name);
      ghost var all := AllKeys(old(s.repo.trash), old(s.repo.lost), gone);
      DropsCompose(old(s.blobs.objects), sofar, s.blobs.objects, all, keys);
      DropsAtMost(old(s.blobs.objects), s.blobs.objects, all + keys,
          AllKeys(old(s.repo.trash), old(s.repo.lost), gone + {id}));
      left, batches, gone := left - {name}, batches + 1, gone + {id};
      if !destroyed { return batches, false, gone; }
    }
    if old(NamesApart(s.repo, before)) { AllGoneOver(owners, expired, gone); }
  }

  // ----- Rows for blobs that are already there

  /** An import: each row in turn, a taken path skipped; all of them or none. */
  method Adopt(s: Service, owner: string, items: seq<Planned>)
      returns (adopted: nat, skipped: nat, failed: Option<Error>)
    requires TreeOk(s.repo.files)
    modifies s.repo`files
    ensures TreeOk(s.repo.files)
    ensures failed == if owner == "" then Some(Conflict) else Refusal(AdoptAll(old(s.repo.files), owner, items))
    ensures s.repo.files == if failed.None? then AdoptAll(old(s.repo.files), owner, items).value else old(s.repo.files)
    ensures failed.None? ==> adopted + skipped == |items|
    ensures failed.None? && (forall i :: 0 <= i < |items| ==> Loc(owner, items[i].path) in old(s.repo.files)) ==>
              skipped == |items| && s.repo.files == old(s.repo.files)
  {
    hide TreeOk, ValidPath, Tree.RestoreParents;
    adopted, skipped, failed := 0, 0, None;
    if owner == "" { return 0, 0, Some(Conflict); }
    var before := s.repo.files;
    assert items[0..] == items;
    var i := 0;
    while i < |items|
      invariant i <= |items| && adopted + skipped == i && failed.None?
      invariant AdoptAll(before, owner, items) == AdoptAll(s.repo.files, owner, items[i..])
      invariant (forall j :: 0 <= j < i ==> Loc(owner, items[j].path) in before) ==>
                skipped == i && s.repo.files == before
    {
      assert items[i..][0] == items[i] && items[i..][1..] == items[i + 1..];
      var made;
      made, failed := AdoptRow(s.repo, owner, items[i]);
      if failed.Some? {
        s.repo.files := before;
        return 0, 0, failed;
      }
      if made { adopted := adopted + 1; } else { skipped := skipped + 1; }
      i := i + 1;
    }
    assert items[i..] == [];
    Restores.AdoptKeepsTree(before, owner, items);
  }

  method AdoptRow(r: Repo, owner: string, item: Planned) returns (made: bool, failed: Option<Error>)
    modifies r`files
    ensures failed == Refusal(AdoptOne(old(r.files), owner, item))
    ensures failed.None? ==> Ok((r.files, made)) == AdoptOne(old(r.files), owner, item)
  {
    hide ValidPath, Tree.RestoreParents;
    made, failed := false, None;
    if !ValidPath(item.path) { return false, Some(InvalidPath); }
    var f := r.FileByPath(Loc(owner, item.path));
    if f.Ok? { return; }
    failed := RestoreParents(r, owner, item.path);
    if failed.Some? { return; }
    if item.row.Dir? {
      failed := r.CreateDir(Loc(owner, item.path));
    } else {
      failed := r.PutFile(Loc(owner, item.path), item.row);
    }
    made := true;
  }
}
