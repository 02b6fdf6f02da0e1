/** internal/files/files.go: a file is a row and a blob, written blob first and
    row second, and taken away row first and blob second. */
module Files {
  import opened Text
  import opened Paths
  import opened Tree
  import opened Repository
  import opened Blobs
  import Keys
  import Removals
  import Restores
  import Stores

  /** Done; refused, with the database's reason; or cut short by the store. */
  datatype Answer<+T> = Done(value: T) | Refused(error: Error) | Broken

  /** A client that named a type keeps it, unless what it named is nothing. */
  function ContentType(declared: string, sniffed: string): string {
    if sniffed == "" then declared
    else if declared == "" || declared == "application/octet-stream" then sniffed
    else declared
  }

  /** What a client said of its bytes stands unless it said nothing of use. */
  lemma ContentTypeIs(declared: string, sniffed: string)
    ensures sniffed == "" || (declared != "" && declared != "application/octet-stream") ==>
              ContentType(declared, sniffed) == declared
    ensures sniffed != "" && (declared == "" || declared == "application/octet-stream") ==>
              ContentType(declared, sniffed) == sniffed
  {
  }

  /** The blob a write at `l` takes the place of, as a set. */
  function Superseded(rows: Rows, l: Loc): set<string> {
    if l in rows && rows[l].File? then {rows[l].key} else {}
  }

  /** What a write leaves of both stores. */
  ghost predicate Wrote(before: Books, after: Books, l: Loc, key: string, r: Answer<Row>) {
    && after.trash == before.trash
    && (r.Done? ==>
          && r.value.File? && r.value.key == key && Insert(before.files, l, r.value) == Ok(after.files)
          && key in after.objects && DropsOnly(before.objects, after.objects - {key}, Superseded(before.files, l)))
    && (!r.Done? ==> after.files == before.files && after.objects - {key} == before.objects)
  }

  ghost predicate DeletionsOk(trash: map<BatchId, map<string, Row>>) {
    forall id :: id in trash ==> exists root :: Restores.Deletion(trash[id], root)
  }

  class Service {
    const repo: Repo
    const blobs: Store
    const digest: string -> string

    constructor (repo: Repo, blobs: Store, digest: string -> string)
      ensures this.repo == repo && this.blobs == blobs && this.digest == digest
    {
      this.repo, this.blobs, this.digest := repo, blobs, digest;
    }

    ghost function Now(): Books
      reads repo, blobs
    {
      Books(repo.files, repo.trash, blobs.objects)
    }

    /** The table is a tree and so is every deletion, no two rows name one blob,
        and every row has the size and the hash of the bytes it names. */
    ghost predicate Valid()
      reads repo, blobs
    {
      TreeOk(repo.files) && DeletionsOk(repo.trash) && Sound(Now(), digest)
    }

    /** A name drawn at random: nothing has it, and it has the shape of a blob's. */
    ghost predicate Unused(key: string)
      reads repo, blobs
    {
      Keys.MintedShape(key) && key !in blobs.objects && forall h, row :: Filed(Now(), h, row) ==> row.key != key
    }

    /** No row names it, whatever the store has under it. */
    ghost predicate Nobodys(key: string)
      reads repo, blobs
    {
      Keys.MintedShape(key) && forall h, row :: Filed(Now(), h, row) ==> row.key != key
    }

    method RequireParent(l: Loc) returns (failed: Option<Error>)
      ensures failed == Refusal(Tree.RequireParent(repo.files, l))
    {
      var parent := ParentOf(l.path);
      if parent == "" { return None; }
      var f := repo.FileByPath(Loc(l.owner, parent));
      if f.Err? { return Some(f.error); }
      if !f.value.Dir? { return Some(Conflict); }
      return None;
    }

    /** What a PUT and a finished upload share: puts the row, and says which blob
        it took the place of. */
    method Replace(l: Loc, file: Row) returns (superseded: string, failed: Option<Error>)
      requires file.File?
      modifies repo`files
      ensures failed == Refusal(Tree.Replace(old(repo.files), l, file))
      ensures failed.None? ==> Ok(Replaced(repo.files, superseded)) == Tree.Replace(old(repo.files), l, file)
      ensures failed.Some? ==> repo.files == old(repo.files)
    {
      superseded := "";
      failed := RequireParent(l);
      if failed.Some? { return; }
      var f := repo.FileByPath(l);
      if f.Ok? {
        if f.value.File? { superseded := f.value.key; }
      } else if f.error != NotFound {
        return "", Some(f.error);
      }
      failed := repo.PutFile(l, file);
    }

    /** Throws away a blob and everything derived from it. */
    method DropBlob(key: string) returns (ok: bool)
      modifies blobs
      ensures DropsOnly(old(blobs.objects), blobs.objects, {key})
      ensures ok ==> forall k :: k in old(blobs.objects) ==>
                (k in blobs.objects <==> !BelongsTo(k, key))
    {
      ghost var before := blobs.objects;
      ok := blobs.Delete(key);
      if !ok { return; }
      var found;
      found, ok := blobs.List(Keys.DerivedUnder(key));
      if !ok { return; }
      ghost var listed := blobs.objects;
      var i := 0;
      while i < |found|
        invariant i <= |found| && DropsOnly(before, blobs.objects, {key}) && key !in blobs.objects
        invariant forall k :: k in blobs.objects ==> k in listed
        invariant forall j :: 0 <= j < i ==> found[j].key !in blobs.objects
      {
        assert Describes(found[i], listed) && DerivedFrom(found[i].key, {key});
        ok := blobs.Delete(found[i].key);
        if !ok { return; }
        i := i + 1;
      }
      forall k | k in before && Keys.DerivedUnder(key) <= k ensures k !in blobs.objects {
        assert k in listed ==> InListing(found, k);
      }
      assert forall k :: k in before && DerivedFrom(k, {key}) ==> Keys.DerivedUnder(key) <= k;
    }

    /** Drops the blob a write replaced; that it could not is not the write's failure. */
    method Drop(key: string)
      modifies blobs
      ensures DropsOnly(old(blobs.objects), blobs.objects, if key == "" then {} else {key})
    {
      if key != "" {
        var _ := DropBlob(key);
      }
    }

    /** Stores the bytes and answers with the row that would describe them, which
        nothing has committed. */
    method StoreBlob(path: string, body: string, size: int, declared: string, sniffed: string, key: string)
      returns (r: Answer<Row>)
      modifies blobs
      ensures blobs.objects - {key} == old(blobs.objects) - {key}
      ensures !ValidPath(path) ==> r == Refused(InvalidPath) && blobs.objects == old(blobs.objects)
      ensures r.Refused? ==> !ValidPath(path)
      ensures r.Done? ==>
                && key in blobs.objects && blobs.objects[key].data == body && (size >= 0 ==> size == |body|)
                && r.value == File(key, |body|, blobs.objects[key].mtime, digest(body), ContentType(declared, sniffed))
    {
      if !ValidPath(path) { return Refused(InvalidPath); }
      var ok, mtime := blobs.Put(key, body, size);
      if !ok { return Broken; }
      return Done(File(key, |body|, mtime, digest(body), ContentType(declared, sniffed)));
    }

    /** Either the row and its blob are both there, saying the same thing, and the
        blob they replaced is nobody's; or the table is as it was. */
    method Write(l: Loc, body: string, size: int, declared: string, sniffed: string, key: string)
      returns (r: Answer<Row>)
      requires Valid() && Unused(key)
      modifies repo`files, blobs
      ensures Valid()
      ensures r.Done? ==>
                && repo.files == old(repo.files)[l := r.value]
                && key in blobs.objects && blobs.objects[key].data == body && (size >= 0 ==> size == |body|)
                && r.value == File(key, |body|, blobs.objects[key].mtime, digest(body), ContentType(declared, sniffed))
      ensures r.Done? ==> DropsOnly(old(blobs.objects), blobs.objects - {key}, Superseded(old(repo.files), l))
      ensures !r.Done? ==> repo.files == old(repo.files) && blobs.objects - {key} == old(blobs.objects)
      ensures r.Refused? ==>
                if ValidPath(l.path) then Insert(old(repo.files), l, File(key, |body|, 0, "", "")) == Err(r.error)
                else r.error == InvalidPath
      ensures Wrote(old(Now()), Now(), l, key, r)
    {
      hide Sound, TreeOk, ValidPath, ParentOf, Keys.MintedShape, DropsOnly;
      ghost var before := Now();
      r := StoreBlob(l.path, body, size, declared, sniffed, key);
      StoredIsSound(before, Now(), key, digest);
      assert before.objects - {key} == before.objects;
      if !r.Done? { return; }
      Keys.MintedIsOriginal(key);
      var failed := Commit(l, r.value, before);
      if failed.Some? { return Refused(failed.value); }
      InsertedIs(before.files, l, r.value);
    }

    /** A blob's row committed in one transaction: what it took the place of is dropped
        after, and the blob itself when it is refused. */
    method Commit(l: Loc, file: Row, ghost before: Books) returns (failed: Option<Error>)
      requires file.File? && Keys.MintedShape(file.key) && file.key !in before.objects
      requires forall h, row :: Filed(before, h, row) ==> row.key != file.key
      requires Sound(before, digest) && TreeOk(before.files) && repo.files == before.files && repo.trash == before.trash
      requires file.key in blobs.objects && blobs.objects - {file.key} == before.objects
      modifies repo`files, blobs
      ensures TreeOk(repo.files) && failed == Refusal(Insert(before.files, l, file))
      ensures failed.None? ==>
                && repo.files == before.files[l := file]
                && file.key in blobs.objects && blobs.objects[file.key] == old(blobs.objects[file.key])
                && DropsOnly(before.objects, blobs.objects - {file.key}, Superseded(before.files, l))
      ensures failed.Some? ==> repo.files == before.files && blobs.objects - {file.key} == before.objects
      ensures failed.Some? || Matches(file, old(blobs.objects), digest) ==> Sound(Now(), digest)
    {
      hide Sound, TreeOk, ValidPath, ParentOf, Keys.MintedShape, DropsOnly;
      assert before.objects - {file.key} == before.objects;
      var rows := repo.files;
      ghost var stored := blobs.objects;
      var superseded;
      superseded, failed := Replace(l, file);
      if failed.Some? {
        repo.files := rows;
        var _ := blobs.Delete(file.key);
        StoredIsSound(before, Now(), file.key, digest);
        return;
      }
      InsertKeepsTree(rows, l, file);
      Drop(superseded);
      DropsAtMost(stored, blobs.objects, if superseded == "" then {} else {superseded}, Superseded(rows, l));
      Keys.MintedIsOriginal(file.key);
      assert l in rows && rows[l].File? ==> Filed(before, Stores.AtRow(l), rows[l]);
      DropSpares(stored, blobs.objects, Superseded(rows, l), file.key);
      DropsOther(stored, blobs.objects, file.key, Superseded(rows, l));
      if Matches(file, stored, digest) {
        ReplacedIsSound(before, stored, Now(), l, file, digest);
      }
    }

    method Mkdir(l: Loc) returns (failed: Option<Error>)
      requires Valid()
      modifies repo`files
      ensures Valid()
      ensures failed == Refusal(Tree.Mkdir(old(repo.files), l))
      ensures repo.files == Outcome(old(repo.files), Tree.Mkdir(old(repo.files), l))
    {
      hide Sound, TreeOk, ValidPath, ParentOf;
      ghost var before := Now();
      if !ValidPath(l.path) { return Some(InvalidPath); }
      failed := RequireParent(l);
      if failed.Some? { return; }
      failed := repo.CreateDir(l);
      if failed.None? {
        MkdirKeepsTree(before.files, l);
        MadeIsSound(before, Now(), l, digest);
      }
    }

    method Move(owner: string, from: string, to: string) returns (failed: Option<Error>)
      requires Valid()
      modifies repo`files
      ensures Valid()
      ensures failed == Refusal(Tree.Move(old(repo.files), owner, from, to))
      ensures repo.files == Outcome(old(repo.files), Tree.Move(old(repo.files), owner, from, to))
    {
      hide Sound, TreeOk, ValidPath, ParentOf, Without, Renamed, Tree.RequireParent;
      ghost var before := Now();
      failed := RequireParent(Loc(owner, to));
      if failed.Some? { return; }
      failed := repo.MoveFile(owner, from, to);
      if failed.None? {
        MoveKeepsTree(before.files, owner, from, to);
        MovedIsSound(before, Now(), owner, from, to, digest);
      }
    }

    /** Rows move to the trash and no byte is touched. */
    method Remove(l: Loc, batch: string, now: int) returns (failed: Option<Error>)
      requires Valid() && BatchId.BatchId(l.owner, batch) !in repo.trash
      modifies repo`files, repo`trash, repo`deletedAt
      ensures Valid()
      ensures failed == Refusal(Tree.RemoveTree(old(repo.files), l))
      ensures failed.None? ==>
                && repo.files == Without(old(repo.files), l.owner, l.path)
                && repo.trash
                   == old(repo.trash)[BatchId.BatchId(l.owner, batch) := Subtree(old(repo.files), l.owner, l.path)]
      ensures failed.None? ==> repo.deletedAt == old(repo.deletedAt)[BatchId.BatchId(l.owner, batch) := now]
      ensures failed.Some? ==>
                repo.files == old(repo.files) && repo.trash == old(repo.trash) && repo.deletedAt == old(repo.deletedAt)
    {
      hide Sound, TreeOk, ValidPath, Without, Removals.Took, AtOrUnder, Restores.Deletion;
      ghost var before := Now();
      var rows := repo.files;
      var taken;
      taken, failed := Removals.RemoveTree(repo, l);
      if failed.Some? {
        repo.files := rows;
        return;
      }
      Removals.TookIsTree(taken, Subtree(before.files, l.owner, l.path));
      WithoutKeepsTree(before.files, l.owner, l.path);
      Restores.RemovedIsDeletion(before.files, l);
      repo.Trash(BatchId.BatchId(l.owner, batch), AsTree(taken), now);
      RemovedIsSound(before, Now(), l, batch, digest);
    }
  }

  // ----- Each of them keeps rows and blobs in step

  lemma InsertedIs(rows: Rows, l: Loc, file: Row)
    requires file.File? && Insert(rows, l, file).Ok?
    ensures Insert(rows, l, file) == Ok(rows[l := file])
  {
    hide ValidPath, ParentOf;
  }

  lemma StoredIsSound(before: Books, after: Books, key: string, digest: string -> string)
    requires Sound(before, digest) && key !in before.objects
    requires after == before.(objects := after.objects) && after.objects - {key} == before.objects - {key}
    ensures Sound(after, digest)
  {
    forall k | k in before.objects ensures k in after.objects && after.objects[k] == before.objects[k] {
      assert k in before.objects - {key};
      assert (after.objects - {key})[k] == (before.objects - {key})[k];
    }
    CarriedIsSound(before, after, h => h, {}, digest);
  }

  /** What no row names can go. */
  lemma WithoutIsSound(b: Books, key: string, digest: string -> string)
    requires Sound(b, digest) && forall h, row :: Filed(b, h, row) ==> row.key != key
    ensures var after := b.(objects := b.objects - {key});
            Sound(after, digest) && forall h, row :: Filed(after, h, row) ==> row.key != key
  {
    CarriedIsSound(b, b.(objects := b.objects - {key}), h => h, {}, digest);
  }

  lemma DropsAtMost(before: Objects, after: Objects, fewer: set<string>, more: set<string>)
    requires DropsOnly(before, after, fewer) && fewer <= more
    ensures DropsOnly(before, after, more)
  {
    forall k | DerivedFrom(k, fewer) ensures DerivedFrom(k, more) {
      var d :| d in fewer && Keys.DerivedUnder(d) <= k;
      assert d in more;
    }
  }

  lemma DropsOther(before: Objects, after: Objects, key: string, keys: set<string>)
    requires DropsOnly(before, after, keys)
    ensures DropsOnly(before - {key}, after - {key}, keys)
  {
  }

  lemma ReplacedIsSound(before: Books, stored: Objects, after: Books, l: Loc, row: Row, digest: string -> string)
    requires Sound(before, digest) && row.File? && Keys.MintedShape(row.key) && row.key !in before.objects
    requires forall h, r :: Filed(before, h, r) ==> r.key != row.key
    requires stored - {row.key} == before.objects - {row.key} && Matches(row, stored, digest)
    requires after.files == before.files[l := row] && after.trash == before.trash
    requires DropsOnly(stored, after.objects, Superseded(before.files, l))
    ensures Sound(after, digest)
  {
    hide DropsOnly, Keys.MintedShape, OneEach, Faithful;
    var keys := Superseded(before.files, l);
    Keys.MintedIsOriginal(row.key);
    assert l in before.files && before.files[l].File? ==> Filed(before, Stores.AtRow(l), before.files[l]);
    DropSpares(stored, after.objects, keys, row.key);
    SparedBySound(before, stored, after, row.key, l, digest);
    forall h, r | Filed(after, h, r)
      ensures if r.key == row.key then h == Stores.AtRow(l) && r == row else Filed(before, h, r)
    {
      assert h != Stores.AtRow(l) ==> Filed(before, h, r);
    }
    CarriedIsSound(before, after, h => h, {row.key}, digest);
  }

  /** What a write drops belonged to the row it replaced alone. */
  lemma SparedBySound(before: Books, stored: Objects, after: Books, key: string, l: Loc, digest: string -> string)
    requires Sound(before, digest) && stored - {key} == before.objects - {key}
    requires after.files - {l} == before.files - {l} && after.trash == before.trash
    requires l in after.files && (after.files[l].File? ==> after.files[l].key == key)
    requires DropsOnly(stored, after.objects, Superseded(before.files, l))
    ensures OnlyDropped(after, before.objects, {key})
  {
    hide DropsOnly;
    forall h, row | Filed(after, h, row) && row.key != key && row.key in before.objects
      ensures row.key in after.objects && after.objects[row.key] == before.objects[row.key]
    {
      if h.AtRow? {
        assert h.l in before.files - {l} <==> h.l in after.files - {l};
        assert h.l != l ==> (before.files - {l})[h.l] == (after.files - {l})[h.l];
      }
      assert Filed(before, h, row);
      assert row.key in before.objects - {key} && (before.objects - {key})[row.key] == (stored - {key})[row.key];
      if l in before.files && before.files[l].File? {
        assert Filed(before, Stores.AtRow(l), before.files[l]);
        assert h != Stores.AtRow(l);
      }
      DropSpares(stored, after.objects, Superseded(before.files, l), row.key);
    }
  }

  lemma MadeIsSound(before: Books, after: Books, l: Loc, digest: string -> string)
    requires Sound(before, digest) && l !in before.files && after == before.(files := before.files[l := Dir])
    ensures Sound(after, digest)
  {
    CarriedIsSound(before, after, h => h, {}, digest);
  }

  lemma MovedIsSound(before: Books, after: Books, owner: string, from: string, to: string, digest: string -> string)
    requires Sound(before, digest)
    requires after == before.(files := Without(before.files, owner, from)
             + Renamed(Subtree(before.files, owner, from), owner, from, to))
    ensures Sound(after, digest)
  {
    hide Renamed, OneEach, Faithful, AtOrUnder, Rebase;
    var moved := Renamed(Subtree(before.files, owner, from), owner, from, to);
    RenamedFacts(Subtree(before.files, owner, from), owner, from, to);
    var origin := (h: Stores.Holder) => if h.AtRow? then Stores.AtRow(MovedFrom(h.l, moved, from, to)) else h;
    CarriedIsSound(before, after, origin, {}, digest);
  }

  lemma RemovedIsSound(before: Books, after: Books, l: Loc, batch: string, digest: string -> string)
    requires Sound(before, digest)
    requires after.files == Without(before.files, l.owner, l.path) && after.objects == before.objects
    requires BatchId.BatchId(l.owner, batch) !in before.trash
    requires after.trash == before.trash[BatchId.BatchId(l.owner, batch) := Subtree(before.files, l.owner, l.path)]
    ensures Sound(after, digest)
  {
    hide OneEach, Faithful, AtOrUnder, Subtree;
    var id := BatchId.BatchId(l.owner, batch);
    assert forall m :: m in after.files <==> m in before.files && !Within(m, l.owner, l.path);
    hide Without;
    var origin := (h: Stores.Holder) =>
      if h.AtTrash? && h.id == id then Stores.AtRow(Loc(l.owner, h.path)) else h;
    CarriedIsSound(before, after, origin, {}, digest);
  }
}
