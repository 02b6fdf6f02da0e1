/** Every step keeps the books: case by case. */
module StoreSteps {
  import opened Paths
  import opened Tree
  import opened Restores
  import opened Copies
  import opened Stores
  import Keys

  // ----- Steps that move keys between holders

  /** `origin` says which holder of `w` each holder of `after` got its key from. */
  ghost predicate Traced(w: World, after: World, origin: Holder -> Holder) {
    && (forall h, k :: Holds(after, h, k) ==> Holds(w, origin(h), k))
    && (forall h1, h2, k :: Holds(after, h1, k) && Holds(after, h2, k) && origin(h1) == origin(h2) ==> h1 == h2)
    && (forall h, k :: Holds(after, h, k) && h.InFlight? ==> origin(h) == h)
  }

  ghost predicate SameStores(w: World, after: World) {
    after.now == w.now && after.blobs == w.blobs && after.minted == w.minted && after.uploads == w.uploads
  }

  ghost predicate SameProcs(w: World, after: World) {
    forall p :: p in after.procs && !after.procs[p].Dropping? ==> p in w.procs && after.procs[p] == w.procs[p]
  }

  /** Keys nobody holds any more, which may be condemned now. */
  ghost predicate Released(w: World, after: World, released: set<string>) {
    && (forall k :: k in released ==> exists h :: Holds(w, h, k))
    && (forall h, k :: k in released ==> !Holds(after, h, k))
    && (forall k :: Condemned(after, k) ==> Condemned(w, k) || k in released)
  }

  ghost predicate SettledInTime(t: Timing, w: World, after: World, origin: Holder -> Holder) {
    && (forall h, k :: Holds(after, h, k) && !h.InFlight? && origin(h).InFlight? ==>
          !Late(t, w, origin(h)))
    && (forall h, k :: Holds(after, h, k) && h.AtRow? && origin(h).AtTrash? ==> NoSweepBetweenReads(w))
  }

  lemma Rehold(t: Timing, w: World, after: World, origin: Holder -> Holder, released: set<string>)
    requires Books(t, w) && SameStores(w, after) && SameProcs(w, after)
    requires Traced(w, after, origin) && Released(w, after, released)
    requires SettledInTime(t, w, after, origin)
    ensures Books(t, after)
  {
    forall h, k | Holds(after, h, k) ensures Holds(w, origin(h), k) && (!Late(t, after, h) ==> !Late(t, w, origin(h))) {
      assert Holds(w, origin(h), k);
      if h.InFlight? { assert origin(h) == h; }
    }
    ReholdSweeps(t, w, after, origin);
    assert Unique(after);
    assert Chosen(after);
    assert Present(t, after);
    assert Spared(t, after);
  }

  lemma ReholdSweeps(t: Timing, w: World, after: World, origin: Holder -> Holder)
    requires Books(t, w) && SameStores(w, after) && SameProcs(w, after)
    requires Traced(w, after, origin)
    requires SettledInTime(t, w, after, origin)
    ensures SweepsKnow(t, after)
  {
    forall p | p in after.procs && after.procs[p].Sweeping? ensures SweepKnows(t, after, after.procs[p].sweep) {
      var s := w.procs[p].sweep;
      assert SweepKnows(t, w, s);
      if !s.Deleting? {
        forall h, k | Holds(after, h, k) && !h.InFlight? && k in w.blobs && k !in s.referenced
            && (s.ReadFiles? ==> h.AtRow?)
          ensures s.since <= w.blobs[k] + t.deadline
        {
          var o := origin(h);
          assert Holds(w, o, k);
          if o.InFlight? {
            assert o == InFlight(o.pid, k);
            assert Holds(w, InFlight(o.pid, k), k);
          }
        }
      }
    }
  }

  /** A minted key is not empty. */
  lemma MintedNotEmpty(w: World, h: Holder, k: string)
    requires Chosen(w) && Holds(w, h, k)
    ensures k != "" && Keys.MintedShape(k) && !(Keys.DERIVED_PREFIX <= k)
  {
    Keys.MintedIsOriginal(k);
  }

  /** A process that ends, leaving keys to drop. */
  lemma FinishCondemns(w: World, after: World, pid: nat, leftovers: set<string>)
    requires after.lost == w.lost && after.procs == Finish(w.procs, pid, leftovers)
    ensures forall k :: Condemned(after, k) ==> Condemned(w, k) || k in leftovers
    ensures SameProcs(w, after)
  {
    forall k | Condemned(after, k) ensures Condemned(w, k) || k in leftovers {
      if p :| Drops(after, p, k) {
        assert p != pid ==> Drops(w, p, k);
      } else if b :| b in after.lost && k in after.lost[b] {
        assert b in w.lost && k in w.lost[b];
      } else {
        var p :| FoundOrphan(after, p, k);
        assert FoundOrphan(w, p, k);
      }
    }
  }

  lemma CommitWriteKeeps(t: Timing, w: World, pid: nat, l: Loc, file: Row)
    requires Inv(t, w) && Enabled(t, w, CommitWrite(pid, l, file)) && Assumed(t, w, CommitWrite(pid, l, file))
    ensures Inv(t, Apply(t, w, CommitWrite(pid, l, file)))
  {
    hide ParentStands, RequireParent, ValidPath;
    var after := Apply(t, w, CommitWrite(pid, l, file));
    InsertKeepsTree(w.files, l, file);
    CommitWriteBooks(t, w, after, pid, l, file, Replace(w.files, l, file).value.superseded);
  }

  lemma CommitWriteBooks(t: Timing, w: World, after: World, pid: nat, l: Loc, file: Row, superseded: string)
    requires Books(t, w) && InTime(t, w, pid)
    requires pid in w.procs && w.procs[pid].Writing? && file.File? && w.procs[pid].stored.Keys == {file.key}
    requires superseded == if l in w.files && w.files[l].File? then w.files[l].key else ""
    requires after == w.(files := w.files[l := file],
                         procs := Finish(w.procs, pid, if superseded == "" then {} else {superseded}))
    ensures Books(t, after)
  {
    var flight := InFlight(pid, file.key);
    assert Holds(w, flight, file.key);
    var origin := (h: Holder) => if h == AtRow(l) then flight else h;
    var released := if superseded == "" then {} else {superseded};
    if l in w.files && w.files[l].File? {
      assert Holds(w, AtRow(l), superseded);
      MintedNotEmpty(w, AtRow(l), superseded);
    }
    FinishCondemns(w, after, pid, released);
    Rehold(t, w, after, origin, released);
  }

  /** What a committed copy left: rows of its plan, on what it did not replace. */
  lemma CommittedRows(rows: Rows, owner: string, to: string, plan: seq<Planned>)
    requires CommitCopies(rows, owner, to, plan).Ok?
    ensures var c := CommitCopies(rows, owner, to, plan).value;
            exists base ::
              c.rows == base + PlanRows(plan, owner)
              && (forall l :: l in base ==> l in rows && base[l] == rows[l])
              && (forall p :: p in c.replaced ==>
                  Loc(owner, p) in rows && Loc(owner, p) !in base
                  && rows[Loc(owner, p)] == c.replaced[p])
  {
    hide ValidPath, InsertAll;
    if Loc(owner, to) in rows {
      InsertAllIs(Without(rows, owner, to), owner, plan);
    } else {
      InsertAllIs(rows, owner, plan);
    }
  }

  lemma CommitCopyKeeps(t: Timing, w: World, pid: nat, owner: string, to: string, plan: seq<Planned>)
    requires Inv(t, w) && Enabled(t, w, CommitCopy(pid, owner, to, plan))
             && Assumed(t, w, CommitCopy(pid, owner, to, plan))
    ensures Inv(t, Apply(t, w, CommitCopy(pid, owner, to, plan)))
  {
    hide ParentStands, RequireParent, ValidPath, CommitCopies, PlanRows;
    var after := Apply(t, w, CommitCopy(pid, owner, to, plan));
    CommitCopiesKeepsTree(w.files, owner, to, plan);
    var c := CommitCopies(w.files, owner, to, plan).value;
    CommittedRows(w.files, owner, to, plan);
    var base :| c.rows == base + PlanRows(plan, owner)
                && (forall l :: l in base ==> l in w.files && base[l] == w.files[l])
                && (forall p :: p in c.replaced ==> Loc(owner, p) in w.files && Loc(owner, p) !in base
                                                    && w.files[Loc(owner, p)] == c.replaced[p]);
    CommitCopyBooks(t, w, after, pid, owner, plan, base, c.replaced);
  }

  lemma CommitCopyBooks(t: Timing, w: World, after: World, pid: nat, owner: string, plan: seq<Planned>,
                        base: Rows, replaced: map<string, Row>)
    requires Books(t, w) && InTime(t, w, pid)
    requires pid in w.procs && w.procs[pid].Writing? && NamesStored(plan, w.procs[pid].stored)
    requires forall l :: l in base ==> l in w.files && base[l] == w.files[l]
    requires forall p :: p in replaced ==>
             Loc(owner, p) in w.files && Loc(owner, p) !in base
             && w.files[Loc(owner, p)] == replaced[p]
    requires after == w.(files := base + PlanRows(plan, owner), procs := Finish(w.procs, pid, KeysOf(replaced)))
    ensures Books(t, after)
  {
    hide PlanRows, Late;
    var planned := PlanRows(plan, owner);
    PlannedKeys(w, pid, owner, plan, planned);
    var origin := (h: Holder) =>
      if h.AtRow? && h.l in planned && planned[h.l].File? then InFlight(pid, planned[h.l].key) else h;
    var released := KeysOf(replaced);
    FinishCondemns(w, after, pid, released);
    CopyTraced(w, after, pid, base, planned, released);
    CopyReleases(w, after, pid, owner, base, planned, replaced);
    assert SettledInTime(t, w, after, origin) by {
      forall h, k | Holds(after, h, k) && !h.InFlight? && origin(h).InFlight? ensures !Late(t, w, origin(h)) {
        NotLate(t, w, pid, k);
      }
    }
    Rehold(t, w, after, origin, released);
  }

  lemma NotLate(t: Timing, w: World, pid: nat, k: string)
    requires InTime(t, w, pid)
    ensures !Late(t, w, InFlight(pid, k))
  {
  }

  /** The keys of a plan's rows are ones its write stored, each at one place. */
  lemma PlannedKeys(w: World, pid: nat, owner: string, plan: seq<Planned>, planned: Rows)
    requires pid in w.procs && w.procs[pid].Writing? && NamesStored(plan, w.procs[pid].stored)
    requires planned == PlanRows(plan, owner)
    ensures KeysStored(w, pid, planned)
  {
    hide PlanRows;
    forall l | l in planned && planned[l].File? ensures Holds(w, InFlight(pid, planned[l].key), planned[l].key) {
      var i := PlanRowsFrom(plan, owner, l);
    }
    forall l1, l2 | l1 in planned && l2 in planned && planned[l1].File? && planned[l2].File?
        && planned[l1].key == planned[l2].key
      ensures l1 == l2
    {
      var i := PlanRowsFrom(plan, owner, l1);
      var j := PlanRowsFrom(plan, owner, l2);
    }
  }

  ghost predicate KeysStored(w: World, pid: nat, planned: Rows) {
    && (forall l :: l in planned && planned[l].File? ==> Holds(w, InFlight(pid, planned[l].key), planned[l].key))
    && (forall l1, l2 ::
          l1 in planned && l2 in planned && planned[l1].File? && planned[l2].File? && planned[l1].key == planned[l2].key
          ==> l1 == l2)
  }

  ghost predicate CommitsCopy(w: World, after: World, pid: nat, base: Rows, planned: Rows, released: set<string>) {
    && (forall l :: l in base ==> l in w.files && base[l] == w.files[l])
    && after == w.(files := base + planned, procs := Finish(w.procs, pid, released))
  }

  lemma CopyTraced(w: World, after: World, pid: nat, base: Rows, planned: Rows, released: set<string>)
    requires CommitsCopy(w, after, pid, base, planned, released) && KeysStored(w, pid, planned)
    ensures Traced(w, after, (h: Holder) =>
      if h.AtRow? && h.l in planned && planned[h.l].File? then InFlight(pid, planned[h.l].key) else h)
  {
  }

  lemma CopyReleases(w: World, after: World, pid: nat, owner: string, base: Rows, planned: Rows,
                     replaced: map<string, Row>)
    requires Unique(w) && KeysStored(w, pid, planned) && CommitsCopy(w, after, pid, base, planned, KeysOf(replaced))
    requires forall p :: p in replaced ==>
             Loc(owner, p) in w.files && Loc(owner, p) !in base
             && w.files[Loc(owner, p)] == replaced[p]
    ensures forall k :: k in KeysOf(replaced) ==> exists h :: Holds(w, h, k)
    ensures forall h, k :: k in KeysOf(replaced) ==> !Holds(after, h, k)
  {
    var origin := (h: Holder) =>
      if h.AtRow? && h.l in planned && planned[h.l].File? then InFlight(pid, planned[h.l].key) else h;
    CopyTraced(w, after, pid, base, planned, KeysOf(replaced));
    forall k | k in KeysOf(replaced) ensures exists h :: Holds(w, h, k) {
      var p :| p in replaced && replaced[p].File? && replaced[p].key == k;
      assert Holds(w, AtRow(Loc(owner, p)), k);
    }
    forall h, k | k in KeysOf(replaced) ensures !Holds(after, h, k) {
      var p :| p in replaced && replaced[p].File? && replaced[p].key == k;
      assert Holds(w, AtRow(Loc(owner, p)), k);
      assert Holds(after, h, k) ==> Holds(w, origin(h), k);
    }
  }

  /** A step that only moves keys about: nothing released, nothing else touched. */
  lemma OnlyMoves(t: Timing, w: World, after: World, origin: Holder -> Holder)
    requires Books(t, w) && Traced(w, after, origin) && SettledInTime(t, w, after, origin)
    requires after == w.(files := after.files, trash := after.trash)
    ensures Books(t, after)
  {
    forall k | Condemned(after, k) ensures Condemned(w, k) {
      if p :| Drops(after, p, k) {
        assert Drops(w, p, k);
      } else if p :| FoundOrphan(after, p, k) {
        assert FoundOrphan(w, p, k);
      }
    }
    Rehold(t, w, after, origin, {});
  }

  lemma MakeDirKeeps(t: Timing, w: World, l: Loc)
    requires Inv(t, w) && Enabled(t, w, MakeDir(l))
    ensures Inv(t, Apply(t, w, MakeDir(l)))
  {
    hide ParentStands, RequireParent, ValidPath;
    var after := Apply(t, w, MakeDir(l));
    MkdirKeepsTree(w.files, l);
    OnlyMoves(t, w, after, (h: Holder) => h);
  }

  lemma MoveToKeeps(t: Timing, w: World, owner: string, from: string, to: string)
    requires Inv(t, w) && Enabled(t, w, MoveTo(owner, from, to))
    ensures Inv(t, Apply(t, w, MoveTo(owner, from, to)))
  {
    hide ParentStands, RequireParent, ValidPath, Without, Renamed;
    var after := Apply(t, w, MoveTo(owner, from, to));
    MoveKeepsTree(w.files, owner, from, to);
    MoveBooks(t, w, after, owner, from, to);
  }

  lemma MoveBooks(t: Timing, w: World, after: World, owner: string, from: string, to: string)
    requires Books(t, w)
    requires after == w.(files := Without(w.files, owner, from)
             + Renamed(Subtree(w.files, owner, from), owner, from, to))
    ensures Books(t, after)
  {
    hide Renamed;
    var moved := Renamed(Subtree(w.files, owner, from), owner, from, to);
    MoveTraced(w, after, owner, from, to, moved);
    OnlyMoves(t, w, after, (h: Holder) => if h.AtRow? then AtRow(MovedFrom(h.l, moved, from, to)) else h);
  }

  lemma MoveTraced(w: World, after: World, owner: string, from: string, to: string, moved: Rows)
    requires moved == Renamed(Subtree(w.files, owner, from), owner, from, to)
    requires after == w.(files := Without(w.files, owner, from) + moved)
    ensures Traced(w, after, (h: Holder) => if h.AtRow? then AtRow(MovedFrom(h.l, moved, from, to)) else h)
  {
    hide AtOrUnder, Rebase, Renamed;
    RenamedFacts(Subtree(w.files, owner, from), owner, from, to);
  }

  lemma RemoveKeeps(t: Timing, w: World, l: Loc, batch: string)
    requires Inv(t, w) && Enabled(t, w, Remove(l, batch)) && Assumed(t, w, Remove(l, batch))
    ensures Inv(t, Apply(t, w, Remove(l, batch)))
  {
    hide ParentStands, ValidPath, Without;
    var after := Apply(t, w, Remove(l, batch));
    WithoutKeepsTree(w.files, l.owner, l.path);
    RemovedIsDeletion(w.files, l);
    RemoveBooks(t, w, after, l, BatchId(l.owner, batch));
  }

  lemma RemoveBooks(t: Timing, w: World, after: World, l: Loc, id: BatchId)
    requires Books(t, w) && id !in w.trash
    requires after == w.(files := Without(w.files, l.owner, l.path),
             trash := w.trash[id := Subtree(w.files, l.owner, l.path)])
    ensures Books(t, after)
  {
    hide AtOrUnder;
    var origin := (h: Holder) => if h.AtTrash? && h.id == id then AtRow(Loc(l.owner, h.path)) else h;
    OnlyMoves(t, w, after, origin);
  }

  lemma RestoreKeeps(t: Timing, w: World, id: BatchId)
    requires t.apart && Inv(t, w) && Enabled(t, w, RestoreBatch(id)) && Assumed(t, w, RestoreBatch(id))
    ensures Inv(t, Apply(t, w, RestoreBatch(id)))
  {
    hide ParentStands, ValidPath, Renamed, Restores.Deletion, FreeName, Tree.Restore;
    var after := Apply(t, w, RestoreBatch(id));
    var root :| Restores.Deletion(w.trash[id], root);
    RestoreIs(w.files, id.owner, w.trash[id], root);
    RestoreBooks(t, w, after, id, root, Restore(w.files, id.owner, w.trash[id]).value);
  }

  lemma RestoreBooks(t: Timing, w: World, after: World, id: BatchId, root: string, r: Restored)
    requires Books(t, w) && NoSweepBetweenReads(w) && id in w.trash
    requires RestoredAt(w.files, id.owner, w.trash[id], root, r)
    requires after == w.(files := r.rows, trash := w.trash - {id})
    ensures Books(t, after)
  {
    hide Renamed, AtOrUnder, Rebase, RestoreParents, ValidPath, Climbs;
    var tree := w.trash[id];
    var back := Renamed(tree, id.owner, root, r.to);
    var origin := (h: Holder) =>
      if h.AtRow? && h.l in back && AtOrUnder(h.l.path, r.to) then AtTrash(id, Rebase(h.l.path, r.to, root)) else h;
    RenamedFacts(tree, id.owner, root, r.to);
    OnlyMoves(t, w, after, origin);
  }

  // ----- Steps that only let go

  /** Time passes or processes end: what is left was there before. */
  ghost predicate Fewer(w: World, after: World) {
    && w.now <= after.now
    && after.files == w.files && after.lost == w.lost && after.minted == w.minted
    && after.blobs == w.blobs && after.trash == w.trash
    && after.uploads <= w.uploads
    && (forall p :: p in after.procs ==> p in w.procs && after.procs[p] == w.procs[p])
  }

  lemma FewerKeeps(t: Timing, w: World, after: World)
    requires Books(t, w) && Fewer(w, after)
    ensures Books(t, after)
  {
    forall h, k | Holds(after, h, k) ensures Holds(w, h, k) && (Late(t, w, h) ==> Late(t, after, h)) {}
    forall k | Condemned(after, k) ensures Condemned(w, k) {
      if p :| Drops(after, p, k) {
        assert Drops(w, p, k);
      } else if p :| FoundOrphan(after, p, k) {
        assert FoundOrphan(w, p, k);
      }
    }
    forall p | p in after.procs && after.procs[p].Sweeping? ensures SweepKnows(t, after, after.procs[p].sweep) {
      assert SweepKnows(t, w, w.procs[p].sweep);
    }
    assert Unique(after) && Chosen(after) && Present(t, after) && Spared(t, after);
  }

  // ----- Steps that only touch the blob store

  ghost predicate OnlyBlobs(w: World, after: World) {
    after == w.(blobs := after.blobs)
  }

  /** Objects nobody holds may come and go. */
  lemma BlobsKeep(t: Timing, w: World, after: World, key: string)
    requires Books(t, w) && OnlyBlobs(w, after) && key !in w.uploads
    requires forall k :: k != key ==>
             (k in after.blobs <==> k in w.blobs)
             && (k in w.blobs ==> after.blobs[k] == w.blobs[k])
    requires key in after.blobs ==> Keys.DERIVED_PREFIX <= key
    requires forall h :: Holds(w, h, key) ==> Late(t, w, h) && key !in after.blobs
    ensures Books(t, after)
  {
    forall h, k ensures Holds(after, h, k) == Holds(w, h, k) && Late(t, after, h) == Late(t, w, h) {}
    forall k | Condemned(after, k) ensures Condemned(w, k) {
      if p :| Drops(after, p, k) {
        assert Drops(w, p, k);
      } else if p :| FoundOrphan(after, p, k) {
        assert FoundOrphan(w, p, k);
      }
    }
    forall p | p in after.procs && after.procs[p].Sweeping? ensures SweepKnows(t, after, after.procs[p].sweep) {
      assert SweepKnows(t, w, w.procs[p].sweep);
    }
    assert Unique(after) && Chosen(after) && Present(t, after) && Spared(t, after);
  }

  /** A derived key is nobody's. */
  lemma DerivedIsNotHeld(w: World, key: string)
    requires Chosen(w) && Keys.DERIVED_PREFIX <= key
    ensures forall h :: !Holds(w, h, key)
    ensures key !in w.uploads
  {
    if h :| Holds(w, h, key) {
      MintedNotEmpty(w, h, key);
      assert false;
    }
    if key in w.uploads {
      Keys.MintedIsOriginal(key);
      assert false;
    }
  }

  lemma DeleteObjectKeeps(t: Timing, w: World, pid: nat, key: string)
    requires Inv(t, w) && Enabled(t, w, DeleteObject(pid, key))
    ensures Inv(t, Apply(t, w, DeleteObject(pid, key)))
  {
    if key in w.procs[pid].keys {
      assert Drops(w, pid, key);
      assert Condemned(w, key);
    } else {
      var k :| k in w.procs[pid].keys && Keys.DerivedUnder(k) <= key;
      assert Keys.DERIVED_PREFIX <= Keys.DerivedUnder(k) <= key;
      DerivedIsNotHeld(w, key);
    }
    BlobsKeep(t, w, Apply(t, w, DeleteObject(pid, key)), key);
  }

  lemma DeriveKeeps(t: Timing, w: World, parent: string, name: string)
    requires Inv(t, w) && Enabled(t, w, Derive(parent, name))
    ensures Inv(t, Apply(t, w, Derive(parent, name)))
  {
    var key := Keys.DerivedKey(parent, name);
    assert Keys.DERIVED_PREFIX <= key;
    DerivedIsNotHeld(w, key);
    BlobsKeep(t, w, Apply(t, w, Derive(parent, name)), key);
  }

  lemma SweepDeletesKeeps(t: Timing, w: World, pid: nat, key: string)
    requires Inv(t, w) && Enabled(t, w, SweepDeletes(pid, key))
    ensures Inv(t, Apply(t, w, SweepDeletes(pid, key)))
  {
    assert SweepKnows(t, w, w.procs[pid].sweep);
    DerivedIsNotHeld(w, key);
    BlobsKeep(t, w, Apply(t, w, SweepDeletes(pid, key)), key);
  }

  // ----- Steps that choose a key or store a blob

  /** A blob stored: by a write under a key just chosen, or by an upload published. */
  lemma StoresKeep(t: Timing, w: World, after: World, pid: nat, key: string, mtime: int)
    requires Books(t, w) && mtime <= w.now && Keys.MintedShape(key)
    requires key !in w.minted || key in w.uploads
    requires pid in w.procs ==> w.procs[pid].Writing?
    requires var before := if pid in w.procs then w.procs[pid].stored else map[];
             after == w.(minted := w.minted + {key}, uploads := w.uploads - {key}, blobs := w.blobs[key := mtime],
                         procs := w.procs[pid := Writing(before[key := mtime])])
    ensures Books(t, after)
  {
    assert forall h :: !Holds(w, h, key);
    assert !Condemned(w, key);
    StoredHolders(t, w, after, pid, key, mtime);
    forall k | Condemned(after, k) ensures Condemned(w, k) {
      if p :| Drops(after, p, k) {
        assert Drops(w, p, k);
      } else if p :| FoundOrphan(after, p, k) {
        assert FoundOrphan(w, p, k);
      }
    }
    Keys.MintedIsOriginal(key);
    hide Holds, Condemned, Late;
    assert Unique(after);
    assert Chosen(after);
    assert Spared(t, after);
    StoredPresent(t, w, after, pid, key, mtime);
    StoredSweeps(t, w, after, pid, key);
  }

  /** Who holds what after a blob is stored: as before, and its write the new key. */
  lemma StoredHolders(t: Timing, w: World, after: World, pid: nat, key: string, mtime: int)
    requires after.files == w.files && after.trash == w.trash && after.now == w.now
    requires pid in w.procs ==> w.procs[pid].Writing?
    requires pid in after.procs && after.procs[pid].Writing?
    requires after.procs == w.procs[pid := after.procs[pid]]
    requires var before := if pid in w.procs then w.procs[pid].stored else map[];
             after.procs[pid].stored == before[key := mtime]
    ensures forall h, k :: Holds(after, h, k) ==>
              (h == InFlight(pid, key) && k == key) || (Holds(w, h, k)
                  && (k != key ==> Late(t, after, h) == Late(t, w, h)))
  {
  }

  lemma StoredPresent(t: Timing, w: World, after: World, pid: nat, key: string, mtime: int)
    requires Present(t, w) && mtime <= w.now
    requires pid in w.procs ==> w.procs[pid].Writing?
    requires forall h :: !Holds(w, h, key)
    requires var before := if pid in w.procs then w.procs[pid].stored else map[];
             after == w.(minted := w.minted + {key}, uploads := w.uploads - {key}, blobs := w.blobs[key := mtime],
                         procs := w.procs[pid := Writing(before[key := mtime])])
    ensures Present(t, after)
  {
    StoredHolders(t, w, after, pid, key, mtime);
    forall p, k | Holds(after, InFlight(p, k), k)
      ensures after.procs[p].stored[k] <= after.now && (k in after.blobs ==> after.blobs[k] == after.procs[p].stored[k])
    {
      assert k != key ==> Holds(w, InFlight(p, k), k);
    }
  }

  lemma StoredSweeps(t: Timing, w: World, after: World, pid: nat, key: string)
    requires SweepsKnow(t, w) && after.now == w.now
    requires forall h :: !Holds(w, h, key)
    requires forall h, k :: Holds(after, h, k) && !h.InFlight? ==> Holds(w, h, k)
    requires forall k :: k != key ==>
             (k in after.blobs <==> k in w.blobs)
             && (k in w.blobs ==> after.blobs[k] == w.blobs[k])
    requires forall p :: p in after.procs && after.procs[p].Sweeping? ==> p in w.procs && after.procs[p] == w.procs[p]
    ensures SweepsKnow(t, after)
  {
    hide Holds;
    forall p | p in after.procs && after.procs[p].Sweeping? ensures SweepKnows(t, after, after.procs[p].sweep) {
      assert SweepKnows(t, w, w.procs[p].sweep);
    }
  }

  lemma StoreKeeps(t: Timing, w: World, pid: nat, key: string)
    requires Inv(t, w) && Enabled(t, w, Store(pid, key)) && Assumed(t, w, Store(pid, key))
    ensures Inv(t, Apply(t, w, Store(pid, key)))
  {
    var after := Apply(t, w, Store(pid, key));
    assert key !in w.uploads;
    assert after.uploads == w.uploads - {key};
    StoresKeep(t, w, after, pid, key, w.now);
  }

  lemma PublishKeeps(t: Timing, w: World, pid: nat, key: string, mtime: int)
    requires Inv(t, w) && Enabled(t, w, Publish(pid, key, mtime))
    ensures Inv(t, Apply(t, w, Publish(pid, key, mtime)))
  {
    var after := Apply(t, w, Publish(pid, key, mtime));
    assert after.minted == w.minted + {key};
    StoresKeep(t, w, after, pid, key, mtime);
  }

  lemma BeginUploadKeeps(t: Timing, w: World, key: string)
    requires Inv(t, w) && Enabled(t, w, BeginUpload(key)) && Assumed(t, w, BeginUpload(key))
    ensures Inv(t, Apply(t, w, BeginUpload(key)))
  {
    var after := Apply(t, w, BeginUpload(key));
    forall h, k ensures Holds(after, h, k) == Holds(w, h, k) && Late(t, after, h) == Late(t, w, h) {}
    forall k | Condemned(after, k) ensures Condemned(w, k) {
      if p :| Drops(after, p, k) {
        assert Drops(w, p, k);
      } else if p :| FoundOrphan(after, p, k) {
        assert FoundOrphan(w, p, k);
      }
    }
    forall p | p in after.procs && after.procs[p].Sweeping? ensures SweepKnows(t, after, after.procs[p].sweep) {
      assert SweepKnows(t, w, w.procs[p].sweep);
    }
    assert key !in w.blobs by {
      Keys.MintedIsOriginal(key);
    }
    assert Unique(after) && Chosen(after) && Present(t, after) && Spared(t, after);
  }

  // ----- Steps that condemn

  lemma RefusedKeeps(t: Timing, w: World, pid: nat)
    requires Inv(t, w) && Enabled(t, w, Refused(pid))
    ensures Inv(t, Apply(t, w, Refused(pid)))
  {
    var after := Apply(t, w, Refused(pid));
    var released := w.procs[pid].stored.Keys;
    RefusedReleases(w, after, pid, released);
    CondemnsNoMore(w, after, pid, released);
    RefusedTraced(w, after, pid, released);
    Rehold(t, w, after, (h: Holder) => h, released);
  }

  lemma RefusedReleases(w: World, after: World, pid: nat, keys: set<string>)
    requires Unique(w) && pid in w.procs && w.procs[pid].Writing? && keys == w.procs[pid].stored.Keys
    requires after == w.(procs := w.procs[pid := Dropping(keys)])
    ensures forall k :: k in keys ==> exists h :: Holds(w, h, k)
    ensures forall h, k :: k in keys ==> !Holds(after, h, k)
  {
    forall k | k in keys ensures exists h :: Holds(w, h, k) {
      assert Holds(w, InFlight(pid, k), k);
    }
    forall h, k | k in keys ensures !Holds(after, h, k) {
      assert Holds(w, InFlight(pid, k), k);
      assert Holds(after, h, k) ==> Holds(w, h, k);
    }
  }

  lemma RefusedTraced(w: World, after: World, pid: nat, keys: set<string>)
    requires pid in w.procs && after == w.(procs := w.procs[pid := Dropping(keys)])
    ensures Traced(w, after, (h: Holder) => h) && SameProcs(w, after)
  {
  }

  lemma CondemnsNoMore(w: World, after: World, pid: nat, keys: set<string>)
    requires after.procs == w.procs[pid := Dropping(keys)]
    requires forall b, k :: b in after.lost && k in after.lost[b] ==> b in w.lost && k in w.lost[b]
    ensures forall k :: Condemned(after, k) ==> Condemned(w, k) || k in keys
  {
    forall k | Condemned(after, k) ensures Condemned(w, k) || k in keys {
      if p :| Drops(after, p, k) {
        assert p != pid ==> Drops(w, p, k);
      } else if b :| b in after.lost && k in after.lost[b] {
        assert b in w.lost && k in w.lost[b];
      } else {
        var p :| FoundOrphan(after, p, k);
        assert FoundOrphan(w, p, k);
      }
    }
  }

  lemma DestroyKeeps(t: Timing, w: World, pid: nat, id: BatchId)
    requires Inv(t, w) && Enabled(t, w, Destroy(pid, id))
    ensures Inv(t, Apply(t, w, Destroy(pid, id)))
  {
    hide TreeOk, Restores.Deletion, Books, KeysOf;
    DestroyBooks(t, w, Apply(t, w, Destroy(pid, id)), pid, id);
  }

  lemma DestroyBooks(t: Timing, w: World, after: World, pid: nat, id: BatchId)
    requires Books(t, w) && id in w.trash && pid !in w.procs
    requires after == w.(trash := w.trash - {id}, procs := w.procs[pid := Dropping(KeysOf(w.trash[id]))])
    ensures Books(t, after)
  {
    hide KeysOf;
    var released := KeysOf(w.trash[id]);
    DestroyReleases(w, after, id);
    CondemnsNoMore(w, after, pid, released);
    Rehold(t, w, after, (h: Holder) => h, released);
  }

  lemma DestroyReleases(w: World, after: World, id: BatchId)
    requires Unique(w) && id in w.trash && after.files == w.files && after.trash == w.trash - {id}
    requires forall p :: p in after.procs && after.procs[p].Writing? ==> p in w.procs && after.procs[p] == w.procs[p]
    ensures forall k :: k in KeysOf(w.trash[id]) ==> exists h :: Holds(w, h, k)
    ensures forall h, k :: k in KeysOf(w.trash[id]) ==> !Holds(after, h, k)
  {
    forall k | k in KeysOf(w.trash[id]) ensures exists h :: Holds(w, h, k) {
      var p :| p in w.trash[id] && w.trash[id][p].File? && w.trash[id][p].key == k;
      assert Holds(w, AtTrash(id, p), k);
    }
    forall h, k | k in KeysOf(w.trash[id]) ensures !Holds(after, h, k) {
      var p :| p in w.trash[id] && w.trash[id][p].File? && w.trash[id][p].key == k;
      assert Holds(w, AtTrash(id, p), k);
      assert Holds(after, h, k) ==> Holds(w, h, k);
    }
  }

  lemma DestroyLostKeeps(t: Timing, w: World, pid: nat, batch: string)
    requires Inv(t, w) && Enabled(t, w, DestroyLost(pid, batch))
    ensures Inv(t, Apply(t, w, DestroyLost(pid, batch)))
  {
    var after := Apply(t, w, DestroyLost(pid, batch));
    CondemnsNoMore(w, after, pid, w.lost[batch]);
    forall k | k in w.lost[batch] ensures Condemned(w, k) {}
    Rehold(t, w, after, (h: Holder) => h, {});
  }

  // ----- The sweep

  /** A sweep moving on, its orphans aside: nothing held changes. */
  ghost predicate SweepMoves(w: World, after: World, pid: nat, s: Sweep) {
    after.procs == w.procs[pid := Sweeping(s)] && after == w.(procs := after.procs, lost := after.lost)
    && (pid in w.procs ==> w.procs[pid].Sweeping?)
  }

  lemma SweepMovesKeeps(t: Timing, w: World, after: World, pid: nat, s: Sweep)
    requires Books(t, w) && SweepMoves(w, after, pid, s) && SweepKnows(t, w, s)
    requires forall k :: Condemned(after, k) ==>
               Condemned(w, k) || (k in w.minted && k !in w.uploads && forall h :: Holds(w, h, k) ==> Late(t, w, h))
    ensures Books(t, after)
  {
    forall h, k ensures Holds(after, h, k) == Holds(w, h, k) && Late(t, after, h) == Late(t, w, h) {}
    forall p | p in after.procs && after.procs[p].Sweeping? ensures SweepKnows(t, after, after.procs[p].sweep) {
      assert p != pid ==> SweepKnows(t, w, w.procs[p].sweep);
    }
    assert Unique(after) && Chosen(after) && Present(t, after) && Spared(t, after);
  }

  /** Unless it finds one, a sweep that moves on condemns nothing new. */
  lemma SweepCondemnsNothing(w: World, after: World, pid: nat, s: Sweep)
    requires SweepMoves(w, after, pid, s) && after.lost == w.lost
    requires s.Listing? ==> forall k :: k in s.orphans ==> FoundOrphan(w, pid, k)
    ensures forall k :: Condemned(after, k) ==> Condemned(w, k)
  {
    forall k | Condemned(after, k) ensures Condemned(w, k) {
      if p :| Drops(after, p, k) {
        assert Drops(w, p, k);
      } else if p :| FoundOrphan(after, p, k) {
        assert FoundOrphan(w, p, k);
      }
    }
  }

  lemma SweepFilesKeeps(t: Timing, w: World, pid: nat)
    requires Inv(t, w) && Enabled(t, w, SweepFiles(pid))
    ensures Inv(t, Apply(t, w, SweepFiles(pid)))
  {
    var after := Apply(t, w, SweepFiles(pid));
    var s := ReadFiles(w.now, FileKeys(w.files));
    SweepCondemnsNothing(w, after, pid, s);
    SweepMovesKeeps(t, w, after, pid, s);
  }

  lemma SweepTrashKeeps(t: Timing, w: World, pid: nat)
    requires Inv(t, w) && Enabled(t, w, SweepTrash(pid))
    ensures Inv(t, Apply(t, w, SweepTrash(pid)))
  {
    var after := Apply(t, w, SweepTrash(pid));
    var before := w.procs[pid].sweep;
    assert SweepKnows(t, w, before);
    var s := ReadBoth(before.since, before.referenced + TrashKeys(w));
    forall h, k | Holds(w, h, k) && h.AtTrash? ensures k in TrashKeys(w) {}
    SweepCondemnsNothing(w, after, pid, s);
    SweepMovesKeeps(t, w, after, pid, s);
  }

  lemma SweepCutoffKeeps(t: Timing, w: World, pid: nat)
    requires Inv(t, w) && Enabled(t, w, SweepCutoff(pid)) && Assumed(t, w, SweepCutoff(pid))
    ensures Inv(t, Apply(t, w, SweepCutoff(pid)))
  {
    var after := Apply(t, w, SweepCutoff(pid));
    var before := w.procs[pid].sweep;
    assert SweepKnows(t, w, before);
    var s := Listing(before.since, w.now - t.grace, before.referenced, {}, {});
    SweepCondemnsNothing(w, after, pid, s);
    SweepMovesKeeps(t, w, after, pid, s);
  }

  /** What a sweep takes for an orphan is nobody's, or a write's that is too late. */
  lemma OrphanIsNobodys(t: Timing, w: World, s: Sweep, key: string)
    requires t.deadline + t.window < t.grace
    requires Books(t, w) && s.Listing? && SweepKnows(t, w, s)
    requires key in w.blobs && Listed(s, key, w.blobs[key])
    requires !Keys.ParentOf(key).derived && key !in s.referenced
    ensures key in w.minted && key !in w.uploads
    ensures forall h :: Holds(w, h, key) ==> Late(t, w, h)
  {
    assert !(Keys.DERIVED_PREFIX <= key);
    forall h | Holds(w, h, key) ensures Late(t, w, h) {
      if h.InFlight? {
        assert h == InFlight(h.pid, key);
        assert Holds(w, InFlight(h.pid, key), key);
      }
    }
  }

  lemma SweepSeesKeeps(t: Timing, w: World, pid: nat, key: string)
    requires t.deadline + t.window < t.grace
    requires Inv(t, w) && Enabled(t, w, SweepSees(pid, key))
    ensures Inv(t, Apply(t, w, SweepSees(pid, key)))
  {
    var after := Apply(t, w, SweepSees(pid, key));
    var before := w.procs[pid].sweep;
    var s := Judged(before, key);
    assert SweepKnows(t, w, before);
    assert Keys.ParentOf(key).derived ==> Keys.DERIVED_PREFIX <= key;
    if s.orphans == before.orphans {
      forall k | k in s.orphans ensures FoundOrphan(w, pid, k) {}
      SweepCondemnsNothing(w, after, pid, s);
    } else {
      OrphanIsNobodys(t, w, before, key);
      forall k | Condemned(after, k) && k != key ensures Condemned(w, k) {
        if p :| Drops(after, p, k) {
          assert Drops(w, p, k);
        } else if p :| FoundOrphan(after, p, k) {
          assert FoundOrphan(w, p, k);
        }
      }
    }
    SweepMovesKeeps(t, w, after, pid, s);
  }

  lemma SweepTrashesKeeps(t: Timing, w: World, pid: nat, batch: string)
    requires Inv(t, w) && Enabled(t, w, SweepTrashes(pid, batch)) && Assumed(t, w, SweepTrashes(pid, batch))
    ensures Inv(t, Apply(t, w, SweepTrashes(pid, batch)))
  {
    var after := Apply(t, w, SweepTrashes(pid, batch));
    var before := w.procs[pid].sweep;
    assert SweepKnows(t, w, before);
    var s := Deleting(before.referenced + before.orphans, before.derived);
    forall k | Condemned(after, k) ensures Condemned(w, k) {
      if p :| Drops(after, p, k) {
        assert Drops(w, p, k);
      } else if b :| b in after.lost && k in after.lost[b] {
        if b in w.lost && k in w.lost[b] {
        } else {
          assert FoundOrphan(w, pid, k);
        }
      } else {
        var p :| FoundOrphan(after, p, k);
        assert FoundOrphan(w, p, k);
      }
    }
    SweepMovesKeeps(t, w, after, pid, s);
  }
}
