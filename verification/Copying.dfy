/** internal/files/copy.go: every blob is written first, and one transaction then
    commits every row. */
module Copying {
  import opened Text
  import opened Paths
  import opened Tree
  import opened Repository
  import opened Blobs
  import opened Files
  import opened Copies
  import opened Endings
  import Keys
  import Planning
  import Removals
  import Stores
  import Trashes

  /** A copied row: its source's bytes under a key of its own. */
  ghost predicate CopiedRow(copy: Row, source: Row, before: Objects, after: Objects, digest: string -> string) {
    && copy.Dir? == source.Dir?
    && (copy.File? ==>
          && source.key in before && copy.key in after && copy.key !in before
          && after[copy.key].data == before[source.key].data
          && copy.size == source.size == |before[source.key].data|
          && copy.etag == source.etag == digest(before[source.key].data))
  }

  /** The first `n` rows of a plan with their bytes written, each file under the
      name drawn for its place. */
  ghost predicate WroteFirst(written: seq<Planned>, plan: seq<Planned>, names: nat -> string,
                             before: Objects, after: Objects, digest: string -> string) {
    && |written| <= |plan|
    && (forall i :: 0 <= i < |written| ==>
          && written[i].path == plan[i].path
          && CopiedRow(written[i].row, plan[i].row, before, after, digest)
          && (written[i].row.File? ==> written[i].row.key == names(i) && ValidPath(written[i].path)))
  }

  /** Nothing the store held has changed. */
  ghost predicate StillThere(before: Objects, after: Objects) {
    forall k :: k in before ==> k in after && after[k] == before[k]
  }

  /** Only names drawn for this copy have come. */
  ghost predicate OnlyNames(before: Objects, after: Objects, names: nat -> string, n: nat) {
    forall k :: k in after && k !in before ==> exists i: nat :: i < n && k == names(i)
  }

  ghost predicate NewNames(s: Service, names: nat -> string)
    reads s.repo, s.blobs
  {
    (forall i: nat :: s.Unused(names(i))) && forall i: nat, j: nat :: names(i) == names(j) ==> i == j
  }

  /** The sources' bytes are there, under names that are not among the new ones. */
  ghost predicate SourcesStand(plan: seq<Planned>, objects: Objects, names: nat -> string, digest: string -> string) {
    forall i :: 0 <= i < |plan| && plan[i].row.File? ==>
      Matches(plan[i].row, objects, digest) && forall j: nat :: names(j) != plan[i].row.key
  }

  lemma PutKeeps(before: Objects, middle: Objects, after: Objects, key: string, names: nat -> string, n: nat)
    requires StillThere(before, middle) && OnlyNames(before, middle, names, n)
    requires key !in before && key == names(n) && after - {key} == middle - {key}
    ensures StillThere(before, after) && OnlyNames(before, after, names, n + 1)
  {
    forall k | k != key ensures k in after <==> k in middle ensures k in middle ==> after[k] == middle[k] {
      assert k in after - {key} <==> k in middle - {key};
      if k in middle { assert (after - {key})[k] == (middle - {key})[k]; }
    }
  }

  lemma WroteStays(written: seq<Planned>, plan: seq<Planned>, names: nat -> string, before: Objects,
                   middle: Objects, after: Objects, key: string, digest: string -> string)
    requires WroteFirst(written, plan, names, before, middle, digest) && after - {key} == middle - {key}
    requires forall i :: 0 <= i < |written| ==> names(i) != key
    ensures WroteFirst(written, plan, names, before, after, digest)
  {
    hide ValidPath;
    forall i | 0 <= i < |written| ensures CopiedRow(written[i].row, plan[i].row, before, after, digest) {
      if written[i].row.File? {
        var k := written[i].row.key;
        assert k in middle - {key} && (after - {key})[k] == (middle - {key})[k];
      }
    }
  }

  lemma WroteMore(written: seq<Planned>, plan: seq<Planned>, names: nat -> string,
                  before: Objects, after: Objects, row: Row, digest: string -> string)
    requires WroteFirst(written, plan, names, before, after, digest) && |written| < |plan|
    requires CopiedRow(row, plan[|written|].row, before, after, digest)
    requires row.File? ==> row.key == names(|written|) && ValidPath(plan[|written|].path)
    ensures WroteFirst(written + [Planned(plan[|written|].path, row)], plan, names, before, after, digest)
  {
    hide ValidPath, CopiedRow;
  }

  /** Moves the bytes and answers with the rows that will describe them. When one
      cannot be copied the ones written before it are thrown away, best effort;
      nothing the store already held is touched either way. */
  method WriteCopies(s: Service, plan: seq<Planned>, names: nat -> string, sniff: string -> string)
    returns (r: Answer<seq<Planned>>, ghost wrote: nat -> bool)
    requires NewNames(s, names) && SourcesStand(plan, s.blobs.objects, names, s.digest)
    modifies s.blobs
    ensures StillThere(old(s.blobs.objects), s.blobs.objects)
    ensures OnlyNames(old(s.blobs.objects), s.blobs.objects, names, |plan|)
    ensures r.Done? ==> |r.value| == |plan|
                        && WroteFirst(r.value, plan, names, old(s.blobs.objects), s.blobs.objects, s.digest)
    ensures Writing(plan, 0, wrote) == Outcome(r)
  {
    hide StillThere, OnlyNames, WroteFirst, ValidPath, Writing;
    ghost var before := s.blobs.objects;
    wrote := _ => true;
    var rows: seq<Planned> := [];
    WroteNone(plan, names, before, s.digest);
    while |rows| < |plan|
      invariant |rows| <= |plan| && StillThere(before, s.blobs.objects)
      invariant OnlyNames(before, s.blobs.objects, names, |rows|)
      invariant WroteFirst(rows, plan, names, before, s.blobs.objects, s.digest)
      invariant forall j: nat :: wrote(j)
      invariant FilesValid(plan, |rows|)
    {
      var step := plan[|rows|];
      ghost var middle := s.blobs.objects;
      if step.row.Dir? {
        PutKeeps(before, middle, middle, names(|rows|), names, |rows|);
        WroteMore(rows, plan, names, before, middle, Dir, s.digest);
        rows := rows + [Planned(step.path, Dir)];
        continue;
      }
      var row := CopyOne(s, step, names(|rows|), sniff);
      PutKeeps(before, middle, s.blobs.objects, names(|rows|), names, |rows|);
      if !row.Done? {
        OnlyMoreNames(before, s.blobs.objects, names, |rows| + 1, |plan|);
        WroteNew(rows, plan, names, before, middle, s.digest);
        Discard(s, rows, plan, names, before);
        ghost var stuck := |rows|;
        StopsAt(plan, 0, stuck, row);
        return if row.Refused? then Refused(row.error) else Broken, j => j != stuck;
      }
      WroteStays(rows, plan, names, before, middle, s.blobs.objects, names(|rows|), s.digest);
      SourceStood(plan, before, middle, s.blobs.objects, names, |rows|, row.value, s.digest);
      WroteMore(rows, plan, names, before, s.blobs.objects, row.value, s.digest);
      rows := rows + [Planned(step.path, row.value)];
    }
    WritesAll(plan, 0);
    return Done(rows), wrote;
  }

  function Outcome<T>(r: Answer<T>): Answer<bool> {
    match r
    case Done(_) => Done(true)
    case Refused(e) => Refused(e)
    case Broken => Broken
  }

  predicate FilesValid(plan: seq<Planned>, n: nat)
    requires n <= |plan|
  {
    forall i :: 0 <= i < n && plan[i].row.File? ==> ValidPath(plan[i].path)
  }

  lemma {:induction false} WritesAll(plan: seq<Planned>, i: nat)
    requires i <= |plan| && FilesValid(plan, |plan|)
    ensures Writing(plan, i, _ => true) == Done(true)
    decreases |plan| - i
  {
    hide ValidPath;
    if i == |plan| {
    } else {
      WritesAll(plan, i + 1);
    }
  }

  lemma {:induction false} StopsAt(plan: seq<Planned>, i: nat, stuck: nat, row: Answer<Row>)
    requires i <= stuck < |plan| && FilesValid(plan, stuck) && plan[stuck].row.File? && !row.Done?
    requires row.Refused? <==> !ValidPath(plan[stuck].path)
    requires row.Refused? ==> row.error == InvalidPath
    ensures Writing(plan, i, j => j != stuck) == Outcome(row)
    decreases stuck - i
  {
    hide ValidPath;
    if i == stuck {
    } else {
      StopsAt(plan, i + 1, stuck, row);
    }
  }

  /** Reads one file and writes its bytes under a key of their own. An empty one is
      not fetched. */
  method CopyOne(s: Service, step: Planned, key: string, sniff: string -> string) returns (r: Answer<Row>)
    requires step.row.File?
    modifies s.blobs
    ensures s.blobs.objects - {key} == old(s.blobs.objects) - {key}
    ensures r.Refused? ==> r.error == InvalidPath
    ensures r.Refused? <==> !ValidPath(step.path)
    ensures r.Done? ==>
              && key in s.blobs.objects
              && r.value == File(key, |s.blobs.objects[key].data|, s.blobs.objects[key].mtime,
                                 s.digest(s.blobs.objects[key].data),
                                 ContentType(step.row.mime, sniff(s.blobs.objects[key].data)))
              && s.blobs.objects[key].data == ReadBack(step.row, old(s.blobs.objects))
              && |s.blobs.objects[key].data| == step.row.size
    ensures r.Done? && step.row.size > 0 ==>
              && key in s.blobs.objects && step.row.key in old(s.blobs.objects)
              && s.blobs.objects[key].data == old(s.blobs.objects)[step.row.key].data
    ensures r.Done? && step.row.size == 0 ==> key in s.blobs.objects && s.blobs.objects[key].data == ""
  {
    hide ValidPath;
    if !ValidPath(step.path) { return Refused(InvalidPath); }
    var body := "";
    if step.row.size > 0 {
      var got := s.blobs.Get(step.row.key, 0);
      if got.None? { return Broken; }
      body := got.value;
    }
    r := s.StoreBlob(step.path, body, step.row.size, step.row.mime, sniff(body), key);
  }

  /** What a reader of a row's bytes gets. */
  function ReadBack(row: Row, objects: Objects): string
    requires row.File?
  {
    if row.size > 0 && row.key in objects then objects[row.key].data else ""
  }

  /** A row just copied has the bytes its source had when the copy began. */
  lemma SourceStood(plan: seq<Planned>, before: Objects, middle: Objects, after: Objects, names: nat -> string,
                    i: nat, row: Row, digest: string -> string)
    requires i < |plan| && plan[i].row.File? && SourcesStand(plan, before, names, digest)
    requires StillThere(before, middle) && OnlyNames(before, middle, names, i)
    requires row.File? && row.key == names(i) && row.key !in before && row.key in after
    requires after[row.key].data == ReadBack(plan[i].row, middle)
             && row.size == |after[row.key].data| == plan[i].row.size
    requires row.etag == digest(after[row.key].data)
    ensures CopiedRow(row, plan[i].row, before, after, digest)
  {
    var k := plan[i].row.key;
    assert k in before && k in middle && middle[k] == before[k];
    assert plan[i].row.size == 0 ==> before[k].data == "";
  }

  /** Throws away the blobs of rows nothing will commit, as far as the store lets it. */
  method Discard(s: Service, rows: seq<Planned>, plan: seq<Planned>, names: nat -> string, ghost before: Objects)
    requires forall i :: 0 <= i < |rows| && rows[i].row.File? ==> rows[i].row.key !in before
    requires StillThere(before, s.blobs.objects) && OnlyNames(before, s.blobs.objects, names, |plan|)
    modifies s.blobs
    ensures StillThere(before, s.blobs.objects) && OnlyNames(before, s.blobs.objects, names, |plan|)
  {
    var i := 0;
    while i < |rows|
      invariant StillThere(before, s.blobs.objects) && OnlyNames(before, s.blobs.objects, names, |plan|)
    {
      if rows[i].row.File? {
        var _ := s.blobs.Delete(rows[i].row.key);
      }
      i := i + 1;
    }
  }

  lemma WroteNone(plan: seq<Planned>, names: nat -> string, before: Objects, digest: string -> string)
    ensures StillThere(before, before) && OnlyNames(before, before, names, 0)
    ensures WroteFirst([], plan, names, before, before, digest)
  {
  }

  lemma OnlyMoreNames(before: Objects, after: Objects, names: nat -> string, n: nat, m: nat)
    requires OnlyNames(before, after, names, n) && n <= m
    ensures OnlyNames(before, after, names, m)
  {
  }

  lemma WroteNew(written: seq<Planned>, plan: seq<Planned>, names: nat -> string, before: Objects, after: Objects,
                 digest: string -> string)
    requires WroteFirst(written, plan, names, before, after, digest)
    ensures forall i :: 0 <= i < |written| && written[i].row.File? ==> written[i].row.key !in before
    ensures forall i :: 0 <= i < |written| && written[i].row.File? ==> written[i].row.key == names(i)
  {
    hide ValidPath;
    forall i | 0 <= i < |written| && written[i].row.File? ensures written[i].row.key !in before {
      assert CopiedRow(written[i].row, plan[i].row, before, after, digest);
    }
  }

  // ----- The commit

  /** The only transaction, and the last thing that happens. */
  method CommitCopies(s: Service, owner: string, to: string, rows: seq<Planned>)
    returns (replaced: seq<Planned>, failed: Option<Error>)
    requires TreeOk(s.repo.files)
    modifies s.repo`files
    ensures failed == Refusal(Tree.CommitCopies(old(s.repo.files), owner, to, rows))
    ensures failed.None? ==>
              var committed := Tree.CommitCopies(old(s.repo.files), owner, to, rows).value;
              s.repo.files == committed.rows && Trashes.KeysIn(replaced) == Stores.KeysOf(committed.replaced)
    ensures failed.Some? ==> s.repo.files == old(s.repo.files)
    ensures Loc(owner, to) !in old(s.repo.files) ==> replaced == []
  {
    hide TreeOk, ValidPath, Without, Removals.Took;
    var before := s.repo.files;
    replaced, failed := [], None;
    var there := s.repo.FileByPath(Loc(owner, to));
    if there.Ok? {
      replaced, failed := Removals.RemoveTree(s.repo, Loc(owner, to));
      if failed.Some? { s.repo.files := before; return; }
      TookKeys(replaced, Subtree(before, owner, to));
    } else if there.error != NotFound {
      return [], Some(there.error);
    }
    failed := InsertRows(s, owner, rows);
    if failed.Some? { s.repo.files := before; }
  }

  method InsertRows(s: Service, owner: string, rows: seq<Planned>) returns (failed: Option<Error>)
    modifies s.repo`files
    ensures failed == Refusal(InsertAll(old(s.repo.files), owner, rows))
    ensures failed.None? ==> Ok(s.repo.files) == InsertAll(old(s.repo.files), owner, rows)
  {
    hide ValidPath, Tree.RequireParent;
    ghost var base := s.repo.files;
    failed := None;
    assert rows[0..] == rows;
    var i := 0;
    while i < |rows|
      invariant i <= |rows| && failed.None?
      invariant InsertAll(base, owner, rows) == InsertAll(s.repo.files, owner, rows[i..])
    {
      assert rows[i..][0] == rows[i] && rows[i..][1..] == rows[i + 1..];
      var l := Loc(owner, rows[i].path);
      failed := s.RequireParent(l);
      if failed.Some? { return; }
      if rows[i].row.Dir? {
        failed := s.repo.CreateDir(l);
      } else {
        failed := s.repo.PutFile(l, rows[i].row);
      }
      if failed.Some? { return; }
      i := i + 1;
    }
    assert rows[i..] == [];
  }

  lemma TookKeys(taken: seq<Planned>, tree: map<string, Row>)
    requires Removals.Took(taken, tree)
    ensures Trashes.KeysIn(taken) == Stores.KeysOf(tree)
  {
    forall k | k in Trashes.KeysIn(taken) ensures k in Stores.KeysOf(tree) {
      var i :| 0 <= i < |taken| && taken[i].row.File? && taken[i].row.key == k;
      assert IsRow(taken[i], taken[i].path, tree);
    }
    forall k | k in Stores.KeysOf(tree) ensures k in Trashes.KeysIn(taken) {
      var p :| p in tree && tree[p].File? && tree[p].key == k;
      assert IsPlanned(taken, p);
      var i :| 0 <= i < |taken| && taken[i].path == p;
      assert IsRow(taken[i], taken[i].path, tree);
    }
  }

  // ----- The whole copy

  /** The destination holds the source tree as it was when the copy began, each file
      with the same bytes under a key of its own, and nothing else; what is not the
      destination's is as it was. */
  ghost predicate IsCopied(before: Books, after: Books, owner: string, from: string, to: string, recursive: bool,
                           digest: string -> string) {
    && (forall l :: !Within(l, owner, to) ==>
        (l in after.files <==> l in before.files)
        && (l in before.files ==> after.files[l] == before.files[l]))
    && (forall p :: AtOrUnder(p, from) ==>
          CopiedTo(before, after, owner, p, Rebase(p, from, to), recursive || p == from, digest))
  }

  ghost predicate CopiedTo(before: Books, after: Books, owner: string, p: string, copy: string, included: bool,
                           digest: string -> string) {
    && (Loc(owner, copy) in after.files <==> Loc(owner, p) in before.files && included)
    && (Loc(owner, copy) in after.files ==>
          CopiedRow(after.files[Loc(owner, copy)], before.files[Loc(owner, p)], before.objects, after.objects, digest))
  }

  lemma WrittenCopies(written: seq<Planned>, plan: seq<Planned>, names: nat -> string, before: Objects,
                      after: Objects, digest: string -> string)
    requires WroteFirst(written, plan, names, before, after, digest) && |written| == |plan|
    ensures WrittenFrom(written, plan)
  {
    hide ValidPath;
    forall i | 0 <= i < |plan| ensures CopyOf(written[i], plan[i]) {
      assert CopiedRow(written[i].row, plan[i].row, before, after, digest);
    }
  }

  /** What a commit of written rows leaves is the copy. */
  lemma CommittedIsCopy(before: Books, after: Books, owner: string, from: string, to: string, recursive: bool,
                        plan: seq<Planned>, written: seq<Planned>, names: nat -> string, digest: string -> string)
    requires TreeOk(before.files) && PlansCopy(plan, before.files, owner, from, to, recursive)
    requires |written| == |plan| && WroteFirst(written, plan, names, before.objects, after.objects, digest)
    requires Tree.CommitCopies(before.files, owner, to, written).Ok?
    requires after.files == Tree.CommitCopies(before.files, owner, to, written).value.rows
    ensures IsCopied(before, after, owner, from, to, recursive, digest)
    ensures after.files == Without(before.files, owner, to) + PlanRows(written, owner)
    ensures DistinctPaths(written) && TreeOk(after.files)
    ensures Tree.CommitCopies(before.files, owner, to, written).value.replaced == Subtree(before.files, owner, to)
  {
    hide ValidPath, AtOrUnder, Rebase, Tree.CommitCopies, PlanRows, TreeOk, PlannedFrom, Tree.RequireParent,
        CopiedRow, ParentsFirst;
    WrittenCopies(written, plan, names, before.objects, after.objects, digest);
    WrittenKeepsOrder(written, plan, to);
    CommitIs(before.files, owner, to, written);
    forall l ensures l in PlanRows(written, owner) ==> Within(l, owner, to) {
      WrittenWithin(before.files, owner, from, to, recursive, plan, written, l);
    }
    forall p | AtOrUnder(p, from)
      ensures CopiedTo(before, after, owner, p, Rebase(p, from, to), recursive || p == from, digest)
    {
      var i := CopyAt(before.files, owner, from, to, recursive, plan, written, p);
      RebaseFacts(p, from, to);
    }
  }

  /** Dropping what the destination held takes none of the new blobs. */
  lemma WroteSurvives(written: seq<Planned>, plan: seq<Planned>, names: nat -> string, before: Objects,
                      middle: Objects, after: Objects, keys: set<string>, digest: string -> string)
    requires WroteFirst(written, plan, names, before, middle, digest) && DropsOnly(middle, after, keys)
    requires forall i: nat :: Keys.MintedShape(names(i)) && names(i) !in keys
    ensures WroteFirst(written, plan, names, before, after, digest)
  {
    hide ValidPath, Keys.MintedShape, DropsOnly;
    forall i | 0 <= i < |written| ensures CopiedRow(written[i].row, plan[i].row, before, after, digest) {
      assert CopiedRow(written[i].row, plan[i].row, before, middle, digest);
      if written[i].row.File? {
        Keys.MintedIsOriginal(names(i));
        DropSpares(middle, after, keys, names(i));
      }
    }
  }

  /** The rows of a commit: each of them the copy's, with its key, or one that stood
      outside the destination. */
  lemma CommittedRow(before: Books, after: Books, owner: string, to: string, written: seq<Planned>, h: Stores.Holder,
                     row: Row)
    returns (i: nat)
    requires after.files == Without(before.files, owner, to) + PlanRows(written, owner) && after.trash == before.trash
    requires Filed(after, h, row)
    ensures (i < |written| && h == Stores.AtRow(Loc(owner, written[i].path)) && written[i].row == row)
            || (Filed(before, h, row) && (h.AtRow? ==> !Within(h.l, owner, to)))
  {
    hide AtOrUnder, PlanRows;
    i := 0;
    if h.AtRow? && h.l in PlanRows(written, owner) {
      i := PlanRowsFrom(written, owner, h.l);
    }
  }

  lemma CopiedIsSound(before: Books, stored: Objects, after: Books, owner: string, to: string,
                      plan: seq<Planned>, written: seq<Planned>, names: nat -> string, digest: string -> string)
    requires Sound(before, digest) && DistinctPaths(written)
    requires WroteFirst(written, plan, names, before.objects, after.objects, digest)
    requires forall i: nat, j: nat :: names(i) == names(j) ==> i == j
    requires forall i: nat :: Keys.MintedShape(names(i))
    requires forall i: nat, h, row :: Filed(before, h, row) ==> row.key != names(i)
    requires after.files == Without(before.files, owner, to) + PlanRows(written, owner) && after.trash == before.trash
    requires StillThere(before.objects, stored)
    requires DropsOnly(stored, after.objects, Stores.KeysOf(Subtree(before.files, owner, to)))
    ensures Sound(after, digest)
  {
    hide ValidPath, AtOrUnder, PlanRows, Keys.MintedShape, DropsOnly, CopiedRow, Without, Subtree, OneEach, Faithful;
    var added := Trashes.KeysIn(written);
    WroteNew(written, plan, names, before.objects, after.objects, digest);
    forall h, row | Filed(after, h, row)
      ensures if row.key in added then NewRowMatches(after, h, row, owner, written, names, digest)
              else Filed(before, h, row)
      ensures row.key !in added && row.key in before.objects ==>
              row.key in after.objects && after.objects[row.key] == before.objects[row.key]
    {
      var i := CommittedRow(before, after, owner, to, written, h, row);
      if i < |written| && h == Stores.AtRow(Loc(owner, written[i].path)) && written[i].row == row {
        assert row.key in added;
        NewRowIs(after, owner, written, plan, names, before.objects, i, digest);
      } else {
        NotAdded(written, names, row.key);
        OldRowSpared(before, stored, after, owner, to, h, row, digest);
      }
    }
    forall h1, h2, r1, r2 | Filed(after, h1, r1) && Filed(after, h2, r2) && r1.key in added && r1.key == r2.key
        ensures h1 == h2 {
      assert NewRowMatches(after, h1, r1, owner, written, names, digest)
          && NewRowMatches(after, h2, r2, owner, written, names, digest);
    }
    CarriedIsSound(before, after, h => h, added, digest);
  }

  ghost predicate NewRowMatches(after: Books, h: Stores.Holder, row: Row, owner: string, written: seq<Planned>,
                                names: nat -> string, digest: string -> string) {
    && Matches(row, after.objects, digest) && row.File?
    && exists i :: 0 <= i < |written| && h == Stores.AtRow(Loc(owner, written[i].path)) && row.key == names(i)
  }

  lemma NewRowIs(after: Books, owner: string, written: seq<Planned>, plan: seq<Planned>, names: nat -> string,
                 before: Objects, i: nat, digest: string -> string)
    requires i < |written| && written[i].row.File? && WroteFirst(written, plan, names, before, after.objects, digest)
    requires Keys.MintedShape(names(i))
    ensures NewRowMatches(after, Stores.AtRow(Loc(owner, written[i].path)), written[i].row, owner, written, names,
            digest)
  {
    hide ValidPath, Keys.MintedShape;
    Keys.MintedIsOriginal(names(i));
    assert CopiedRow(written[i].row, plan[i].row, before, after.objects, digest);
  }

  lemma NotAdded(written: seq<Planned>, names: nat -> string, key: string)
    requires forall i :: 0 <= i < |written| && written[i].row.File? ==> written[i].row.key == names(i)
    requires forall i: nat :: names(i) != key
    ensures key !in Trashes.KeysIn(written)
  {
  }

  lemma OldRowSpared(before: Books, stored: Objects, after: Books, owner: string, to: string,
                     h: Stores.Holder, row: Row, digest: string -> string)
    requires Sound(before, digest) && Filed(before, h, row) && (h.AtRow? ==> !Within(h.l, owner, to))
    requires StillThere(before.objects, stored)
    requires DropsOnly(stored, after.objects, Stores.KeysOf(Subtree(before.files, owner, to)))
    ensures row.key in before.objects ==> row.key in after.objects && after.objects[row.key] == before.objects[row.key]
  {
    hide AtOrUnder, DropsOnly;
    var tree := Subtree(before.files, owner, to);
    forall p | p in tree && tree[p].File? ensures tree[p].key != row.key {
      assert Filed(before, Stores.AtRow(Loc(owner, p)), tree[p]);
    }
    if row.key in before.objects {
      DropSpares(stored, after.objects, Stores.KeysOf(tree), row.key);
    }
  }

  lemma PlanStands(b: Books, owner: string, from: string, to: string, recursive: bool, plan: seq<Planned>,
                   names: nat -> string, digest: string -> string)
    requires Faithful(b, digest) && PlansCopy(plan, b.files, owner, from, to, recursive)
    requires forall i: nat, h, row :: Filed(b, h, row) ==> row.key != names(i)
    ensures SourcesStand(plan, b.objects, names, digest)
  {
    hide AtOrUnder, Rebase, ParentsFirst;
    forall i | 0 <= i < |plan| && plan[i].row.File?
      ensures Matches(plan[i].row, b.objects, digest) && forall j: nat :: names(j) != plan[i].row.key
    {
      assert PlannedFrom(plan[i], b.files, owner, from, to);
      assert Filed(b, Stores.AtRow(Loc(owner, Rebase(plan[i].path, to, from))), plan[i].row);
    }
  }

  /** What the store lost to a copy was the replaced destination's. */
  ghost predicate OnlyReplacedLost(before: Books, after: Objects, owner: string, to: string) {
    forall k :: k in before.objects ==>
      (k in after && after[k] == before.objects[k])
      || exists d :: d in Stores.KeysOf(Subtree(before.files, owner, to)) && BelongsTo(k, d)
  }

  lemma LostToReplaced(before: Books, stored: Objects, after: Objects, owner: string, to: string)
    requires StillThere(before.objects, stored)
    requires DropsOnly(stored, after, Stores.KeysOf(Subtree(before.files, owner, to)))
    ensures OnlyReplacedLost(before, after, owner, to)
  {
    var keys := Stores.KeysOf(Subtree(before.files, owner, to));
    forall k | k in before.objects && k !in after ensures exists d :: d in keys && BelongsTo(k, d) {
      if k in keys {
        assert BelongsTo(k, k);
      } else {
        var d :| d in keys && Keys.DerivedUnder(d) <= k;
        assert BelongsTo(k, d);
      }
    }
  }

  lemma KeysNotNew(b: Books, owner: string, to: string, names: nat -> string)
    requires forall i: nat, h, row :: Filed(b, h, row) ==> row.key != names(i)
    ensures forall i: nat :: names(i) !in Stores.KeysOf(Subtree(b.files, owner, to))
  {
    hide AtOrUnder;
    var tree := Subtree(b.files, owner, to);
    forall i: nat, p | p in tree && tree[p].File? ensures tree[p].key != names(i) {
      assert Filed(b, Stores.AtRow(Loc(owner, p)), tree[p]);
    }
  }

  lemma StoredMoreIsSound(before: Books, after: Books, digest: string -> string)
    requires Sound(before, digest) && after == before.(objects := after.objects)
             && StillThere(before.objects, after.objects)
    ensures Sound(after, digest)
  {
    CarriedIsSound(before, after, h => h, {}, digest);
  }

  /** Copies a file, or a directory with everything under it when the copy recurses.
      The rows come all together or not at all, and a failure leaves the table as it
      was -- but for one: the copy may have been committed when a blob the destination
      held cannot be thrown away, and the call fails all the same. Which it is, the
      store's answers decide: Endings.AllOrNothingExactly. */
  method Copy(s: Service, owner: string, from: string, to: string, recursive: bool,
              names: nat -> string, sniff: string -> string)
    returns (r: Answer<bool>, ghost plan: Result<seq<Planned>>, ghost written: seq<Planned>, ghost a: Answers)
    requires s.Valid() && NewNames(s, names)
    modifies s.repo`files, s.blobs
    ensures s.Valid()
    ensures r.Done? ==> (r.value <==> Loc(owner, to) !in old(s.repo.files))
                        && IsCopied(old(s.Now()), s.Now(), owner, from, to, recursive, s.digest)
    ensures CopyEnding(old(s.repo.files), owner, from, to, plan, written, a).committed ==>
              plan.Ok? && CopyOfTree(old(s.repo.files), owner, from, to, recursive, plan.value, written)
    ensures CopyEnding(old(s.repo.files), owner, from, to, plan, written, a).answer == r
    ensures CopyEnding(old(s.repo.files), owner, from, to, plan, written, a).rows == s.repo.files
    ensures s.repo.files == old(s.repo.files)
            || r.Done?
            || (r.Broken? && ReplacesAFile(old(s.repo.files), owner, to)
                && IsCopied(old(s.Now()), s.Now(), owner, from, to, recursive, s.digest))
    ensures OnlyReplacedLost(old(s.Now()), s.blobs.objects, owner, to)
  {
    hide Sound, TreeOk, ValidPath, IsCopied, PlansCopy, WroteFirst, DropsOnly, StillThere, OnlyNames, SourcesStand;
    hide OnlyReplacedLost, Tree.CommitCopies, Without, Subtree, DistinctPaths, PlanRows, Stores.KeysOf,
        Keys.MintedShape;
    hide Writing, CopyOfTree, ReplacesAFile, ValidateMove, Tree.FileByPath;
    ghost var before := s.Now();
    NothingLost(before, owner, to);
    plan, written, a := Err(NotFound), [], WILLING;
    var refusal := ValidateMove(from, to);
    RefusedMove(from, to);
    if refusal == {InvalidPath} { return Refused(InvalidPath), plan, written, a; }
    if refusal != {} { return Refused(Conflict), plan, written, a; }
    var source := s.repo.FileByPath(Loc(owner, from));
    if source.Err? { return Refused(source.error), plan, written, a; }
    var there := s.repo.FileByPath(Loc(owner, to));
    var created := there == Err(NotFound);
    FoundIs(before.files, Loc(owner, from));
    FoundIs(before.files, Loc(owner, to));
    var steps, failed := Planning.PlanCopy(s.repo, owner, Planned(from, source.value), to, recursive);
    plan := if failed.Some? then Err(failed.value) else Ok(steps);
    if failed.Some? { return Refused(failed.value), plan, written, a; }
    var room: bool := *;
    a := Answers(room, _ => true, _ => true);
    if !room { return Broken, plan, written, a; }
    PlanStands(before, owner, from, to, recursive, steps, names, s.digest) by { SoundIsFaithful(before, s.digest); }
    var copied: Answer<seq<Planned>>;
    ghost var wrote: nat -> bool;
    copied, wrote := WriteCopies(s, steps, names, sniff);
    a := Answers(room, wrote, _ => true);
    ghost var stored := s.blobs.objects;
    StoredMoreIsSound(before, s.Now(), s.digest);
    StillIsLost(before, stored, owner, to);
    if !copied.Done? { return if copied.Refused? then Refused(copied.error) else Broken, plan, written, a; }
    var rows := copied.value;
    written := rows;
    var replaced;
    replaced, failed := CommitCopies(s, owner, to, rows);
    if failed.Some? {
      WroteNew(rows, steps, names, before.objects, stored, s.digest);
      Discard(s, rows, steps, names, before.objects);
      StoredMoreIsSound(before, s.Now(), s.digest);
      StillIsLost(before, s.blobs.objects, owner, to);
      return Refused(failed.value), plan, written, a;
    }
    CommittedIsCopy(before, Books(s.repo.files, s.repo.trash, stored), owner, from, to, recursive, steps, rows, names,
        s.digest);
    NewRows(before, owner, from, to, recursive, steps, rows, names, stored, s.digest);
    var _, ok, drops := Trashes.DropAll(s, replaced);
    a := Answers(room, wrote, drops);
    KeysNotNew(before, owner, to, names);
    WroteSurvives(rows, steps, names, before.objects, stored, s.blobs.objects,
                  Stores.KeysOf(Subtree(before.files, owner, to)), s.digest);
    CommittedIsCopy(before, s.Now(), owner, from, to, recursive, steps, rows, names, s.digest);
    CopiedIsSound(before, stored, s.Now(), owner, to, steps, rows, names, s.digest);
    LostToReplaced(before, stored, s.blobs.objects, owner, to);
    KeysAre(before.files, owner, to);
    if !ok { return Broken, plan, written, a; }
    return Done(created), plan, written, a;
  }

  lemma RefusedMove(from: string, to: string)
    ensures ValidateMove(from, to) in {{}, {InvalidPath}, {Conflict}}
    ensures ValidateMove(from, to) == {} ==> ValidPath(from) && ValidPath(to)
  {
    hide ValidPath;
  }

  lemma FoundIs(rows: Rows, l: Loc)
    ensures ValidPath(l.path) ==> Tree.FileByPath(rows, l) == if l in rows then Ok(rows[l]) else Err(NotFound)
    ensures Tree.FileByPath(rows, l).Ok? ==> l in rows
  {
    hide ValidPath;
  }

  /** The rows a copy wrote are its plan's, under keys nothing has. */
  lemma NewRows(b: Books, owner: string, from: string, to: string, recursive: bool, plan: seq<Planned>,
                written: seq<Planned>, names: nat -> string, stored: Objects, digest: string -> string)
    requires TreeOk(b.files) && PlansCopy(plan, b.files, owner, from, to, recursive)
    requires |written| == |plan| && WroteFirst(written, plan, names, b.objects, stored, digest)
    requires forall i: nat, h, row :: Filed(b, h, row) ==> row.key != names(i)
    ensures CopyOfTree(b.files, owner, from, to, recursive, plan, written)
  {
    hide ValidPath, PlansCopy, TreeOk;
    WrittenCopies(written, plan, names, b.objects, stored, digest);
    forall i, l | 0 <= i < |written| && written[i].row.File? && l in b.files && b.files[l].File?
      ensures written[i].row.key != b.files[l].key
    {
      assert Filed(b, Stores.AtRow(l), b.files[l]);
    }
  }

  lemma NothingLost(before: Books, owner: string, to: string)
    ensures OnlyReplacedLost(before, before.objects, owner, to)
  {
  }

  lemma StillIsLost(before: Books, after: Objects, owner: string, to: string)
    requires StillThere(before.objects, after)
    ensures OnlyReplacedLost(before, after, owner, to)
  {
  }

  lemma SoundIsFaithful(b: Books, digest: string -> string)
    requires Sound(b, digest)
    ensures Faithful(b, digest)
  {
  }
}
