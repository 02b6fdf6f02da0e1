/** The metadata store as internal/db's interfaces promise it. A statement either
    does what it says or refuses and changes nothing; which driver runs it is not
    part of the model. */
module Repository {
  import opened Text
  import opened Paths
  import opened Tree
  import Stores
  import Copies

  type BatchId = Stores.BatchId

  /** The refusal in a result, if it is one. */
  function Refusal<T>(r: Result<T>): Option<Error> {
    if r.Ok? then None else Some(r.error)
  }

  /** What is left in the table by a statement or a transaction that was to make it `r`. */
  function Outcome(before: Rows, r: Result<Rows>): Rows {
    if r.Ok? then r.value else before
  }

  /** A list of rows as a table by path, a later one winning. */
  function AsTree(rows: seq<Planned>): map<string, Row>
    decreases |rows|
  {
    if rows == [] then map[]
    else AsTree(rows[..|rows| - 1])[rows[|rows| - 1].path := rows[|rows| - 1].row]
  }

  lemma {:induction false} AsTreeHas(rows: seq<Planned>, p: string)
    requires Copies.DistinctPaths(rows)
    ensures p in AsTree(rows) <==> Copies.IsPlanned(rows, p)
    ensures forall i :: 0 <= i < |rows| && rows[i].path == p ==> p in AsTree(rows) && AsTree(rows)[p] == rows[i].row
    decreases |rows|
  {
    if rows == [] {
    } else {
      var front := rows[..|rows| - 1];
      AsTreeHas(front, p);
      forall i | 0 <= i < |rows| && rows[i].path == p ensures p in AsTree(rows) && AsTree(rows)[p] == rows[i].row {
        if i < |front| { assert front[i].path == p; }
      }
      if i :| 0 <= i < |front| && front[i].path == p { assert rows[i].path == p; }
    }
  }

  /** The direct children of a directory, in whatever order the listing has. */
  ghost predicate Lists(children: seq<Planned>, rows: Rows, owner: string, dir: string) {
    && Copies.DistinctPaths(children)
    && (forall i :: 0 <= i < |children| ==>
          ParentOf(children[i].path) == dir && Loc(owner, children[i].path) in rows
          && children[i].row == rows[Loc(owner, children[i].path)])
    && (forall l :: l in rows && l.owner == owner && ParentOf(l.path) == dir ==> Copies.IsPlanned(children, l.path))
  }

  ghost predicate HasKey(rows: seq<Planned>, key: string) {
    exists i :: 0 <= i < |rows| && rows[i].row.File? && rows[i].row.key == key
  }

  class Repo {
    var files: Rows
    var trash: map<BatchId, map<string, Row>>   // deletions by owner and batch
    var lost: map<string, set<string>>          // the sweep's batches, which have no owner
    var deletedAt: map<BatchId, int>            // when each was made, the owner of the sweep's being ""

    constructor ()
      ensures files == map[] && trash == map[] && lost == map[] && deletedAt == map[]
    {
      files, trash, lost, deletedAt := map[], map[], map[], map[];
    }

    method FileByPath(l: Loc) returns (r: Result<Row>)
      ensures r == Tree.FileByPath(files, l)
    {
      r := Tree.FileByPath(files, l);
    }

    method PutFile(l: Loc, file: Row) returns (failed: Option<Error>)
      modifies `files
      ensures failed == Refusal(Tree.PutFile(old(files), l, file))
      ensures files == Outcome(old(files), Tree.PutFile(old(files), l, file))
    {
      var r := Tree.PutFile(files, l, file);
      failed, files := Refusal(r), Outcome(files, r);
    }

    method CreateDir(l: Loc) returns (failed: Option<Error>)
      modifies `files
      ensures failed == Refusal(Tree.CreateDir(old(files), l))
      ensures files == Outcome(old(files), Tree.CreateDir(old(files), l))
    {
      var r := Tree.CreateDir(files, l);
      failed, files := Refusal(r), Outcome(files, r);
    }

    method DeleteFile(l: Loc) returns (failed: Option<Error>)
      modifies `files
      ensures failed == Refusal(Tree.DeleteFile(old(files), l))
      ensures files == Outcome(old(files), Tree.DeleteFile(old(files), l))
    {
      var r := Tree.DeleteFile(files, l);
      failed, files := Refusal(r), Outcome(files, r);
    }

    method MoveFile(owner: string, from: string, to: string) returns (failed: Option<Error>)
      modifies `files
      ensures failed == Refusal(Tree.MoveFile(old(files), owner, from, to))
      ensures files == Outcome(old(files), Tree.MoveFile(old(files), owner, from, to))
    {
      var r := Tree.MoveFile(files, owner, from, to);
      failed, files := Refusal(r), Outcome(files, r);
    }

    /** A directory's children, or a refusal for a directory whose path cannot be one. */
    method ListFiles(owner: string, dir: string) returns (children: seq<Planned>, failed: Option<Error>)
      ensures failed == if dir == "" || ValidPath(dir) then None else Some(InvalidPath)
      ensures failed.None? ==> Lists(children, files, owner, dir)
    {
      children := Children(files, owner, dir);
      failed := if dir == "" || ValidPath(dir) then None else Some(InvalidPath);
    }

    method Trash(id: BatchId, rows: map<string, Row>, at: int)
      modifies `trash, `deletedAt
      ensures trash == old(trash)[id := rows] && deletedAt == old(deletedAt)[id := at]
    {
      trash, deletedAt := trash[id := rows], deletedAt[id := at];
    }

    /** What a deletion holds, in path order; nothing when there is none. */
    method TrashedIn(id: BatchId) returns (rows: seq<Planned>)
      ensures InPathOrder(rows, Deleted(id))
    {
      rows := ByPath(if id in trash then trash[id] else map[]);
    }

    /** What one of the sweep's batches holds: a row for each blob. */
    method LostIn(batch: string) returns (rows: seq<Planned>)
      ensures forall i :: 0 <= i < |rows| ==> rows[i].row.File? && rows[i].row.key in Lost(batch)
      ensures forall k :: k in Lost(batch) ==> HasKey(rows, k)
    {
      var keys := InSomeOrder(if batch in lost then lost[batch] else {});
      rows := seq(|keys|, i requires 0 <= i < |keys| => Planned(keys[i], File(keys[i], 0, 0, "", "")));
      forall k | k in Lost(batch) ensures HasKey(rows, k) {
        assert k in AsSet(keys);
        var i :| 0 <= i < |keys| && keys[i] == k;
        assert rows[i].row.key == k;
      }
      forall i | 0 <= i < |rows| ensures rows[i].row.key in Lost(batch) { assert keys[i] in AsSet(keys); }
    }

    ghost function Deleted(id: BatchId): map<string, Row>
      reads this
    {
      if id in trash then trash[id] else map[]
    }

    ghost function Lost(batch: string): set<string>
      reads this
    {
      if batch in lost then lost[batch] else {}
    }

    /** A deletion, the sweep's among them, made by a certain moment. */
    predicate Expired(id: BatchId, before: int)
      reads this
    {
      (id in trash || (id.owner == "" && id.name in lost)) && id in deletedAt && deletedAt[id] <= before
    }

    lemma ExpiredIs(id: BatchId, before: int)
      ensures Expired(id, before) <==>
              (id in trash || (id.owner == "" && id.name in lost)) && id in deletedAt && deletedAt[id] <= before
    {
    }

    /** Every deletion old enough, whoever it was made for. */
    method ExpiredTrash(before: int) returns (ids: seq<BatchId>)
      ensures forall id :: id in ids <==> Expired(id, before)
      ensures forall i, j :: 0 <= i < j < |ids| ==> ids[i] != ids[j]
    {
      ids := [];
      var rest := deletedAt.Keys;
      while rest != {}
        invariant rest <= deletedAt.Keys
        invariant forall id :: id in ids <==> id in deletedAt && id !in rest && Expired(id, before)
        invariant forall i, j :: 0 <= i < j < |ids| ==> ids[i] != ids[j]
        decreases |rest|
      {
        var id :| id in rest;
        rest := rest - {id};
        if Expired(id, before) { ids := ids + [id]; }
      }
    }

    /** The blob key of every file row. */
    method BlobKeys() returns (keys: seq<string>)
      ensures AsSet(keys) == Stores.FileKeys(files)
    {
      keys := InSomeOrder(Stores.FileKeys(files));
    }

    /** Every blob key the trash holds, whoever it was deleted for. */
    method TrashKeys() returns (keys: seq<string>)
      ensures AsSet(keys) == HeldKeys(trash, lost)
    {
      keys := InSomeOrder(HeldKeys(trash, lost));
    }

    method TrashLost(batch: string, keys: set<string>, at: int)
      modifies `lost, `deletedAt
      ensures lost == old(lost)[batch := keys] && deletedAt == old(deletedAt)[Stores.BatchId("", batch) := at]
    {
      lost, deletedAt := lost[batch := keys], deletedAt[Stores.BatchId("", batch) := at];
    }

    method DeleteLost(batch: string)
      modifies `lost
      ensures lost == old(lost) - {batch}
    {
      lost := lost - {batch};
    }

    method DeleteTrash(id: BatchId)
      modifies `trash
      ensures trash == old(trash) - {id}
    {
      trash := trash - {id};
    }
  }

  /** The children found so far among the rows that are not left to look at. */
  ghost predicate ListsBut(children: seq<Planned>, rows: Rows, rest: set<Loc>, owner: string, dir: string) {
    && Copies.DistinctPaths(children)
    && (forall i :: 0 <= i < |children| ==>
          ParentOf(children[i].path) == dir && Loc(owner, children[i].path) in rows
              && Loc(owner, children[i].path) !in rest
          && children[i].row == rows[Loc(owner, children[i].path)])
    && (forall l :: l in rows && l !in rest && l.owner == owner && ParentOf(l.path) == dir ==>
        Copies.IsPlanned(children, l.path))
  }

  lemma ListsOneMore(children: seq<Planned>, rows: Rows, rest: set<Loc>, owner: string, dir: string, l: Loc)
    requires ListsBut(children, rows, rest, owner, dir) && l in rest && l in rows
    ensures var more := if l.owner == owner && ParentOf(l.path) == dir then children + [Planned(l.path, rows[l])]
            else children;
            ListsBut(more, rows, rest - {l}, owner, dir)
  {
    hide ParentOf;
    var more := if l.owner == owner && ParentOf(l.path) == dir then children + [Planned(l.path, rows[l])] else children;
    forall m | m in rows && m !in rest - {l} && m.owner == owner && ParentOf(m.path) == dir
        ensures Copies.IsPlanned(more, m.path) {
      if m == l {
        assert more[|children|].path == m.path;
      } else {
        assert Copies.IsPlanned(children, m.path);
        var i :| 0 <= i < |children| && children[i].path == m.path;
        assert more[i].path == m.path;
      }
    }
  }

  method Children(rows: Rows, owner: string, dir: string) returns (children: seq<Planned>)
    ensures Lists(children, rows, owner, dir)
  {
    hide ParentOf;
    children := [];
    var rest := rows.Keys;
    while rest != {}
      invariant rest <= rows.Keys && ListsBut(children, rows, rest, owner, dir)
      decreases |rest|
    {
      var l :| l in rest;
      ListsOneMore(children, rows, rest, owner, dir, l);
      rest := rest - {l};
      if l.owner == owner && ParentOf(l.path) == dir {
        children := children + [Planned(l.path, rows[l])];
      }
    }
  }

  function AsSet(keys: seq<string>): set<string> {
    set k | k in keys
  }

  function HeldKeys(trash: map<BatchId, map<string, Row>>, lost: map<string, set<string>>): set<string> {
    (set id, p | id in trash && p in trash[id] && trash[id][p].File? :: trash[id][p].key)
    + (set b, k | b in lost && k in lost[b] :: k)
  }

  lemma AsSetMore(keys: seq<string>, key: string)
    ensures AsSet(keys + [key]) == AsSet(keys) + {key}
  {
  }

  method InSomeOrder(keys: set<string>) returns (order: seq<string>)
    ensures AsSet(order) == keys
  {
    order := [];
    var rest := keys;
    while rest != {}
      invariant rest <= keys && AsSet(order) == keys - rest
      decreases |rest|
    {
      var k :| k in rest;
      AsSetMore(order, k);
      order, rest := order + [k], rest - {k};
    }
  }

  /** The rows of a deletion as ORDER BY path answers them. */
  ghost predicate InPathOrder(rows: seq<Planned>, tree: map<string, Row>) {
    && |rows| == |PathOrder(tree.Keys)|
    && forall i :: 0 <= i < |rows| ==> IsRow(rows[i], PathOrder(tree.Keys)[i], tree)
  }

  predicate IsRow(item: Planned, path: string, tree: map<string, Row>) {
    item.path == path && path in tree && item.row == tree[path]
  }

  method ByPath(tree: map<string, Row>) returns (rows: seq<Planned>)
    ensures InPathOrder(rows, tree)
  {
    hide Less, IsLeast, Ahead, PathOrder, Ascending;
    rows := [];
    ghost var order := PathOrder(tree.Keys);
    PathOrderAscends(tree.Keys);
    var rest := tree.Keys;
    AheadAtStart(order, rest);
    while rest != {}
      invariant rest <= tree.Keys && Ahead(order, |rows|, rest)
      invariant |rows| <= |order|
      invariant forall i :: 0 <= i < |rows| ==> IsRow(rows[i], order[i], tree)
      decreases |rest|
    {
      LeastExists(rest);
      var p :| IsLeast(p, rest);
      NextInOrder(order, |rows|, rest, p);
      rest := rest - {p};
      rows := rows + [Planned(p, tree[p])];
    }
    AheadAtEnd(order, |rows|);
  }

  /** `rest` is what the order has from the k-th on. */
  ghost predicate Ahead(order: seq<string>, k: nat, rest: set<string>) {
    k <= |order| && forall p :: p in rest <==> p in order[k..]
  }

  lemma AheadAtStart(order: seq<string>, rest: set<string>)
    requires forall p :: p in order <==> p in rest
    ensures Ahead(order, 0, rest)
  {
    assert order[0..] == order;
  }

  lemma AheadHas(order: seq<string>, k: nat)
    requires k < |order|
    ensures order[k] in order[k..]
  {
    assert order[k..][0] == order[k];
  }

  lemma AheadAtEnd(order: seq<string>, k: nat)
    requires Ahead(order, k, {})
    ensures k == |order|
  {
    if k < |order| { AheadHas(order, k); }
  }

  lemma NextInOrder(order: seq<string>, k: nat, rest: set<string>, p: string)
    requires Ascending(order) && Ahead(order, k, rest) && IsLeast(p, rest)
    ensures p in rest && k < |order| && order[k] == p && Ahead(order, k + 1, rest - {p})
  {
    hide Less;
    var ahead := order[k..];
    assert Ascending(ahead);
    assert p in ahead && ahead[0] in ahead;
    var i :| 0 <= i < |ahead| && ahead[i] == p;
    assert order[k + 1..] == ahead[1..];
    forall q ensures q in rest - {p} <==> q in ahead[1..] { TailHas(ahead, q); }
  }
}
