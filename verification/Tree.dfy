/** The file table as internal/db's contract has it, and the transactions
    internal/files runs over it, each as a function of the rows it found. */
module Tree {
  import opened Text
  import opened Paths

  datatype Loc = Loc(owner: string, path: string)

  /** A row: a directory, or a file naming its blob. A directory's modification
      time and the ids the database assigns are not part of the model. */
  datatype Row = Dir | File(key: string, size: nat, mtime: int, etag: string, mime: string)

  type Rows = map<Loc, Row>

  datatype Result<+T> = Ok(value: T) | Err(error: Error)

  // ----- The invariant

  predicate ParentStands(rows: Rows, l: Loc) {
    var parent := Loc(l.owner, ParentOf(l.path));
    parent.path == "" || (parent in rows && rows[parent].Dir?)
  }

  /** Every row's parent is the root or a directory row. */
  ghost predicate TreeOk(rows: Rows) {
    forall l :: l in rows ==> l.path != "" && ParentStands(rows, l)
  }

  /** Every row's path can be looked up again. */
  ghost predicate PathsOk(rows: Rows) {
    forall l :: l in rows ==> ValidPath(l.path)
  }

  // ----- Parts of a table

  predicate Within(l: Loc, owner: string, dir: string) {
    l.owner == owner && AtOrUnder(l.path, dir)
  }

  /** The rows that are not at or under `dir`. */
  function Without(rows: Rows, owner: string, dir: string): Rows {
    map l | l in rows && !Within(l, owner, dir) :: rows[l]
  }

  /** The rows at or under `dir`, by path. */
  function Subtree(rows: Rows, owner: string, dir: string): (tree: map<string, Row>)
    ensures forall p :: p in tree <==> Loc(owner, p) in rows && AtOrUnder(p, dir)
    ensures forall p :: p in tree ==> tree[p] == rows[Loc(owner, p)]
  {
    var paths := set l | l in rows && Within(l, owner, dir) :: l.path;
    map p | p in paths :: rows[Loc(owner, p)]
  }

  /** A tree as rows, its root renamed from `from` to `to`. */
  function Renamed(tree: map<string, Row>, owner: string, from: string, to: string): Rows {
    var locs := set p | p in tree && AtOrUnder(p, from) :: Loc(owner, Rebase(p, from, to));
    map l | l in locs :: Original(tree, l, from, to)
  }

  function Original(tree: map<string, Row>, l: Loc, from: string, to: string): Row {
    if AtOrUnder(l.path, to) && Rebase(l.path, to, from) in tree then tree[Rebase(l.path, to, from)] else Dir
  }

  /** Where a row was before a move. */
  function MovedFrom(l: Loc, moved: Rows, from: string, to: string): Loc {
    if l in moved && AtOrUnder(l.path, to) then Loc(l.owner, Rebase(l.path, to, from)) else l
  }

  lemma RenamedAt(tree: map<string, Row>, owner: string, from: string, to: string, l: Loc)
    ensures l in Renamed(tree, owner, from, to) <==>
            Within(l, owner, to) && Rebase(l.path, to, from) in tree
    ensures l in Renamed(tree, owner, from, to) ==>
            Renamed(tree, owner, from, to)[l] == tree[Rebase(l.path, to, from)]
            && AtOrUnder(Rebase(l.path, to, from), from)
  {
    if l in Renamed(tree, owner, from, to) {
      var p :| p in tree && AtOrUnder(p, from) && l == Loc(owner, Rebase(p, from, to));
      RebaseFacts(p, from, to);
    }
    if Within(l, owner, to) && Rebase(l.path, to, from) in tree {
      RebaseFacts(l.path, to, from);
      var p := Rebase(l.path, to, from);
      assert p in tree && AtOrUnder(p, from) && l == Loc(owner, Rebase(p, from, to));
    }
  }

  /** Every renamed row is a row of the tree, and renaming back finds it. */
  lemma RenamedFacts(tree: map<string, Row>, owner: string, from: string, to: string)
    ensures forall l :: l in Renamed(tree, owner, from, to) ==>
              && AtOrUnder(l.path, to) && l.owner == owner && Rebase(l.path, to, from) in tree
              && tree[Rebase(l.path, to, from)] == Renamed(tree, owner, from, to)[l]
              && AtOrUnder(Rebase(l.path, to, from), from) && Rebase(Rebase(l.path, to, from), from, to) == l.path
  {
    hide Renamed, AtOrUnder, Rebase;
    forall l | l in Renamed(tree, owner, from, to)
      ensures AtOrUnder(l.path, to) && l.owner == owner && Rebase(l.path, to, from) in tree
      ensures tree[Rebase(l.path, to, from)] == Renamed(tree, owner, from, to)[l]
      ensures AtOrUnder(Rebase(l.path, to, from), from) && Rebase(Rebase(l.path, to, from), from, to) == l.path
    {
      RenamedAt(tree, owner, from, to, l);
      RebaseFacts(l.path, to, from);
    }
  }

  /** Taking a subtree out leaves a tree. */
  lemma WithoutKeepsTree(rows: Rows, owner: string, dir: string)
    requires TreeOk(rows)
    ensures TreeOk(Without(rows, owner, dir))
  {
    var rest := Without(rows, owner, dir);
    forall l | l in rest ensures l.path != "" && ParentStands(rest, l) {
      assert ParentStands(rows, l);
      if ParentOf(l.path) != "" && Within(Loc(l.owner, ParentOf(l.path)), owner, dir) {
        ChildUnder(l.path, dir);
        assert false;
      }
    }
  }

  /** Nothing stands under a name nothing stands at. */
  lemma NothingUnderFree(rows: Rows, owner: string, dir: string, l: Loc)
    requires TreeOk(rows) && dir != "" && l in rows && Within(l, owner, dir)
    ensures Loc(owner, dir) in rows
    ensures l.path != dir ==> rows[Loc(owner, dir)].Dir?
    decreases |l.path|
  {
    if l.path != dir {
      var parent := Loc(owner, ParentOf(l.path));
      ParentUnder(l.path, dir);
      assert ParentStands(rows, l);
      NothingUnderFree(rows, owner, dir, parent);
    }
  }

  // ----- The repository's statements

  function FileByPath(rows: Rows, l: Loc): Result<Row> {
    if !ValidPath(l.path) then Err(InvalidPath)
    else if l !in rows then Err(NotFound)
    else Ok(rows[l])
  }

  /** Inserts, or replaces the file that is there; a directory is not replaced. */
  function PutFile(rows: Rows, l: Loc, file: Row): Result<Rows> {
    if !ValidPath(l.path) then Err(InvalidPath)
    else if l in rows && rows[l].Dir? then Err(Conflict)
    else Ok(rows[l := file])
  }

  function CreateDir(rows: Rows, l: Loc): Result<Rows> {
    if !ValidPath(l.path) then Err(InvalidPath)
    else if l in rows then Err(Conflict)
    else Ok(rows[l := Dir])
  }

  predicate HasChildren(rows: Rows, l: Loc) {
    exists c :: c in rows && c.owner == l.owner && ParentOf(c.path) == l.path
  }

  function DeleteFile(rows: Rows, l: Loc): Result<Rows> {
    if !ValidPath(l.path) then Err(InvalidPath)
    else if l !in rows then Err(NotFound)
    else if HasChildren(rows, l) then Err(Conflict)
    else Ok(rows - {l})
  }

  /** Renames a row and everything under it, as the interface promises; the new paths of
      what is under it are not validated. What the drivers' statements do is
      Moves.Statement. */
  function MoveFile(rows: Rows, owner: string, from: string, to: string): Result<Rows> {
    var refusal := ValidateMove(from, to);
    if refusal == {InvalidPath} then Err(InvalidPath)
    else if refusal != {} then Err(Conflict)
    else if Loc(owner, from) !in rows then Err(NotFound)
    else
      var moved := Renamed(Subtree(rows, owner, from), owner, from, to);
      var rest := Without(rows, owner, from);
      if rest.Keys !! moved.Keys then Ok(rest + moved) else Err(Conflict)
  }

  /** The half of the tree invariant that stays in Go. */
  function RequireParent(rows: Rows, l: Loc): Result<()> {
    var parent := ParentOf(l.path);
    if parent == "" then Ok(())
    else match FileByPath(rows, Loc(l.owner, parent))
      case Err(e) => Err(e)
      case Ok(row) => if row.Dir? then Ok(()) else Err(Conflict)
  }

  // ----- The transactions

  function Mkdir(rows: Rows, l: Loc): Result<Rows> {
    if !ValidPath(l.path) then Err(InvalidPath)
    else match RequireParent(rows, l)
      case Err(e) => Err(e)
      case Ok(_) => CreateDir(rows, l)
  }

  function Move(rows: Rows, owner: string, from: string, to: string): Result<Rows> {
    match RequireParent(rows, Loc(owner, to))
    case Err(e) => Err(e)
    case Ok(_) => MoveFile(rows, owner, from, to)
  }

  /** One row of a write or a copy: the parent has to stand, and then it is put
      or made. */
  function Insert(rows: Rows, l: Loc, row: Row): Result<Rows> {
    match RequireParent(rows, l)
    case Err(e) => Err(e)
    case Ok(_) => if row.Dir? then CreateDir(rows, l) else PutFile(rows, l, row)
  }

  datatype Replaced = Replaced(rows: Rows, superseded: string)

  /** What a write commits, and the blob it took the place of ("" for none). */
  function Replace(rows: Rows, l: Loc, file: Row): Result<Replaced>
    requires file.File?
  {
    match Insert(rows, l, file)
    case Err(e) => Err(e)
    case Ok(after) => Ok(Replaced(after, if l in rows && rows[l].File? then rows[l].key else ""))
  }

  /** A tree taken out, and the rows it was. A row whose path no longer fits
      cannot be looked up, and stops it. */
  function RemoveTree(rows: Rows, l: Loc): Result<map<string, Row>> {
    if !ValidPath(l.path) then Err(InvalidPath)
    else if l !in rows then Err(NotFound)
    else
      var tree := Subtree(rows, l.owner, l.path);
      if forall p :: p in tree ==> ValidPath(p) then Ok(tree) else Err(InvalidPath)
  }

  datatype Planned = Planned(path: string, row: Row)

  /** The rows of a copy, one after another. */
  function InsertAll(rows: Rows, owner: string, plan: seq<Planned>): Result<Rows>
    decreases |plan|
  {
    if plan == [] then Ok(rows)
    else match Insert(rows, Loc(owner, plan[0].path), plan[0].row)
      case Err(e) => Err(e)
      case Ok(after) => InsertAll(after, owner, plan[1..])
  }

  datatype Copied = Copied(rows: Rows, replaced: map<string, Row>)

  /** What a copy commits: what the destination held goes, the new rows come. */
  function CommitCopies(rows: Rows, owner: string, to: string, plan: seq<Planned>): Result<Copied> {
    match FileByPath(rows, Loc(owner, to))
    case Ok(_) =>
      (match RemoveTree(rows, Loc(owner, to))
       case Err(e) => Err(e)
       case Ok(replaced) =>
         match InsertAll(Without(rows, owner, to), owner, plan)
         case Err(e) => Err(e)
         case Ok(after) => Ok(Copied(after, replaced)))
    case Err(NotFound) =>
      (match InsertAll(rows, owner, plan)
       case Err(e) => Err(e)
       case Ok(after) => Ok(Copied(after, map[])))
    case Err(e) => Err(e)
  }

  /** The directories above `target` that are missing, made from the top down. */
  function RestoreParents(rows: Rows, owner: string, target: string): Result<Rows>
    decreases |target|
  {
    var parent := ParentOf(target);
    if parent == "" then Ok(rows)
    else match FileByPath(rows, Loc(owner, parent))
      case Ok(row) => if row.Dir? then Ok(rows) else Err(Conflict)
      case Err(NotFound) =>
        (match RestoreParents(rows, owner, parent)
         case Err(e) => Err(e)
         case Ok(above) => CreateDir(above, Loc(owner, parent)))
      case Err(e) => Err(e)
  }

  const MAX_COPIES := 100

  /** The first free name from the n-th on: the name itself, or it with a number. */
  function FreeName(rows: Rows, owner: string, target: string, n: nat): Result<string>
    requires 1 <= n <= MAX_COPIES + 1
    decreases MAX_COPIES + 1 - n
  {
    if n > MAX_COPIES then Err(Conflict)
    else match FileByPath(rows, Loc(owner, CopyName(target, n)))
      case Err(NotFound) => Ok(CopyName(target, n))
      case Err(e) => Err(e)
      case Ok(_) => FreeName(rows, owner, target, n + 1)
  }

  function TrimPrefix(path: string, prefix: string): string {
    if prefix <= path then path[|prefix|..] else path
  }

  /** The rows of a deletion put back in order, under their new root. */
  function PutBack(rows: Rows, owner: string, order: seq<string>, tree: map<string, Row>, from: string,
                   to: string): Result<Rows>
    requires forall p :: p in order ==> p in tree
    decreases |order|
  {
    if order == [] then Ok(rows)
    else
      var l := Loc(owner, to + TrimPrefix(order[0], from));
      var row := tree[order[0]];
      match (if row.Dir? then CreateDir(rows, l) else PutFile(rows, l, row))
      case Err(e) => Err(e)
      case Ok(after) => PutBack(after, owner, order[1..], tree, from, to)
  }

  // ----- ORDER BY path

  predicate IsLeast(p: string, paths: set<string>) {
    p in paths && forall q :: q in paths ==> !Less(q, p)
  }

  lemma {:induction false} LeastExists(paths: set<string>)
    requires paths != {}
    ensures exists p :: IsLeast(p, paths)
    decreases |paths|
  {
    var q :| q in paths;
    if paths == {q} {
      LessTotal(q, q);
      assert IsLeast(q, paths);
    } else {
      var rest := paths - {q};
      LeastExists(rest);
      var p :| IsLeast(p, rest);
      LessTotal(p, q);
      LessTotal(q, q);
      if Less(q, p) {
        forall r | r in paths ensures !Less(r, q) {
          if Less(r, q) { LessTransitive(r, q, p); }
        }
        assert IsLeast(q, paths);
      } else {
        assert IsLeast(p, paths);
      }
    }
  }

  /** The paths of a set in their byte order. */
  ghost function PathOrder(paths: set<string>): (order: seq<string>)
    ensures forall p :: p in order <==> p in paths
    ensures |order| == |paths|
    decreases |paths|
  {
    if paths == {} then []
    else
      LeastExists(paths);
      var p :| IsLeast(p, paths);
      [p] + PathOrder(paths - {p})
  }

  ghost predicate NoDuplicates<T>(s: seq<T>) {
    forall i, j :: 0 <= i < j < |s| ==> s[i] != s[j]
  }

  ghost predicate Ascending(order: seq<string>) {
    forall i, j :: 0 <= i < j < |order| ==> Less(order[i], order[j])
  }

  lemma {:induction false} PathOrderAscends(paths: set<string>)
    ensures Ascending(PathOrder(paths))
    decreases |paths|
  {
    if paths != {} {
      LeastExists(paths);
      var order := PathOrder(paths);
      var p := order[0];
      PathOrderAscends(paths - {p});
      assert order[1..] == PathOrder(paths - {p});
      forall i, j | 0 <= i < j < |order| ensures Less(order[i], order[j]) {
        if i == 0 {
          assert order[j] == order[1..][j - 1];
          assert order[j] in order[1..];
          LessTotal(p, order[j]);
        } else {
          assert order[i] == order[1..][i - 1] && order[j] == order[1..][j - 1];
        }
      }
    }
  }

  lemma TailHas(a: seq<string>, p: string)
    requires Ascending(a) && a != []
    ensures p in a[1..] <==> p in a && p != a[0]
  {
    LessTotal(a[0], a[0]);
    if p in a[1..] {
      var k :| 0 <= k < |a| - 1 && a[1..][k] == p;
      assert a[k + 1] == p;
    }
    if p in a && p != a[0] {
      var k :| 0 <= k < |a| && a[k] == p;
      assert a[1..][k - 1] == p;
    }
  }

  /** The root of a deletion sorts before everything under it. */
  lemma RootFirst(tree: map<string, Row>, root: string)
    requires TreeShaped(tree, root) && root in tree
    ensures PathOrder(tree.Keys) != [] && PathOrder(tree.Keys)[0] == root
  {
    var order := PathOrder(tree.Keys);
    PathOrderAscends(tree.Keys);
    assert root in order;
    var k :| 0 <= k < |order| && order[k] == root;
    if k > 0 {
      var first := order[0];
      assert first in order && first in tree;
      assert Less(first, order[k]);
      LessTotal(first, root);
      assert Under(first, root);
      PrefixNotAfter(root, first);
      assert false;
    }
  }

  datatype Restored = Restored(rows: Rows, to: string)

  /** What a restore commits. */
  ghost function Restore(rows: Rows, owner: string, tree: map<string, Row>): Result<Restored> {
    var order := PathOrder(tree.Keys);
    if order == [] then Err(NotFound)
    else match FreeName(rows, owner, order[0], 1)
      case Err(e) => Err(e)
      case Ok(to) =>
        match RestoreParents(rows, owner, to)
        case Err(e) => Err(e)
        case Ok(above) =>
          match PutBack(above, owner, order, tree, order[0], to)
          case Err(e) => Err(e)
          case Ok(after) => Ok(Restored(after, to))
  }

  /** What an import writes for one row: skipped when the path is taken. */
  function AdoptOne(rows: Rows, owner: string, item: Planned): Result<(Rows, bool)> {
    if !ValidPath(item.path) then Err(InvalidPath)
    else if Loc(owner, item.path) in rows then Ok((rows, false))
    else match RestoreParents(rows, owner, item.path)
      case Err(e) => Err(e)
      case Ok(above) =>
        match (if item.row.Dir? then CreateDir(above, Loc(owner, item.path))
            else PutFile(above, Loc(owner, item.path), item.row))
        case Err(e) => Err(e)
        case Ok(after) => Ok((after, true))
  }

  function AdoptAll(rows: Rows, owner: string, items: seq<Planned>): Result<Rows>
    decreases |items|
  {
    if items == [] then Ok(rows)
    else match AdoptOne(rows, owner, items[0])
      case Err(e) => Err(e)
      case Ok((after, _)) => AdoptAll(after, owner, items[1..])
  }

  // ----- Every one of them keeps the tree

  lemma InsertKeepsTree(rows: Rows, l: Loc, row: Row)
    requires TreeOk(rows) && Insert(rows, l, row).Ok?
    ensures TreeOk(Insert(rows, l, row).value)
    ensures Insert(rows, l, row).value == rows[l := row]
    ensures ValidPath(l.path) && (l in rows ==> rows[l].File? && row.File?)
  {
    hide ValidPath, ParentOf;
    var after := Insert(rows, l, row).value;
    forall m | m in after ensures m.path != "" && ParentStands(after, m) {
      if m in rows {
        assert ParentStands(rows, m);
      }
    }
  }

  lemma MkdirKeepsTree(rows: Rows, l: Loc)
    requires TreeOk(rows) && Mkdir(rows, l).Ok?
    ensures TreeOk(Mkdir(rows, l).value)
  {
    InsertKeepsTree(rows, l, Dir);
  }

  lemma {:induction false} InsertAllKeepsTree(rows: Rows, owner: string, plan: seq<Planned>)
    requires TreeOk(rows) && InsertAll(rows, owner, plan).Ok?
    ensures TreeOk(InsertAll(rows, owner, plan).value)
    decreases |plan|
  {
    if plan == [] {
    } else {
      var l := Loc(owner, plan[0].path);
      InsertKeepsTree(rows, l, plan[0].row);
      InsertAllKeepsTree(rows[l := plan[0].row], owner, plan[1..]);
    }
  }

  lemma CommitCopiesKeepsTree(rows: Rows, owner: string, to: string, plan: seq<Planned>)
    requires TreeOk(rows) && CommitCopies(rows, owner, to, plan).Ok?
    ensures TreeOk(CommitCopies(rows, owner, to, plan).value.rows)
  {
    WithoutKeepsTree(rows, owner, to);
    if Loc(owner, to) in rows {
      InsertAllKeepsTree(Without(rows, owner, to), owner, plan);
    } else {
      InsertAllKeepsTree(rows, owner, plan);
    }
  }

  /** A move collides with something exactly when its new name is taken. */
  lemma MoveCollides(rows: Rows, owner: string, from: string, to: string)
    requires TreeOk(rows) && ValidateMove(from, to) == {} && Loc(owner, from) in rows
    ensures Without(rows, owner, from).Keys !! Renamed(Subtree(rows, owner, from), owner, from, to).Keys
            <==> Loc(owner, to) !in rows
  {
    var tree := Subtree(rows, owner, from);
    var moved := Renamed(tree, owner, from, to);
    var rest := Without(rows, owner, from);
    var l := Loc(owner, to);
    if l in rows {
      RebaseFacts(from, from, to);
      RenamedAt(tree, owner, from, to, l);
      assert l in rest.Keys && l in moved.Keys;
    } else {
      forall m | m in rest.Keys ensures m !in moved.Keys {
        RenamedAt(tree, owner, from, to, m);
        if m in moved {
          NothingUnderFree(rows, owner, to, m);
        }
      }
    }
  }

  /** A move keeps the tree, and on a tree the only collision is at its root. */
  lemma MoveKeepsTree(rows: Rows, owner: string, from: string, to: string)
    requires TreeOk(rows) && RequireParent(rows, Loc(owner, to)).Ok?
    requires ValidateMove(from, to) == {} && Loc(owner, from) in rows
    ensures Move(rows, owner, from, to).Ok? <==> Loc(owner, to) !in rows
    ensures Move(rows, owner, from, to).Ok? ==> TreeOk(Move(rows, owner, from, to).value)
  {
    hide TreeOk, ValidPath, RequireParent, Without, Renamed;
    MoveCollides(rows, owner, from, to);
    if Loc(owner, to) !in rows {
      MovedIsTree(rows, owner, from, to);
    }
  }

  // ----- What each of them answers, in rows

  /** A name can be stored into when its parent is the root or a directory; one that is
      not there and one that is a file are refused differently. */
  lemma RequireParentIs(rows: Rows, l: Loc)
    requires ValidPath(l.path)
    ensures var above := Loc(l.owner, ParentOf(l.path));
            RequireParent(rows, l) ==
            if above.path == "" then Ok(()) else if above !in rows then Err(NotFound)
            else if rows[above].File? then Err(Conflict) else Ok(())
  {
    hide ValidPath, ParentOf;
    if ParentOf(l.path) != "" { ParentValid(l.path); }
  }

  /** Making a directory: the name is free and its parent stands. */
  lemma MkdirIs(rows: Rows, l: Loc)
    requires ValidPath(l.path)
    ensures var above := Loc(l.owner, ParentOf(l.path));
            Mkdir(rows, l) ==
            if above.path != "" && above !in rows then Err(NotFound)
            else if above.path != "" && rows[above].File? then Err(Conflict)
            else if l in rows then Err(Conflict)
            else Ok(rows[l := Dir])
  {
    hide ValidPath, ParentOf;
    RequireParentIs(rows, l);
  }

  /** Writing a file: its parent stands and it is no directory's name; what the name held
      is said, whose blob it was. */
  lemma ReplaceIs(rows: Rows, l: Loc, file: Row)
    requires ValidPath(l.path) && file.File?
    ensures var above := Loc(l.owner, ParentOf(l.path));
            Replace(rows, l, file) ==
            if above.path != "" && above !in rows then Err(NotFound)
            else if above.path != "" && rows[above].File? then Err(Conflict)
            else if l in rows && rows[l].Dir? then Err(Conflict)
            else Ok(Replaced(rows[l := file], if l in rows then rows[l].key else ""))
  {
    hide ValidPath, ParentOf;
    RequireParentIs(rows, l);
  }

  /** Deleting a row: one that is there and has nothing under it. */
  lemma DeleteFileIs(rows: Rows, l: Loc)
    requires TreeOk(rows) && ValidPath(l.path)
    ensures DeleteFile(rows, l) ==
            if l !in rows then Err(NotFound)
            else if exists c: Loc :: c in rows && c.owner == l.owner && l.path + "/" <= c.path then Err(Conflict)
            else Ok(rows - {l})
  {
    hide ValidPath, TreeOk, ParentOf;
    if c: Loc :| c in rows && c.owner == l.owner && l.path + "/" <= c.path {
      var child := ChildTowards(rows, l, c);
    }
    if HasChildren(rows, l) {
      var c :| c in rows && c.owner == l.owner && ParentOf(c.path) == l.path;
      ParentIsUnder(rows, c);
    }
  }

  lemma ParentIsUnder(rows: Rows, c: Loc)
    requires TreeOk(rows) && c in rows && ParentOf(c.path) != ""
    ensures ParentOf(c.path) + "/" <= c.path
  {
    FourReadingsOfUnder(c.path, ParentOf(c.path));
  }

  /** On a tree what is under a directory has one of its children above it, or is one. */
  lemma ChildTowards(rows: Rows, l: Loc, c: Loc) returns (child: Loc)
    requires TreeOk(rows) && l.path != "" && c in rows && c.owner == l.owner && l.path + "/" <= c.path
    ensures child in rows && child.owner == l.owner && ParentOf(child.path) == l.path
    decreases |c.path|
  {
    ParentUnder(c.path, l.path);
    if ParentOf(c.path) == l.path {
      child := c;
    } else {
      assert ParentStands(rows, c);
      child := ChildTowards(rows, l, Loc(c.owner, ParentOf(c.path)));
    }
  }

  /** Moving, and each refusal with its reason. */
  lemma MoveAnswers(rows: Rows, owner: string, from: string, to: string)
    requires TreeOk(rows) && ValidPath(from) && ValidPath(to)
    ensures var above, r := Loc(owner, ParentOf(to)), Move(rows, owner, from, to);
            if above.path != "" && above !in rows then r == Err(NotFound)
            else if above.path != "" && rows[above].File? then r == Err(Conflict)
            else if to == from || Climbs(to, from) then r == Err(Conflict)
            else if Loc(owner, from) !in rows then r == Err(NotFound)
            else if Loc(owner, to) in rows then r == Err(Conflict)
            else r.Ok?
  {
    hide TreeOk, ValidPath, Without, Renamed, Subtree, Climbs, ParentOf, AtOrUnder;
    RequireParentIs(rows, Loc(owner, to));
    WhatMoves(from, to);
    hide RequireParent, ValidateMove;
    if ValidateMove(from, to) == {} && Loc(owner, from) in rows { MoveCollides(rows, owner, from, to); }
  }

  /** A storable name can be moved to any other but one that climbs to it. */
  lemma WhatMoves(from: string, to: string)
    requires ValidPath(from) && ValidPath(to)
    ensures ValidateMove(from, to) == if to == from || Climbs(to, from) then {Conflict} else {}
  {
    FourReadingsOfUnder(to, from);
  }

  /** What stands after a move is what stood beside both names, and what stood at the old
      name and below, renamed. */
  lemma MoveCarries(rows: Rows, owner: string, from: string, to: string, l: Loc)
    requires TreeOk(rows) && Move(rows, owner, from, to).Ok?
    ensures var after := Move(rows, owner, from, to).value;
            if l.owner == owner && (l.path == to || to + "/" <= l.path) then
              var was := Loc(owner, from + l.path[|to|..]);
              (l in after <==> was in rows) && (was in rows ==> after[l] == rows[was])
            else if l.owner == owner && (l.path == from || from + "/" <= l.path) then l !in after
            else (l in after <==> l in rows) && (l in rows ==> after[l] == rows[l])
  {
    hide TreeOk, ValidPath, Without, Renamed, Subtree;
    MoveCollides(rows, owner, from, to);
    MovedRowIs(rows, owner, from, to, l);
  }

  /** So a file can be moved to any free name in any directory. */
  lemma FileMoves(rows: Rows, owner: string, from: string, to: string)
    requires TreeOk(rows) && ValidPath(from) && ValidPath(to)
    requires Loc(owner, from) in rows && rows[Loc(owner, from)].File? && Loc(owner, to) !in rows
    requires ParentOf(to) != "" ==> Loc(owner, ParentOf(to)) in rows && rows[Loc(owner, ParentOf(to))].Dir?
    ensures Move(rows, owner, from, to).Ok?
  {
    hide ValidPath, TreeOk;
    MoveAnswers(rows, owner, from, to);
    FourReadingsOfUnder(to, from);
    if Under(to, from) {
      hide ParentOf, Climbs;
      ParentUnder(to, from);
      NothingUnderFree(rows, owner, from, Loc(owner, ParentOf(to)));
    }
  }

  const X := File("k", 1, 0, "", "")
  const APART: Rows := map[Loc("o", "a") := Dir, Loc("o", "b") := Dir, Loc("o", "a/x") := X]
  const CROSSED: Rows := map[Loc("o", "a") := Dir, Loc("o", "b") := Dir, Loc("o", "b/x") := X]

  /** From one to another, say. */
  lemma AcrossDirectories()
    ensures Move(APART, "o", "a/x", "b/x") == Ok(CROSSED)
  {
    hide ValidPath, ParentOf, Without, Renamed, Subtree, Climbs, Move;
    ShortPaths();
    TwoSegments('a', 'x');
    TwoSegments('b', 'x');
    assert "a/x" == ['a', '/', 'x'] && "b/x" == ['b', '/', 'x'] && ['a'] == "a" && ['b'] == "b";
    assert TreeOk(APART) by { assert ParentStands(APART, Loc("o", "a/x")); }
    FileMoves(APART, "o", "a/x", "b/x");
    var after := Move(APART, "o", "a/x", "b/x").value;
    forall m: Loc ensures (m in after <==> m in CROSSED) && (m in after ==> after[m] == CROSSED[m]) {
      MoveCarries(APART, "o", "a/x", "b/x", m);
      Longer("a/x", "b/x", m.path);
    }
    assert after == CROSSED;
  }

  lemma Longer(from: string, to: string, path: string)
    requires |from| == |to| == 3
    ensures to + "/" <= path ==> |path| > 3 && |from + path[|to|..]| > 3
    ensures from + "/" <= path ==> |path| > 3
    ensures path == to ==> from + path[|to|..] == from
  {
  }

  /** Where a row of a moved table was, or that there is none. */
  ghost predicate MovedRow(rows: Rows, owner: string, from: string, to: string, l: Loc) {
    var after := Without(rows, owner, from) + Renamed(Subtree(rows, owner, from), owner, from, to);
    if Within(l, owner, to) then
      var was := Loc(owner, from + l.path[|to|..]);
      (l in after <==> was in rows) && (was in rows ==> after[l] == rows[was])
    else if Within(l, owner, from) then l !in after
    else (l in after <==> l in rows) && (l in rows ==> after[l] == rows[l])
  }

  lemma MovedRowIs(rows: Rows, owner: string, from: string, to: string, l: Loc)
    requires TreeOk(rows) && ValidateMove(from, to) == {} && Loc(owner, from) in rows && Loc(owner, to) !in rows
    ensures MovedRow(rows, owner, from, to, l)
  {
    hide TreeOk, ValidateMove, Renamed;
    RenamedAt(Subtree(rows, owner, from), owner, from, to, l);
    if Within(l, owner, to) {
      RebaseFacts(l.path, to, from);
      if l in rows { NothingUnderFree(rows, owner, to, l); }
    }
  }

  /** Two disjoint tables make a tree when one is a tree and the parents of the
      other's rows stand in either. */
  lemma JoinTrees(rest: Rows, added: Rows)
    requires rest.Keys !! added.Keys && TreeOk(rest)
    requires forall l :: l in added ==> l.path != "" && (ParentStands(rest, l) || ParentStands(added, l))
    ensures TreeOk(rest + added)
  {
    var joined := rest + added;
    forall l: Loc | l in joined ensures l.path != "" && ParentStands(joined, l) {
      if l !in added {
        assert ParentStands(rest, l);
      }
      var parent := Loc(l.owner, ParentOf(l.path));
      assert !(parent in rest.Keys && parent in added.Keys);
    }
  }

  lemma MovedIsTree(rows: Rows, owner: string, from: string, to: string)
    requires TreeOk(rows) && RequireParent(rows, Loc(owner, to)).Ok?
    requires ValidateMove(from, to) == {}
    requires Without(rows, owner, from).Keys !! Renamed(Subtree(rows, owner, from), owner, from, to).Keys
    ensures TreeOk(Without(rows, owner, from) + Renamed(Subtree(rows, owner, from), owner, from, to))
  {
    var moved := Renamed(Subtree(rows, owner, from), owner, from, to);
    var rest := Without(rows, owner, from);
    WithoutKeepsTree(rows, owner, from);
    forall l: Loc | l in moved ensures l.path != "" && (ParentStands(rest, l) || ParentStands(moved, l)) {
      MovedParentStands(rows, owner, from, to, l);
    }
    JoinTrees(rest, moved);
  }

  lemma MovedParentStands(rows: Rows, owner: string, from: string, to: string, l: Loc)
    requires TreeOk(rows) && RequireParent(rows, Loc(owner, to)).Ok?
    requires ValidateMove(from, to) == {}
    requires l in Renamed(Subtree(rows, owner, from), owner, from, to)
    ensures l.path != ""
    ensures ParentStands(Without(rows, owner, from), l)
            || ParentStands(Renamed(Subtree(rows, owner, from), owner, from, to), l)
  {
    var tree := Subtree(rows, owner, from);
    RenamedAt(tree, owner, from, to, l);
    if l.path == to {
      if ParentOf(to) != "" && AtOrUnder(ParentOf(to), from) {
        ChildUnder(to, from);
        assert false;
      }
    } else {
      SubtreeClosed(rows, owner, from);
      RenamedParent(tree, owner, from, to, l);
    }
  }

  /** Below its root, every row of a subtree has its parent in it. */
  lemma SubtreeClosed(rows: Rows, owner: string, dir: string)
    requires TreeOk(rows) && dir != ""
    ensures TreeShaped(Subtree(rows, owner, dir), dir)
  {
    var tree := Subtree(rows, owner, dir);
    forall p | p in tree ensures p != "" && (p == dir || (Under(p, dir) && ParentOf(p) in tree
        && tree[ParentOf(p)].Dir?)) {
      assert ParentStands(rows, Loc(owner, p));
      if p != dir {
        ParentUnder(p, dir);
      }
    }
  }

  /** A tree with its root at `root`: every other row's parent is a directory in it. */
  ghost predicate TreeShaped(tree: map<string, Row>, root: string) {
    forall p :: p in tree ==>
      p != "" && (p == root || (Under(p, root) && ParentOf(p) in tree && tree[ParentOf(p)].Dir?))
  }

  /** Below its root, a renamed row's parent is the renamed row of its parent. */
  lemma RenamedParent(tree: map<string, Row>, owner: string, from: string, to: string, l: Loc)
    requires TreeShaped(tree, from)
    requires l in Renamed(tree, owner, from, to) && l.path != to
    ensures var parent := Loc(owner, ParentOf(l.path));
            parent in Renamed(tree, owner, from, to) && Renamed(tree, owner, from, to)[parent].Dir?
  {
    RenamedAt(tree, owner, from, to, l);
    var p := Rebase(l.path, to, from);
    RebaseFacts(l.path, to, from);
    RebaseParent(l.path, to, from);
    assert p != from;
    RenamedAt(tree, owner, from, to, Loc(owner, ParentOf(l.path)));
  }
}
