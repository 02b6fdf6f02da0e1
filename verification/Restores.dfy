/** What a restore does to the tree: where it lands, what it leaves alone, and
    that it undoes a removal. */
module Restores {
  import opened Text
  import opened Paths
  import opened Tree

  lemma {:induction false} ClimbsShorter(path: string, dir: string)
    requires Climbs(path, dir)
    ensures |dir| < |path|
    decreases |path|
  {
    if ParentOf(path) != dir {
      ClimbsShorter(ParentOf(path), dir);
    }
  }

  // ----- Ancestors

  /** `above` is `rows` and some missing directories above `target`, nothing else. */
  ghost predicate AncestorsMade(rows: Rows, above: Rows, owner: string, target: string) {
    && (forall l :: l in rows ==> l in above && above[l] == rows[l])
    && (forall l :: l in above && l !in rows ==>
          l.owner == owner && above[l] == Dir && Climbs(target, l.path) && ValidPath(l.path))
  }

  /** A row added to a tree that has its parent keeps it one. */
  lemma AddKeepsTree(rows: Rows, l: Loc, row: Row)
    requires TreeOk(rows) && l !in rows && l.path != "" && ParentStands(rows, l)
    ensures TreeOk(rows[l := row])
  {
    var after := rows[l := row];
    forall m: Loc | m in after ensures m.path != "" && ParentStands(after, m) {
      if m in rows { assert ParentStands(rows, m); }
    }
  }

  lemma AncestorAdded(rows: Rows, above: Rows, owner: string, parent: string, target: string)
    requires AncestorsMade(rows, above, owner, parent) && parent == ParentOf(target) && target != ""
    requires ValidPath(parent) && Loc(owner, parent) !in above
    ensures AncestorsMade(rows, above[Loc(owner, parent) := Dir], owner, target)
  {
    hide ValidPath, ParentOf;
    forall l: Loc | l in above && l !in rows ensures Climbs(target, l.path) {
      assert Climbs(parent, l.path);
    }
  }

  lemma {:induction false} RestoreParentsMakesAncestors(rows: Rows, owner: string, target: string)
    requires TreeOk(rows) && RestoreParents(rows, owner, target).Ok?
    ensures var above := RestoreParents(rows, owner, target).value;
            && TreeOk(above) && ParentStands(above, Loc(owner, target))
            && AncestorsMade(rows, above, owner, target)
    decreases |target|
  {
    hide ValidPath;
    var parent := ParentOf(target);
    if parent != "" && Loc(owner, parent) !in rows {
      RestoreParentsMakesAncestors(rows, owner, parent);
      var above := RestoreParents(rows, owner, parent).value;
      AddKeepsTree(above, Loc(owner, parent), Dir);
      AncestorAdded(rows, above, owner, parent, target);
    }
  }

  /** A restored path's ancestors can be made exactly when none of them is a file. */
  lemma {:induction false} AncestorInTheWay(rows: Rows, owner: string, target: string)
    requires TreeOk(rows) && ValidPath(target)
    ensures RestoreParents(rows, owner, target).Ok? <==>
            forall a :: Climbs(target, a) && Loc(owner, a) in rows ==> rows[Loc(owner, a)].Dir?
    ensures RestoreParents(rows, owner, target).Err? ==> RestoreParents(rows, owner, target) == Err(Conflict)
    decreases |target|
  {
    var parent := ParentOf(target);
    if parent == "" {
      forall a | Climbs(target, a) ensures Loc(owner, a) !in rows {
        assert a == "" || Climbs("", a);
      }
    } else {
      ParentValid(target);
      assert Climbs(target, parent);
      if Loc(owner, parent) in rows {
        AncestorsAreDirs(rows, owner, parent);
      } else {
        AncestorInTheWay(rows, owner, parent);
        if RestoreParents(rows, owner, parent).Ok? {
          RestoreParentsMakesAncestors(rows, owner, parent);
          assert Loc(owner, parent) !in RestoreParents(rows, owner, parent).value by {
            if Climbs(parent, parent) { ClimbsShorter(parent, parent); }
          }
        }
        forall a | Climbs(parent, a) ensures Climbs(target, a) { ClimbsCompose(target, parent, a); }
      }
    }
  }

  lemma {:induction false} AncestorsAreDirs(rows: Rows, owner: string, path: string)
    requires TreeOk(rows) && Loc(owner, path) in rows
    ensures forall a :: Climbs(path, a) && Loc(owner, a) in rows ==> rows[Loc(owner, a)].Dir?
    decreases |path|
  {
    assert ParentStands(rows, Loc(owner, path));
    var parent := ParentOf(path);
    if parent != "" {
      AncestorsAreDirs(rows, owner, parent);
    } else {
      assert forall a :: Climbs(path, a) ==> a == "" || Climbs("", a);
    }
  }

  // ----- The free name

  /** `to` is the k-th name beside `target`, free, and every name before it is taken. */
  ghost predicate FirstFree(rows: Rows, owner: string, target: string, n: nat, k: nat, to: string) {
    && n <= k <= MAX_COPIES && to == CopyName(target, k) && ValidPath(to) && Loc(owner, to) !in rows
    && forall m: nat :: n <= m < k ==> Loc(owner, CopyName(target, m)) in rows
  }

  lemma {:induction false} FreeNameIsFirst(rows: Rows, owner: string, target: string, n: nat)
    requires 1 <= n <= MAX_COPIES + 1
    ensures var free := FreeName(rows, owner, target, n);
            && (free.Ok? ==> exists k :: FirstFree(rows, owner, target, n, k, free.value))
            && (free == Err(Conflict) ==>
                  forall m: nat :: n <= m <= MAX_COPIES ==> Loc(owner, CopyName(target, m)) in rows)
            && (free.Err? && free != Err(Conflict) ==>
                  free == Err(InvalidPath) && exists m: nat :: n <= m <= MAX_COPIES && !ValidPath(CopyName(target, m)))
    decreases MAX_COPIES + 1 - n
  {
    hide ValidPath, CopyName;
    if n <= MAX_COPIES {
      var here := FileByPath(rows, Loc(owner, CopyName(target, n)));
      if here.Ok? {
        FreeNameIsFirst(rows, owner, target, n + 1);
        var free := FreeName(rows, owner, target, n + 1);
        if free.Ok? {
          var k :| FirstFree(rows, owner, target, n + 1, k, free.value);
          assert FirstFree(rows, owner, target, n, k, free.value);
        }
      } else if here == Err(NotFound) {
        assert FirstFree(rows, owner, target, n, n, CopyName(target, n));
      }
    }
  }

  // ----- Putting the rows back

  function Only(tree: map<string, Row>, order: seq<string>): map<string, Row> {
    map p | p in tree && p in order :: tree[p]
  }

  lemma {:induction false} PutBackIs(rows: Rows, owner: string, order: seq<string>, tree: map<string, Row>,
                                     from: string, to: string)
    requires NoDuplicates(order)
    requires forall p :: p in order ==> p in tree && AtOrUnder(p, from) && Loc(owner, Rebase(p, from, to)) !in rows
    ensures PutBack(rows, owner, order, tree, from, to) ==
            if forall p :: p in order ==> ValidPath(Rebase(p, from, to))
            then Ok(rows + Renamed(Only(tree, order), owner, from, to)) else Err(InvalidPath)
    decreases |order|
  {
    hide ValidPath, Renamed, AtOrUnder;
    if order == [] {
      NothingRenamed(Only(tree, order), owner, from, to);
      assert rows + map[] == rows;
    } else {
      var p := order[0];
      var l := Loc(owner, Rebase(p, from, to));
      assert p in order && TrimPrefix(p, from) == p[|from|..] by { PrefixOf(p, from); }
      if ValidPath(l.path) {
        var after := rows[l := tree[p]];
        forall q | q in order[1..] ensures q in order && Loc(owner, Rebase(q, from, to)) !in after {
          var k :| 1 <= k < |order| && order[k] == q;
          RebaseFacts(p, from, to);
          RebaseFacts(q, from, to);
        }
        PutBackIs(after, owner, order[1..], tree, from, to);
        PutBackStep(rows, owner, order, tree, from, to);
        assert order == [p] + order[1..];
      }
    }
  }

  lemma NothingRenamed(tree: map<string, Row>, owner: string, from: string, to: string)
    requires tree == map[]
    ensures Renamed(tree, owner, from, to) == map[]
  {
  }

  lemma PrefixOf(p: string, from: string)
    requires AtOrUnder(p, from)
    ensures from <= p
  {
    if p != from {
      assert from == p[..|from| + 1][..|from|];
    }
  }

  lemma PutBackStep(rows: Rows, owner: string, order: seq<string>, tree: map<string, Row>, from: string, to: string)
    requires order != [] && NoDuplicates(order)
    requires forall p :: p in order ==> p in tree && AtOrUnder(p, from)
    ensures var l := Loc(owner, Rebase(order[0], from, to));
            rows[l := tree[order[0]]] + Renamed(Only(tree, order[1..]), owner, from, to)
            == rows + Renamed(Only(tree, order), owner, from, to)
  {
    hide Renamed;
    var p := order[0];
    var l := Loc(owner, Rebase(p, from, to));
    var rest, whole := Renamed(Only(tree, order[1..]), owner, from, to), Renamed(Only(tree, order), owner, from, to);
    forall m ensures (m in whole <==> m == l || m in rest) && (m in rest ==> m != l)
        && (m in whole ==> whole[m] == if m == l then tree[p] else rest[m]) {
      RenamedStep(owner, order, tree, from, to, m);
    }
    assert rows[l := tree[p]] + rest == rows + whole;
  }

  lemma RenamedStep(owner: string, order: seq<string>, tree: map<string, Row>, from: string, to: string, m: Loc)
    requires order != [] && NoDuplicates(order)
    requires forall p :: p in order ==> p in tree && AtOrUnder(p, from)
    ensures var l := Loc(owner, Rebase(order[0], from, to));
            var rest, whole := Renamed(Only(tree, order[1..]), owner, from, to),
                Renamed(Only(tree, order), owner, from, to);
            && (m in whole <==> m == l || m in rest) && (m in rest ==> m != l)
            && (m in whole ==> whole[m] == if m == l then tree[order[0]] else rest[m])
  {
    hide Renamed, AtOrUnder, Rebase;
    var p := order[0];
    RebaseFacts(p, from, to);
    assert forall q :: q in order <==> q == p || q in order[1..] by { assert order == [p] + order[1..]; }
    assert p !in order[1..];
    RenamedAt(Only(tree, order), owner, from, to, m);
    RenamedAt(Only(tree, order[1..]), owner, from, to, m);
    if Within(m, owner, to) { RebaseFacts(m.path, to, from); }
  }

  /** Ascending order holds each path once. */
  lemma AscendingDistinct(order: seq<string>)
    requires Ascending(order)
    ensures NoDuplicates(order)
  {
    forall i, j | 0 <= i < j < |order| ensures order[i] != order[j] {
      LessTotal(order[i], order[j]);
    }
  }

  // ----- The whole of a restore

  /** A deletion as a removal leaves it: a tree with its root, every path of it
      one that could be looked up. */
  ghost predicate Deletion(tree: map<string, Row>, root: string) {
    TreeShaped(tree, root) && root in tree && forall p :: p in tree ==> ValidPath(p)
  }

  /** Whether every path of the tree still fits under its new root. */
  ghost predicate Fits(tree: map<string, Row>, root: string, to: string) {
    forall p :: p in tree ==> |to| + |p| - |root| <= MAX_PATH_LEN
  }

  /** What the table is after a restore to `to`: what it was, with directories
      above the new root where nothing stood, and the deleted tree under its new
      name -- nothing else. */
  ghost predicate RestoredAt(rows: Rows, owner: string, tree: map<string, Row>, root: string, r: Restored) {
    RestoreParents(rows, owner, r.to).Ok? &&
    var above := RestoreParents(rows, owner, r.to).value;
    && AncestorsMade(rows, above, owner, r.to)
    && above.Keys !! Renamed(tree, owner, root, r.to).Keys
    && r.rows == above + Renamed(tree, owner, root, r.to)
  }

  /** A restore of a deletion succeeds exactly when there is a free name, nothing
      above it is a file and everything still fits; it lands at the first free
      name, and keeps the tree. */
  lemma RestoreIs(rows: Rows, owner: string, tree: map<string, Row>, root: string)
    requires TreeOk(rows) && Deletion(tree, root)
    ensures var free := FreeName(rows, owner, root, 1);
            Restore(rows, owner, tree).Ok? <==>
            free.Ok? && RestoreParents(rows, owner, free.value).Ok? && Fits(tree, root, free.value)
    ensures Restore(rows, owner, tree).Ok? ==>
              var r := Restore(rows, owner, tree).value;
              && (exists k :: FirstFree(rows, owner, root, 1, k, r.to))
              && RestoredAt(rows, owner, tree, root, r)
              && TreeOk(r.rows)
  {
    hide ValidPath;
    var order := PathOrder(tree.Keys);
    RootFirst(tree, root);
    FreeNameIsFirst(rows, owner, root, 1);
    var free := FreeName(rows, owner, root, 1);
    if free.Ok? && RestoreParents(rows, owner, free.value).Ok? {
      var to := free.value;
      RestoreParentsMakesAncestors(rows, owner, to);
      var above := RestoreParents(rows, owner, to).value;
      NothingInTheWay(rows, above, owner, tree, root, to);
      PathOrderAscends(tree.Keys);
      AscendingDistinct(order);
      PutBackIs(above, owner, order, tree, root, to);
      assert Only(tree, order) == tree;
      FitsIsValid(tree, root, to);
      forall p ensures p in order <==> p in tree {}
      if Fits(tree, root, to) {
        GraftKeepsTree(above, owner, tree, root, to);
      }
    }
  }

  lemma FitsIsValid(tree: map<string, Row>, root: string, to: string)
    requires Deletion(tree, root) && ValidPath(to)
    ensures Fits(tree, root, to) <==> forall p :: p in tree ==> AtOrUnder(p, root) && ValidPath(Rebase(p, root, to))
  {
    forall p | p in tree ensures AtOrUnder(p, root) && (ValidPath(Rebase(p, root, to))
        <==> |to| + |p| - |root| <= MAX_PATH_LEN) {
      RebaseValid(p, root, to);
    }
  }

  /** Under a free name there is nothing, so a restored row replaces nothing. */
  lemma NothingInTheWay(rows: Rows, above: Rows, owner: string, tree: map<string, Row>, root: string, to: string)
    requires TreeOk(rows) && Deletion(tree, root) && ValidPath(to) && Loc(owner, to) !in rows
    requires AncestorsMade(rows, above, owner, to)
    ensures above.Keys !! Renamed(tree, owner, root, to).Keys
    ensures forall p :: p in tree ==> AtOrUnder(p, root) && Loc(owner, Rebase(p, root, to)) !in above
  {
    forall l | l in above ensures !Within(l, owner, to) {
      if Within(l, owner, to) {
        PrefixOf(l.path, to);
        if l in rows {
          NothingUnderFree(rows, owner, to, l);
        } else {
          ClimbsShorter(to, l.path);
        }
        assert false;
      }
    }
    forall l | l in Renamed(tree, owner, root, to) ensures l !in above {
      RenamedAt(tree, owner, root, to, l);
    }
    forall p | p in tree ensures AtOrUnder(p, root) && Loc(owner, Rebase(p, root, to)) !in above {
      RebaseFacts(p, root, to);
    }
  }

  lemma GraftKeepsTree(above: Rows, owner: string, tree: map<string, Row>, root: string, to: string)
    requires TreeOk(above) && ParentStands(above, Loc(owner, to)) && Deletion(tree, root) && to != ""
    requires above.Keys !! Renamed(tree, owner, root, to).Keys
    ensures TreeOk(above + Renamed(tree, owner, root, to))
  {
    var added := Renamed(tree, owner, root, to);
    forall l: Loc | l in added ensures l.path != "" && (ParentStands(above, l) || ParentStands(added, l)) {
      RenamedAt(tree, owner, root, to, l);
      if l.path != to {
        RenamedParent(tree, owner, root, to, l);
      }
    }
    JoinTrees(above, added);
  }

  // ----- Removing and restoring

  /** What a removal takes is a deletion a restore can put back. */
  lemma RemovedIsDeletion(rows: Rows, l: Loc)
    requires TreeOk(rows) && RemoveTree(rows, l).Ok?
    ensures Deletion(RemoveTree(rows, l).value, l.path)
  {
    SubtreeClosed(rows, l.owner, l.path);
  }

  /** A removal with a restore straight after it changes nothing: the same paths,
      kinds, blob keys, sizes and validators, at the same place. */
  lemma RemoveThenRestore(rows: Rows, l: Loc)
    requires TreeOk(rows) && RemoveTree(rows, l).Ok?
    ensures Restore(Without(rows, l.owner, l.path), l.owner, RemoveTree(rows, l).value) == Ok(Restored(rows, l.path))
  {
    var tree := RemoveTree(rows, l).value;
    var rest := Without(rows, l.owner, l.path);
    WithoutKeepsTree(rows, l.owner, l.path);
    RemovedIsDeletion(rows, l);
    assert FreeName(rest, l.owner, l.path, 1) == Ok(l.path);
    var parent := ParentOf(l.path);
    assert ParentStands(rows, l);
    if parent != "" {
      ParentValid(l.path);
      if AtOrUnder(parent, l.path) { ChildUnder(l.path, l.path); assert false; }
    }
    assert RestoreParents(rest, l.owner, l.path) == Ok(rest);
    RestoreIs(rest, l.owner, tree, l.path);
    assert Fits(tree, l.path, l.path);
    GraftIsWhole(rows, l);
  }

  lemma GraftIsWhole(rows: Rows, l: Loc)
    ensures Without(rows, l.owner, l.path) + Renamed(Subtree(rows, l.owner, l.path), l.owner, l.path, l.path) == rows
  {
    var tree := Subtree(rows, l.owner, l.path);
    var back := Renamed(tree, l.owner, l.path, l.path);
    forall m ensures m in back <==> m in rows && Within(m, l.owner, l.path)
             ensures m in back ==> back[m] == rows[m]
    {
      RenamedAt(tree, l.owner, l.path, l.path, m);
      if Within(m, l.owner, l.path) { RebaseFacts(m.path, l.path, l.path); }
    }
  }

  // ----- What a move does to paths

  /** A move checks its two names and no others: after it every row can still be looked
      up exactly when what was under the old name fits under the new one. */
  lemma MoveKeepsPaths(rows: Rows, owner: string, from: string, to: string)
    requires PathsOk(rows) && Move(rows, owner, from, to).Ok?
    ensures PathsOk(Move(rows, owner, from, to).value) <==>
            forall p :: p in Subtree(rows, owner, from) ==> |to| + |p| - |from| <= MAX_PATH_LEN
  {
    hide ValidPath, Renamed, RequireParent;
    var tree := Subtree(rows, owner, from);
    var moved := Renamed(tree, owner, from, to);
    var after := Move(rows, owner, from, to).value;
    RenamedFacts(tree, owner, from, to);
    forall p | p in tree
      ensures AtOrUnder(p, from) && Loc(owner, Rebase(p, from, to)) in moved
      ensures ValidPath(Rebase(p, from, to)) <==> |to| + |p| - |from| <= MAX_PATH_LEN
    {
      RebaseFacts(p, from, to);
      RenamedAt(tree, owner, from, to, Loc(owner, Rebase(p, from, to)));
      assert ValidPath(Loc(owner, p).path);
      RebaseValid(p, from, to);
    }
    assert after == Without(rows, owner, from) + moved;
    if PathsOk(after) {
      forall p | p in tree ensures |to| + |p| - |from| <= MAX_PATH_LEN {
        assert Loc(owner, Rebase(p, from, to)) in after;
      }
    }
  }

  // ----- An import keeps the tree

  ghost predicate Keeps(rows: Rows, after: Rows) {
    forall l :: l in rows ==> l in after && after[l] == rows[l]
  }

  /** What an import makes of one row: nothing when its path is taken, and otherwise the
      row and the directories above it that are missing -- unless it cannot be stored or a
      file is in the way. */
  lemma AdoptOneIs(rows: Rows, owner: string, item: Planned)
    requires TreeOk(rows)
    ensures var l, r := Loc(owner, item.path), AdoptOne(rows, owner, item);
            if !ValidPath(item.path) then r == Err(InvalidPath)
            else if l in rows then r == Ok((rows, false))
            else if exists a :: Climbs(item.path, a) && Loc(owner, a) in rows && rows[Loc(owner, a)].File? then
              r == Err(Conflict)
            else r.Ok? && r.value.1 && l in r.value.0 && r.value.0[l] == (if item.row.Dir? then Dir else item.row)
    ensures var l, r := Loc(owner, item.path), AdoptOne(rows, owner, item);
            r.Ok? && l !in rows ==>
              forall m :: m != l ==>
                if m in rows then m in r.value.0 && r.value.0[m] == rows[m]
                else m in r.value.0 ==> m.owner == owner && Climbs(item.path, m.path) && r.value.0[m] == Dir
  {
    hide ValidPath, TreeOk, Climbs;
    if ValidPath(item.path) && Loc(owner, item.path) !in rows {
      AncestorInTheWay(rows, owner, item.path);
      if RestoreParents(rows, owner, item.path).Ok? {
        RestoreParentsMakesAncestors(rows, owner, item.path);
        if Loc(owner, item.path) in RestoreParents(rows, owner, item.path).value {
          ClimbsShorter(item.path, item.path);
          assert false;
        }
      }
    }
  }

  lemma AdoptOneKeepsTree(rows: Rows, owner: string, item: Planned)
    requires TreeOk(rows) && AdoptOne(rows, owner, item).Ok?
    ensures TreeOk(AdoptOne(rows, owner, item).value.0)
    ensures Keeps(rows, AdoptOne(rows, owner, item).value.0)
  {
    hide ValidPath;
    if Loc(owner, item.path) !in rows {
      RestoreParentsMakesAncestors(rows, owner, item.path);
      var above := RestoreParents(rows, owner, item.path).value;
      if Loc(owner, item.path) in above {
        ClimbsShorter(item.path, item.path);
        assert false;
      }
      AddKeepsTree(above, Loc(owner, item.path), item.row);
    }
  }

  /** An import keeps the tree and every row that was there. */
  lemma {:induction false} AdoptKeepsTree(rows: Rows, owner: string, items: seq<Planned>)
    requires TreeOk(rows) && AdoptAll(rows, owner, items).Ok?
    ensures TreeOk(AdoptAll(rows, owner, items).value)
    ensures Keeps(rows, AdoptAll(rows, owner, items).value)
    decreases |items|
  {
    if items == [] {
    } else {
      AdoptOneKeepsTree(rows, owner, items[0]);
      AdoptKeepsTree(AdoptOne(rows, owner, items[0]).value.0, owner, items[1..]);
    }
  }
}
