/** Taking a tree out, depth first, the only order the database accepts. */
module Removals {
  import opened Text
  import opened Paths
  import opened Tree
  import opened Repository
  import Copies
  import Restores

  /** The rows not at or under any of the first `k` children. */
  function WithoutFirst(rows: Rows, owner: string, children: seq<Planned>, k: nat): Rows
    requires k <= |children|
    decreases k
  {
    if k == 0 then rows else Without(WithoutFirst(rows, owner, children, k - 1), owner, children[k - 1].path)
  }

  lemma {:induction false} WithoutFirstHas(rows: Rows, owner: string, children: seq<Planned>, k: nat, l: Loc)
    requires k <= |children|
    ensures l in WithoutFirst(rows, owner, children, k) <==>
            l in rows && forall i :: 0 <= i < k ==> !Within(l, owner, children[i].path)
    ensures l in WithoutFirst(rows, owner, children, k) ==> WithoutFirst(rows, owner, children, k)[l] == rows[l]
    decreases k
  {
    hide AtOrUnder;
    if k == 0 {
    } else {
      WithoutFirstHas(rows, owner, children, k - 1, l);
    }
  }

  lemma {:induction false} WithoutFirstKeepsTree(rows: Rows, owner: string, children: seq<Planned>, k: nat)
    requires TreeOk(rows) && k <= |children|
    ensures TreeOk(WithoutFirst(rows, owner, children, k))
    decreases k
  {
    hide TreeOk, Without;
    if k == 0 {
    } else {
      WithoutFirstKeepsTree(rows, owner, children, k - 1);
      WithoutKeepsTree(WithoutFirst(rows, owner, children, k - 1), owner, children[k - 1].path);
    }
  }

  /** Siblings hold nothing in common. */
  lemma SiblingsApart(a: string, b: string, path: string)
    requires ParentOf(a) == ParentOf(b) && a != b && a != "" && b != ""
    ensures !(AtOrUnder(path, a) && AtOrUnder(path, b))
  {
    if AtOrUnder(path, a) && AtOrUnder(path, b) {
      TwoAbove(path, a, b);
      if Under(a, b) {
        ParentUnder(a, b);
        ParentOutsideItself(b);
      } else {
        ParentUnder(b, a);
        ParentOutsideItself(a);
      }
    }
  }

  lemma ParentOutsideItself(path: string)
    requires path != ""
    ensures !AtOrUnder(ParentOf(path), path)
  {
  }

  /** What stands under a directory stands at or under one of its children. */
  lemma {:induction false} UnderAChild(rows: Rows, owner: string, dir: string, path: string) returns (child: string)
    requires TreeOk(rows) && dir != "" && Loc(owner, path) in rows && Under(path, dir)
    ensures Loc(owner, child) in rows && ParentOf(child) == dir && AtOrUnder(path, child)
    decreases |path|
  {
    assert ParentStands(rows, Loc(owner, path));
    if ParentOf(path) == dir {
      child := path;
    } else {
      ParentUnder(path, dir);
      child := UnderAChild(rows, owner, dir, ParentOf(path));
      assert ParentOf(path) + "/" <= path by { SlashAfterParent(path); }
      assert Under(path, ParentOf(path));
      UnderTransitive(path, ParentOf(path), child);
    }
  }

  lemma SlashAfterParent(path: string)
    requires ParentOf(path) != ""
    ensures ParentOf(path) + "/" <= path
  {
    var i := LastIndex(path, '/');
    assert path[..i + 1] == path[..i] + "/";
  }

  /** A child's subtree is as it was until its turn. */
  lemma NextUntouched(rows: Rows, owner: string, dir: string, children: seq<Planned>, k: nat)
    requires TreeOk(rows) && dir != "" && Lists(children, rows, owner, dir) && k < |children|
    ensures Subtree(WithoutFirst(rows, owner, children, k), owner, children[k].path)
            == Subtree(rows, owner, children[k].path)
    ensures Tree.RemoveTree(WithoutFirst(rows, owner, children, k), Loc(owner, children[k].path))
            == Tree.RemoveTree(rows, Loc(owner, children[k].path))
  {
    hide AtOrUnder, TreeOk, ValidPath, ParentOf;
    var path := children[k].path;
    var left := WithoutFirst(rows, owner, children, k);
    RowsHavePaths(rows);
    forall l | Within(l, owner, path) ensures l in left <==> l in rows
                                     ensures l in left ==> left[l] == rows[l] {
      WithoutFirstHas(rows, owner, children, k, l);
      forall i | 0 <= i < k ensures !Within(l, owner, children[i].path) {
        SiblingsApart(children[i].path, path, l.path);
      }
    }
    AtItself(path);
    assert Within(Loc(owner, path), owner, path);
    assert Subtree(left, owner, path) == Subtree(rows, owner, path);
  }

  lemma AtItself(path: string)
    ensures AtOrUnder(path, path)
  {
  }

  lemma RowsHavePaths(rows: Rows)
    requires TreeOk(rows)
    ensures forall l :: l in rows ==> l.path != ""
  {
  }

  /** A child's subtree is part of its parent's, and smaller. */
  lemma ChildSmaller(rows: Rows, owner: string, dir: string, child: string)
    requires TreeOk(rows) && dir != "" && Loc(owner, dir) in rows && Loc(owner, child) in rows && ParentOf(child) == dir
    ensures Subtree(rows, owner, child).Keys < Subtree(rows, owner, dir).Keys
    ensures forall p :: p in Subtree(rows, owner, child) ==>
            Subtree(rows, owner, dir)[p]
            == Subtree(rows, owner, child)[p]
  {
    ChildUnder(child, dir);
    forall p | AtOrUnder(p, child) ensures AtOrUnder(p, dir) { UnderTransitive(p, child, dir); }
    var under, above := Subtree(rows, owner, child), Subtree(rows, owner, dir);
    assert dir in above && dir !in under by { ParentOutsideItself(child); }
  }

  /** Once every child is gone with what is under it, only the directory is left. */
  lemma OnlyRootLeft(rows: Rows, owner: string, dir: string, children: seq<Planned>)
    requires TreeOk(rows) && dir != "" && Loc(owner, dir) in rows && Lists(children, rows, owner, dir)
    ensures var left := WithoutFirst(rows, owner, children, |children|);
            && Loc(owner, dir) in left && !HasChildren(left, Loc(owner, dir))
            && left - {Loc(owner, dir)} == Without(rows, owner, dir)
  {
    hide TreeOk, AtOrUnder, ParentOf;
    var left := WithoutFirst(rows, owner, children, |children|);
    forall l ensures l in left <==> l in rows && (!Within(l, owner, dir) || l == Loc(owner, dir))
             ensures l in left ==> left[l] == rows[l] {
      WithoutFirstHas(rows, owner, children, |children|, l);
      if l in rows { GoneWithChildren(rows, owner, dir, children, l); }
    }
    AtItself(dir);
    forall c | c in left && c.owner == owner ensures ParentOf(c.path) != dir {
      if ParentOf(c.path) == dir {
        ChildUnder(c.path, dir);
        DirNotOwnChild(c.path, dir);
        assert false;
      }
    }
    assert left - {Loc(owner, dir)} == Without(rows, owner, dir);
  }

  lemma DirNotOwnChild(path: string, dir: string)
    requires ParentOf(path) == dir && dir != ""
    ensures AtOrUnder(path, dir) && path != dir
  {
    ChildUnder(path, dir);
  }

  lemma GoneWithChildren(rows: Rows, owner: string, dir: string, children: seq<Planned>, l: Loc)
    requires TreeOk(rows) && dir != "" && Loc(owner, dir) in rows && Lists(children, rows, owner, dir)
    requires l in rows
    ensures (exists i :: 0 <= i < |children| && Within(l, owner, children[i].path))
            <==> Within(l, owner, dir) && l != Loc(owner, dir)
  {
    if i :| 0 <= i < |children| && Within(l, owner, children[i].path) {
      ChildUnder(children[i].path, dir);
      UnderTransitive(l.path, children[i].path, dir);
      ParentOutsideItself(children[i].path);
    }
    if Within(l, owner, dir) && l != Loc(owner, dir) {
      var child := UnderAChild(rows, owner, dir, l.path);
      assert Copies.IsPlanned(children, child);
      var i :| 0 <= i < |children| && children[i].path == child;
      assert Within(l, owner, children[i].path);
    }
  }

  // ----- What was taken

  /** The rows of a tree, each once. */
  ghost predicate Took(taken: seq<Planned>, tree: map<string, Row>) {
    && Copies.DistinctPaths(taken)
    && (forall i :: 0 <= i < |taken| ==> IsRow(taken[i], taken[i].path, tree))
    && (forall p :: p in tree ==> Copies.IsPlanned(taken, p))
  }

  /** The rows of the first `k` children's trees. */
  ghost function FirstTrees(rows: Rows, owner: string, children: seq<Planned>, k: nat): map<string, Row>
    requires k <= |children|
    decreases k
  {
    if k == 0 then map[] else FirstTrees(rows, owner, children, k - 1) + Subtree(rows, owner, children[k - 1].path)
  }

  lemma {:induction false} FirstTreesHas(rows: Rows, owner: string, children: seq<Planned>, k: nat, p: string)
    requires k <= |children|
    ensures p in FirstTrees(rows, owner, children, k) <==>
            Loc(owner, p) in rows && exists i :: 0 <= i < k && AtOrUnder(p, children[i].path)
    ensures p in FirstTrees(rows, owner, children, k) ==> FirstTrees(rows, owner, children, k)[p] == rows[Loc(owner, p)]
    decreases k
  {
    hide AtOrUnder;
    if k == 0 {
    } else {
      FirstTreesHas(rows, owner, children, k - 1, p);
    }
  }

  lemma TookMore(taken: seq<Planned>, more: seq<Planned>, a: map<string, Row>, b: map<string, Row>)
    requires Took(taken, a) && Took(more, b) && a.Keys !! b.Keys
    ensures Took(taken + more, a + b)
  {
    var all := taken + more;
    forall i | 0 <= i < |all| ensures IsRow(all[i], all[i].path, a + b) && (i < |taken| ==> all[i].path in a)
        && (i >= |taken| ==> all[i].path in b) {
      if i < |taken| {
        assert IsRow(taken[i], taken[i].path, a);
      } else {
        assert IsRow(more[i - |taken|], more[i - |taken|].path, b);
      }
    }
    forall i, j | 0 <= i < j < |all| ensures all[i].path != all[j].path {
      if j < |taken| {
        assert taken[i].path != taken[j].path;
      } else if i >= |taken| {
        assert more[i - |taken|].path != more[j - |taken|].path;
      }
    }
    forall p | p in a + b ensures Copies.IsPlanned(all, p) {
      if p in a {
        assert Copies.IsPlanned(taken, p);
        var i :| 0 <= i < |taken| && taken[i].path == p;
        assert all[i].path == p;
      } else {
        assert Copies.IsPlanned(more, p);
        var i :| 0 <= i < |more| && more[i].path == p;
        assert all[|taken| + i].path == p;
      }
    }
  }

  lemma NextTreeApart(rows: Rows, owner: string, dir: string, children: seq<Planned>, k: nat)
    requires TreeOk(rows) && Lists(children, rows, owner, dir) && k < |children|
    ensures FirstTrees(rows, owner, children, k).Keys !! Subtree(rows, owner, children[k].path).Keys
  {
    hide AtOrUnder, TreeOk, ParentOf;
    RowsHavePaths(rows);
    forall p | p in FirstTrees(rows, owner, children, k) ensures p !in Subtree(rows, owner, children[k].path) {
      FirstTreesHas(rows, owner, children, k, p);
      var i :| 0 <= i < k && AtOrUnder(p, children[i].path);
      SiblingsApart(children[i].path, children[k].path, p);
    }
  }

  lemma InATree(rows: Rows, owner: string, dir: string, children: seq<Planned>, p: string)
    requires TreeOk(rows) && dir != "" && Loc(owner, dir) in rows && Lists(children, rows, owner, dir)
    ensures var trees := FirstTrees(rows, owner, children, |children|);
            && (p in trees <==> Loc(owner, p) in rows && AtOrUnder(p, dir) && p != dir)
            && (p in trees ==> trees[p] == rows[Loc(owner, p)])
  {
    hide TreeOk, AtOrUnder, FirstTrees, Lists, ParentOf;
    FirstTreesHas(rows, owner, children, |children|, p);
    if Loc(owner, p) in rows {
      GoneWithChildren(rows, owner, dir, children, Loc(owner, p));
      if i :| 0 <= i < |children| && AtOrUnder(p, children[i].path) {
        assert Within(Loc(owner, p), owner, children[i].path);
      }
    }
  }

  /** The children's trees and the directory itself are the whole tree. */
  lemma TreesMakeWhole(rows: Rows, owner: string, dir: string, children: seq<Planned>)
    requires TreeOk(rows) && dir != "" && Loc(owner, dir) in rows && Lists(children, rows, owner, dir)
    ensures var trees := FirstTrees(rows, owner, children, |children|);
            dir !in trees && trees + map[dir := rows[Loc(owner, dir)]] == Subtree(rows, owner, dir)
  {
    hide TreeOk, AtOrUnder, FirstTrees, Lists, ParentOf, Subtree;
    var trees := FirstTrees(rows, owner, children, |children|);
    AtItself(dir);
    forall p ensures p in trees <==> Loc(owner, p) in rows && AtOrUnder(p, dir) && p != dir
             ensures p in trees ==> trees[p] == rows[Loc(owner, p)] {
      InATree(rows, owner, dir, children, p);
    }
  }

  /** A file has nothing under it. */
  lemma FileAlone(rows: Rows, l: Loc)
    requires TreeOk(rows) && l in rows && rows[l].File?
    ensures !HasChildren(rows, l)
    ensures rows - {l} == Without(rows, l.owner, l.path)
    ensures Subtree(rows, l.owner, l.path) == map[l.path := rows[l]]
  {
    forall m | m in rows && Within(m, l.owner, l.path) ensures m == l {
      NothingUnderFree(rows, l.owner, l.path, m);
    }
    forall c | c in rows && c.owner == l.owner ensures ParentOf(c.path) != l.path {
      assert ParentStands(rows, c);
    }
  }

  /** Whether every path of a tree can be looked up is a question for each child. */
  lemma ValidByChildren(rows: Rows, owner: string, dir: string, children: seq<Planned>)
    requires TreeOk(rows) && ValidPath(dir) && Loc(owner, dir) in rows && Lists(children, rows, owner, dir)
    ensures Tree.RemoveTree(rows, Loc(owner, dir)) ==
            if forall i :: 0 <= i < |children| ==> Tree.RemoveTree(rows, Loc(owner, children[i].path)).Ok?
            then Ok(Subtree(rows, owner, dir)) else Err(InvalidPath)
  {
    hide TreeOk, AtOrUnder, ValidPath, ParentOf;
    if i :| 0 <= i < |children| && Tree.RemoveTree(rows, Loc(owner, children[i].path)).Err? {
      ChildSmaller(rows, owner, dir, children[i].path);
      AtItself(children[i].path);
    } else {
      forall p | p in Subtree(rows, owner, dir) ensures ValidPath(p) {
        if p != dir {
          GoneWithChildren(rows, owner, dir, children, Loc(owner, p));
          var i :| 0 <= i < |children| && Within(Loc(owner, p), owner, children[i].path);
          assert Tree.RemoveTree(rows, Loc(owner, children[i].path)).Ok?;
        }
      }
    }
  }

  lemma FileTaken(rows: Rows, l: Loc)
    requires TreeOk(rows) && ValidPath(l.path) && l in rows && rows[l].File?
    ensures DeleteFile(rows, l) == Ok(Without(rows, l.owner, l.path))
    ensures Tree.RemoveTree(rows, l).Ok?
    ensures Took([Planned(l.path, rows[l])], Subtree(rows, l.owner, l.path))
  {
    hide TreeOk, Subtree, ValidPath, Took, HasChildren;
    FileAlone(rows, l);
    TookNothing(rows, l.owner, []);
    TookLast([], map[], l.path, rows[l]);
    assert [] + [Planned(l.path, rows[l])] == [Planned(l.path, rows[l])];
    assert map[] + map[l.path := rows[l]] == map[l.path := rows[l]];
  }

  lemma DirTaken(rows: Rows, l: Loc, children: seq<Planned>, taken: seq<Planned>)
    requires TreeOk(rows) && ValidPath(l.path) && l in rows && Lists(children, rows, l.owner, l.path)
    requires forall i :: 0 <= i < |children| ==> Tree.RemoveTree(rows, Loc(l.owner, children[i].path)).Ok?
    requires Took(taken, FirstTrees(rows, l.owner, children, |children|))
    ensures DeleteFile(WithoutFirst(rows, l.owner, children, |children|), l) == Ok(Without(rows, l.owner, l.path))
    ensures Tree.RemoveTree(rows, l).Ok?
    ensures Took(taken + [Planned(l.path, rows[l])], Subtree(rows, l.owner, l.path))
  {
    hide TreeOk, Subtree, ValidPath, Took, HasChildren, FirstTrees, WithoutFirst, Without, Lists, ParentOf;
    OnlyRootLeft(rows, l.owner, l.path, children);
    ValidByChildren(rows, l.owner, l.path, children);
    TreesMakeWhole(rows, l.owner, l.path, children);
    TookLast(taken, FirstTrees(rows, l.owner, children, |children|), l.path, rows[l]);
  }

  /** One more child's tree taken out. */
  lemma ChildTaken(rows: Rows, owner: string, dir: string, children: seq<Planned>, k: nat, taken: seq<Planned>,
                   under: seq<Planned>)
    requires TreeOk(rows) && Lists(children, rows, owner, dir) && k < |children|
    requires Took(taken, FirstTrees(rows, owner, children, k)) && Took(under, Subtree(rows, owner, children[k].path))
    ensures Took(taken + under, FirstTrees(rows, owner, children, k + 1))
    ensures WithoutFirst(rows, owner, children, k + 1)
            == Without(WithoutFirst(rows, owner, children, k), owner, children[k].path)
  {
    hide TreeOk, Took, Subtree;
    NextTreeApart(rows, owner, dir, children, k);
    TookMore(taken, under, FirstTrees(rows, owner, children, k), Subtree(rows, owner, children[k].path));
  }

  /** Takes exactly the rows at or under a path, and says which they were; it is
      refused when nothing is there or when something there cannot be looked up. */
  method RemoveTree(r: Repo, l: Loc) returns (taken: seq<Planned>, failed: Option<Error>)
    requires TreeOk(r.files)
    modifies r`files
    ensures failed == Refusal(Tree.RemoveTree(old(r.files), l))
    ensures failed.None? ==> r.files == Without(old(r.files), l.owner, l.path)
    ensures failed.None? ==> Took(taken, Subtree(old(r.files), l.owner, l.path))
    decreases Subtree(r.files, l.owner, l.path).Keys
  {
    hide TreeOk, ValidPath, AtOrUnder, ParentOf, Without, FirstTrees, Took, WithoutFirst, Subtree, HasChildren;
    taken := [];
    ghost var before := r.files;
    var found := r.FileByPath(l);
    if found.Err? { return [], Some(found.error); }
    if found.value.Dir? {
      var children, refused := r.ListFiles(l.owner, l.path);
      TookNothing(before, l.owner, children);
      var i := 0;
      while i < |children|
        invariant i <= |children| && r.files == WithoutFirst(before, l.owner, children, i)
        invariant forall j :: 0 <= j < i ==> Tree.RemoveTree(before, Loc(l.owner, children[j].path)).Ok?
        invariant Took(taken, FirstTrees(before, l.owner, children, i))
      {
        hide Tree.RemoveTree;
        WithoutFirstKeepsTree(before, l.owner, children, i);
        NextUntouched(before, l.owner, l.path, children, i);
        ChildSmaller(before, l.owner, l.path, children[i].path);
        var under;
        under, failed := RemoveTree(r, Loc(l.owner, children[i].path));
        if failed.Some? {
          ValidByChildren(before, l.owner, l.path, children);
          RemoveRefused(before, Loc(l.owner, children[i].path));
          return [], failed;
        }
        ChildTaken(before, l.owner, l.path, children, i, taken, under);
        taken := taken + under;
        i := i + 1;
      }
      DirTaken(before, l, children, taken);
    } else {
      FileTaken(before, l);
      assert taken + [Planned(l.path, found.value)] == [Planned(l.path, found.value)];
    }
    failed := r.DeleteFile(l);
    taken := taken + [Planned(l.path, found.value)];
  }

  lemma RemoveRefused(rows: Rows, l: Loc)
    requires l in rows && Tree.RemoveTree(rows, l).Err?
    ensures Tree.RemoveTree(rows, l) == Err(InvalidPath)
  {
  }

  lemma TookNothing(rows: Rows, owner: string, children: seq<Planned>)
    ensures Took([], map[]) && Took([], FirstTrees(rows, owner, children, 0))
    ensures WithoutFirst(rows, owner, children, 0) == rows
  {
  }

  lemma TookLast(taken: seq<Planned>, tree: map<string, Row>, path: string, row: Row)
    requires Took(taken, tree) && path !in tree
    ensures Took(taken + [Planned(path, row)], tree + map[path := row])
  {
    var last := [Planned(path, row)];
    assert last[0].path == path;
    TookMore(taken, last, tree, map[path := row]);
  }

  lemma TookIsTree(taken: seq<Planned>, tree: map<string, Row>)
    requires Took(taken, tree)
    ensures AsTree(taken) == tree
  {
    hide AsTree;
    forall p ensures p in AsTree(taken) <==> p in tree ensures p in tree ==> AsTree(taken)[p] == tree[p] {
      AsTreeHas(taken, p);
      if p in tree {
        assert Copies.IsPlanned(taken, p);
        var i :| 0 <= i < |taken| && taken[i].path == p;
        assert IsRow(taken[i], taken[i].path, tree);
      }
      if Copies.IsPlanned(taken, p) {
        var i :| 0 <= i < |taken| && taken[i].path == p;
        assert IsRow(taken[i], taken[i].path, tree);
      }
    }
  }
}
