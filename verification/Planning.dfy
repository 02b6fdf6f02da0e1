/** The plan of a copy (internal/files/copy.go): what it will make, parents before
    children, by a walk of the source. */
module Planning {
  import opened Text
  import opened Paths
  import opened Tree
  import opened Repository
  import opened Copies
  import Removals
  import Restores

  /** The plan with the first `k` of the source's children in it. */
  ghost predicate PlansFirst(plan: seq<Planned>, rows: Rows, owner: string, from: string, to: string,
                             children: seq<Planned>, k: nat)
    requires k <= |children|
  {
    && Loc(owner, from) in rows && plan != [] && plan[0] == Planned(to, rows[Loc(owner, from)])
    && DistinctPaths(plan) && ParentsFirst(plan, to)
    && (forall i :: 0 <= i < |plan| ==> PlannedFrom(plan[i], rows, owner, from, to))
    && (forall i :: 0 < i < |plan| ==> InFirst(plan[i].path, from, to, children, k))
    && (forall p, j :: 0 <= j < k && Loc(owner, p) in rows && AtOrUnder(p, children[j].path) && AtOrUnder(p, from) ==>
          IsPlanned(plan, Rebase(p, from, to)))
  }

  /** A new path at or under that of one of the first `k` children. */
  ghost predicate InFirst(path: string, from: string, to: string, children: seq<Planned>, k: nat)
    requires k <= |children|
  {
    exists j :: 0 <= j < k && AtOrUnder(children[j].path, from) && AtOrUnder(path, Rebase(children[j].path, from, to))
  }

  /** A child keeps its name under the new parent. */
  lemma ChildRenamed(child: string, from: string, to: string)
    requires from != "" && ParentOf(child) == from
    ensures Under(child, from) && Rebase(child, from, to) == to + "/" + Leaf(child)
  {
    Removals.SlashAfterParent(child);
    var i := LastIndex(child, '/');
    assert i == |from|;
    assert child[|from|..] == "/" + child[i + 1..];
    assert to + "/" + child[i + 1..] == to + ("/" + child[i + 1..]);
  }

  /** Renaming under a child is renaming under its parent. */
  lemma RebaseNested(path: string, child: string, from: string, to: string)
    requires AtOrUnder(child, from) && AtOrUnder(path, child)
    ensures AtOrUnder(path, from) && Rebase(path, child, Rebase(child, from, to)) == Rebase(path, from, to)
  {
    hide AtOrUnder;
    UnderTransitive(path, child, from);
    Restores.PrefixOf(path, child);
    Restores.PrefixOf(child, from);
    var name, tail := child[|from|..], path[|child|..];
    assert child == from + name && path == child + tail;
    Associates(from, name, tail);
    Associates(to, name, tail);
    assert (from + (name + tail))[|from|..] == name + tail;
  }

  lemma Associates(a: string, b: string, c: string)
    ensures a + b + c == a + (b + c)
  {
  }

  lemma RebaseBack(path: string, child: string, from: string, to: string)
    requires AtOrUnder(child, from) && AtOrUnder(path, Rebase(child, from, to))
    ensures AtOrUnder(path, to) && Rebase(path, to, from) == Rebase(path, Rebase(child, from, to), child)
    ensures AtOrUnder(Rebase(path, to, from), child)
  {
    hide AtOrUnder, Rebase;
    RebaseFacts(child, from, to);
    RebaseFacts(path, Rebase(child, from, to), child);
    RebaseNested(path, Rebase(child, from, to), to, from);
  }

  /** New paths of siblings have nothing in common. */
  lemma NewSiblingsApart(a: string, b: string, from: string, to: string, path: string)
    requires from != "" && to != "" && a != b && ParentOf(a) == from == ParentOf(b)
    ensures Under(a, from) && Under(b, from)
    ensures !(AtOrUnder(path, Rebase(a, from, to)) && AtOrUnder(path, Rebase(b, from, to)))
  {
    hide ParentOf, LastIndex;
    ChildRenamed(a, from, to);
    ChildRenamed(b, from, to);
    hide Under, AtOrUnder, Rebase;
    AreUnder(a, from);
    AreUnder(b, from);
    RebaseParent(a, from, to);
    RebaseParent(b, from, to);
    RootRebased(from, to);
    RebaseFacts(a, from, to);
    RebaseFacts(b, from, to);
    NotEmptyUnder(Rebase(a, from, to), to);
    NotEmptyUnder(Rebase(b, from, to), to);
    Removals.SiblingsApart(Rebase(a, from, to), Rebase(b, from, to), path);
  }

  lemma AreUnder(path: string, dir: string)
    requires Under(path, dir)
    ensures AtOrUnder(path, dir) && path != dir
  {
  }

  lemma NotEmptyUnder(path: string, dir: string)
    requires AtOrUnder(path, dir) && dir != ""
    ensures path != ""
  {
  }

  /** A child's plan put after those of the children before it. */
  lemma PlanChild(plan: seq<Planned>, deeper: seq<Planned>, rows: Rows, owner: string, from: string, to: string,
                  children: seq<Planned>, k: nat)
    requires k < |children| && Lists(children, rows, owner, from) && from != "" && to != ""
    requires Loc(owner, from) in rows && rows[Loc(owner, from)].Dir?
    requires PlansFirst(plan, rows, owner, from, to, children, k)
    requires Under(children[k].path, from)
    requires PlansCopy(deeper, rows, owner, children[k].path, Rebase(children[k].path, from, to), true)
    ensures PlansFirst(plan + deeper, rows, owner, from, to, children, k + 1)
  {
    hide AtOrUnder, Under, Rebase, ParentOf, PlannedFrom, InFirst, ParentsFirst;
    AreUnder(children[k].path, from);
    var child, under := children[k].path, Rebase(children[k].path, from, to);
    RebaseFacts(child, from, to);
    RebaseParent(child, from, to);
    RootRebased(from, to);
    DeeperFits(deeper, rows, owner, from, to, child);
    forall i | 0 <= i < |deeper| ensures InFirst(deeper[i].path, from, to, children, k + 1) {
      InNext(deeper[i].path, from, to, children, k);
    }
    forall i | 0 < i < |plan| ensures InFirst(plan[i].path, from, to, children, k + 1) {
      InMore(plan[i].path, from, to, children, k);
    }
    var all := plan + deeper;
    PlansApart(plan, deeper, from, to, children, k);
    ParentsJoined(plan, deeper, to, under);
    forall p, j | 0 <= j < k + 1 && Loc(owner, p) in rows && AtOrUnder(p, children[j].path) && AtOrUnder(p, from)
      ensures IsPlanned(all, Rebase(p, from, to))
    {
      if j < k {
        assert IsPlanned(plan, Rebase(p, from, to));
        var i :| 0 <= i < |plan| && plan[i].path == Rebase(p, from, to);
        assert all[i].path == Rebase(p, from, to);
      } else {
        RebaseNested(p, child, from, to);
        assert IsPlanned(deeper, Rebase(p, child, under));
        var i :| 0 <= i < |deeper| && deeper[i].path == Rebase(p, from, to);
        assert all[|plan| + i].path == Rebase(p, from, to);
      }
    }
  }

  lemma DeeperFits(deeper: seq<Planned>, rows: Rows, owner: string, from: string, to: string, child: string)
    requires AtOrUnder(child, from)
    requires forall i :: 0 <= i < |deeper| ==> PlannedFrom(deeper[i], rows, owner, child, Rebase(child, from, to))
    ensures forall i :: 0 <= i < |deeper| ==>
              PlannedFrom(deeper[i], rows, owner, from, to) && AtOrUnder(deeper[i].path, Rebase(child, from, to))
  {
    hide AtOrUnder, Rebase;
    forall i | 0 <= i < |deeper|
      ensures PlannedFrom(deeper[i], rows, owner, from, to) && AtOrUnder(deeper[i].path, Rebase(child, from, to))
    {
      assert PlannedFrom(deeper[i], rows, owner, child, Rebase(child, from, to));
      RebaseBack(deeper[i].path, child, from, to);
    }
  }

  lemma InNext(path: string, from: string, to: string, children: seq<Planned>, k: nat)
    requires k < |children| && AtOrUnder(children[k].path, from) && AtOrUnder(path, Rebase(children[k].path, from, to))
    ensures InFirst(path, from, to, children, k + 1)
  {
  }

  lemma InMore(path: string, from: string, to: string, children: seq<Planned>, k: nat)
    requires k < |children| && InFirst(path, from, to, children, k)
    ensures InFirst(path, from, to, children, k + 1)
  {
  }

  lemma PlansApart(plan: seq<Planned>, deeper: seq<Planned>, from: string, to: string, children: seq<Planned>, k: nat)
    requires k < |children| && from != "" && to != "" && DistinctPaths(children)
    requires forall j :: 0 <= j <= k ==> ParentOf(children[j].path) == from
    requires plan != [] && plan[0].path == to && DistinctPaths(plan) && DistinctPaths(deeper)
    requires forall i :: 0 < i < |plan| ==> InFirst(plan[i].path, from, to, children, k)
    requires Under(children[k].path, from)
    requires forall i :: 0 <= i < |deeper| ==> AtOrUnder(deeper[i].path, Rebase(children[k].path, from, to))
    ensures DistinctPaths(plan + deeper)
  {
    hide AtOrUnder, Under, Rebase, ParentOf;
    var child := children[k].path;
    AreUnder(child, from);
    forall i, j | 0 <= i < |plan| && 0 <= j < |deeper| ensures plan[i].path != deeper[j].path {
      if i == 0 {
        RebaseFacts(child, from, to);
        RootAbove(deeper[j].path, Rebase(child, from, to), to);
      } else {
        assert InFirst(plan[i].path, from, to, children, k);
        var m :| 0 <= m < k && AtOrUnder(children[m].path, from)
            && AtOrUnder(plan[i].path, Rebase(children[m].path, from, to));
        NewSiblingsApart(children[m].path, child, from, to, plan[i].path);
      }
    }
  }

  lemma RootAbove(path: string, under: string, to: string)
    requires AtOrUnder(path, under) && Under(under, to)
    ensures path != to
  {
  }

  lemma ParentsJoined(plan: seq<Planned>, deeper: seq<Planned>, to: string, under: string)
    requires ParentsFirst(plan, to) && ParentsFirst(deeper, under)
    requires Under(under, to) && ParentOf(under) == to && plan[0].row.Dir?
    ensures ParentsFirst(plan + deeper, to)
  {
    hide AtOrUnder, Under, ParentOf;
    var all := plan + deeper;
    forall i | 0 < i < |all| ensures Under(all[i].path, to) && HasParentBefore(all, i) {
      if i < |plan| {
        assert HasParentBefore(plan, i);
        var j :| 0 <= j < i && plan[j].path == ParentOf(plan[i].path) && plan[j].row.Dir?;
        assert all[j] == plan[j] && all[i] == plan[i];
      } else if i == |plan| {
        assert all[i] == deeper[0] && all[0] == plan[0];
      } else {
        var d := i - |plan|;
        assert all[i] == deeper[d] && HasParentBefore(deeper, d);
        var j :| 0 <= j < d && deeper[j].path == ParentOf(deeper[d].path) && deeper[j].row.Dir?;
        assert all[|plan| + j] == deeper[j];
        UnderBoth(deeper[d].path, under, to);
      }
    }
  }

  lemma UnderBoth(path: string, mid: string, dir: string)
    requires Under(path, mid) && Under(mid, dir)
    ensures Under(path, dir)
  {
  }

  /** Whether the listing of every directory in a tree can be asked for. */
  ghost predicate DirsValid(rows: Rows, owner: string, path: string) {
    forall p :: Loc(owner, p) in rows && AtOrUnder(p, path) && rows[Loc(owner, p)].Dir? ==> ValidPath(p)
  }

  lemma PlanStart(rows: Rows, owner: string, source: Planned, to: string, children: seq<Planned>)
    requires Loc(owner, source.path) in rows && rows[Loc(owner, source.path)] == source.row
    ensures PlansFirst([Planned(to, source.row)], rows, owner, source.path, to, children, 0)
    ensures PlansCopy([Planned(to, source.row)], rows, owner, source.path, to, false)
  {
    RootRebased(source.path, to);
  }

  lemma PlanEnd(plan: seq<Planned>, rows: Rows, owner: string, from: string, to: string, children: seq<Planned>)
    requires TreeOk(rows) && from != "" && Lists(children, rows, owner, from)
    requires PlansFirst(plan, rows, owner, from, to, children, |children|)
    ensures PlansCopy(plan, rows, owner, from, to, true)
  {
    hide AtOrUnder, Rebase, ParentOf, TreeOk;
    RootRebased(from, to);
    forall p | Loc(owner, p) in rows && AtOrUnder(p, from) ensures IsPlanned(plan, Rebase(p, from, to)) {
      if p == from {
        assert plan[0].path == to;
      } else {
        Removals.GoneWithChildren(rows, owner, from, children, Loc(owner, p));
        var j :| 0 <= j < |children| && Within(Loc(owner, p), owner, children[j].path);
      }
    }
  }

  /** A file's plan is itself. */
  lemma PlanFile(rows: Rows, owner: string, source: Planned, to: string)
    requires TreeOk(rows) && Loc(owner, source.path) in rows && rows[Loc(owner, source.path)] == source.row
             && source.row.File?
    ensures PlansCopy([Planned(to, source.row)], rows, owner, source.path, to, true)
    ensures DirsValid(rows, owner, source.path)
  {
    hide TreeOk, PlansFirst;
    PlanStart(rows, owner, source, to, []);
    RootRebased(source.path, to);
    Removals.RowsHavePaths(rows);
    Removals.FileAlone(rows, Loc(owner, source.path));
    forall p | Loc(owner, p) in rows && AtOrUnder(p, source.path) ensures p == source.path {
      assert p in Subtree(rows, owner, source.path);
    }
  }

  lemma DirsByChildren(rows: Rows, owner: string, dir: string, children: seq<Planned>)
    requires TreeOk(rows) && ValidPath(dir) && Loc(owner, dir) in rows && Lists(children, rows, owner, dir)
    ensures DirsValid(rows, owner, dir) <==> forall j :: 0 <= j < |children| ==>
            DirsValid(rows, owner, children[j].path)
  {
    hide AtOrUnder, ValidPath, ParentOf, TreeOk;
    forall j, p | 0 <= j < |children| && AtOrUnder(p, children[j].path) ensures AtOrUnder(p, dir) {
      ChildUnder(children[j].path, dir);
      UnderTransitive(p, children[j].path, dir);
    }
    forall p | Loc(owner, p) in rows && AtOrUnder(p, dir) && p != dir
      ensures exists j :: 0 <= j < |children| && AtOrUnder(p, children[j].path)
    {
      Removals.GoneWithChildren(rows, owner, dir, children, Loc(owner, p));
      var j :| 0 <= j < |children| && Within(Loc(owner, p), owner, children[j].path);
    }
  }

  /** Lists what a copy will do. A directory whose path is too long to list stops it. */
  method PlanCopy(r: Repo, owner: string, source: Planned, to: string, recursive: bool)
    returns (plan: seq<Planned>, failed: Option<Error>)
    requires TreeOk(r.files) && Loc(owner, source.path) in r.files && r.files[Loc(owner, source.path)] == source.row
    requires to != ""
    ensures failed.None? ==> PlansCopy(plan, r.files, owner, source.path, to, recursive)
    ensures failed.Some? ==>
            failed.value == InvalidPath && recursive && source.row.Dir?
            && !DirsValid(r.files, owner, source.path)
    decreases Subtree(r.files, owner, source.path).Keys
  {
    hide TreeOk, AtOrUnder, Rebase, ValidPath, ParentOf, PlansFirst, PlansCopy, Subtree, DirsValid;
    plan, failed := [Planned(to, source.row)], None;
    if source.row.File? || !recursive {
      PlanStart(r.files, owner, source, to, []);
      if source.row.File? { PlanFile(r.files, owner, source, to); }
      return;
    }
    Removals.RowsHavePaths(r.files);
    var children;
    children, failed := r.ListFiles(owner, source.path);
    if failed.Some? { NotListed(r.files, owner, source.path); return; }
    PlanStart(r.files, owner, source, to, children);
    var i := 0;
    while i < |children|
      invariant i <= |children| && failed.None?
      invariant PlansFirst(plan, r.files, owner, source.path, to, children, i)
    {
      var child := children[i];
      ChildRenamed(child.path, source.path, to);
      AreUnder(child.path, source.path);
      Removals.ChildSmaller(r.files, owner, source.path, child.path);
      NotEmptyUnder(Rebase(child.path, source.path, to), to) by { RebaseFacts(child.path, source.path, to); }
      var deeper;
      deeper, failed := PlanCopy(r, owner, child, to + "/" + Leaf(child.path), true);
      if failed.Some? { DirsByChildren(r.files, owner, source.path, children); return; }
      PlanChild(plan, deeper, r.files, owner, source.path, to, children, i);
      plan := plan + deeper;
      i := i + 1;
    }
    PlanEnd(plan, r.files, owner, source.path, to, children);
  }

  lemma NotListed(rows: Rows, owner: string, dir: string)
    requires Loc(owner, dir) in rows && rows[Loc(owner, dir)].Dir? && !ValidPath(dir)
    ensures !DirsValid(rows, owner, dir)
  {
    RootRebased(dir, dir);
  }
}
