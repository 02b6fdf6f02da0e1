/** Copying a file or a tree: the plan, and the one transaction that commits it. */
module Copies {
  import opened Text
  import opened Paths
  import opened Tree
  import opened Restores

  /** The rows a plan makes, later entries winning. */
  function PlanRows(plan: seq<Planned>, owner: string): Rows
    decreases |plan|
  {
    if plan == [] then map[]
    else PlanRows(plan[..|plan| - 1], owner)[Loc(owner, plan[|plan| - 1].path) := plan[|plan| - 1].row]
  }

  lemma {:induction false} PlanRowsAt(plan: seq<Planned>, owner: string, l: Loc)
    ensures l in PlanRows(plan, owner) <==> l.owner == owner && exists i :: 0 <= i < |plan| && plan[i].path == l.path
    decreases |plan|
  {
    if plan == [] {
    } else {
      var front := plan[..|plan| - 1];
      PlanRowsAt(front, owner, l);
      if l.owner == owner && exists i :: 0 <= i < |plan| && plan[i].path == l.path {
        var i :| 0 <= i < |plan| && plan[i].path == l.path;
        if i < |plan| - 1 { assert front[i].path == l.path; }
      }
      if exists i :: 0 <= i < |front| && front[i].path == l.path {
        var i :| 0 <= i < |front| && front[i].path == l.path;
        assert plan[i].path == l.path;
      }
    }
  }

  lemma {:induction false} PlanRowsValue(plan: seq<Planned>, owner: string, i: nat)
    requires DistinctPaths(plan) && i < |plan|
    ensures Loc(owner, plan[i].path) in PlanRows(plan, owner)
    ensures PlanRows(plan, owner)[Loc(owner, plan[i].path)] == plan[i].row
    decreases |plan|
  {
    if i < |plan| - 1 {
      PlanRowsValue(plan[..|plan| - 1], owner, i);
    }
  }

  ghost predicate DistinctPaths(plan: seq<Planned>) {
    forall i, j :: 0 <= i < j < |plan| ==> plan[i].path != plan[j].path
  }

  /** A plan a copy can commit: the root first, every other row after its parent. */
  ghost predicate ParentsFirst(plan: seq<Planned>, to: string) {
    && plan != [] && plan[0].path == to
    && forall i :: 0 < i < |plan| ==> Under(plan[i].path, to) && HasParentBefore(plan, i)
  }

  ghost predicate HasParentBefore(plan: seq<Planned>, i: nat)
    requires i < |plan|
  {
    exists j :: 0 <= j < i && plan[j].path == ParentOf(plan[i].path) && plan[j].row.Dir?
  }

  ghost predicate AllValid(plan: seq<Planned>) {
    forall i :: 0 <= i < |plan| ==> ValidPath(plan[i].path)
  }

  /** From the i-th row on: everything before it stands, nothing after it does. */
  lemma {:induction false} InsertFrom(base: Rows, owner: string, to: string, plan: seq<Planned>, i: nat)
    requires ParentsFirst(plan, to) && DistinctPaths(plan) && i <= |plan|
    requires forall l :: l in base ==> !Within(l, owner, to)
    requires RequireParent(base, Loc(owner, to)).Ok?
    ensures var result := InsertAll(base + PlanRows(plan[..i], owner), owner, plan[i..]);
            && (AllValid(plan[i..]) ==> result == Ok(base + PlanRows(plan, owner)))
            && (!AllValid(plan[i..]) ==> result.Err?)
    decreases |plan| - i
  {
    hide ValidPath, AtOrUnder;
    if i == |plan| {
      assert plan[..i] == plan;
    } else {
      InsertStep(base, owner, to, plan, i);
      assert plan[i..][1..] == plan[i + 1..] && plan[i..][0] == plan[i];
      InsertFrom(base, owner, to, plan, i + 1);
      if AllValid(plan[i..]) {
        var rest := plan[i + 1..];
        forall k | 0 <= k < |rest| ensures ValidPath(rest[k].path) {
          assert rest[k] == plan[i..][k + 1];
        }
      } else if ValidPath(plan[i].path) {
        var k :| 0 <= k < |plan[i..]| && !ValidPath(plan[i..][k].path);
        assert plan[i + 1..][k - 1] == plan[i..][k];
      }
    }
  }

  lemma InsertStep(base: Rows, owner: string, to: string, plan: seq<Planned>, i: nat)
    requires ParentsFirst(plan, to) && DistinctPaths(plan) && i < |plan|
    requires forall l :: l in base ==> !Within(l, owner, to)
    requires RequireParent(base, Loc(owner, to)).Ok?
    ensures var l := Loc(owner, plan[i].path);
            var step := Insert(base + PlanRows(plan[..i], owner), l, plan[i].row);
            && (ValidPath(plan[i].path) ==> step == Ok(base + PlanRows(plan[..i + 1], owner)))
            && (!ValidPath(plan[i].path) ==> step.Err?)
  {
    hide ValidPath, PlanRows, RequireParent;
    var l := Loc(owner, plan[i].path);
    NextIsFree(base, owner, to, plan, i);
    PlanRowsStep(base, owner, plan, i);
    if ValidPath(plan[i].path) {
      ParentReady(base, owner, to, plan, i);
    }
  }

  lemma PlanRowsStep(base: Rows, owner: string, plan: seq<Planned>, i: nat)
    requires i < |plan|
    ensures base + PlanRows(plan[..i + 1], owner)
            == (base + PlanRows(plan[..i], owner))[Loc(owner, plan[i].path) := plan[i].row]
  {
    assert plan[..i + 1][..i] == plan[..i];
  }

  lemma NextIsFree(base: Rows, owner: string, to: string, plan: seq<Planned>, i: nat)
    requires ParentsFirst(plan, to) && DistinctPaths(plan) && i < |plan|
    requires forall l :: l in base ==> !Within(l, owner, to)
    ensures Loc(owner, plan[i].path) !in base + PlanRows(plan[..i], owner)
  {
    PlanRowsAt(plan[..i], owner, Loc(owner, plan[i].path));
    assert Within(Loc(owner, plan[i].path), owner, to);
  }

  lemma ParentReady(base: Rows, owner: string, to: string, plan: seq<Planned>, i: nat)
    requires ParentsFirst(plan, to) && DistinctPaths(plan) && i < |plan|
    requires forall l :: l in base ==> !Within(l, owner, to)
    requires RequireParent(base, Loc(owner, to)).Ok? && ValidPath(plan[i].path)
    ensures RequireParent(base + PlanRows(plan[..i], owner), Loc(owner, plan[i].path)).Ok?
  {
    var parent := Loc(owner, ParentOf(plan[i].path));
    if i == 0 {
      assert PlanRows(plan[..0], owner) == map[];
    } else {
      assert HasParentBefore(plan, i);
      var j :| 0 <= j < i && plan[j].path == ParentOf(plan[i].path) && plan[j].row.Dir?;
      PlanRowsValue(plan[..i], owner, j);
      assert plan[..i][j] == plan[j];
      if parent.path != "" { ParentValid(plan[i].path); }
    }
  }

  /** A copy commits exactly when its destination has a parent, what it replaces
      can be removed and every new path can be stored. Then the destination holds
      the plan and nothing of what it held, and everything else is as it was; a
      refusal leaves the table alone, there being only the one transaction. */
  lemma CommitIs(rows: Rows, owner: string, to: string, plan: seq<Planned>)
    requires TreeOk(rows) && ParentsFirst(plan, to) && DistinctPaths(plan)
    ensures var replaced := RemoveTree(rows, Loc(owner, to));
            CommitCopies(rows, owner, to, plan).Ok? <==>
            && AllValid(plan) && RequireParent(rows, Loc(owner, to)).Ok?
            && (Loc(owner, to) in rows ==> replaced.Ok?)
    ensures CommitCopies(rows, owner, to, plan).Ok? ==>
              var committed := CommitCopies(rows, owner, to, plan).value;
              && TreeOk(committed.rows)
              && committed.rows == Without(rows, owner, to) + PlanRows(plan, owner)
              && committed.replaced == Subtree(rows, owner, to)
  {
    hide ValidPath, Without, Subtree, TreeOk, PlanRows, RequireParent, AtOrUnder;
    CommitBase(rows, owner, to);
    assert PlanRows([], owner) == map[] by { PlanRowsNone(owner); }
    assert plan[0..] == plan && plan[..0] == [];
    var base := Without(rows, owner, to);
    assert base + PlanRows([], owner) == base;
    if RequireParent(rows, Loc(owner, to)).Ok? {
      assert RequireParent(base, Loc(owner, to)).Ok?;
      InsertFrom(base, owner, to, plan, 0);
    } else {
      assert InsertAll(base, owner, plan).Err?;
    }
    if !ValidPath(to) { assert !ValidPath(plan[0].path); }
    if CommitCopies(rows, owner, to, plan).Ok? {
      CommitCopiesKeepsTree(rows, owner, to, plan);
    }
  }

  lemma CommitBase(rows: Rows, owner: string, to: string)
    requires TreeOk(rows)
    ensures forall l :: l in Without(rows, owner, to) ==> !Within(l, owner, to)
    ensures RequireParent(Without(rows, owner, to), Loc(owner, to)) == RequireParent(rows, Loc(owner, to))
    ensures ValidPath(to) && Loc(owner, to) !in rows ==>
            Without(rows, owner, to) == rows
            && Subtree(rows, owner, to) == map[]
  {
    hide ValidPath, AtOrUnder, TreeOk, Without, Subtree;
    WithoutHas(rows, owner, to);
    ParentOutside(to);
    if ValidPath(to) && Loc(owner, to) !in rows {
      FreeHoldsNothing(rows, owner, to);
    }
  }

  lemma PlanRowsNone(owner: string)
    ensures PlanRows([], owner) == map[]
  {
  }

  lemma WithoutHas(rows: Rows, owner: string, dir: string)
    ensures forall l :: l in Without(rows, owner, dir) <==> l in rows && !Within(l, owner, dir)
    ensures forall l :: l in Without(rows, owner, dir) ==> Without(rows, owner, dir)[l] == rows[l]
  {
  }

  lemma ParentOutside(path: string)
    ensures ParentOf(path) != "" ==> !AtOrUnder(ParentOf(path), path)
  {
    if ParentOf(path) != "" && AtOrUnder(ParentOf(path), path) {
      ChildUnder(path, path);
      assert false;
    }
  }

  lemma FreeHoldsNothing(rows: Rows, owner: string, to: string)
    requires TreeOk(rows) && to != "" && Loc(owner, to) !in rows
    ensures Without(rows, owner, to) == rows && Subtree(rows, owner, to) == map[]
  {
    hide AtOrUnder;
    forall l | l in rows ensures !Within(l, owner, to) {
      if Within(l, owner, to) { NothingUnderFree(rows, owner, to, l); assert false; }
    }
  }

  // ----- The plan

  /** What planCopy lists: `from` under its new name, and when it is a directory
      and the copy recurses, everything under it. `sources` are the rows found. */
  ghost predicate PlansCopy(plan: seq<Planned>, rows: Rows, owner: string, from: string, to: string, recursive: bool) {
    && Loc(owner, from) in rows
    && plan != [] && plan[0] == Planned(to, rows[Loc(owner, from)])
    && DistinctPaths(plan) && ParentsFirst(plan, to)
    && (forall i :: 0 <= i < |plan| ==> PlannedFrom(plan[i], rows, owner, from, to))
    && (recursive ==> forall p :: Loc(owner, p) in rows && AtOrUnder(p, from) ==> IsPlanned(plan, Rebase(p, from, to)))
    && (!recursive ==> |plan| == 1)
  }

  ghost predicate PlannedFrom(item: Planned, rows: Rows, owner: string, from: string, to: string) {
    AtOrUnder(item.path, to) && Loc(owner, Rebase(item.path, to, from)) in rows
    && item.row == rows[Loc(owner, Rebase(item.path, to, from))]
  }

  ghost predicate IsPlanned(plan: seq<Planned>, path: string) {
    exists i :: 0 <= i < |plan| && plan[i].path == path
  }

  /** The rows of a plan once its bytes are written: the same paths and kinds, a
      file with a key of its own and the size and type of its source. */
  ghost predicate WrittenFrom(written: seq<Planned>, plan: seq<Planned>) {
    |written| == |plan| && forall i :: 0 <= i < |plan| ==> CopyOf(written[i], plan[i])
  }

  ghost predicate CopyOf(copy: Planned, source: Planned) {
    copy.path == source.path && (source.row.Dir? ==> copy.row.Dir?) && (source.row.File? ==> copy.row.File?)
  }

  lemma WrittenKeepsOrder(written: seq<Planned>, plan: seq<Planned>, to: string)
    requires WrittenFrom(written, plan) && ParentsFirst(plan, to) && DistinctPaths(plan)
    ensures ParentsFirst(written, to) && DistinctPaths(written)
  {
    forall i | 0 <= i < |written| ensures CopyOf(written[i], plan[i]) {}
    assert CopyOf(written[0], plan[0]);
    forall i | 0 < i < |written| ensures Under(written[i].path, to) && HasParentBefore(written, i) {
      assert CopyOf(written[i], plan[i]);
      assert HasParentBefore(plan, i);
      var j :| 0 <= j < i && plan[j].path == ParentOf(plan[i].path) && plan[j].row.Dir?;
      assert CopyOf(written[j], plan[j]);
    }
    forall i, j | 0 <= i < j < |written| ensures written[i].path != written[j].path {
      assert CopyOf(written[i], plan[i]) && CopyOf(written[j], plan[j]);
    }
  }

  /** After a copy commits, the destination is the planned source tree under its
      new name -- the same paths below the root and the same kinds, as read in the
      table the plan was made from, which may have held the destination above the
      source -- and everything outside the destination is untouched. */
  lemma CopyIsIsomorphic(planned: Rows, rows: Rows, owner: string, from: string, to: string, recursive: bool,
                         plan: seq<Planned>, written: seq<Planned>)
    requires PlansCopy(plan, planned, owner, from, to, recursive) && WrittenFrom(written, plan)
    requires TreeOk(rows) && CommitCopies(rows, owner, to, written).Ok?
    ensures var after := CommitCopies(rows, owner, to, written).value.rows;
            && (forall l :: !Within(l, owner, to) ==>
                (l in after <==> l in rows)
                && (l in rows ==> after[l] == rows[l]))
            && (forall p :: AtOrUnder(p, from) ==>
                  var copy := Loc(owner, Rebase(p, from, to));
                  && (copy in after <==> Loc(owner, p) in planned && (recursive || p == from))
                  && (copy in after ==> after[copy].Dir? == planned[Loc(owner, p)].Dir?))
  {
    hide ValidPath, AtOrUnder, Rebase, CommitCopies, PlanRows;
    WrittenKeepsOrder(written, plan, to);
    CommitIs(rows, owner, to, written);
    var added := PlanRows(written, owner);
    var after := CommitCopies(rows, owner, to, written).value.rows;
    forall l ensures l in added ==> Within(l, owner, to) {
      WrittenWithin(planned, owner, from, to, recursive, plan, written, l);
    }
    forall p | AtOrUnder(p, from)
      ensures var copy := Loc(owner, Rebase(p, from, to));
              && (copy in after <==> Loc(owner, p) in planned && (recursive || p == from))
              && (copy in after ==> after[copy].Dir? == planned[Loc(owner, p)].Dir?)
    {
      var i := CopyAt(planned, owner, from, to, recursive, plan, written, p);
      RebaseFacts(p, from, to);
    }
  }

  lemma WrittenWithin(planned: Rows, owner: string, from: string, to: string, recursive: bool,
                      plan: seq<Planned>, written: seq<Planned>, l: Loc)
    requires PlansCopy(plan, planned, owner, from, to, recursive) && WrittenFrom(written, plan)
    ensures l in PlanRows(written, owner) ==> Within(l, owner, to)
  {
    hide ValidPath, AtOrUnder, Rebase;
    PlanRowsAt(written, owner, l);
    if l in PlanRows(written, owner) {
      var i :| 0 <= i < |written| && written[i].path == l.path;
      assert CopyOf(written[i], plan[i]) && PlannedFrom(plan[i], planned, owner, from, to);
    }
  }

  /** Where in the plan the copy of a path is, if it is there. */
  lemma CopyAt(planned: Rows, owner: string, from: string, to: string, recursive: bool,
               plan: seq<Planned>, written: seq<Planned>, p: string) returns (i: nat)
    requires PlansCopy(plan, planned, owner, from, to, recursive) && WrittenFrom(written, plan)
    requires DistinctPaths(written) && AtOrUnder(p, from)
    ensures var copy := Loc(owner, Rebase(p, from, to));
            && (copy in PlanRows(written, owner) <==> Loc(owner, p) in planned && (recursive || p == from))
            && (copy in PlanRows(written, owner) ==>
                  i < |plan| && PlanRows(written, owner)[copy] == written[i].row
                  && plan[i].row == planned[Loc(owner, p)] && CopyOf(written[i], plan[i]))
  {
    hide ValidPath, AtOrUnder, Rebase, PlanRows;
    i := 0;
    var copy := Loc(owner, Rebase(p, from, to));
    RebaseFacts(p, from, to);
    RootRebased(from, to);
    PlanRowsAt(written, owner, copy);
    if Loc(owner, p) in planned && (recursive || p == from) {
      if !recursive { assert plan[0].path == copy.path; }
      assert IsPlanned(plan, copy.path);
      var j :| 0 <= j < |plan| && plan[j].path == copy.path;
      assert CopyOf(written[j], plan[j]);
    }
    if copy in PlanRows(written, owner) {
      i :| 0 <= i < |written| && written[i].path == copy.path;
      assert CopyOf(written[i], plan[i]) && PlannedFrom(plan[i], planned, owner, from, to);
      PlanRowsValue(written, owner, i);
    }
  }

  lemma RootRebased(from: string, to: string)
    ensures AtOrUnder(from, from) && AtOrUnder(to, to)
    ensures Rebase(from, from, to) == to && Rebase(to, to, from) == from
  {
  }

  // ----- Any sequence of inserts that all succeed

  lemma {:induction false} PlanRowsFront(plan: seq<Planned>, owner: string)
    requires plan != []
    ensures PlanRows(plan, owner) == map[Loc(owner, plan[0].path) := plan[0].row] + PlanRows(plan[1..], owner)
    decreases |plan|
  {
    if |plan| == 1 {
      assert plan[..0] == [] && plan[1..] == [];
    } else {
      var front := plan[..|plan| - 1];
      PlanRowsFront(front, owner);
      assert plan[1..][..|plan| - 2] == front[1..];
    }
  }

  /** Whatever a plan is, its inserts leave the rows it names on top of what was there. */
  lemma {:induction false} InsertAllIs(rows: Rows, owner: string, plan: seq<Planned>)
    requires InsertAll(rows, owner, plan).Ok?
    ensures InsertAll(rows, owner, plan).value == rows + PlanRows(plan, owner)
    decreases |plan|
  {
    hide ValidPath, RequireParent;
    if plan == [] {
    } else {
      InsertAllIs(rows[Loc(owner, plan[0].path) := plan[0].row], owner, plan[1..]);
      PlanRowsFront(plan, owner);
    }
  }

  /** A row of a plan comes from one of its entries. */
  lemma {:induction false} PlanRowsFrom(plan: seq<Planned>, owner: string, l: Loc) returns (i: nat)
    requires l in PlanRows(plan, owner)
    ensures i < |plan| && plan[i].path == l.path && l.owner == owner && PlanRows(plan, owner)[l] == plan[i].row
    decreases |plan|
  {
    i := |plan| - 1;
    if l != Loc(owner, plan[i].path) {
      i := PlanRowsFrom(plan[..i], owner, l);
    }
  }
}
