/** internal/files/copy.go as a function of what the store answers: where a copy ends,
    and when one that failed has changed the table all the same. */
module Endings {
  import opened Text
  import opened Paths
  import opened Tree
  import opened Files
  import opened Copies
  import Stores

  /** What the store says to one copy: whether there is room, whether the bytes of a
      row of the plan can be read and written, and whether a replaced blob and what
      was made from it can be thrown away. */
  datatype Answers = Answers(room: bool, wrote: nat -> bool, drops: string -> bool)

  datatype Ending = Ending(rows: Rows, answer: Answer<bool>, committed: bool)

  /** Every file of a plan is written in turn, to the first that cannot be. */
  function Writing(plan: seq<Planned>, i: nat, wrote: nat -> bool): Answer<bool>
    requires i <= |plan|
    decreases |plan| - i
  {
    if i == |plan| then Done(true)
    else if plan[i].row.File? && !ValidPath(plan[i].path) then Refused(InvalidPath)
    else if plan[i].row.File? && !wrote(i) then Broken
    else Writing(plan, i + 1, wrote)
  }

  /** Whether every blob the destination held can be thrown away. */
  predicate AllDropped(keys: set<string>, drops: string -> bool) {
    forall k :: k in keys ==> drops(k)
  }

  /** A copy of `from` to `to`: `plan` is what there is to copy, or why it could not
      be listed, and `written` its rows with their new keys. */
  function CopyEnding(rows: Rows, owner: string, from: string, to: string, plan: Result<seq<Planned>>,
                      written: seq<Planned>, a: Answers): Ending {
    var refusal := ValidateMove(from, to);
    if refusal != {} then Ending(rows, Refused(if refusal == {InvalidPath} then InvalidPath else Conflict), false)
    else if FileByPath(rows, Loc(owner, from)).Err? then
      Ending(rows, Refused(FileByPath(rows, Loc(owner, from)).error), false)
    else if plan.Err? then Ending(rows, Refused(plan.error), false)
    else if !a.room then Ending(rows, Broken, false)
    else if !Writing(plan.value, 0, a.wrote).Done? then Ending(rows, Writing(plan.value, 0, a.wrote), false)
    else match CommitCopies(rows, owner, to, written)
      case Err(e) => Ending(rows, Refused(e), false)
      case Ok(c) =>
        if AllDropped(Stores.KeysOf(c.replaced), a.drops) then Ending(c.rows, Done(Loc(owner, to) !in rows), true)
        else Ending(c.rows, Broken, true)
  }

  /** What a caller can see before the copy: it can commit if the store lets it. */
  predicate CanCommit(rows: Rows, owner: string, from: string, to: string, plan: seq<Planned>) {
    && ValidateMove(from, to) == {} && Loc(owner, from) in rows
    && (forall i :: 0 <= i < |plan| ==> ValidPath(plan[i].path))
    && RequireParent(rows, Loc(owner, to)).Ok?
    && (Loc(owner, to) in rows ==> RemoveTree(rows, Loc(owner, to)).Ok?)
  }

  /** Which is so, of two names that can be stored, when there is something to copy, it is
      not copied into itself, the destination has somewhere to be, every new path can be
      stored and every path it takes the place of can be looked up. */
  lemma CanCommitIs(rows: Rows, owner: string, from: string, to: string, plan: seq<Planned>)
    requires ValidPath(from) && ValidPath(to)
    ensures var above := Loc(owner, ParentOf(to));
            CanCommit(rows, owner, from, to, plan) <==>
            && Loc(owner, from) in rows && to != from && !Climbs(to, from)
            && (above.path == "" || (above in rows && rows[above].Dir?))
            && (forall i :: 0 <= i < |plan| ==> ValidPath(plan[i].path))
            && (Loc(owner, to) in rows ==>
                forall l: Loc :: l in rows && l.owner == owner && (l.path == to || to + "/" <= l.path) ==>
                                   ValidPath(l.path))
  {
    hide ValidPath, ParentOf, Climbs, Subtree;
    WhatMoves(from, to);
    RequireParentIs(rows, Loc(owner, to));
    hide RequireParent, ValidateMove;
    var tree := Subtree(rows, owner, to);
    if forall p :: p in tree ==> ValidPath(p) {
      forall l: Loc | l in rows && l.owner == owner && (l.path == to || to + "/" <= l.path) ensures ValidPath(l.path) {
        assert l == Loc(owner, l.path) && l.path in tree;
      }
    }
  }

  /** What a copy that is not one is refused for. */
  lemma CopyRefused(rows: Rows, owner: string, from: string, to: string, plan: Result<seq<Planned>>,
                    written: seq<Planned>, a: Answers)
    ensures var e := CopyEnding(rows, owner, from, to, plan, written, a);
            && (!ValidPath(from) || !ValidPath(to) ==> e == Ending(rows, Refused(InvalidPath), false))
            && (ValidPath(from) && ValidPath(to) && (to == from || Climbs(to, from)) ==>
                e == Ending(rows, Refused(Conflict), false))
            && (ValidPath(from) && ValidPath(to) && to != from && !Climbs(to, from) && Loc(owner, from) !in rows ==>
                e == Ending(rows, Refused(NotFound), false))
  {
    hide ValidPath, Climbs, CommitCopies, AtOrUnder, Writing;
    if ValidPath(from) && ValidPath(to) { WhatMoves(from, to); }
  }

  /** And it would take the place of a file. */
  predicate ReplacesAFile(rows: Rows, owner: string, to: string) {
    exists l :: l in rows && Within(l, owner, to) && rows[l].File?
  }

  /** A plan, and its rows under keys no row has. */
  ghost predicate CopyOfTree(rows: Rows, owner: string, from: string, to: string, recursive: bool,
                             plan: seq<Planned>, written: seq<Planned>) {
    && TreeOk(rows) && PlansCopy(plan, rows, owner, from, to, recursive) && WrittenFrom(written, plan)
    && forall i, l :: 0 <= i < |written| && written[i].row.File? && l in rows && rows[l].File? ==>
                        written[i].row.key != rows[l].key
  }

  const WILLING := Answers(true, _ => true, _ => true)

  lemma {:induction false} WillingWrites(plan: seq<Planned>, i: nat)
    requires i <= |plan| && forall j :: i <= j < |plan| ==> ValidPath(plan[j].path)
    ensures Writing(plan, i, _ => true).Done?
    decreases |plan| - i
  {
    hide ValidPath;
    if i == |plan| {
    } else {
      WillingWrites(plan, i + 1);
    }
  }

  lemma KeysAre(rows: Rows, owner: string, to: string)
    ensures Stores.KeysOf(Subtree(rows, owner, to)) != {} <==> ReplacesAFile(rows, owner, to)
  {
    hide AtOrUnder;
    var tree := Subtree(rows, owner, to);
    if ReplacesAFile(rows, owner, to) {
      var l :| l in rows && Within(l, owner, to) && rows[l].File?;
      assert l == Loc(owner, l.path) && l.path in tree && tree[l.path].key in Stores.KeysOf(tree);
    }
    if k :| k in Stores.KeysOf(tree) {
      var p :| p in tree && tree[p].File? && tree[p].key == k;
      assert Within(Loc(owner, p), owner, to);
    }
  }

  /** Where a copy that gets as far as its commit ends. */
  lemma CommittedEnding(rows: Rows, owner: string, from: string, to: string, recursive: bool,
                        plan: seq<Planned>, written: seq<Planned>, a: Answers)
    requires CopyOfTree(rows, owner, from, to, recursive, plan, written)
    ensures var e := CopyEnding(rows, owner, from, to, Ok(plan), written, a);
            && (e.committed <==> CanCommit(rows, owner, from, to, plan) && a.room && Writing(plan, 0, a.wrote).Done?)
            && (!e.committed ==> e.rows == rows && !e.answer.Done?)
            && (e.committed ==>
                  && e.rows == Without(rows, owner, to) + PlanRows(written, owner)
                  && (e.answer.Done? <==> AllDropped(Stores.KeysOf(Subtree(rows, owner, to)), a.drops)))
  {
    hide ValidPath, AtOrUnder, Without, Subtree, PlanRows, TreeOk, CommitCopies, ValidateMove;
    WrittenKeepsOrder(written, plan, to);
    CommitIs(rows, owner, to, written);
    SamePaths(plan, written);
  }

  lemma SamePaths(plan: seq<Planned>, written: seq<Planned>)
    requires WrittenFrom(written, plan)
    ensures AllValid(written) <==> forall i :: 0 <= i < |plan| ==> ValidPath(plan[i].path)
  {
    hide ValidPath;
    forall i | 0 <= i < |plan| ensures written[i].path == plan[i].path {
      assert CopyOf(written[i], plan[i]);
    }
  }

  /** A file the destination held is not among the rows that come. */
  lemma ReplacedIsGone(rows: Rows, owner: string, from: string, to: string, recursive: bool,
                       plan: seq<Planned>, written: seq<Planned>)
    requires CopyOfTree(rows, owner, from, to, recursive, plan, written) && ReplacesAFile(rows, owner, to)
    ensures Without(rows, owner, to) + PlanRows(written, owner) != rows
  {
    hide AtOrUnder, PlanRows;
    var l :| l in rows && Within(l, owner, to) && rows[l].File?;
    if l in PlanRows(written, owner) {
      var i := PlanRowsFrom(written, owner, l);
    }
  }

  /** A copy that answered with an error has changed no row, whatever the store says,
      if and only if it takes the place of no file or cannot commit. */
  lemma AllOrNothingExactly(rows: Rows, owner: string, from: string, to: string, recursive: bool,
                            plan: seq<Planned>, written: seq<Planned>)
    requires CopyOfTree(rows, owner, from, to, recursive, plan, written)
    ensures (forall a :: var e := CopyEnding(rows, owner, from, to, Ok(plan), written, a);
            e.answer.Done? || e.rows == rows)
            <==> !(CanCommit(rows, owner, from, to, plan) && ReplacesAFile(rows, owner, to))
  {
    hide CopyEnding, CanCommit, ReplacesAFile, Without, PlanRows, Subtree, CopyOfTree;
    KeysAre(rows, owner, to);
    if CanCommit(rows, owner, from, to, plan) && ReplacesAFile(rows, owner, to) {
      var a := WILLING.(drops := _ => false);
      WillingWrites(plan, 0) by { CanStore(rows, owner, from, to, plan); }
      CommittedEnding(rows, owner, from, to, recursive, plan, written, a);
      ReplacedIsGone(rows, owner, from, to, recursive, plan, written);
      var e := CopyEnding(rows, owner, from, to, Ok(plan), written, a);
      var k :| k in Stores.KeysOf(Subtree(rows, owner, to));
      assert !AllDropped(Stores.KeysOf(Subtree(rows, owner, to)), a.drops);
      assert !(e.answer.Done? || e.rows == rows);
    } else {
      forall a ensures var e := CopyEnding(rows, owner, from, to, Ok(plan), written, a);
          e.answer.Done? || e.rows == rows {
        CommittedEnding(rows, owner, from, to, recursive, plan, written, a);
      }
    }
  }

  lemma CanStore(rows: Rows, owner: string, from: string, to: string, plan: seq<Planned>)
    requires CanCommit(rows, owner, from, to, plan)
    ensures forall i :: 0 <= i < |plan| ==> ValidPath(plan[i].path)
  {
    hide ValidPath;
  }

  // ----- One that fails and has happened

  const OLD := File("k", 1, 0, "", "")

  const BEFORE: Rows := map[Loc("o", "a") := Dir, Loc("o", "b") := OLD]
  const AFTER: Rows := map[Loc("o", "a") := Dir, Loc("o", "b") := Dir]
  /** A directory copied over a file, whose blob the store then will not delete: the
      answer is an error, and the file is gone. */
  lemma FailsAndHappens()
    ensures CopyEnding(BEFORE, "o", "a", "b", Ok([Planned("b", Dir)]), [Planned("b", Dir)],
            WILLING.(drops := _ => false))
            == Ending(AFTER, Broken, true)
  {
    ShortPaths();
    hide ValidPath, ParentOf, Subtree, Without;
    var rows, b := BEFORE, Loc("o", "b");
    assert ValidateMove("a", "b") == {};
    OneInPlace();
    assert InsertAll(Without(rows, "o", "b"), "o", [Planned("b", Dir)]) == Ok(AFTER) by {
      assert [Planned("b", Dir)][1..] == [];
      assert Without(rows, "o", "b")[b := Dir] == AFTER;
    }
    assert CommitCopies(rows, "o", "b", [Planned("b", Dir)]) == Ok(Copied(AFTER, map["b" := OLD]));
    var keys := Stores.KeysOf(map["b" := OLD]);
    assert "k" in keys;
  }

  lemma OneInPlace()
    ensures Subtree(BEFORE, "o", "b") == map["b" := OLD] && Without(BEFORE, "o", "b") == map[Loc("o", "a") := Dir]
  {
  }

  // ----- One onto a directory above it

  const NESTED: Rows := map[Loc("o", "a") := Dir, Loc("o", "a/x") := X]

  /** A file copied over the directory it is in takes the place of all of it. */
  lemma OntoItsDirectory(copy: Row, a: Answers)
    requires copy.File? && a.room && a.wrote(0) && a.drops("k")
    ensures CopyEnding(NESTED, "o", "a/x", "a", Ok([Planned("a", X)]), [Planned("a", copy)], a)
            == Ending(map[Loc("o", "a") := copy], Done(false), true)
  {
    hide ValidPath, ParentOf, Subtree, Without, Climbs;
    var rows, l, plan := NESTED, Loc("o", "a"), [Planned("a", copy)];
    ShortPaths();
    TwoSegments('a', 'x');
    assert "a/x" == ['a', '/', 'x'];
    assert ValidateMove("a/x", "a") == {} by {
      WhatMoves("a/x", "a");
      FourReadingsOfUnder("a", "a/x");
    }
    hide ValidateMove;
    AllOfIt();
    assert InsertAll(map[], "o", plan) == Ok(map[l := copy]) by { assert plan[1..] == []; }
    var tree := map["a" := Dir, "a/x" := X];
    assert CommitCopies(rows, "o", "a", plan) == Ok(Copied(map[l := copy], tree));
    assert Stores.KeysOf(tree) == {"k"} by { assert tree["a/x"] == X; }
    var one := [Planned("a", X)];
    assert Writing(one, 1, a.wrote).Done? && Writing(one, 0, a.wrote).Done?;
  }

  lemma AllOfIt()
    ensures Subtree(NESTED, "o", "a") == map["a" := Dir, "a/x" := X] && Without(NESTED, "o", "a") == map[]
  {
    assert "a/" <= "a/x";
  }
}
