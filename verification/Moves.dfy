/** How the drivers move a subtree: two UPDATE statements, the second over every path
    LIKE the old name and a slash, cutting as many characters off it as the old name
    has bytes. When that is what internal/db promises of a move. */
module Moves {
  import opened Text
  import opened Paths
  import opened Tree

  /** A row as the table keeps it, its parent's path in a column of its own. */
  datatype Stored = Stored(parent: string, row: Row)

  type Table = map<Loc, Stored>

  function Kept(rows: Rows): Table {
    map l | l in rows :: Stored(ParentOf(l.path), rows[l])
  }

  // ----- Characters

  /** The bytes of a string's first character: a first byte that begins a sequence has
      every byte after it that continues one. */
  function CharLen(s: string): (n: nat)
    requires s != ""
    ensures 1 <= n <= |s|
  {
    if (s[0] as int) < 0xC0 then 1 else 1 + Continuing(s[1..])
  }

  function Continuing(s: string): (n: nat)
    ensures n <= |s|
  {
    if s != "" && Continues(s[0]) then 1 + Continuing(s[1..]) else 0
  }

  /** What substr(s, n + 1) gives: all but the first `n` characters. */
  function SkipChars(s: string, n: nat): string {
    if n == 0 || s == "" then s else SkipChars(s[CharLen(s)..], n - 1)
  }

  predicate Ascii(s: string) {
    forall i :: 0 <= i < |s| ==> (s[i] as int) < 0x80
  }

  lemma {:induction false} SkipPlain(s: string, n: nat)
    requires n <= |s| && forall i :: 0 <= i < n ==> (s[i] as int) < 0xC0
    ensures SkipChars(s, n) == s[n..]
    decreases n
  {
    if n == 0 {
    } else {
      SkipPlain(s[1..], n - 1);
      assert s[1..][n - 1..] == s[n..];
    }
  }

  lemma {:induction false} SkipAtLeast(s: string, n: nat)
    ensures |SkipChars(s, n)| <= if n < |s| then |s| - n else 0
    decreases n
  {
    if n == 0 || s == "" {
    } else {
      SkipAtLeast(s[CharLen(s)..], n - 1);
    }
  }

  lemma SkipWideFirst(s: string, n: nat)
    requires 0 < n < |s| && CharLen(s) > 1
    ensures |SkipChars(s, n)| < |s| - n
  {
    SkipAtLeast(s[CharLen(s)..], n - 1);
  }

  /** One character of more bytes than one among them is a byte too many skipped. */
  lemma {:induction false} SkipShort(s: string, n: nat, i: nat)
    requires i + 1 < n < |s| && (s[i] as int) >= 0xC0 && Continues(s[i + 1])
    ensures |SkipChars(s, n)| < |s| - n
    decreases n
  {
    hide CharLen;
    var rest := s[1..];
    if CharLen(s) > 1 {
      SkipWideFirst(s, n);
    } else {
      NarrowFirst(s);
      assert rest[i - 1] == s[i] && rest[i] == s[i + 1];
      SkipShort(rest, n - 1, i - 1);
    }
  }

  lemma NarrowFirst(s: string)
    requires s != "" && CharLen(s) == 1
    ensures |s| > 1 && (s[0] as int) >= 0xC0 ==> !Continues(s[1])
  {
    assert |s| > 1 ==> s[1..][0] == s[1];
  }

  /** Text with anything but ASCII in it has a character of more bytes than one. */
  lemma {:induction false} WideAt(s: string) returns (i: nat)
    requires ValidUtf8(s) && !Ascii(s)
    ensures i + 1 < |s| && (s[i] as int) >= 0xC0 && Continues(s[i + 1])
    decreases |s|
  {
    var n := RuneLen(s);
    if n > 1 {
      i := 0;
    } else {
      assert !Ascii(s[1..]) by {
        var j :| 0 <= j < |s| && (s[j] as int) >= 0x80;
        assert s[1..][j - 1] == s[j];
      }
      i := WideAt(s[1..]);
      i := i + 1;
    }
  }

  // ----- LIKE

  function LowerChar(c: char): char {
    if 'A' <= c <= 'Z' then (c as int + 32) as char else c
  }

  predicate SameFolded(a: string, b: string) {
    |a| == |b| && forall i :: 0 <= i < |a| ==> LowerChar(a[i]) == LowerChar(b[i])
  }

  /** Two names are one to it when they differ in the case of letters alone. */
  lemma SameFoldedIs(a: string, b: string)
    ensures SameFolded(a, b) <==>
            |a| == |b| && forall i :: 0 <= i < |a| ==>
              || a[i] == b[i]
              || ('A' <= a[i] <= 'Z' && b[i] as int == a[i] as int - 'A' as int + 'a' as int)
              || ('A' <= b[i] <= 'Z' && a[i] as int == b[i] as int - 'A' as int + 'a' as int)
  {
  }

  /** A path LIKE a name and a slash: SQLite's takes no notice of the case of ASCII
      letters, and PostgreSQL's and MySQL's do. */
  predicate Like(blind: bool, path: string, name: string) {
    |name| < |path| && path[|name|] == '/'
    && (if blind then SameFolded(path[..|name|], name) else path[..|name|] == name)
  }

  lemma LikeIfUnder(blind: bool, path: string, name: string)
    ensures Under(path, name) ==> Like(blind, path, name)
    ensures !blind ==> (Like(blind, path, name) <==> Under(path, name))
  {
    if Under(path, name) {
      assert path[..|name|] == (name + "/")[..|name|] == name && path[|name|] == (name + "/")[|name|];
    }
    if !blind && Like(blind, path, name) {
      assert path[..|name| + 1] == name + "/";
    }
  }

  // ----- The statements

  /** What the second statement makes of a path, and of the parent beside it. */
  function Cut(path: string, from: string, to: string): string {
    to + SkipChars(path, |from|)
  }

  predicate Hit(blind: bool, l: Loc, owner: string, from: string) {
    l.owner == owner && Like(blind, l.path, from)
  }

  function NewLoc(blind: bool, l: Loc, owner: string, from: string, to: string): Loc {
    if Hit(blind, l, owner, from) then Loc(owner, Cut(l.path, from, to)) else l
  }

  function NewRow(blind: bool, l: Loc, s: Stored, owner: string, from: string, to: string): Stored {
    if Hit(blind, l, owner, from) then s.(parent := Cut(s.parent, from, to)) else s
  }

  ghost predicate StayApart(blind: bool, t: Table, owner: string, from: string, to: string) {
    forall l, m :: l in t && m in t && NewLoc(blind, l, owner, from, to) == NewLoc(blind, m, owner, from, to) ==> l == m
  }

  /** The second statement; a path may not be there twice. */
  ghost function MoveTree(blind: bool, t: Table, owner: string, from: string, to: string): Result<Table> {
    if StayApart(blind, t, owner, from, to) then
      Ok(map l | l in t :: NewLoc(blind, l, owner, from, to) := NewRow(blind, l, t[l], owner, from, to))
    else Err(Conflict)
  }

  /** The table once the first statement has moved the one row. */
  function MovedOne(t: Table, owner: string, from: string, to: string): Table
    requires Loc(owner, from) in t
  {
    (t - {Loc(owner, from)})[Loc(owner, to) := Stored(ParentOf(to), t[Loc(owner, from)].row)]
  }

  /** MoveFile as the drivers have it. */
  ghost function Statement(blind: bool, t: Table, owner: string, from: string, to: string): Result<Table> {
    var refusal := ValidateMove(from, to);
    if refusal == {InvalidPath} then Err(InvalidPath)
    else if refusal != {} then Err(Conflict)
    else if Loc(owner, from) !in t then Err(NotFound)
    else if Loc(owner, to) in t then Err(Conflict)
    else MoveTree(blind, MovedOne(t, owner, from, to), owner, from, to)
  }

  /** The move internal/db promises, as the table would keep it. */
  function Promised(rows: Rows, owner: string, from: string, to: string): Result<Table> {
    match MoveFile(rows, owner, from, to)
    case Err(e) => Err(e)
    case Ok(after) => Ok(Kept(after))
  }

  /** What can be seen before the move: nothing is at or under a name that differs
      from the old one in case alone, and the old name is ASCII or nothing is under it. */
  predicate Safe(blind: bool, rows: Rows, owner: string, from: string, to: string) {
    && !Like(blind, to, from)
    && (forall l :: l in rows && Hit(blind, l, owner, from) ==> Under(l.path, from))
    && (Ascii(from) || forall l :: l in rows && l.owner == owner ==> !Under(l.path, from))
  }

  // ----- When it is safe

  lemma HitIsRebased(path: string, from: string, to: string)
    requires Under(path, from) && Ascii(from)
    ensures Cut(path, from, to) == Rebase(path, from, to)
    ensures Cut(ParentOf(path), from, to) == ParentOf(Rebase(path, from, to))
  {
    hide ParentOf;
    RebaseParent(path, from, to);
    PlainTail(path, from);
    PlainTail(ParentOf(path), from);
  }

  lemma PlainTail(path: string, from: string)
    requires AtOrUnder(path, from) && Ascii(from)
    ensures SkipChars(path, |from|) == path[|from|..]
  {
    assert path[..|from|] == from by { if path != from { assert (from + "/")[..|from|] == from; } }
    forall i | 0 <= i < |from| ensures (path[i] as int) < 0xC0 { assert path[i] == from[i]; }
    SkipPlain(path, |from|);
  }

  /** Where a row goes when it is safe. */
  lemma SafeGoes(blind: bool, rows: Rows, owner: string, from: string, to: string, l: Loc)
    requires ValidateMove(from, to) == {} && Safe(blind, rows, owner, from, to) && l in rows && l != Loc(owner, from)
    ensures var n := NewLoc(blind, l, owner, from, to);
            && (Within(l, owner, from) ==>
                  n == Loc(owner, Rebase(l.path, from, to)) && Under(n.path, to) && Rebase(n.path, to, from) == l.path
                  && NewRow(blind, l, Kept(rows)[l], owner, from, to) == Stored(ParentOf(n.path), rows[l]))
            && (!Within(l, owner, from) ==> n == l && NewRow(blind, l, Kept(rows)[l], owner, from, to) == Kept(rows)[l])
  {
    hide ParentOf, ValidateMove, SkipChars;
    LikeIfUnder(blind, l.path, from);
    if Within(l, owner, from) {
      HitIsRebased(l.path, from, to);
      RebaseFacts(l.path, from, to);
    }
  }

  ghost predicate ComesFrom(blind: bool, t: Table, owner: string, from: string, to: string, n: Loc) {
    exists l :: l in t && NewLoc(blind, l, owner, from, to) == n
  }

  lemma MoveTreeIs(blind: bool, t: Table, owner: string, from: string, to: string, result: Table)
    requires StayApart(blind, t, owner, from, to)
    requires forall l :: l in t ==> var n := NewLoc(blind, l, owner, from, to);
                                    n in result && result[n] == NewRow(blind, l, t[l], owner, from, to)
    requires forall n :: n in result ==> ComesFrom(blind, t, owner, from, to, n)
    ensures MoveTree(blind, t, owner, from, to) == Ok(result)
  {
    hide NewLoc, NewRow;
    var after := MoveTree(blind, t, owner, from, to).value;
    forall n | n in after ensures n in result && result[n] == after[n] {
      var l :| l in t && NewLoc(blind, l, owner, from, to) == n;
    }
    forall n | n in result ensures n in after {
      var l :| l in t && NewLoc(blind, l, owner, from, to) == n;
    }
    assert after == result;
  }

  /** A move that is safe and has a free name to go to. */
  ghost predicate CanMove(blind: bool, rows: Rows, owner: string, from: string, to: string) {
    && TreeOk(rows) && ValidateMove(from, to) == {} && Loc(owner, from) in rows && Loc(owner, to) !in rows
    && MoveFile(rows, owner, from, to).Ok? && Safe(blind, rows, owner, from, to)
  }

  lemma OtherRows(blind: bool, rows: Rows, owner: string, from: string, to: string, l: Loc)
    requires CanMove(blind, rows, owner, from, to) && l in MovedOne(Kept(rows), owner, from, to) && l != Loc(owner, to)
    ensures l in rows && l != Loc(owner, from) && !Within(l, owner, to)
  {
    hide ParentOf, ValidateMove, TreeOk, Safe, MoveFile;
    if Within(l, owner, to) {
      NotNothing(from, to);
      NothingUnderFree(rows, owner, to, l);
      assert false;
    }
  }

  lemma NotNothing(from: string, to: string)
    requires ValidateMove(from, to) == {}
    ensures to != ""
  {
  }

  lemma SafeApart(blind: bool, rows: Rows, owner: string, from: string, to: string)
    requires CanMove(blind, rows, owner, from, to) && Loc(owner, from) in Kept(rows)
    ensures StayApart(blind, MovedOne(Kept(rows), owner, from, to), owner, from, to)
  {
    hide CanMove, NewLoc, NewRow, AtOrUnder, Rebase, MovedOne;
    var one := MovedOne(Kept(rows), owner, from, to);
    forall l, m | l in one && m in one && NewLoc(blind, l, owner, from, to) == NewLoc(blind, m, owner, from, to)
        ensures l == m {
      Lands(blind, rows, owner, from, to, l);
      Lands(blind, rows, owner, from, to, m);
    }
  }

  /** Where each row of the table between the two statements ends: what was under the
      old name under the new one, and everything else where it is. */
  lemma Lands(blind: bool, rows: Rows, owner: string, from: string, to: string, l: Loc)
    requires CanMove(blind, rows, owner, from, to) && Loc(owner, from) in Kept(rows)
    requires l in MovedOne(Kept(rows), owner, from, to)
    ensures var n := NewLoc(blind, l, owner, from, to);
            var s := NewRow(blind, l, MovedOne(Kept(rows), owner, from, to)[l], owner, from, to);
            if l == Loc(owner, to) then n == l && s == Stored(ParentOf(to), rows[Loc(owner, from)])
            else
              && l in rows && l != Loc(owner, from) && !Within(l, owner, to)
              && (Within(l, owner, from) ==>
                    && n == Loc(owner, Rebase(l.path, from, to)) && Within(n, owner, to) && n.path != to
                    && Rebase(n.path, to, from) == l.path && s == Stored(ParentOf(n.path), rows[l]))
              && (!Within(l, owner, from) ==> n == l && s == Kept(rows)[l])
  {
    hide ParentOf, ValidateMove, TreeOk, Safe, MoveFile, NewLoc, NewRow;
    if l == Loc(owner, to) {
      RootStays(blind, rows, owner, from, to);
    } else {
      OtherRows(blind, rows, owner, from, to, l);
      SafeGoes(blind, rows, owner, from, to, l);
      IsWithin(NewLoc(blind, l, owner, from, to), owner, to);
    }
  }

  lemma SafeMoves(blind: bool, rows: Rows, owner: string, from: string, to: string)
    requires CanMove(blind, rows, owner, from, to)
    ensures Statement(blind, Kept(rows), owner, from, to) == Promised(rows, owner, from, to)
  {
    hide ParentOf, ValidateMove, TreeOk, Safe, AtOrUnder, Rebase, NewLoc, NewRow, MoveFile, StayApart, MoveTree,
        Promised;
    var one := MovedOne(Kept(rows), owner, from, to);
    SafeApart(blind, rows, owner, from, to);
    var promised := PromisedTable(rows, owner, from, to);
    forall l | l in one
      ensures var n := NewLoc(blind, l, owner, from, to);
              n in promised && promised[n] == NewRow(blind, l, one[l], owner, from, to)
    {
      PromisedAt(rows, owner, from, to, l);
      Lands(blind, rows, owner, from, to, l);
    }
    forall n | n in promised ensures ComesFrom(blind, one, owner, from, to, n) {
      var l := PromisedFrom(rows, owner, from, to, n);
      if l == Loc(owner, from) {
        RootRebased(from, to);
        Lands(blind, rows, owner, from, to, Loc(owner, to));
      } else {
        Lands(blind, rows, owner, from, to, l);
        assert NewLoc(blind, l, owner, from, to) == n;
      }
    }
    MoveTreeIs(blind, one, owner, from, to, promised);
  }

  lemma RootRebased(from: string, to: string)
    ensures AtOrUnder(from, from) && Rebase(from, from, to) == to
  {
  }

  function PromisedTable(rows: Rows, owner: string, from: string, to: string): (t: Table)
    requires MoveFile(rows, owner, from, to).Ok?
    ensures Promised(rows, owner, from, to) == Ok(t)
  {
    Kept(MoveFile(rows, owner, from, to).value)
  }

  lemma IsWithin(l: Loc, owner: string, dir: string)
    ensures l.owner == owner && Under(l.path, dir) ==> Within(l, owner, dir) && l.path != dir
  {
  }

  lemma RootStays(blind: bool, rows: Rows, owner: string, from: string, to: string)
    requires Safe(blind, rows, owner, from, to)
    ensures NewLoc(blind, Loc(owner, to), owner, from, to) == Loc(owner, to)
    ensures forall s :: NewRow(blind, Loc(owner, to), s, owner, from, to) == s
  {
  }

  /** What the promised table has for a row that was there, or for the new root. */
  lemma PromisedAt(rows: Rows, owner: string, from: string, to: string, l: Loc)
    requires MoveFile(rows, owner, from, to).Ok? && Loc(owner, from) in rows
    requires l in MovedOne(Kept(rows), owner, from, to)
    ensures var promised := Promised(rows, owner, from, to).value;
            && (l == Loc(owner, to) ==> l in promised && promised[l] == Stored(ParentOf(to), rows[Loc(owner, from)]))
            && (l != Loc(owner, to) && Within(l, owner, from) ==>
                  var n := Loc(owner, Rebase(l.path, from, to));
                  n in promised && promised[n] == Stored(ParentOf(n.path), rows[l]))
            && (l != Loc(owner, to) && !Within(l, owner, from) ==> l in promised && promised[l] == Kept(rows)[l])
  {
    hide ParentOf, ValidateMove;
    var tree := Subtree(rows, owner, from);
    RebaseFacts(from, from, to);
    assert from in tree;
    RenamedAt(tree, owner, from, to, Loc(owner, to));
    if l != Loc(owner, to) && Within(l, owner, from) {
      RebaseFacts(l.path, from, to);
      RenamedAt(tree, owner, from, to, Loc(owner, Rebase(l.path, from, to)));
    }
  }

  lemma PromisedFrom(rows: Rows, owner: string, from: string, to: string, n: Loc) returns (l: Loc)
    requires MoveFile(rows, owner, from, to).Ok? && n in Promised(rows, owner, from, to).value
    ensures l in rows
    ensures if Within(l, owner, from) then n == Loc(owner, Rebase(l.path, from, to)) else n == l
    ensures Promised(rows, owner, from, to).value[n].row == rows[l]
  {
    hide ParentOf, ValidateMove;
    var tree := Subtree(rows, owner, from);
    RenamedAt(tree, owner, from, to, n);
    if n in Renamed(tree, owner, from, to) {
      l := Loc(owner, Rebase(n.path, to, from));
      RebaseFacts(n.path, to, from);
    } else {
      l := n;
    }
  }

  // ----- When it is not

  /** A move to a free name. */
  ghost predicate Free(rows: Rows, owner: string, from: string, to: string) {
    && TreeOk(rows) && ValidateMove(from, to) == {} && Loc(owner, from) in rows && Loc(owner, to) !in rows
    && MoveFile(rows, owner, from, to).Ok?
  }

  /** A row of the table after both statements comes from one of the table between them. */
  lemma CameFrom(blind: bool, t: Table, owner: string, from: string, to: string, n: Loc) returns (l: Loc)
    requires MoveTree(blind, t, owner, from, to).Ok? && n in MoveTree(blind, t, owner, from, to).value
    ensures l in t && NewLoc(blind, l, owner, from, to) == n
    ensures MoveTree(blind, t, owner, from, to).value[n] == NewRow(blind, l, t[l], owner, from, to)
  {
    hide NewLoc, NewRow;
    l :| l in t && NewLoc(blind, l, owner, from, to) == n;
  }

  lemma PromisedRows(rows: Rows, owner: string, from: string, to: string)
    requires Free(rows, owner, from, to)
    ensures Loc(owner, from) in Kept(rows) && Promised(rows, owner, from, to).Ok?
    ensures |ParentOf(to)| < |to|
  {
  }

  /** The new name is itself LIKE the old: its row is cut too, and its parent with it. */
  lemma RootIsHit(blind: bool, rows: Rows, owner: string, from: string, to: string)
    requires Free(rows, owner, from, to) && Like(blind, to, from)
    ensures Statement(blind, Kept(rows), owner, from, to) != Promised(rows, owner, from, to)
  {
    hide ParentOf, ValidateMove, TreeOk, MoveFile, MoveTree, Promised, MovedOne, SkipChars, Like;
    PromisedRows(rows, owner, from, to);
    var one, root := MovedOne(Kept(rows), owner, from, to), Loc(owner, to);
    RootAt(rows, owner, from, to);
    var promised := PromisedTable(rows, owner, from, to);
    assert Hit(blind, root, owner, from);
    if MoveTree(blind, one, owner, from, to) == Ok(promised) {
      var l := CameFrom(blind, one, owner, from, to, root);
      assert false;
    }
  }

  lemma RootAt(rows: Rows, owner: string, from: string, to: string)
    requires Free(rows, owner, from, to) && Loc(owner, from) in Kept(rows)
    ensures var promised := Promised(rows, owner, from, to).value;
            Loc(owner, to) in promised && promised[Loc(owner, to)].parent == ParentOf(to)
  {
    hide ParentOf, ValidateMove, TreeOk, MoveFile;
    PromisedAt(rows, owner, from, to, Loc(owner, to));
  }

  /** A row only LIKE the old name is promised to stay where it is. */
  lemma StaysPromised(blind: bool, rows: Rows, owner: string, from: string, to: string, f: Loc)
    requires Free(rows, owner, from, to) && f in rows && Hit(blind, f, owner, from) && !Under(f.path, from)
    ensures f in Promised(rows, owner, from, to).value
  {
    hide ParentOf, ValidateMove, TreeOk, MoveFile;
    assert f != Loc(owner, to) && !Within(f, owner, from);
    PromisedAt(rows, owner, from, to, f);
  }

  lemma NotUnderNew(rows: Rows, owner: string, from: string, to: string, l: Loc)
    requires Free(rows, owner, from, to) && l in rows
    ensures !Within(l, owner, to)
  {
    hide ParentOf, TreeOk, MoveFile;
    if Within(l, owner, to) {
      NothingUnderFree(rows, owner, to, l);
      assert false;
    }
  }

  lemma CaseParts(blind: bool, rows: Rows, owner: string, from: string, to: string, f: Loc)
    requires Free(rows, owner, from, to) && Ascii(from) && !Like(blind, to, from)
    requires f in rows && Hit(blind, f, owner, from) && !Under(f.path, from)
    ensures Statement(blind, Kept(rows), owner, from, to) != Promised(rows, owner, from, to)
  {
    hide ParentOf, ValidateMove, TreeOk, MoveFile, MoveTree, Promised, SkipChars, Like;
    PromisedRows(rows, owner, from, to);
    var one := MovedOne(Kept(rows), owner, from, to);
    StaysPromised(blind, rows, owner, from, to, f);
    var promised := PromisedTable(rows, owner, from, to);
    if MoveTree(blind, one, owner, from, to) == Ok(promised) {
      var l := CameFrom(blind, one, owner, from, to, f);
      if Hit(blind, l, owner, from) {
        AsciiTail(blind, l.path, from, to);
        NotUnderNew(rows, owner, from, to, f);
        assert false;
      }
    }
  }

  lemma AsciiTail(blind: bool, path: string, from: string, to: string)
    requires Like(blind, path, from) && Ascii(from)
    ensures Under(Cut(path, from, to), to)
  {
    forall i | 0 <= i < |from| ensures (path[i] as int) < 0xC0 {
      assert path[..|from|][i] == path[i] && (from[i] as int) < 0x80;
    }
    SkipPlain(path, |from|);
    assert path[|from|..][0] == '/';
    assert Cut(path, from, to)[..|to| + 1] == to + "/";
  }

  /** A name with a wide character in it is cut off short. */
  lemma WideTail(blind: bool, path: string, from: string, to: string)
    requires Like(blind, path, from) && ValidUtf8(from) && !Ascii(from)
    ensures |Cut(path, from, to)| < |to| + |path| - |from|
  {
    var i := WideAt(from);
    assert path[..|from|][i] == path[i] && path[..|from|][i + 1] == path[i + 1];
    SkipShort(path, |from|, i);
  }

  lemma {:induction false} Longest(locs: set<Loc>) returns (l: Loc)
    requires locs != {}
    ensures l in locs && forall m :: m in locs ==> |m.path| <= |l.path|
    decreases |locs|
  {
    l :| l in locs;
    var rest := locs - {l};
    if rest == {} {
      assert forall m :: m in locs ==> m == l || m in rest;
    } else {
      var other := Longest(rest);
      assert forall m :: m in locs ==> m == l || m in rest;
      if |l.path| < |other.path| { l := other; }
    }
  }

  lemma WideParts(blind: bool, rows: Rows, owner: string, from: string, to: string, hit: Loc)
    requires Free(rows, owner, from, to) && !Ascii(from) && !Like(blind, to, from)
    requires hit in rows && Hit(blind, hit, owner, from)
    ensures Statement(blind, Kept(rows), owner, from, to) != Promised(rows, owner, from, to)
  {
    hide ParentOf, ValidateMove, TreeOk, MoveFile, MoveTree, Promised, SkipChars, Like, Cut;
    PromisedRows(rows, owner, from, to);
    FromIsText(from, to);
    var one := MovedOne(Kept(rows), owner, from, to);
    var hits := set l | l in rows && Hit(blind, l, owner, from);
    assert hit in hits;
    var m := Longest(hits);
    if Under(m.path, from) {
      WideUnder(blind, rows, owner, from, to, m);
    } else {
      WideBeside(blind, rows, owner, from, to, m);
    }
  }

  lemma FromIsText(from: string, to: string)
    requires ValidateMove(from, to) == {}
    ensures ValidUtf8(from)
  {
  }

  ghost predicate IsLongest(blind: bool, rows: Rows, owner: string, from: string, m: Loc) {
    m in rows && Hit(blind, m, owner, from) && forall l :: l in rows && Hit(blind, l, owner, from) ==>
        |l.path| <= |m.path|
  }

  /** The longest path under the old name is not where it is promised to be. */
  lemma WideUnder(blind: bool, rows: Rows, owner: string, from: string, to: string, m: Loc)
    requires Free(rows, owner, from, to) && ValidUtf8(from) && !Ascii(from) && !Like(blind, to, from)
    requires IsLongest(blind, rows, owner, from, m) && Under(m.path, from)
    ensures Statement(blind, Kept(rows), owner, from, to) != Promised(rows, owner, from, to)
  {
    hide ParentOf, ValidateMove, TreeOk, MoveFile, MoveTree, Promised, SkipChars, Like, Cut;
    PromisedRows(rows, owner, from, to);
    var one := MovedOne(Kept(rows), owner, from, to);
    NotUnderNew(rows, owner, from, to, m);
    RebaseFacts(m.path, from, to);
    PromisedAt(rows, owner, from, to, m);
    var n := Loc(owner, Rebase(m.path, from, to));
    var promised := PromisedTable(rows, owner, from, to);
    if MoveTree(blind, one, owner, from, to) == Ok(promised) {
      var l := CameFrom(blind, one, owner, from, to, n);
      if Hit(blind, l, owner, from) {
        assert l != Loc(owner, to);
        WideTail(blind, l.path, from, to);
        assert false;
      } else {
        assert l == n && l != Loc(owner, to);
        NotUnderNew(rows, owner, from, to, l);
        assert false;
      }
    }
  }

  /** And the longest that is only LIKE it is not where it was. */
  lemma WideBeside(blind: bool, rows: Rows, owner: string, from: string, to: string, m: Loc)
    requires Free(rows, owner, from, to) && ValidUtf8(from) && !Ascii(from) && !Like(blind, to, from)
    requires IsLongest(blind, rows, owner, from, m) && !Under(m.path, from)
    ensures Statement(blind, Kept(rows), owner, from, to) != Promised(rows, owner, from, to)
  {
    hide ParentOf, ValidateMove, TreeOk, MoveFile, MoveTree, Promised, SkipChars, Like;
    PromisedRows(rows, owner, from, to);
    var one := MovedOne(Kept(rows), owner, from, to);
    StaysPromised(blind, rows, owner, from, to, m);
    var promised := PromisedTable(rows, owner, from, to);
    if MoveTree(blind, one, owner, from, to) == Ok(promised) {
      var l := CameFrom(blind, one, owner, from, to, m);
      if Hit(blind, l, owner, from) {
        assert l != Loc(owner, to);
        WideTail(blind, l.path, from, to);
        LongerIsLike(blind, m.path, from, to);
        assert false;
      }
    }
  }

  lemma LongerIsLike(blind: bool, path: string, from: string, to: string)
    requires Like(blind, path, from) && to <= path && |from| < |to|
    ensures Like(blind, to, from)
  {
    assert path[..|from|] == to[..|from|] && to[|from|] == path[|from|];
  }

  lemma UnsafeParts(blind: bool, rows: Rows, owner: string, from: string, to: string)
    requires Free(rows, owner, from, to) && !Safe(blind, rows, owner, from, to)
    ensures Statement(blind, Kept(rows), owner, from, to) != Promised(rows, owner, from, to)
  {
    hide Free, Statement, Promised, Like, Ascii;
    if Like(blind, to, from) {
      RootIsHit(blind, rows, owner, from, to);
    } else if f :| f in rows && Hit(blind, f, owner, from) && !Under(f.path, from) {
      if Ascii(from) {
        CaseParts(blind, rows, owner, from, to, f);
      } else {
        WideParts(blind, rows, owner, from, to, f);
      }
    } else {
      var l :| l in rows && l.owner == owner && Under(l.path, from);
      LikeIfUnder(blind, l.path, from);
      WideParts(blind, rows, owner, from, to, l);
    }
  }

  /** The two statements do what internal/db promises of a move, its refusals too, if
      and only if it is refused or it is safe. */
  lemma StatementExactly(blind: bool, rows: Rows, owner: string, from: string, to: string)
    requires TreeOk(rows)
    ensures Statement(blind, Kept(rows), owner, from, to) == Promised(rows, owner, from, to)
            <==> MoveFile(rows, owner, from, to).Err? || Safe(blind, rows, owner, from, to)
  {
    hide Safe, MoveTree, MovedOne, TreeOk;
    if ValidateMove(from, to) == {} && Loc(owner, from) in rows {
      MoveCollides(rows, owner, from, to);
      if Loc(owner, to) !in rows {
        if Safe(blind, rows, owner, from, to) {
          SafeMoves(blind, rows, owner, from, to);
        } else {
          UnsafeParts(blind, rows, owner, from, to);
        }
      }
    }
  }

  /** Where case counts, the name itself decides. */
  lemma SightedExactly(rows: Rows, owner: string, from: string, to: string)
    requires TreeOk(rows) && MoveFile(rows, owner, from, to).Ok?
    ensures Statement(false, Kept(rows), owner, from, to) == Promised(rows, owner, from, to)
            <==> Ascii(from) || forall l :: l in rows && l.owner == owner ==> !Under(l.path, from)
  {
    hide Statement, Promised, TreeOk, Like, Ascii;
    StatementExactly(false, rows, owner, from, to);
    NotIntoItself(rows, owner, from, to);
    LikeIfUnder(false, to, from);
    forall l | l in rows ensures Like(false, l.path, from) <==> Under(l.path, from) {
      LikeIfUnder(false, l.path, from);
    }
  }

  lemma NotIntoItself(rows: Rows, owner: string, from: string, to: string)
    requires MoveFile(rows, owner, from, to).Ok?
    ensures !Under(to, from)
  {
  }

  // ----- Two moves that go wrong

  const FILE := File("k", 0, 0, "", "")
  const CASED: Rows := map[Loc("o", "a") := Dir, Loc("o", "A") := Dir, Loc("o", "A/x") := FILE]

  /** A name of one character, written in two bytes: "é", say. */
  predicate OneWide(e: string) {
    |e| == 2 && 0xC2 <= e[0] as int <= 0xDF && Continues(e[1])
  }

  /** A directory of that name and a file in it. */
  function Accented(e: string): Rows {
    map[Loc("o", e) := Dir, Loc("o", e + "/x") := FILE]
  }

  lemma WideIsAPath(e: string)
    requires OneWide(e)
    ensures ValidPath(e) && ParentOf(e) == "" && ParentOf(e + "/x") == e
  {
    WideSegments(e);
    assert RuneLen(e) == 2 && e[2..] == "" && ValidUtf8(e[2..]);
    assert ValidUtf8(e) && NoControls(e);
    WideParents(e);
  }

  lemma WideSegments(e: string)
    requires OneWide(e)
    ensures GoodSegments(e)
  {
    assert FirstIndex(e, '/') < 0 by { assert e[1..][1..] == ""; }
    assert Split(e, '/') == [e];
  }

  lemma WideParents(e: string)
    requires OneWide(e)
    ensures ParentOf(e) == "" && ParentOf(e + "/x") == e
  {
    var x := e + "/x";
    assert x[2..] == "/x" && "/x"[1..] == "x" && "x"[1..] == "" && e[1..][1..] == "";
    assert LastIndex("x", '/') < 0 && LastIndex("/x", '/') == 0;
    assert x[1..][1..] == x[2..] && LastIndex(x[1..], '/') == 1 && LastIndex(x, '/') == 2;
    assert x[..2] == e;
    assert LastIndex(e[1..], '/') < 0 && LastIndex(e, '/') < 0;
  }

  lemma WideCut(e: string)
    requires OneWide(e)
    ensures Cut(e + "/x", e, "b") == "bx" && Cut(e, e, "b") == "b"
  {
    var x := e + "/x";
    assert x[1..][0] == e[1] && x[1..][1..] == "/x" && e[1..][1..] == "";
    assert Continuing("/x") == 0 && Continuing("") == 0;
    assert CharLen(x) == 2 && CharLen(e) == 2 && x[2..] == "/x" && e[2..] == "";
    assert "/x"[1..] == "x" && SkipChars("/x", 1) == SkipChars("x", 0);
    assert SkipChars(x, 2) == SkipChars("/x", 1) && SkipChars(e, 2) == SkipChars("", 1);
  }

  /** What the second statement does to the two rows it finds. */
  lemma WideGoes(blind: bool, e: string)
    requires OneWide(e)
    ensures var b, x := Loc("o", "b"), Loc("o", e + "/x");
            && NewLoc(blind, b, "o", e, "b") == b && NewLoc(blind, x, "o", e, "b") == Loc("o", "bx")
            && NewRow(blind, b, Stored("", Dir), "o", e, "b") == Stored("", Dir)
            && NewRow(blind, x, Stored(e, FILE), "o", e, "b") == Stored("b", FILE)
  {
    hide Cut;
    WideCut(e);
    LikeIfUnder(blind, e + "/x", e);
  }

  lemma StatementIs(blind: bool, t: Table, owner: string, from: string, to: string)
    requires ValidateMove(from, to) == {} && Loc(owner, from) in t && Loc(owner, to) !in t
    ensures Statement(blind, t, owner, from, to) == MoveTree(blind, MovedOne(t, owner, from, to), owner, from, to)
  {
    hide MoveTree, ValidateMove;
  }

  lemma AccentedMoves(e: string)
    requires OneWide(e)
    ensures ValidateMove(e, "b") == {}
  {
    hide ValidPath, ParentOf;
    WideIsAPath(e);
    ShortPaths();
  }

  lemma AccentedThere(e: string)
    requires OneWide(e)
    ensures Loc("o", e) in Kept(Accented(e)) && Loc("o", "b") !in Kept(Accented(e))
  {
    hide ValidPath, ParentOf;
  }

  /** The table between the two statements. */
  lemma AccentedOnce(e: string)
    requires OneWide(e) && Loc("o", e) in Kept(Accented(e))
    ensures MovedOne(Kept(Accented(e)), "o", e, "b")
            == map[Loc("o", "b") := Stored("", Dir), Loc("o", e + "/x") := Stored(e, FILE)]
  {
    hide ValidPath, ParentOf;
    WideIsAPath(e);
    ShortPaths();
  }

  /** A directory with such a name moved to "b": the file in it lands beside it, under
      a name that has run into the new one. */
  lemma PastTheSlash(blind: bool, e: string)
    requires OneWide(e)
    ensures Statement(blind, Kept(Accented(e)), "o", e, "b")
            == Ok(map[Loc("o", "b") := Stored("", Dir), Loc("o", "bx") := Stored("b", FILE)])
  {
    hide Kept, NewLoc, NewRow, MoveTree, Statement, ValidateMove, MovedOne;
    AccentedMoves(e);
    AccentedThere(e);
    AccentedOnce(e);
    StatementIs(blind, Kept(Accented(e)), "o", e, "b");
    WideGoes(blind, e);
    var b, x := Loc("o", "b"), Loc("o", e + "/x");
    var one := map[b := Stored("", Dir), x := Stored(e, FILE)];
    assert b in one && x in one;
    MoveTreeIs(blind, one, "o", e, "b", map[b := Stored("", Dir), Loc("o", "bx") := Stored("b", FILE)]);
  }

  lemma CasedGoes()
    ensures var b, up, x := Loc("o", "b"), Loc("o", "A"), Loc("o", "A/x");
            && NewLoc(true, b, "o", "a", "b") == b && NewLoc(true, up, "o", "a", "b") == up
            && NewLoc(true, x, "o", "a", "b") == Loc("o", "b/x")
            && NewRow(true, b, Stored("", Dir), "o", "a", "b") == Stored("", Dir)
            && NewRow(true, up, Stored("", Dir), "o", "a", "b") == Stored("", Dir)
            && NewRow(true, x, Stored("A", FILE), "o", "a", "b") == Stored("b", FILE)
  {
    assert "A/x"[1..] == "/x" && "A"[1..] == "" && "A/x"[..1] == "A";
    assert SkipChars("A/x", 1) == "/x" && SkipChars("A", 1) == "";
  }

  lemma CasedParents()
    ensures ParentOf("A") == "" && ParentOf("A/x") == "A"
  {
    assert "A/x"[..1] == "A";
  }

  lemma CasedMoves()
    ensures ValidateMove("a", "b") == {} && Loc("o", "a") in Kept(CASED) && Loc("o", "b") !in Kept(CASED)
  {
    hide ValidPath, ParentOf;
    ShortPaths();
  }

  lemma CasedOnce()
    requires Loc("o", "a") in Kept(CASED)
    ensures MovedOne(Kept(CASED), "o", "a", "b")
            == map[Loc("o", "b") := Stored("", Dir), Loc("o", "A") := Stored("", Dir),
                Loc("o", "A/x") := Stored("A", FILE)]
  {
    hide ValidPath, ParentOf;
    ShortPaths();
    CasedParents();
  }

  /** And moving "a" takes what is under "A" with it, where LIKE is blind to case. */
  lemma TakesTheOthers()
    ensures Statement(true, Kept(CASED), "o", "a", "b")
            == Ok(map[Loc("o", "b") := Stored("", Dir), Loc("o", "A") := Stored("", Dir),
                Loc("o", "b/x") := Stored("b", FILE)])
  {
    hide Kept, NewLoc, NewRow, MoveTree, Statement, ValidateMove, MovedOne;
    CasedMoves();
    CasedOnce();
    StatementIs(true, Kept(CASED), "o", "a", "b");
    CasedGoes();
    var b, up, x := Loc("o", "b"), Loc("o", "A"), Loc("o", "A/x");
    var one := map[b := Stored("", Dir), up := Stored("", Dir), x := Stored("A", FILE)];
    assert b in one && up in one && x in one;
    MoveTreeIs(true, one, "o", "a", "b", map[b := Stored("", Dir), up := Stored("", Dir),
        Loc("o", "b/x") := Stored("b", FILE)]);
  }
}
