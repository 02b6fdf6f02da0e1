/** The path rules of internal/db/file.go, which every driver and every surface
    shares: what a path's parent is, what is under a directory, which paths can
    be stored, and how a second copy of a name is called. */
module Paths {
  import opened Text

  const MAX_PATH_LEN := 4096

  /** The directory holding `path`, or "" for a path at the root. */
  function ParentOf(path: string): (parent: string)
    ensures path != "" ==> |parent| < |path|
    ensures parent <= path
  {
    var i := LastIndex(path, '/');
    if i < 0 then "" else path[..i]
  }

  // ----- What "under a directory" means, four ways

  /** By prefix: `dir` and a slash begin the path. */
  predicate Under(path: string, dir: string) {
    dir + "/" <= path
  }

  predicate AtOrUnder(path: string, dir: string) {
    path == dir || Under(path, dir)
  }

  /** The half-open range of paths under `dir`; `whole` is the root, which is every path. */
  datatype Range = Range(from: string, to: string, whole: bool)

  function SubtreeRange(dir: string): Range {
    if dir == "" then Range("", "", true)
    else Range(dir + "/", dir + [('/' as int + 1) as char], false)
  }

  /** By the range a query asks for. */
  predicate InRange(path: string, r: Range) {
    r.whole || (!Less(path, r.from) && Less(path, r.to))
  }

  /** By walking up: some number of parents above `path` stands `dir`. */
  predicate Climbs(path: string, dir: string)
    decreases |path|
  {
    path != "" && (ParentOf(path) == dir || Climbs(ParentOf(path), dir))
  }

  /** By the lock gate: whether a lock name is the target or a collection holding it. */
  predicate Covers(name: string, target: string) {
    target != "" && (name == target || name == "/" || name + "/" <= target)
  }

  /** A path as the lock system names it. */
  function LockName(path: string): string { "/" + path }

  lemma {:induction false} ClimbsIsUnder(path: string, dir: string)
    requires dir != ""
    ensures Climbs(path, dir) <==> Under(path, dir)
    decreases |path|
  {
    if path == "" {
    } else {
      var parent := ParentOf(path);
      ClimbsIsUnder(parent, dir);
      var i := LastIndex(path, '/');
      if Under(path, dir) {
        assert path[|dir|] == '/';
        assert |dir| <= i;
        if i > |dir| {
          assert dir + "/" <= path[..i];
        } else {
          assert path[..i] == dir;
        }
      }
      if parent == dir {
        assert path[..i + 1] == dir + "/";
      }
    }
  }

  lemma {:induction false} RangeIsUnder(path: string, dir: string)
    ensures !Less(path, dir + "/") && Less(path, dir + "0") <==> Under(path, dir)
  {
    if dir == "" {
      assert ("" + "/")[1..] == "" && ("" + "0")[1..] == "";
      if path != "" && path[0] == '/' {
        assert path == "/" + path[1..];
      }
    } else if path != "" {
      assert (dir + "/")[1..] == dir[1..] + "/";
      assert (dir + "0")[1..] == dir[1..] + "0";
      RangeIsUnder(path[1..], dir[1..]);
      assert path == [path[0]] + path[1..];
      assert dir == [dir[0]] + dir[1..];
      if dir[0] == path[0] && Under(path[1..], dir[1..]) {
        assert dir + "/" == [dir[0]] + (dir[1..] + "/");
      }
      if Under(path, dir) {
        assert path[1..][..|dir|] == dir[1..] + "/";
      }
    }
  }

  /** A slash in front of both leaves what is under what alone. */
  lemma LockNamesCover(path: string, dir: string)
    ensures LockName(dir) + "/" <= LockName(path) <==> dir + "/" <= path
    ensures LockName(dir) == LockName(path) <==> dir == path
  {
    var d, p := dir + "/", path;
    assert LockName(dir) + "/" == "/" + d;
    assert ("/" + p)[1..] == p && ("/" + d)[1..] == d;
    if d <= p {
      assert ("/" + p)[..|d| + 1] == "/" + p[..|d|];
    }
    if "/" + d <= "/" + p {
      assert ("/" + d)[1..] == ("/" + p)[1..|d| + 1] == p[..|d|];
    }
    if LockName(dir) == LockName(path) {
      assert LockName(path)[1..] == path && LockName(dir)[1..] == dir;
    }
  }

  /** The four readings agree on every path and every directory that is not the
      root, and at the root the range is every path, as the climb is. */
  lemma FourReadingsOfUnder(path: string, dir: string)
    requires path != ""
    ensures dir != "" ==> (InRange(path, SubtreeRange(dir)) <==> Under(path, dir))
    ensures dir != "" ==> (Climbs(path, dir) <==> Under(path, dir))
    ensures dir != "" ==> (Covers(LockName(dir), LockName(path)) <==> AtOrUnder(path, dir))
    ensures InRange(path, SubtreeRange("")) && Climbs(path, "") && Covers(LockName(""), LockName(path))
  {
    hide Less, Climbs;
    ClimbsToRoot(path);
    if dir != "" {
      ClimbsIsUnder(path, dir);
      RangeIsUnder(path, dir);
      assert ('/' as int + 1) as char == '0';
      LockNamesCover(path, dir);
      assert LockName(dir)[1..] == dir;
    }
  }

  lemma {:induction false} ClimbsToRoot(path: string)
    requires path != ""
    ensures Climbs(path, "")
    decreases |path|
  {
    if ParentOf(path) == "" {
    } else {
      ClimbsToRoot(ParentOf(path));
    }
  }

  lemma {:induction false} ClimbsCompose(path: string, mid: string, dir: string)
    requires Climbs(path, mid) && Climbs(mid, dir)
    ensures Climbs(path, dir)
    decreases |path|
  {
    if ParentOf(path) != mid {
      ClimbsCompose(ParentOf(path), mid, dir);
    }
  }

  /** What is under a path is not the path, and the relation is transitive. */
  lemma UnderTransitive(path: string, mid: string, dir: string)
    requires AtOrUnder(path, mid) && AtOrUnder(mid, dir)
    ensures AtOrUnder(path, dir)
  {
    if path != mid && mid != dir {
      assert dir + "/" <= mid <= path;
    }
  }

  /** A path strictly under `dir` has its parent at or under it. */
  lemma ParentUnder(path: string, dir: string)
    requires Under(path, dir)
    ensures AtOrUnder(ParentOf(path), dir)
  {
    var i := LastIndex(path, '/');
    assert path[|dir|] == '/';
    if i == |dir| {
      assert path[..i] == dir;
    } else {
      assert dir + "/" <= path[..i];
    }
  }

  /** And a path whose parent is at or under `dir` is under it. */
  lemma ChildUnder(path: string, dir: string)
    requires ParentOf(path) != "" && AtOrUnder(ParentOf(path), dir)
    ensures Under(path, dir)
  {
    var i := LastIndex(path, '/');
    assert path[..i + 1] == ParentOf(path) + "/";
    if ParentOf(path) != dir {
      assert dir + "/" <= path[..i] <= path;
    }
  }

  // ----- What can be stored

  datatype Error = NotFound | Conflict | InvalidPath

  predicate GoodSegment(segment: string) {
    segment != "" && segment != "." && segment != ".."
  }

  predicate NoControls(s: string) {
    forall i :: 0 <= i < |s| ==> s[i] as int >= 0x20 && s[i] as int != 0x7F
  }

  predicate GoodSegments(path: string) {
    forall segment :: segment in Split(path, '/') ==> GoodSegment(segment)
  }

  /** Everything ValidatePath asks but the length. */
  predicate WellSpelled(path: string) {
    ValidUtf8(path) && NoControls(path) && GoodSegments(path)
  }

  /** ValidatePath: it rejects rather than cleans. A path that is empty or that
      begins or ends with a slash has an empty segment. */
  predicate ValidPath(path: string): (ok: bool)
    ensures ok ==> path != "" && |path| <= MAX_PATH_LEN
  {
    && path != ""
    && |path| <= MAX_PATH_LEN
    && ValidUtf8(path)
    && !("/" <= path) && path[|path| - 1] != '/'
    && NoControls(path)
    && GoodSegments(path)
  }

  /** A path can be stored exactly when it is short enough, is text with no control
      characters in it, and has no segment that is empty or a dot or two. */
  lemma ValidPathExactly(path: string)
    ensures ValidPath(path) <==>
            && |path| <= 4096 && ValidUtf8(path)
            && (forall i :: 0 <= i < |path| ==> path[i] as int >= 32 && path[i] as int != 127)
            && (forall segment :: segment in Split(path, '/') ==> segment !in {"", ".", ".."})
  {
    hide ValidUtf8, Split;
    SegmentsAtEnds(path);
    assert GoodSegments(path) <==> forall segment :: segment in Split(path, '/') ==> segment !in {"", ".", ".."};
  }

  lemma SegmentsAtEnds(path: string)
    ensures path == "" || "/" <= path || path[|path| - 1] == '/' ==> "" in Split(path, '/')
  {
    hide Split, FirstIndex;
    if path == "" {
      SplitNone("", '/');
      assert Split(path, '/')[0] == "";
    } else if "/" <= path {
      SplitAt(path, '/', 0);
      assert path[..0] == "" && Split(path, '/')[0] == "";
    } else if path[|path| - 1] == '/' {
      var front := path[..|path| - 1];
      SplitJoined(front, '/', "");
      assert path == front + ['/'] + "";
      SplitNone("", '/');
      assert (Split(front, '/') + [""])[|Split(front, '/')|] == "";
    }
  }

  /** Paths of one letter, for the examples. */
  lemma ShortPaths()
    ensures ValidPath("a") && ValidPath("b")
    ensures ParentOf("a") == "" && ParentOf("b") == ""
  {
    assert "a"[1..] == "" && "b"[1..] == "";
  }

  /** And of two, for those across directories. */
  lemma TwoSegments(dir: char, name: char)
    requires 'a' <= dir <= 'z' && 'a' <= name <= 'z'
    ensures ValidPath([dir, '/', name]) && ParentOf([dir, '/', name]) == [dir]
  {
    hide ValidUtf8, Split, LastIndex;
    var path := [dir, '/', name];
    assert path[2..] == [name] && path[..1] == [dir];
    SplitAt(path, '/', 1);
    SplitNone([name], '/');
    LastIndexIs(path, '/', 1);
    AsciiIsUtf8(path);
  }

  /** ValidateMove: what can be refused before any row is read. */
  function ValidateMove(from: string, to: string): (refusal: set<Error>)
    ensures refusal == {} ==> ValidPath(from) && ValidPath(to) && !AtOrUnder(to, from)
    ensures refusal != {} ==> refusal == {InvalidPath} || refusal == {Conflict}
  {
    if !ValidPath(from) || !ValidPath(to) then {InvalidPath}
    else if from == to || Under(to, from) then {Conflict}
    else {}
  }

  /** A move that ValidateMove accepts never lands inside its own subtree, read
      any of the four ways. */
  lemma MoveLeavesItself(from: string, to: string, path: string)
    requires ValidateMove(from, to) == {} && AtOrUnder(path, to)
    requires AtOrUnder(path, from)
    ensures AtOrUnder(from, to) && from != to
    ensures !Climbs(to, from) && !InRange(to, SubtreeRange(from)) && !Covers(LockName(from), LockName(to))
  {
    FourReadingsOfUnder(to, from);
    TwoAbove(path, from, to);
  }

  /** Two directories holding one path: one of them holds the other. */
  lemma TwoAbove(path: string, a: string, b: string)
    requires AtOrUnder(path, a) && AtOrUnder(path, b)
    ensures AtOrUnder(a, b) || AtOrUnder(b, a)
  {
    if |a| < |b| && path != b {
      assert path[..|b|] == b && path[|a|] == '/';
      assert b[..|a| + 1] == a + "/";
    } else if |b| < |a| && path != a {
      assert path[..|a|] == a && path[|b|] == '/';
      assert a[..|b| + 1] == b + "/";
    } else if |a| == |b| {
      assert path[..|a|] == a == b;
    }
  }

  /** What a valid path is, without the clauses that follow from the others. */
  lemma ValidPathIs(path: string)
    ensures ValidPath(path) <==> WellSpelled(path) && |path| <= MAX_PATH_LEN
  {
    var segments := Split(path, '/');
    if path == "" {
      assert "" in segments;
    } else if path[0] == '/' {
      assert segments[0] == "" && "" in segments;
    } else if path[|path| - 1] == '/' {
      var a := path[..|path| - 1];
      assert path == a + "/" + "";
      SplitJoined(a, '/', "");
      assert segments == Split(a, '/') + [""];
      assert "" in segments;
    } else {
      assert !("/" <= path);
    }
  }

  lemma SlashPlain()
    ensures ValidUtf8("/") && NoControls("/")
  {
    AsciiIsUtf8("/");
  }

  lemma NoControlsJoined(a: string, b: string)
    requires NoControls(a) && NoControls(b)
    ensures NoControls(a + b)
  {
  }

  lemma GoodSegmentsJoined(a: string, b: string)
    requires GoodSegments(a) && GoodSegments(b)
    ensures GoodSegments(a + "/" + b)
  {
    hide Split, GoodSegment;
    SplitJoined(a, '/', b);
  }

  lemma WellSpelledJoined(a: string, b: string)
    requires WellSpelled(a) && WellSpelled(b)
    ensures WellSpelled(a + "/" + b)
  {
    hide ValidUtf8, GoodSegments, NoControls;
    SlashPlain();
    Utf8Joined(a, "/");
    Utf8Joined(a + "/", b);
    NoControlsJoined(a, "/");
    NoControlsJoined(a + "/", b);
    GoodSegmentsJoined(a, b);
  }

  lemma NoControlsCut(a: string, b: string)
    requires NoControls(a + b)
    ensures NoControls(a) && NoControls(b)
  {
    var s := a + b;
    forall i | 0 <= i < |a| ensures a[i] as int >= 0x20 && a[i] as int != 0x7F { assert a[i] == s[i]; }
    forall i | 0 <= i < |b| ensures b[i] as int >= 0x20 && b[i] as int != 0x7F { assert b[i] == s[|a| + i]; }
  }

  lemma SlashCut(b: string)
    requires ValidUtf8("/" + b)
    ensures ValidUtf8(b)
  {
    assert RuneLen("/" + b) == 1 && ("/" + b)[1..] == b;
  }

  lemma WellSpelledCut(a: string, b: string)
    requires WellSpelled(a + "/" + b)
    ensures WellSpelled(a) && WellSpelled(b)
  {
    hide ValidUtf8, NoControls, Split;
    assert a + "/" + b == a + ("/" + b);
    Utf8Cut(a, "/" + b);
    SlashCut(b);
    NoControlsCut(a + "/", b);
    NoControlsCut(a, "/");
    SplitJoined(a, '/', b);
  }

  /** The parent of a path that can be stored can be stored, unless it is the root. */
  lemma ParentValid(path: string)
    requires ValidPath(path) && ParentOf(path) != ""
    ensures ValidPath(ParentOf(path))
  {
    var i := LastIndex(path, '/');
    assert path == path[..i] + "/" + path[i + 1..];
    ValidPathIs(path);
    WellSpelledCut(path[..i], path[i + 1..]);
    ValidPathIs(path[..i]);
  }

  // ----- Moving a path from under one name to under another

  /** `to` followed by what `path` has after `from`. */
  function Rebase(path: string, from: string, to: string): string
    requires AtOrUnder(path, from)
  {
    to + path[|from|..]
  }

  lemma RebaseFacts(path: string, from: string, to: string)
    requires AtOrUnder(path, from)
    ensures AtOrUnder(Rebase(path, from, to), to)
    ensures Rebase(Rebase(path, from, to), to, from) == path
    ensures Rebase(path, from, from) == path
    ensures path != from ==> Under(Rebase(path, from, to), to)
  {
    var moved := Rebase(path, from, to);
    assert moved[..|to|] == to && moved[|to|..] == path[|from|..];
    if path == from {
      assert path[|from|..] == "";
    } else {
      assert path[|from|] == '/';
      assert moved[..|to| + 1] == to + "/";
    }
    assert path == from + path[|from|..];
  }

  lemma ParentOfJoined(a: string, tail: string)
    requires '/' in tail
    ensures ParentOf(a + tail) == a + tail[..LastIndex(tail, '/')]
  {
    LastIndexJoined(a, tail, '/');
  }

  /** Renaming commutes with taking the parent, below the root of what moved. */
  lemma RebaseParent(path: string, from: string, to: string)
    requires Under(path, from)
    ensures AtOrUnder(ParentOf(path), from)
    ensures ParentOf(Rebase(path, from, to)) == Rebase(ParentOf(path), from, to)
  {
    ParentUnder(path, from);
    var tail := path[|from|..];
    assert path == from + tail && path[|from|] == '/' == tail[0];
    hide ParentOf, LastIndex;
    ParentOfJoined(from, tail);
    ParentOfJoined(to, tail);
    var above := tail[..LastIndex(tail, '/')];
    assert (from + above)[|from|..] == above;
  }

  /** A renamed path can be stored exactly when it still fits. */
  lemma RebaseValid(path: string, from: string, to: string)
    requires ValidPath(path) && ValidPath(to) && ValidPath(from) && AtOrUnder(path, from)
    ensures ValidPath(Rebase(path, from, to)) <==> |to| + |path| - |from| <= MAX_PATH_LEN
  {
    hide ValidPath, WellSpelled, Rebase, AtOrUnder;
    var moved := Rebase(path, from, to);
    RebaseLength(path, from, to);
    ValidPathIs(path);
    ValidPathIs(to);
    ValidPathIs(moved);
    if path != from {
      var tail := RebaseTail(path, from, to);
      WellSpelledCut(from, tail);
      WellSpelledJoined(to, tail);
    }
  }

  lemma RebaseLength(path: string, from: string, to: string)
    requires AtOrUnder(path, from)
    ensures |Rebase(path, from, to)| == |to| + |path| - |from|
    ensures path == from ==> Rebase(path, from, to) == to
  {
  }

  lemma RebaseTail(path: string, from: string, to: string) returns (tail: string)
    requires AtOrUnder(path, from) && path != from
    ensures path == from + "/" + tail && Rebase(path, from, to) == to + "/" + tail
  {
    tail := path[|from| + 1..];
    assert path[|from|..] == "/" + tail;
  }

  // ----- CopyName

  /** path.Ext: from the last dot of the last segment. */
  function Ext(name: string): (ext: string)
    ensures |ext| <= |name| && ext == name[|name| - |ext|..]
    ensures LastIndex(name, '/') < |name| - |ext|
    ensures ext == "" || ext[0] == '.'
  {
    var i := LastIndex(name, '.');
    if i < 0 || i < LastIndex(name, '/') then "" else name[i..]
  }

  /** The name without its extension. */
  function Stem(name: string): string {
    name[..|name| - |Ext(name)|]
  }

  function Numbered(n: nat): (s: string)
    ensures |s| > 3
    ensures forall i :: 0 <= i < |s| ==> ' ' <= s[i] <= '9' && s[i] != '/' && s[i] != '.'
  {
    " (" + Itoa(n) + ")"
  }

  /** The name with a number before its extension; 1 is the name itself. */
  function CopyName(name: string, n: nat): string {
    if n <= 1 then name else Stem(name) + Numbered(n) + Ext(name)
  }

  lemma SlashInsert(stem: string, middle: string, ext: string)
    requires '/' !in middle && '/' !in ext
    ensures LastIndex(stem + middle + ext, '/') == LastIndex(stem + ext, '/') == LastIndex(stem, '/')
  {
    LastIndexJoined(stem + middle, ext, '/');
    LastIndexJoined(stem, middle, '/');
    LastIndexJoined(stem, ext, '/');
  }

  lemma CopyNameLastSlash(name: string, n: nat)
    ensures LastIndex(CopyName(name, n), '/') == LastIndex(name, '/')
  {
    if n > 1 {
      StemAndExt(name);
      assert '/' !in Ext(name);
      hide Stem, Ext, LastIndex, Numbered;
      SlashInsert(Stem(name), Numbered(n), Ext(name));
    }
  }

  /** A numbered name is the name with its number before its extension. */
  lemma CopyNameIs(name: string, n: nat)
    ensures n <= 1 ==> CopyName(name, n) == name
    ensures n > 1 ==> Ext(CopyName(name, n)) == Ext(name)
                      && Stem(CopyName(name, n)) == Stem(name) + " (" + Itoa(n) + ")"
  {
    if n > 1 {
      StemAndExt(name);
      ExtAfter(Stem(name), Numbered(n), Ext(name));
      assert CopyName(name, n) == Stem(name) + Numbered(n) + Ext(name);
      assert Stem(name) + Numbered(n) == Stem(name) + " (" + Itoa(n) + ")";
    }
  }

  lemma ExtAfter(stem: string, middle: string, ext: string)
    requires Ext(stem + ext) == ext && '/' !in middle && '.' !in middle
    ensures Ext(stem + middle + ext) == ext && Stem(stem + middle + ext) == stem + middle
  {
    hide LastIndex;
    var whole := stem + middle + ext;
    LastIndexJoined(stem + middle, ext, '.');
    LastIndexJoined(stem + middle, ext, '/');
    LastIndexJoined(stem, middle, '.');
    LastIndexJoined(stem, middle, '/');
    LastIndexJoined(stem, ext, '.');
    LastIndexJoined(stem, ext, '/');
  }

  /** The second of a name in a directory with a dot in its own. */
  lemma SecondOfAName()
    ensures CopyName("a.b/c.txt", 2) == "a.b/c (2).txt" && CopyName("a.b/c", 10) == "a.b/c (10)"
  {
    LastIndexIs("a.b/c.txt", '.', 5);
    LastIndexIs("a.b/c.txt", '/', 3);
    LastIndexIs("a.b/c", '.', 1);
    LastIndexIs("a.b/c", '/', 3);
    assert Itoa(2) == "2" && Itoa(10) == Itoa(1) + "0" && Itoa(1) == "1";
  }

  /** A numbered name stays beside the one it was made from. */
  lemma CopyNameParent(name: string, n: nat)
    ensures ParentOf(CopyName(name, n)) == ParentOf(name)
  {
    CopyNameLastSlash(name, n);
    var i := LastIndex(name, '/');
    if i >= 0 {
      assert CopyName(name, n)[..i] == name[..i];
    }
  }

  lemma MiddleOf(a: string, b: string, c: string, d: string)
    requires a + b + d == a + c + d
    ensures b == c
  {
    var s := a + b + d;
    assert |b| == |c|;
    assert s[|a|..|a| + |b|] == b && s[|a|..|a| + |c|] == c;
  }

  /** Different numbers, different names. */
  lemma CopyNameInjective(name: string, m: nat, n: nat)
    requires 1 <= m && 1 <= n && CopyName(name, m) == CopyName(name, n)
    ensures m == n
  {
    hide Stem, Ext, Itoa;
    if m > 1 && n > 1 {
      MiddleOf(Stem(name), Numbered(m), Numbered(n), Ext(name));
      MiddleOf(" (", Itoa(m), Itoa(n), ")");
      ItoaInjective(m, n);
    } else {
      CopyNameLonger(name, m);
      CopyNameLonger(name, n);
    }
  }

  lemma CopyNameLonger(name: string, n: nat)
    ensures n > 1 ==> |CopyName(name, n)| > |name|
  {
    StemAndExt(name);
  }

  lemma StemAndExt(name: string)
    ensures name == Stem(name) + Ext(name)
  {
  }

  lemma ExtOfLeaf(dir: string, leaf: string)
    requires '/' !in leaf
    ensures Ext(dir + "/" + leaf) == Ext(leaf)
  {
    var pre := dir + "/";
    LastIndexJoined(pre, leaf, '/');
    LastIndexJoined(dir, "/", '/');
    LastIndexJoined(pre, leaf, '.');
    if '.' in leaf {
      assert (pre + leaf)[|pre| + LastIndex(leaf, '.')..] == leaf[LastIndex(leaf, '.')..];
    }
  }

  lemma StemOfLeaf(dir: string, leaf: string)
    requires '/' !in leaf
    ensures Stem(dir + "/" + leaf) == dir + "/" + Stem(leaf)
  {
    ExtOfLeaf(dir, leaf);
    var pre := dir + "/";
    var n := |Ext(leaf)|;
    assert (pre + leaf)[..|pre + leaf| - n] == pre + leaf[..|leaf| - n];
  }

  /** Numbering a path is numbering its last segment. */
  lemma CopyNameOfLeaf(dir: string, leaf: string, n: nat)
    requires '/' !in leaf
    ensures CopyName(dir + "/" + leaf, n) == dir + "/" + CopyName(leaf, n)
  {
    hide Ext, Stem, Numbered;
    ExtOfLeaf(dir, leaf);
    StemOfLeaf(dir, leaf);
    var pre := dir + "/";
    assert (pre + Stem(leaf)) + Numbered(n) + Ext(leaf) == pre + (Stem(leaf) + Numbered(n) + Ext(leaf));
  }

  lemma Utf8Insert(stem: string, middle: string, ext: string)
    requires ValidUtf8(stem + ext) && (ext == "" || ext[0] == '.')
    requires forall i :: 0 <= i < |middle| ==> (middle[i] as int) < 0x80
    ensures ValidUtf8(stem + middle + ext)
  {
    Utf8Cut(stem, ext);
    AsciiIsUtf8(middle);
    Utf8Joined(stem, middle);
    Utf8Joined(stem + middle, ext);
  }

  lemma NoControlsInsert(stem: string, middle: string, ext: string)
    requires NoControls(stem + ext) && NoControls(middle)
    ensures NoControls(stem + middle + ext)
  {
    var s, t := stem + ext, stem + middle + ext;
    forall i | 0 <= i < |t| ensures t[i] as int >= 0x20 && t[i] as int != 0x7F {
      if i < |stem| {
        assert t[i] == s[i];
      } else if i < |stem| + |middle| {
        assert t[i] == middle[i - |stem|];
      } else {
        assert t[i] == s[i - |middle|];
      }
    }
  }

  lemma CopySegment(leaf: string, n: nat)
    requires n > 1 && '/' !in leaf && WellSpelled(leaf)
    ensures WellSpelled(CopyName(leaf, n))
  {
    var stem, middle, ext := Stem(leaf), Numbered(n), Ext(leaf);
    StemAndExt(leaf);
    assert LastIndex(leaf, '/') < 0;
    hide Stem, Ext, Numbered, ValidUtf8, GoodSegments, NoControls, LastIndex;
    Utf8Insert(stem, middle, ext);
    NumberedPlain(n);
    NoControlsInsert(stem, middle, ext);
    SlashInsert(stem, middle, ext);
    CopyNameLastSlash(leaf, n);
    OneSegment(CopyName(leaf, n));
  }

  lemma NumberedPlain(n: nat)
    ensures NoControls(Numbered(n))
  {
  }

  lemma OneSegment(leaf: string)
    requires LastIndex(leaf, '/') < 0 && |leaf| > 2
    ensures GoodSegments(leaf)
  {
    assert Split(leaf, '/') == [leaf];
  }

  /** A numbered name can be stored exactly when it still fits. */
  lemma CopyNameValid(name: string, n: nat)
    requires ValidPath(name)
    ensures ValidPath(CopyName(name, n)) <==> |CopyName(name, n)| <= MAX_PATH_LEN
  {
    ValidPathIs(name);
    ValidPathIs(CopyName(name, n));
    hide ValidPath, WellSpelled, Numbered, Stem, Ext;
    if n > 1 {
      var i := LastIndex(name, '/');
      var leaf := name[i + 1..];
      assert '/' !in leaf;
      if i < 0 {
        assert leaf == name;
        CopySegment(name, n);
      } else {
        assert name == name[..i] + "/" + leaf;
        WellSpelledCut(name[..i], leaf);
        CopySegment(leaf, n);
        CopyNameOfLeaf(name[..i], leaf, n);
        WellSpelledJoined(name[..i], CopyName(leaf, n));
      }
    }
  }
}
