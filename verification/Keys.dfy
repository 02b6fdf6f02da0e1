/** Blob keys (internal/files/blobkey.go) and the keys of what is derived from a
    blob (internal/files/collect.go): how a sweep reads back what a write named. */
module Keys {
  import opened Text
  import Paths

  const DERIVED_PREFIX := "derived/"
  const BACKUP_PREFIX := "backups/"
  const GENERATION_PREFIX := "g"
  const CACHE_PREFIX := "cache-"
  const DERIVED_GENERATION := 1

  // ----- Derived keys

  /** An object generated from the blob at `parent`. A name with a slash in it is
      a bug in the caller, and panics. */
  function DerivedKey(parent: string, name: string): string
    requires '/' !in name
  {
    DERIVED_PREFIX + parent + "/" + GENERATION_PREFIX + Itoa(DERIVED_GENERATION) + "-" + name
  }

  /** Whose a derived key is: `derived` says it is under the prefix, and `parent` is
      empty when it names nothing. */
  datatype Parentage = Parentage(parent: string, derived: bool)

  function ParentOf(key: string): Parentage {
    match CutPrefix(key, DERIVED_PREFIX)
    case None => Parentage("", false)
    case Some(rest) =>
      var i := LastIndex(rest, '/');
      if i <= 0 then Parentage("", true) else Parentage(rest[..i], true)
  }

  /** Whether a generator that is no longer this one wrote the key. */
  predicate StaleGeneration(key: string) {
    match CutPrefix(Leaf(key), GENERATION_PREFIX)
    case None => true
    case Some(rest) =>
      var cut := CutAt(rest, '-');
      !cut.found || ParseInt(cut.before) != Some(DERIVED_GENERATION)
  }

  /** Whether a derived key is a cache, by the name after its generation. */
  predicate Cached(key: string) {
    var cut := CutAt(Leaf(key), '-');
    cut.found && CACHE_PREFIX <= cut.after
  }

  lemma LeafOfDerived(parent: string, name: string)
    requires '/' !in name
    ensures Leaf(DerivedKey(parent, name)) == "g1-" + name
    ensures LastIndex(DerivedKey(parent, name), '/') == |DERIVED_PREFIX| + |parent|
  {
    assert Itoa(DERIVED_GENERATION) == "1";
    var dir, leaf := DERIVED_PREFIX + parent, "g1-" + name;
    assert DerivedKey(parent, name) == dir + "/" + leaf;
    LastIndexJoined(dir + "/", leaf, '/');
    LastIndexJoined(dir, "/", '/');
    assert (dir + "/" + leaf)[|dir| + 1..] == leaf;
  }

  lemma ParentOfDerived(parent: string, name: string)
    requires parent != "" && '/' !in name
    ensures ParentOf(DerivedKey(parent, name)) == Parentage(parent, true)
  {
    var leaf := GENERATION_PREFIX + Itoa(DERIVED_GENERATION) + "-" + name;
    assert '/' !in leaf;
    hide Itoa, LastIndex;
    var rest := parent + "/" + leaf;
    assert DerivedKey(parent, name) == DERIVED_PREFIX + rest;
    assert (DERIVED_PREFIX + rest)[|DERIVED_PREFIX|..] == rest;
    LastSlash(parent, leaf);
    assert rest[..|parent|] == parent;
  }

  lemma LastSlash(dir: string, leaf: string)
    requires '/' !in leaf
    ensures LastIndex(dir + "/" + leaf, '/') == |dir|
  {
    LastIndexJoined(dir + "/", leaf, '/');
    LastIndexJoined(dir, "/", '/');
  }

  lemma LeafReads(name: string)
    ensures CutPrefix("g1-" + name, GENERATION_PREFIX) == Some("1-" + name)
    ensures CutAt("1-" + name, '-') == Cut("1", name, true)
    ensures CutAt("g1-" + name, '-') == Cut("g1", name, true)
  {
    assert "g1-" + name == "g1" + "-" + name && "1-" + name == "1" + "-" + name;
    assert ("g1-" + name)[1..] == "1-" + name;
    CutJoined("g1", '-', name);
    CutJoined("1", '-', name);
  }

  /** ParentOf undoes DerivedKey; a key just made is not stale; and it is a cache
      exactly when its name says so. */
  lemma DerivedReadsBack(parent: string, name: string)
    requires parent != "" && '/' !in name
    ensures ParentOf(DerivedKey(parent, name)) == Parentage(parent, true)
    ensures !StaleGeneration(DerivedKey(parent, name))
    ensures Cached(DerivedKey(parent, name)) <==> CACHE_PREFIX <= name
  {
    hide DerivedKey, ParentOf, Leaf, CutAt, CutPrefix, ParseInt;
    ParentOfDerived(parent, name);
    LeafOfDerived(parent, name);
    LeafReads(name);
    ParseItoa(1);
    assert Itoa(1) == "1";
  }

  /** A leaf that says which generation made it, and says it was this one. */
  ghost predicate SaysGeneration(leaf: string) {
    exists digits, name :: leaf == "g" + digits + "-" + name && '-' !in digits
                           && ParseInt(digits) == Some(DERIVED_GENERATION)
  }

  lemma CutGeneration(digits: string, name: string)
    requires '-' !in digits
    ensures CutPrefix("g" + digits + "-" + name, "g") == Some(digits + "-" + name)
    ensures CutAt(digits + "-" + name, '-') == Cut(digits, name, true)
  {
    hide CutPrefix, CutAt, FirstIndex;
    assert "g" + digits + "-" + name == "g" + (digits + "-" + name);
    PrefixCut("g", digits + "-" + name);
    CutJoined(digits, '-', name);
  }

  /** A key is stale exactly when its last segment does not say so. */
  lemma StaleExactly(key: string)
    ensures StaleGeneration(key) <==> !SaysGeneration(Leaf(key))
  {
    hide LastIndex, FirstIndex, ParseInt, CutAt, CutPrefix, Leaf;
    var leaf := Leaf(key);
    forall digits, name | leaf == "g" + digits + "-" + name && '-' !in digits
      ensures CutPrefix(leaf, "g") == Some(digits + "-" + name)
              && CutAt(digits + "-" + name, '-') == Cut(digits, name, true)
    {
      CutGeneration(digits, name);
    }
    if CutPrefix(leaf, "g").Some? {
      var rest := CutPrefix(leaf, "g").value;
      PrefixIs(leaf, "g");
      var cut := CutAt(rest, '-');
      CutIs(rest, '-');
      if cut.found {
        assert leaf == "g" + cut.before + "-" + cut.after;
      }
    }
  }

  lemma PrefixIs(s: string, prefix: string)
    ensures CutPrefix(s, prefix).Some? ==> s == prefix + CutPrefix(s, prefix).value
  {
  }

  /** So of all the generations there could be, one is not stale. */
  lemma GenerationsApart(parent: string, n: nat, name: string)
    requires '/' !in name
    ensures StaleGeneration(DERIVED_PREFIX + parent + "/g" + Itoa(n) + "-" + name) <==> n != DERIVED_GENERATION
  {
    hide LastIndex, FirstIndex, Itoa, CutPrefix, CutAt;
    var dir, leaf := DERIVED_PREFIX + parent, "g" + Itoa(n) + "-" + name;
    var key := dir + "/" + leaf;
    assert DERIVED_PREFIX + parent + "/g" + Itoa(n) + "-" + name == key;
    LastSlash(dir, leaf);
    assert key[|dir| + 1..] == leaf && Leaf(key) == leaf;
    var rest := Itoa(n) + "-" + name;
    assert leaf == "g" + rest && leaf[1..] == rest;
    assert CutPrefix(leaf, GENERATION_PREFIX) == Some(rest) by { PrefixCut("g", rest); }
    CutJoined(Itoa(n), '-', name);
    ItoaValue(n);
  }

  lemma PrefixCut(prefix: string, rest: string)
    ensures CutPrefix(prefix + rest, prefix) == Some(rest)
  {
  }

  /** And what is kept for a week only: a name that begins as a cache's does, after the
      first hyphen. */
  lemma CachedExactly(key: string)
    ensures Cached(key) <==> exists before, name :: Leaf(key) == before + "-" + name && '-' !in before
                                                    && CACHE_PREFIX <= name
  {
    hide LastIndex, FirstIndex;
    var leaf := Leaf(key);
    var cut := CutAt(leaf, '-');
    if cut.found {
      CutIs(leaf, '-');
      assert leaf == cut.before + "-" + cut.after;
    }
    forall before, name | leaf == before + "-" + name && '-' !in before ensures cut == Cut(before, name, true) {
      CutJoined(before, '-', name);
    }
  }

  /** Whose a key is: what stands between the prefix and its last segment. */
  lemma ParentExactly(parent: string, leaf: string)
    requires '/' !in leaf
    ensures ParentOf(DERIVED_PREFIX + parent + "/" + leaf) == Parentage(parent, true)
    ensures Leaf(DERIVED_PREFIX + parent + "/" + leaf) == leaf
  {
    hide LastIndex;
    var rest := parent + "/" + leaf;
    var key := DERIVED_PREFIX + rest;
    assert DERIVED_PREFIX + parent + "/" + leaf == key && key[|DERIVED_PREFIX|..] == rest;
    LastSlash(parent, leaf);
    LastSlash(DERIVED_PREFIX + parent, leaf);
    assert rest[..|parent|] == parent;
    assert key[|DERIVED_PREFIX + parent| + 1..] == leaf by {
      assert key == DERIVED_PREFIX + parent + "/" + leaf;
    }
  }

  /** A key under the prefix that names nothing has no slash after it but one at once. */
  lemma ParentNone(key: string)
    ensures !ParentOf(key).derived <==> !(DERIVED_PREFIX <= key)
    ensures ParentOf(key).parent != "" ==>
              ParentOf(key).derived && key == DERIVED_PREFIX + ParentOf(key).parent + "/" + Leaf(key)
              && '/' !in Leaf(key)
  {
    hide LastIndex, Leaf;
    if ParentOf(key).parent != "" {
      var rest := key[|DERIVED_PREFIX|..];
      assert key == DERIVED_PREFIX + rest;
      LeafAfter(DERIVED_PREFIX, rest);
      assert DERIVED_PREFIX + ParentOf(key).parent + "/" + Leaf(key) ==
             DERIVED_PREFIX + (ParentOf(key).parent + "/" + Leaf(key));
    }
  }

  /** What comes after a prefix, cut at its last slash. */
  lemma LeafAfter(prefix: string, rest: string)
    requires LastIndex(rest, '/') >= 0
    ensures rest == rest[..LastIndex(rest, '/')] + "/" + Leaf(prefix + rest) && '/' !in Leaf(prefix + rest)
  {
    hide LastIndex;
    var i := LastIndex(rest, '/');
    LastIndexJoined(prefix, rest, '/');
    var leaf := rest[i + 1..];
    assert (prefix + rest)[|prefix| + i + 1..] == leaf;
    assert Leaf(prefix + rest) == leaf;
    forall k | 0 <= k < |leaf| ensures leaf[k] != '/' { assert leaf[k] == rest[i + 1 + k]; }
    assert rest == rest[..i] + [rest[i]] + leaf;
  }

  // ----- The shape of a key a write makes

  const KINDS: set<string> := {"image", "video", "audio", "document", "other"}

  function Pad(n: nat, width: nat): string {
    var s := Itoa(n);
    Zeros(width - |s|) + s
  }

  function Zeros(n: int): string {
    if n <= 0 then "" else "0" + Zeros(n - 1)
  }

  predicate GoodExt(ext: string) {
    |ext| <= 8 && forall i :: 0 <= i < |ext| ==> 'a' <= ext[i] <= 'z' || '0' <= ext[i] <= '9'
  }

  function Lower(s: string): (r: string)
    ensures |r| == |s|
  {
    seq(|s|, i requires 0 <= i < |s| => if 'A' <= s[i] <= 'Z' then ((s[i] as int) + 32) as char else s[i])
  }

  /** The extension the name arrived with, lowercased, or nothing when it is not one. */
  function ExtensionOf(name: string): (ext: string)
    ensures GoodExt(ext)
  {
    var dotted := Paths.Ext(name);
    var ext := Lower(if dotted == "" then "" else dotted[1..]);
    if GoodExt(ext) then ext else ""
  }

  function Slashed(a: string, b: string, c: string, d: string, e: string): string {
    a + "/" + b + "/" + c + "/" + d + "/" + e
  }

  /** `<kind>/<year>/<month>/<day>/<id>[.<ext>]`. The kind is what the bytes or
      the extension say, the date is today's and the id is drawn at random. */
  function NewBlobKey(name: string, kind: string, year: nat, month: nat, day: nat, id: string): string {
    var ext := ExtensionOf(name);
    Slashed(kind, Pad(year, 4), Pad(month, 2), Pad(day, 2), id + (if ext == "" then "" else "." + ext))
  }

  /** What matters about that shape: five segments, the first of them a kind. */
  ghost predicate MintedShape(key: string) {
    Count(key, '/') == 4 && exists kind :: kind in KINDS && kind + "/" <= key
  }

  lemma {:induction false} ZerosPlain(n: int)
    ensures '/' !in Zeros(n)
  {
    if n <= 0 {
    } else {
      ZerosPlain(n - 1);
    }
  }

  lemma PadPlain(n: nat, width: nat)
    ensures Count(Pad(n, width), '/') == 0
  {
    ZerosPlain(width - |Itoa(n)|);
    CountNone(Pad(n, width), '/');
  }

  lemma NewBlobKeyShape(name: string, kind: string, year: nat, month: nat, day: nat, id: string)
    requires kind in KINDS && '/' !in id
    ensures MintedShape(NewBlobKey(name, kind, year, month, day, id))
  {
    hide Slashed, Pad, ExtensionOf;
    PadPlain(year, 4);
    PadPlain(month, 2);
    PadPlain(day, 2);
    CountNone(kind, '/');
    var ext := ExtensionOf(name);
    var last := id + (if ext == "" then "" else "." + ext);
    CountNone(last, '/');
    SlashedFacts(kind, Pad(year, 4), Pad(month, 2), Pad(day, 2), last);
    IsMinted(NewBlobKey(name, kind, year, month, day, id), kind);
  }

  /** A number in as many places as it takes, or with zeros before it in more. */
  lemma PadReads(n: nat, width: nat)
    ensures AllDigits(Pad(n, width)) && DigitsValue(Pad(n, width)) == n
    ensures |Pad(n, width)| == if |Itoa(n)| < width then width else |Itoa(n)|
  {
    ItoaValue(n);
    ZerosValue(width - |Itoa(n)|, Itoa(n));
  }

  lemma {:induction false} ZerosValue(n: int, digits: string)
    requires AllDigits(digits)
    ensures AllDigits(Zeros(n) + digits) && |Zeros(n)| == (if n < 0 then 0 else n)
    ensures DigitsValue(Zeros(n) + digits) == DigitsValue(digits)
  {
    if n <= 0 {
      assert Zeros(n) + digits == digits;
    } else {
      ZerosValue(n - 1, digits);
      assert Zeros(n) + digits == "0" + (Zeros(n - 1) + digits);
      ZeroFirst(Zeros(n - 1) + digits);
    }
  }

  lemma {:induction false} ZeroFirst(digits: string)
    requires AllDigits(digits)
    ensures AllDigits("0" + digits) && DigitsValue("0" + digits) == DigitsValue(digits)
  {
    if digits == "" {
      assert "0"[..0] == "";
      assert DigitsValue("0") == 0;
    } else {
      var front := digits[..|digits| - 1];
      ZeroFirst(front);
      assert ("0" + digits)[..|digits|] == "0" + front;
    }
  }

  lemma LowerIs(s: string)
    ensures forall i :: 0 <= i < |s| ==>
              if 'A' <= s[i] <= 'Z' then Lower(s)[i] as int - 'a' as int == s[i] as int - 'A' as int
              else Lower(s)[i] == s[i]
  {
  }

  /** What a key says, segment by segment: the kind, the date and the name, which ends as
      the name it was made for did, in lower case, if that is an extension. */
  lemma NewBlobKeyReads(name: string, kind: string, year: nat, month: nat, day: nat, id: string)
    requires '/' !in kind && '/' !in id && '.' !in id
    ensures var segments := Split(NewBlobKey(name, kind, year, month, day, id), '/');
            && |segments| == 5 && segments[0] == kind
            && segments[1] == Pad(year, 4) && segments[2] == Pad(month, 2) && segments[3] == Pad(day, 2)
            && id <= segments[4] && Paths.Stem(segments[4]) == id
            && var ext, was := Paths.Ext(segments[4]), Paths.Ext(name);
               ext == if 1 < |was| <= 9 && (forall i :: 1 <= i < |was| ==> 'a' <= was[i] <= 'z' || 'A' <= was[i] <= 'Z'
                                                                            || '0' <= was[i] <= '9')
                      then Lower(was) else ""
  {
    hide Split, Pad, Slashed, ExtensionOf, Paths.Ext, Paths.Stem, Lower, Count;
    PadPlain(year, 4);
    PadPlain(month, 2);
    PadPlain(day, 2);
    var ext := ExtensionOf(name);
    var last := id + (if ext == "" then "" else "." + ext);
    NoSlash(Pad(year, 4));
    NoSlash(Pad(month, 2));
    NoSlash(Pad(day, 2));
    SlashedSplits(kind, Pad(year, 4), Pad(month, 2), Pad(day, 2), last);
    ExtensionIs(name);
    ExtOf(id, ext);
  }

  lemma {:induction false} NoSlash(s: string)
    requires Count(s, '/') == 0
    ensures '/' !in s
  {
    if s == "" {
    } else {
      NoSlash(s[1..]);
      assert s == [s[0]] + s[1..];
    }
  }

  lemma SlashedSplits(a: string, b: string, c: string, d: string, e: string)
    requires '/' !in a && '/' !in b && '/' !in c && '/' !in d && '/' !in e
    ensures Split(Slashed(a, b, c, d, e), '/') == [a, b, c, d, e]
  {
    hide Split;
    SplitJoined(a + "/" + b + "/" + c + "/" + d, '/', e);
    SplitJoined(a + "/" + b + "/" + c, '/', d);
    SplitJoined(a + "/" + b, '/', c);
    SplitJoined(a, '/', b);
    SplitNone(a, '/');
    SplitNone(b, '/');
    SplitNone(c, '/');
    SplitNone(d, '/');
    SplitNone(e, '/');
  }

  lemma ExtensionIs(name: string)
    ensures var ext, was := ExtensionOf(name), Paths.Ext(name);
            (if ext == "" then "" else "." + ext) ==
            if 1 < |was| <= 9 && (forall i :: 1 <= i < |was| ==> 'a' <= was[i] <= 'z' || 'A' <= was[i] <= 'Z'
                                                                 || '0' <= was[i] <= '9')
            then Lower(was) else ""
  {
    hide Paths.Ext, Lower, GoodExt;
    var was := Paths.Ext(name);
    if was != "" { GoodLower(was); }
  }

  lemma GoodLower(was: string)
    requires was != "" && was[0] == '.'
    ensures Lower(was) == "." + Lower(was[1..])
    ensures GoodExt(Lower(was[1..])) <==>
            |was| <= 9 && forall i :: 1 <= i < |was| ==> 'a' <= was[i] <= 'z' || 'A' <= was[i] <= 'Z'
                                                         || '0' <= was[i] <= '9'
  {
    var tail := was[1..];
    LowerIs(tail);
    LowerIs(was);
    hide Lower;
    forall i | 1 <= i < |was| ensures tail[i - 1] == was[i] {}
    assert forall i :: 0 <= i < |tail| ==> tail[i] == was[i + 1];
    assert Lower(was) == "." + Lower(tail);
  }

  lemma ExtOf(id: string, ext: string)
    requires '/' !in id && '.' !in id && GoodExt(ext)
    ensures var last := id + (if ext == "" then "" else "." + ext);
            Paths.Stem(last) == id && Paths.Ext(last) == if ext == "" then "" else "." + ext
  {
    hide LastIndex;
    var tail := if ext == "" then "" else "." + ext;
    var last := id + tail;
    assert '.' !in ext && '/' !in ext;
    LastIndexJoined(id, tail, '.');
    LastIndexJoined(id, tail, '/');
    if ext != "" {
      LastIndexJoined(".", ext, '.');
      LastIndexJoined(id, "", '/');
      assert LastIndex(".", '.') == 0;
      assert last[|id|..] == tail && last[..|id|] == id;
    } else {
      assert last == id;
    }
  }

  lemma IsMinted(key: string, kind: string)
    requires kind in KINDS && kind + "/" <= key && Count(key, '/') == 4
    ensures MintedShape(key)
  {
  }

  lemma SlashedFacts(a: string, b: string, c: string, d: string, e: string)
    ensures Count(Slashed(a, b, c, d, e), '/')
            == Count(a, '/') + Count(b, '/') + Count(c, '/') + Count(d, '/') + Count(e, '/') + 4
    ensures a + "/" <= Slashed(a, b, c, d, e)
  {
    OneSlash(a, b);
    OneSlash(a + "/" + b, c);
    OneSlash(a + "/" + b + "/" + c, d);
    OneSlash(a + "/" + b + "/" + c + "/" + d, e);
  }

  lemma OneSlash(a: string, b: string)
    ensures Count(a + "/" + b, '/') == Count(a, '/') + 1 + Count(b, '/')
  {
    CountJoined(a + "/", b, '/');
    CountJoined(a, "/", '/');
    assert Count("/", '/') == 1;
  }

  /** A minted key is under neither prefix the sweep reads specially. */
  lemma MintedIsOriginal(key: string)
    requires MintedShape(key)
    ensures !(DERIVED_PREFIX <= key) && !(BACKUP_PREFIX <= key)
    ensures ParentOf(key) == Parentage("", false)
  {
    var kind :| kind in KINDS && kind + "/" <= key;
    assert key[0] == kind[0] && key[1] == (kind + "/")[1];
  }

  /** One key is a path prefix of another: a filesystem could not hold both. */
  predicate PathPrefix(a: string, b: string) {
    a + "/" <= b
  }

  lemma MintedNotPrefix(a: string, b: string)
    requires MintedShape(a) && MintedShape(b)
    ensures !PathPrefix(a, b)
  {
    if PathPrefix(a, b) {
      var tail := b[|a| + 1..];
      assert b == a + "/" + tail;
      OneSlash(a, tail);
      assert false;
    }
  }

  /** What dropping `key` lists: everything derived under it. */
  function DerivedUnder(key: string): string {
    DERIVED_PREFIX + key + "/"
  }

  /** Given that neither key is a path prefix of the other, the listing for `key`
      holds an object derived from `parent` exactly when `parent` is `key`. */
  lemma DropTakesItsOwn(key: string, parent: string, name: string)
    requires parent != "" && '/' !in name
    requires !PathPrefix(key, parent)
    ensures DerivedUnder(key) <= DerivedKey(parent, name) <==> parent == key
    ensures DerivedUnder(key) <= DerivedKey(parent, name) <==>
            ParentOf(DerivedKey(parent, name)) == Parentage(key, true)
  {
    hide Itoa, ParentOf;
    ParentOfDerived(parent, name);
    var leaf := GENERATION_PREFIX + Itoa(DERIVED_GENERATION) + "-" + name;
    assert '/' !in leaf;
    PrefixUnderParent(key, parent, leaf);
    var made, under := DerivedKey(parent, name), DerivedUnder(key);
    var n := |DERIVED_PREFIX|;
    assert made == DERIVED_PREFIX + (parent + "/" + leaf) && under == DERIVED_PREFIX + (key + "/");
    if under <= made {
      assert made[n..][..|key| + 1] == key + "/";
    }
    if key + "/" <= parent + "/" + leaf {
      assert made[..|under|] == under;
    }
  }

  lemma PrefixOfBoth(a: string, s: string, b: string)
    requires a <= s && b <= s && |a| <= |b|
    ensures a <= b
  {
    assert b == s[..|b|];
  }

  lemma PrefixUnderParent(key: string, parent: string, leaf: string)
    requires '/' !in leaf && !PathPrefix(key, parent)
    ensures key + "/" <= parent + "/" + leaf <==> parent == key
  {
    var s := parent + "/" + leaf;
    if key + "/" <= s {
      assert s[|key|] == '/';
      LastIndexJoined(parent + "/", leaf, '/');
      LastIndexJoined(parent, "/", '/');
      assert |key| <= LastIndex(s, '/') == |parent|;
      if |key| < |parent| { PrefixOfBoth(key + "/", s, parent); }
      assert s[..|key|] == key && s[..|parent|] == parent;
    }
  }
}
