/** The boxes of an MP4 file (internal/media/mp4.go): a walk over a buffer, and the
    same walk over a file. */
module Boxes {
  import opened Bytes
  import opened Text

  type Name = seq<Byte>

  /** No buffer is as long as this. */
  const MAX_LEN := 0x4000_0000_0000_0000

  /** A box: its name and where its body is. */
  datatype Atom = Atom(name: Name, from: nat, to: nat)

  /** What a walk finds at a place: nothing it can read, a box, or a size so large that
      the place it ends at is past what 64 bits hold. That place comes out negative, so
      it is within the buffer for the check and not for the slice, and the program
      panics. */
  datatype Next = Stop | Found(atom: Atom) | Wrapped

  /** The box at `i`, with the size it states, or the one in the eight bytes after its
      header, or all there is. */
  function NextAtom(buf: seq<Byte>, i: nat): (n: Next)
    requires i <= |buf| < MAX_LEN
    ensures n.Found? ==> i + 8 <= n.atom.from <= n.atom.to <= |buf|
  {
    if i + 8 > |buf| then Stop
    else
      var stated := U32(buf, i);
      if stated == 1 && i + 16 > |buf| then Stop
      else
        var size := if stated == 1 then Int64(U64(buf, i + 8)) else if stated == 0 then |buf| - i else stated;
        var header := if stated == 1 then 16 else 8;
        if size < header || Int64(i + size) > |buf| then Stop
        else if i + size >= TWO63 then Wrapped
        else Found(Atom(buf[i + 4..i + 8], i + header, i + size))
  }

  /** The boxes from `i` on, to the first that cannot be read. */
  function Atoms(buf: seq<Byte>, i: nat): seq<Atom>
    requires i <= |buf| < MAX_LEN
    decreases |buf| - i
  {
    match NextAtom(buf, i)
    case Found(a) => [a] + Atoms(buf, a.to)
    case _ => []
  }

  /** It takes a box that is not the first and states its size in 64 bits. */
  lemma WrappedIs(buf: seq<Byte>, i: nat)
    requires i <= |buf| < MAX_LEN
    ensures NextAtom(buf, i).Wrapped? <==>
            i + 16 <= |buf| && U32(buf, i) == 1 && 16 <= Int64(U64(buf, i + 8)) && i + Int64(U64(buf, i + 8)) >= TWO63
    ensures NextAtom(buf, i).Wrapped? ==> i > 0
  {
  }

  /** The walk comes to such a place. */
  predicate EndsWrapped(buf: seq<Byte>, i: nat)
    requires i <= |buf| < MAX_LEN
    decreases |buf| - i
  {
    match NextAtom(buf, i)
    case Found(a) => EndsWrapped(buf, a.to)
    case Wrapped => true
    case Stop => false
  }

  /** Where the walk looks for a box: where it begins, and where each box ends. */
  ghost predicate Reached(buf: seq<Byte>, i: nat, j: nat)
    requires i <= |buf| < MAX_LEN
  {
    j <= |buf| && (j == i || exists k :: 0 <= k < |Atoms(buf, i)| && Atoms(buf, i)[k].to == j)
  }

  lemma ReachedNext(buf: seq<Byte>, i: nat, j: nat)
    requires i <= |buf| < MAX_LEN && NextAtom(buf, i).Found?
    ensures Reached(buf, i, j) <==> j == i || Reached(buf, NextAtom(buf, i).atom.to, j)
  {
    hide NextAtom;
    var a := NextAtom(buf, i).atom;
    var rest := Atoms(buf, a.to);
    var all := Atoms(buf, i);
    assert all == [a] + rest && all[0] == a;
    if Reached(buf, a.to, j) {
      if k :| 0 <= k < |rest| && rest[k].to == j { assert all[k + 1].to == j; }
    }
    if Reached(buf, i, j) && j != i {
      var k :| 0 <= k < |all| && all[k].to == j;
      assert k > 0 ==> rest[k - 1].to == j;
    }
  }

  /** The walk panics exactly when a place it looks at states such a size. */
  lemma {:induction false} PanicsExactly(buf: seq<Byte>, i: nat)
    requires i <= |buf| < MAX_LEN
    ensures EndsWrapped(buf, i) <==> exists j: nat :: Reached(buf, i, j) && NextAtom(buf, j).Wrapped?
    decreases |buf| - i
  {
    hide NextAtom, Reached;
    var n := NextAtom(buf, i);
    assert Reached(buf, i, i) by { ReachesItself(buf, i); }
    if n.Found? {
      PanicsExactly(buf, n.atom.to);
      forall j: nat ensures Reached(buf, i, j) <==> j == i || Reached(buf, n.atom.to, j) {
        ReachedNext(buf, i, j);
      }
    } else {
      forall j: nat | Reached(buf, i, j) ensures j == i { ReachesNone(buf, i, j); }
    }
  }

  lemma ReachesItself(buf: seq<Byte>, i: nat)
    requires i <= |buf| < MAX_LEN
    ensures Reached(buf, i, i)
  {
  }

  lemma ReachesNone(buf: seq<Byte>, i: nat, j: nat)
    requires i <= |buf| < MAX_LEN && !NextAtom(buf, i).Found? && Reached(buf, i, j)
    ensures j == i
  {
  }

  const TWO_BOXES: seq<Byte> :=
    [0, 0, 0, 8, 1, 1, 1, 1] + [0, 0, 0, 1, 2, 2, 2, 2, 127, 255, 255, 255, 255, 255, 255, 255]

  /** An empty box and one that states the largest size there is. */
  lemma TwoBoxesPanic()
    ensures EndsWrapped(TWO_BOXES, 0) && Sought(TWO_BOXES, [2, 2, 2, 2]) == Panics
  {
    var buf := TWO_BOXES;
    assert U32(buf, 0) == 8 && U32(buf, 8) == 1 && U64(buf, 16) == TWO63 - 1;
    assert NextAtom(buf, 8) == Wrapped;
    assert buf[4..8] == [1, 1, 1, 1] && NextAtom(buf, 0) == Found(Atom([1, 1, 1, 1], 8, 8));
    assert Atoms(buf, 8) == [];
    AtomsStep(buf, 0, [2, 2, 2, 2]);
  }

  /** In order, within bounds, and no two overlapping. */
  ghost predicate InOrder(found: seq<Atom>, from: nat, until: nat) {
    && (forall k :: 0 <= k < |found| ==> from + 8 <= found[k].from <= found[k].to <= until)
    && (forall j, k :: 0 <= j < k < |found| ==> found[j].to + 8 <= found[k].from)
  }

  lemma OneInOrder(a: Atom, rest: seq<Atom>, from: nat, until: nat)
    requires from + 8 <= a.from <= a.to <= until && InOrder(rest, a.to, until)
    ensures InOrder([a] + rest, from, until)
  {
    var all := [a] + rest;
    forall k | 0 <= k < |all| ensures from + 8 <= all[k].from <= all[k].to <= until {
      assert k > 0 ==> all[k] == rest[k - 1];
    }
    forall j, k | 0 <= j < k < |all| ensures all[j].to + 8 <= all[k].from {
      assert all[k] == rest[k - 1];
      assert j > 0 ==> all[j] == rest[j - 1];
    }
  }

  /** On any bytes, what is found is in order, within bounds, and no two overlap. */
  lemma {:induction false} AtomsInOrder(buf: seq<Byte>, i: nat)
    requires i <= |buf| < MAX_LEN
    ensures InOrder(Atoms(buf, i), i, |buf|)
    decreases |buf| - i
  {
    hide NextAtom, InOrder;
    var n := NextAtom(buf, i);
    if n.Found? {
      AtomsInOrder(buf, n.atom.to);
      OneInOrder(n.atom, Atoms(buf, n.atom.to), i, |buf|);
    } else {
      NoneInOrder(i, |buf|);
    }
  }

  lemma NoneInOrder(from: nat, until: nat)
    ensures InOrder([], from, until)
  {
  }

  lemma AtomInBounds(buf: seq<Byte>, a: Atom)
    requires |buf| < MAX_LEN && a in Atoms(buf, 0)
    ensures 8 <= a.from <= a.to <= |buf|
  {
    AtomsInOrder(buf, 0);
  }

  /** The first box of a name, if there is one. */
  function First(found: seq<Atom>, want: Name): (a: Option<Atom>)
    ensures a.Some? ==> a.value in found && a.value.name == want
    ensures a.None? ==> forall x :: x in found ==> x.name != want
  {
    if found == [] then None else if found[0].name == want then Some(found[0]) else First(found[1..], want)
  }

  /** The walk, to a box of a name. */
  method FindIn(buf: seq<Byte>, want: Name) returns (body: Answer)
    requires |buf| < MAX_LEN
    ensures body == Sought(buf, want)
  {
    hide NextAtom;
    AtomsInOrder(buf, 0);
    var i := 0;
    while i + 8 <= |buf|
      invariant i <= |buf| && First(Atoms(buf, 0), want) == First(Atoms(buf, i), want)
      invariant EndsWrapped(buf, 0) <==> EndsWrapped(buf, i)
      decreases |buf| - i
    {
      var n := NextAtom(buf, i);
      if n.Wrapped? { return Panics; }
      if n.Stop? { return Missing; }
      AtomsStep(buf, i, want);
      if n.atom.name == want {
        return Body(buf[n.atom.from..n.atom.to]);
      }
      i := n.atom.to;
    }
    ShortEnd(buf, i);
    return Missing;
  }

  lemma AtomsStep(buf: seq<Byte>, i: nat, want: Name)
    requires i <= |buf| < MAX_LEN && NextAtom(buf, i).Found?
    ensures var a := NextAtom(buf, i).atom;
            First(Atoms(buf, i), want) == if a.name == want then Some(a) else First(Atoms(buf, a.to), want)
  {
    hide NextAtom;
    var a := NextAtom(buf, i).atom;
    assert ([a] + Atoms(buf, a.to))[1..] == Atoms(buf, a.to);
  }

  lemma ShortEnd(buf: seq<Byte>, i: nat)
    requires i <= |buf| < MAX_LEN && i + 8 > |buf|
    ensures Atoms(buf, i) == [] && !EndsWrapped(buf, i)
  {
  }

  /** What looking for a box comes to. */
  datatype Answer = Body(bytes: seq<Byte>) | Missing | Panics

  /** The body of the first box of a name: there is one, or the walk ends without it,
      or comes first to a place it panics at. */
  function Sought(buf: seq<Byte>, want: Name): (body: Answer)
    requires |buf| < MAX_LEN
    ensures body.Body? ==> |body.bytes| <= |buf|
    ensures body.Panics? <==> EndsWrapped(buf, 0) && First(Atoms(buf, 0), want).None?
  {
    match First(Atoms(buf, 0), want)
    case None => if EndsWrapped(buf, 0) then Panics else Missing
    case Some(a) => AtomInBounds(buf, a); Body(buf[a.from..a.to])
  }

  /** The body of the last box of a path of them. */
  function SoughtAt(buf: seq<Byte>, path: seq<Name>): (body: Answer)
    requires |buf| < MAX_LEN
    ensures body.Body? ==> |body.bytes| <= |buf|
    decreases |path|
  {
    if path == [] then Body(buf)
    else match Sought(buf, path[0])
      case Body(b) => SoughtAt(b, path[1..])
      case other => other
  }

  method Box(buf: seq<Byte>, path: seq<Name>) returns (body: Answer)
    requires |buf| < MAX_LEN
    ensures body == SoughtAt(buf, path)
  {
    var at := buf;
    var i := 0;
    assert path[0..] == path;
    while i < |path|
      invariant i <= |path| && |at| < MAX_LEN && SoughtAt(buf, path) == SoughtAt(at, path[i..])
    {
      var b := FindIn(at, path[i]);
      if !b.Body? { return b; }
      assert path[i..][1..] == path[i + 1..];
      at := b.bytes;
      i := i + 1;
    }
    assert path[i..] == [];
    return Body(at);
  }

  /** The box that a path leads to, as far as its first `n` names, if it leads there. */
  function Down(buf: seq<Byte>, path: seq<Name>, n: nat): Option<seq<Byte>>
    requires |buf| < MAX_LEN && n <= |path|
  {
    var b := SoughtAt(buf, path[..n]);
    if b.Body? then Some(b.bytes) else None
  }

  lemma {:induction false} DownOne(buf: seq<Byte>, path: seq<Name>, n: nat)
    requires |buf| < MAX_LEN && 0 < n <= |path|
    requires Sought(buf, path[0]).Body?
    ensures Down(buf, path, n) == Down(Sought(buf, path[0]).bytes, path[1..], n - 1)
  {
    assert path[..n][0] == path[0] && path[..n][1..] == path[1..][..n - 1];
  }

  /** A path panics exactly when it leads to a buffer whose walk comes to a wrapped
      place before a box of the next name. */
  lemma {:induction false} PathPanicsExactly(buf: seq<Byte>, path: seq<Name>)
    requires |buf| < MAX_LEN
    ensures SoughtAt(buf, path).Panics? <==> exists n: nat :: PanicsAt(buf, path, n)
    decreases |path|
  {
    hide Sought;
    if path == [] {
    } else {
      var b := Sought(buf, path[0]);
      assert path[..0] == [] && Down(buf, path, 0) == Some(buf);
      if b.Body? {
        PathPanicsExactly(b.bytes, path[1..]);
        forall n: nat | 0 < n < |path| ensures PanicsAt(buf, path, n) <==> PanicsAt(b.bytes, path[1..], n - 1) {
          DownOne(buf, path, n);
          assert path[1..][n - 1] == path[n];
        }
        if n: nat :| PanicsAt(b.bytes, path[1..], n) { assert PanicsAt(buf, path, n + 1); }
        if n: nat :| PanicsAt(buf, path, n) { assert PanicsAt(b.bytes, path[1..], n - 1); }
      } else {
        assert PanicsAt(buf, path, 0) <==> b.Panics?;
        forall n: nat | 0 < n < |path| ensures Down(buf, path, n).None? {
          assert path[..n][0] == path[0];
        }
      }
    }
  }

  ghost predicate PanicsAt(buf: seq<Byte>, path: seq<Name>, n: nat)
    requires |buf| < MAX_LEN
  {
    n < |path| && Down(buf, path, n).Some? && |Down(buf, path, n).value| < MAX_LEN
    && Sought(Down(buf, path, n).value, path[n]).Panics?
  }

  // ----- Over a file

  datatype Place = Place(at: nat, length: int)

  /** FindAtom: the boxes of a file from `at`, `read` bytes of them counted so far out
      of `within`, to one of a name. A box that states its size in 64 bits is counted
      short by the eight bytes it states it in. */
  function Seek(file: seq<Byte>, at: nat, read: int, within: int, want: Name): Option<Place>
    decreases |file| - at
  {
    if read + 8 > within || at + 8 > |file| then None
    else
      var stated := U32(file, at);
      if stated == 1 && at + 16 > |file| then None
      else
        var size :=
          if stated == 1 then Int64(Int64(U64(file, at + 8)) - 8)
          else if stated == 0 then within - read
          else stated;
        var header := if stated == 1 then 16 else 8;
        if size < 8 || Int64(read + size) > within then None
        else if file[at + 4..at + 8] == want then Some(Place(at + header, size - 8))
        else Seek(file, at + header + (size - 8), Int64(read + size), within, want)
  }

  class Reader {
    const file: seq<Byte>
    var at: nat

    constructor (file: seq<Byte>, at: nat)
      ensures this.file == file && this.at == at
    {
      this.file, this.at := file, at;
    }

    /** Leaves the reader at the first byte of the box's body and says how long it is. */
    method FindAtom(within: int, want: Name) returns (length: Option<int>)
      modifies this
      ensures var found := Seek(file, old(at), 0, within, want);
              && (length.Some? <==> found.Some?)
              && (length.Some? ==> length.value == found.value.length && at == found.value.at)
    {
      hide U32, U64, Int64;
      var read := 0;
      while read + 8 <= within
        invariant Seek(file, old(at), 0, within, want) == Seek(file, at, read, within, want)
        decreases if at <= |file| then |file| - at + 1 else 0
      {
        if at + 8 > |file| { return None; }
        var stated := U32(file, at);
        var name := file[at + 4..at + 8];
        var size: int := stated;
        at := at + 8;
        if stated == 1 {
          if at + 8 > |file| { return None; }
          size := Int64(Int64(U64(file, at)) - 8);
          at := at + 8;
        } else if stated == 0 {
          size := within - read;
        }
        if size < 8 || Int64(read + size) > within { return None; }
        if name == want { return Some(size - 8); }
        read := Int64(read + size);
        at := at + (size - 8);
      }
      return None;
    }
  }

  /** The bytes of a buffer, in a file. */
  predicate Within(file: seq<Byte>, start: nat, buf: seq<Byte>) {
    start + |buf| <= |file| && |buf| < MAX_LEN && buf == file[start..start + |buf|]
  }

  function Placed(start: nat, found: Option<Atom>): Option<Place> {
    match found
    case None => None
    case Some(a) => Some(Place(start + a.from, a.to - a.from))
  }

  /** The two walks find the same box in the same place, or neither finds one. */
  ghost predicate Agree(file: seq<Byte>, start: nat, buf: seq<Byte>, want: Name)
    requires Within(file, start, buf)
  {
    Seek(file, start, 0, |buf|, want) == Placed(start, First(Atoms(buf, 0), want))
  }

  /** No box on the way to a name states its size in 64 bits. */
  ghost predicate NoneWide(buf: seq<Byte>, i: nat, want: Name)
    requires i <= |buf| < MAX_LEN
    decreases |buf| - i
  {
    i + 8 <= |buf| ==>
      U32(buf, i) != 1
      && (NextAtom(buf, i).Found? && NextAtom(buf, i).atom.name != want ==>
            NoneWide(buf, NextAtom(buf, i).atom.to, want))
  }

  /** Without such boxes the walks agree. */
  lemma WalksAgree(file: seq<Byte>, start: nat, buf: seq<Byte>, want: Name)
    requires Within(file, start, buf) && NoneWide(buf, 0, want)
    ensures Agree(file, start, buf, want)
  {
    AgreeFrom(file, start, buf, 0, want);
  }

  lemma {:induction false} AgreeFrom(file: seq<Byte>, start: nat, buf: seq<Byte>, i: nat, want: Name)
    requires Within(file, start, buf) && i <= |buf| && NoneWide(buf, i, want)
    ensures Seek(file, start + i, i, |buf|, want) == Placed(start, First(Atoms(buf, i), want))
    decreases |buf| - i
  {
    hide NextAtom, Seek, U32, First;
    if i + 8 <= |buf| && NextAtom(buf, i).Found? {
      AtomsStep(buf, i, want);
      OneStep(file, start, buf, i, 0, want);
      if NextAtom(buf, i).atom.name != want {
        if U32(buf, i) == 0 {
          PastTheEnd(file, start, buf, i, want);
        } else {
          AgreeFrom(file, start, buf, NextAtom(buf, i).atom.to, want);
        }
      }
    } else {
      BothStop(file, start, buf, i, want);
    }
  }

  /** A box with no size of its own runs to the end, and neither walk finds one after
      it. */
  lemma PastTheEnd(file: seq<Byte>, start: nat, buf: seq<Byte>, i: nat, want: Name)
    requires Within(file, start, buf) && i + 8 <= |buf| && NextAtom(buf, i).Found? && U32(buf, i) == 0
    ensures NextAtom(buf, i).atom.to == |buf| && First(Atoms(buf, |buf|), want) == None
    ensures forall at: nat :: Seek(file, at, |buf|, |buf|, want) == None
  {
    hide U32, U64;
  }

  lemma BothStop(file: seq<Byte>, start: nat, buf: seq<Byte>, i: nat, want: Name)
    requires Within(file, start, buf) && i <= |buf|
    requires i + 8 <= |buf| ==> U32(buf, i) != 1 && !NextAtom(buf, i).Found?
    ensures Seek(file, start + i, i, |buf|, want) == None && First(Atoms(buf, i), want) == None
  {
    if i + 8 <= |buf| {
      SameHeader(file, start, buf, i);
    }
    hide U32, U64;
  }

  /** How much shorter the walk over a file has counted, after a box. */
  function ShortBy(buf: seq<Byte>, i: nat, short: nat): nat
    requires i + 8 <= |buf|
  {
    if U32(buf, i) == 1 then short + 8 else if U32(buf, i) == 0 then 0 else short
  }

  /** One box of both walks, the one over the file having counted `short` bytes fewer. */
  lemma OneStep(file: seq<Byte>, start: nat, buf: seq<Byte>, i: nat, short: nat, want: Name)
    requires Within(file, start, buf) && short <= i && i + 8 <= |buf| && NextAtom(buf, i).Found?
    ensures var a, more := NextAtom(buf, i).atom, if U32(buf, i) == 0 then short else 0;
            Seek(file, start + i, i - short, |buf|, want) ==
            if a.name == want then Some(Place(start + a.from, a.to + more - a.from))
            else Seek(file, start + a.to + more, a.to - ShortBy(buf, i, short), |buf|, want)
  {
    hide U32, U64;
    SameHeader(file, start, buf, i);
    hide Within;
    if U32(buf, i) == 1 {
      WideStep(file, start, buf, i, short, want);
    }
  }

  lemma WideStep(file: seq<Byte>, start: nat, buf: seq<Byte>, i: nat, short: nat, want: Name)
    requires Within(file, start, buf) && short <= i && i + 8 <= |buf| && NextAtom(buf, i).Found? && U32(buf, i) == 1
    ensures var a := NextAtom(buf, i).atom;
            Seek(file, start + i, i - short, |buf|, want) ==
            if a.name == want then Some(Place(start + a.from, a.to - a.from))
            else Seek(file, start + a.to, a.to - (short + 8), |buf|, want)
  {
    hide U32, U64;
    SameHeader(file, start, buf, i);
    hide Within;
    var size := Int64(U64(buf, i + 8));
    assert 16 <= size <= |buf| - i && Int64(size - 8) == size - 8;
  }

  lemma SameByte(file: seq<Byte>, start: nat, buf: seq<Byte>, k: nat)
    requires Within(file, start, buf) && k < |buf|
    ensures buf[k] == file[start + k]
  {
  }

  lemma SameU32(file: seq<Byte>, start: nat, buf: seq<Byte>, i: nat)
    requires Within(file, start, buf) && i + 4 <= |buf|
    ensures U32(file, start + i) == U32(buf, i)
  {
    hide Within;
    SameByte(file, start, buf, i);
    SameByte(file, start, buf, i + 1);
    SameByte(file, start, buf, i + 2);
    SameByte(file, start, buf, i + 3);
  }

  lemma SameHeader(file: seq<Byte>, start: nat, buf: seq<Byte>, i: nat)
    requires Within(file, start, buf) && i + 8 <= |buf|
    ensures U32(file, start + i) == U32(buf, i) && file[start + i + 4..start + i + 8] == buf[i + 4..i + 8]
    ensures i + 16 <= |buf| ==> U64(file, start + i + 8) == U64(buf, i + 8)
  {
    hide U32;
    SameU32(file, start, buf, i);
    var a, b := file[start + i + 4..start + i + 8], buf[i + 4..i + 8];
    forall k | 0 <= k < 4 ensures a[k] == b[k] {
      SameByte(file, start, buf, i + 4 + k);
    }
    if i + 16 <= |buf| {
      SameU32(file, start, buf, i + 8);
      SameU32(file, start, buf, i + 12);
    }
  }

  // ----- When the buffer has the box

  /** The box of a name is one with no size of its own, and one before it states its
      size in 64 bits. */
  ghost predicate OpenAfterWide(buf: seq<Byte>, i: nat, short: nat, want: Name)
    requires i <= |buf| < MAX_LEN
    decreases |buf| - i
  {
    i + 8 <= |buf| && NextAtom(buf, i).Found?
    && var a := NextAtom(buf, i).atom;
       if a.name == want then U32(buf, i) == 0 && short > 0 else OpenAfterWide(buf, a.to, ShortBy(buf, i, short), want)
  }

  /** When the walk over the buffer finds the box, the one over the file finds it in the
      same place: exactly unless the box runs to the end and one before it states its
      size in 64 bits. */
  lemma FoundAlike(file: seq<Byte>, start: nat, buf: seq<Byte>, want: Name)
    requires Within(file, start, buf) && First(Atoms(buf, 0), want).Some?
    ensures Agree(file, start, buf, want) <==> !OpenAfterWide(buf, 0, 0, want)
  {
    FoundFrom(file, start, buf, 0, 0, want);
  }

  lemma {:induction false} FoundFrom(file: seq<Byte>, start: nat, buf: seq<Byte>, i: nat, short: nat, want: Name)
    requires Within(file, start, buf) && short <= i <= |buf| && First(Atoms(buf, i), want).Some?
    ensures Seek(file, start + i, i - short, |buf|, want) == Placed(start, First(Atoms(buf, i), want)) <==>
            !OpenAfterWide(buf, i, short, want)
    decreases |buf| - i
  {
    hide Seek, U32, First;
    if !NextAtom(buf, i).Found? {
      assert false;
    } else {
      hide NextAtom;
      AtomsStep(buf, i, want);
      OneStep(file, start, buf, i, short, want);
      var a := NextAtom(buf, i).atom;
      if a.name != want {
        if U32(buf, i) == 0 {
          PastTheEnd(file, start, buf, i, want);
          assert false;
        } else {
          FoundFrom(file, start, buf, a.to, ShortBy(buf, i, short), want);
        }
      }
    }
  }

  // ----- After what the walks have passed

  /** Whole boxes, each with a size of its own and none of a name. */
  ghost predicate Whole(p: seq<Byte>, i: nat, want: Name)
    requires i <= |p| < MAX_LEN
    decreases |p| - i
  {
    i < |p| ==>
      && NextAtom(p, i).Found? && U32(p, i) != 0 && NextAtom(p, i).atom.name != want
      && Whole(p, NextAtom(p, i).atom.to, want)
  }

  /** How many of them state their size in 64 bits. */
  ghost function Wide(p: seq<Byte>, i: nat): (n: nat)
    requires i <= |p| < MAX_LEN
    decreases |p| - i
  {
    if !NextAtom(p, i).Found? then 0
    else Wide(p, NextAtom(p, i).atom.to) + if U32(p, i) == 1 then 1 else 0
  }

  /** Whatever follows, so long as no box of it states its size in 64 bits. */
  ghost predicate AgreeAfter(p: seq<Byte>, want: Name)
    requires |p| < MAX_LEN
  {
    forall file, start: nat, q ::
      Within(file, start, p + q) && NoneWide(p + q, |p|, want) ==> Agree(file, start, p + q, want)
  }

  /** After any whole boxes that are not the one sought, the walks agree about whatever
      may follow if and only if none of those boxes states its size in 64 bits. */
  lemma AgreeAfterExactly(p: seq<Byte>, want: Name)
    requires |p| + 8 < MAX_LEN && |want| == 4 && Whole(p, 0, want)
    ensures AgreeAfter(p, want) <==> Wide(p, 0) == 0
  {
    if Wide(p, 0) == 0 {
      forall file, start: nat, q | Within(file, start, p + q) && NoneWide(p + q, |p|, want)
        ensures Agree(file, start, p + q, want)
      {
        NoneWideBefore(p, q, 0, want);
        WalksAgree(file, start, p + q, want);
      }
    } else {
      Overruns(p, want);
    }
  }

  lemma NextBefore(p: seq<Byte>, q: seq<Byte>, i: nat)
    requires i <= |p| && |p + q| < MAX_LEN && NextAtom(p, i).Found? && U32(p, i) != 0
    ensures NextAtom(p + q, i) == NextAtom(p, i) && U32(p + q, i) == U32(p, i)
  {
    assert (p + q)[..|p|] == p;
    assert Within(p + q, 0, p);
    SameHeader(p + q, 0, p, i);
    hide U32, U64;
  }

  lemma {:induction false} NoneWideBefore(p: seq<Byte>, q: seq<Byte>, i: nat, want: Name)
    requires i <= |p| && |p + q| < MAX_LEN && Whole(p, i, want) && Wide(p, i) == 0 && NoneWide(p + q, |p|, want)
    ensures NoneWide(p + q, i, want)
    decreases |p| - i
  {
    hide NextAtom, U32;
    if i < |p| {
      NextBefore(p, q, i);
      NoneWideBefore(p, q, NextAtom(p, i).atom.to, want);
    }
  }

  /** Past whole boxes both walks go on, the one over the file eight bytes short for
      each that states its size in 64 bits. */
  lemma {:induction false} WalkedPast(p: seq<Byte>, q: seq<Byte>, i: nat, short: nat, want: Name)
    requires short <= i <= |p| && |p + q| < MAX_LEN && Whole(p, i, want)
    ensures short + 8 * Wide(p, i) <= |p|
    ensures First(Atoms(p + q, i), want) == First(Atoms(p + q, |p|), want)
    ensures Seek(p + q, i, i - short, |p + q|, want) ==
            Seek(p + q, |p|, |p| - (short + 8 * Wide(p, i)), |p + q|, want)
    decreases |p| - i
  {
    hide Seek, U32, First, NextAtom;
    if i < |p| {
      var a := NextAtom(p, i).atom;
      NextBefore(p, q, i);
      AtomsStep(p + q, i, want);
      assert Within(p + q, 0, p + q);
      OneStep(p + q, 0, p + q, i, short, want);
      WalkedPast(p, q, a.to, ShortBy(p, i, short), want);
    } else {
      EndsThere(p);
    }
  }

  lemma EndsThere(p: seq<Byte>)
    requires |p| < MAX_LEN
    ensures Wide(p, |p|) == 0
  {
  }

  const SIXTEEN: seq<Byte> := [0, 0, 0, 16]

  /** After such a box the walk over a file believes there is more left than there is,
      and takes a box that runs past the end. */
  lemma Overruns(p: seq<Byte>, want: Name)
    requires |p| + 8 < MAX_LEN && |want| == 4 && Whole(p, 0, want) && Wide(p, 0) > 0
    ensures var buf := p + (SIXTEEN + want);
            NoneWide(buf, |p|, want) && Within(buf, 0, buf)
            && First(Atoms(buf, 0), want).None? && Seek(buf, 0, 0, |buf|, want) == Some(Place(|p| + 8, 8))
    ensures !AgreeAfter(p, want)
  {
    hide NextAtom, Seek, U32, First, Whole, Wide, Atoms, NoneWide;
    var q := SIXTEEN + want;
    var buf := p + q;
    WalkedPast(p, q, 0, 0, want);
    LastHeader(p, want);
    HalfABox(buf, |p|, 8 * Wide(p, 0), want);
    assert buf == buf[0..0 + |buf|];
    assert Within(buf, 0, p + q) && !Agree(buf, 0, p + q, want);
  }

  lemma LastHeader(p: seq<Byte>, want: Name)
    requires |want| == 4
    ensures var buf := p + (SIXTEEN + want); U32(buf, |p|) == 16 && buf[|p| + 4..|p| + 8] == want
  {
    var buf := p + (SIXTEEN + want);
    assert buf[|p|] == 0 && buf[|p| + 1] == 0 && buf[|p| + 2] == 0 && buf[|p| + 3] == 16;
  }

  lemma HalfABox(buf: seq<Byte>, i: nat, short: nat, want: Name)
    requires i + 8 == |buf| < MAX_LEN && 8 <= short <= i && U32(buf, i) == 16 && buf[i + 4..i + 8] == want
    ensures NextAtom(buf, i) == Stop && First(Atoms(buf, i), want).None? && NoneWide(buf, i, want)
    ensures Seek(buf, i, i - short, |buf|, want) == Some(Place(i + 8, 8))
  {
    hide U32, U64;
  }

  /** The least of them. */
  lemma WideParts()
    ensures var wide, name := [0, 0, 0, 1, 1, 1, 1, 1, 0, 0, 0, 0, 0, 0, 0, 16], [2, 2, 2, 2];
            var buf: seq<Byte> := wide + [0, 0, 0, 16] + name;
            First(Atoms(buf, 0), name).None? && Seek(buf, 0, 0, |buf|, name) == Some(Place(24, 8)) && |buf| == 24
  {
    var wide, name := [0, 0, 0, 1, 1, 1, 1, 1, 0, 0, 0, 0, 0, 0, 0, 16], [2, 2, 2, 2];
    var buf: seq<Byte> := wide + [0, 0, 0, 16] + name;
    assert U32(buf, 0) == 1 && U64(buf, 8) == 16 && U32(buf, 16) == 16;
    assert buf[4..8] == [1, 1, 1, 1] && buf[20..24] == name;
    assert First(Atoms(buf, 0), name).None? by {
      assert NextAtom(buf, 0) == Found(Atom([1, 1, 1, 1], 16, 16));
      assert NextAtom(buf, 16) == Stop;
      assert Atoms(buf, 16) == [];
      AtomsStep(buf, 0, name);
    }
    hide U32, U64, NextAtom, First, Atoms;
    assert Seek(buf, 16, 8, 24, name) == Some(Place(24, 8));
    assert Seek(buf, 0, 0, 24, name) == Seek(buf, 16, 8, 24, name);
  }

  // ----- Boxes as they are written

  /** How a box says how long it is: in 32 bits, in 64, or not at all, when it is the last. */
  datatype Form = Sized | Wide64 | ToTheEnd

  datatype Written = Written(name: Name, body: seq<Byte>, form: Form)

  function HeaderOf(b: Written): nat { if b.form.Wide64? then 16 else 8 }

  predicate Writable(b: Written) {
    |b.name| == 4 && |b.body| + 16 < MAX_LEN && (b.form.Sized? ==> |b.body| + 8 < TWO32)
  }

  function Encoded(b: Written): (bytes: seq<Byte>)
    requires Writable(b)
    ensures |bytes| == HeaderOf(b) + |b.body|
  {
    match b.form
    case Sized => Put32(8 + |b.body|) + b.name + b.body
    case Wide64 => Put32(1) + b.name + Put64(16 + |b.body|) + b.body
    case ToTheEnd => Put32(0) + b.name + b.body
  }

  /** Any boxes, of which only the last may leave its length unsaid. */
  predicate AllWritable(boxes: seq<Written>) {
    forall i :: 0 <= i < |boxes| ==> Writable(boxes[i]) && (boxes[i].form.ToTheEnd? ==> i == |boxes| - 1)
  }

  function EncodedAll(boxes: seq<Written>): seq<Byte>
    requires AllWritable(boxes)
    decreases |boxes|
  {
    if boxes == [] then [] else Encoded(boxes[0]) + EncodedAll(boxes[1..])
  }

  /** One box, as it is most often written: its size, its name and its body. */
  lemma OneWritten(name: Name, body: seq<Byte>)
    requires |name| == 4 && |body| + 8 < TWO32
    ensures AllWritable([Written(name, body, Sized)])
    ensures EncodedAll([Written(name, body, Sized)]) == Put32(8 + |body|) + name + body
  {
    var boxes := [Written(name, body, Sized)];
    assert boxes[1..] == [] && Encoded(boxes[0]) + [] == Encoded(boxes[0]);
  }

  /** The parts of one written box, where they stand. */
  lemma PartsOf(buf: seq<Byte>, i: nat, b: Written)
    requires Writable(b) && i + HeaderOf(b) + |b.body| <= |buf|
    requires buf[i..i + HeaderOf(b) + |b.body|] == Encoded(b)
    ensures buf[i + 4..i + 8] == b.name && buf[i + HeaderOf(b)..i + HeaderOf(b) + |b.body|] == b.body
    ensures U32(buf, i) == match b.form case Sized => 8 + |b.body| case Wide64 => 1 case ToTheEnd => 0
    ensures b.form.Wide64? ==> U64(buf, i + 8) == 16 + |b.body|
  {
    hide Put32, Put64, U32, U64;
    var e, h := Encoded(b), HeaderOf(b);
    var stated := match b.form case Sized => 8 + |b.body| case Wide64 => 1 case ToTheEnd => 0;
    assert e[0..4] == Put32(stated) && e[4..8] == b.name && e[h..h + |b.body|] == b.body;
    Part(buf, i, e, 0, 4);
    Part(buf, i, e, 4, 8);
    Part(buf, i, e, h, h + |b.body|);
    Reads32(buf, i, stated);
    if b.form.Wide64? {
      assert e[8..16] == Put64(16 + |b.body|);
      Part(buf, i, e, 8, 16);
      Reads64(buf, i + 8, 16 + |b.body|);
    }
  }

  /** The walk finds a written box where it stands, and comes out after it. */
  lemma FindsWritten(buf: seq<Byte>, i: nat, b: Written)
    requires Writable(b) && i + HeaderOf(b) + |b.body| <= |buf| < MAX_LEN
    requires buf[i..i + HeaderOf(b) + |b.body|] == Encoded(b)
    requires b.form.ToTheEnd? ==> i + HeaderOf(b) + |b.body| == |buf|
    ensures NextAtom(buf, i) == Found(Atom(b.name, i + HeaderOf(b), i + HeaderOf(b) + |b.body|))
  {
    PartsOf(buf, i, b);
    hide U32, U64, Encoded;
  }

  /** Where each of some boxes is found, the first of them at `i`. */
  function Placements(boxes: seq<Written>, i: nat): (atoms: seq<Atom>)
    ensures |atoms| == |boxes|
    decreases |boxes|
  {
    if boxes == [] then []
    else
      var b := boxes[0];
      [Atom(b.name, i + HeaderOf(b), i + HeaderOf(b) + |b.body|)]
      + Placements(boxes[1..], i + HeaderOf(b) + |b.body|)
  }

  /** The bodies are where the boxes are placed. */
  ghost predicate BodiesAt(buf: seq<Byte>, boxes: seq<Written>, i: nat) {
    forall k :: 0 <= k < |boxes| ==>
      var a := Placements(boxes, i)[k]; i <= a.from <= a.to <= |buf| && buf[a.from..a.to] == boxes[k].body
  }

  lemma BodiesMore(buf: seq<Byte>, boxes: seq<Written>, i: nat)
    requires boxes != []
    requires var b, next := boxes[0], i + HeaderOf(boxes[0]) + |boxes[0].body|;
             next <= |buf| && buf[i + HeaderOf(b)..next] == b.body && BodiesAt(buf, boxes[1..], next)
    ensures BodiesAt(buf, boxes, i)
  {
    var rest, next := boxes[1..], i + HeaderOf(boxes[0]) + |boxes[0].body|;
    forall k | 0 <= k < |boxes|
      ensures var a := Placements(boxes, i)[k];
              i <= a.from <= a.to <= |buf| && buf[a.from..a.to] == boxes[k].body
    {
      if k > 0 { assert rest[k - 1] == boxes[k] && Placements(rest, next)[k - 1] == Placements(boxes, i)[k]; }
    }
  }

  /** What is written first is there, and the rest after it. */
  lemma SplitWritten(buf: seq<Byte>, i: nat, boxes: seq<Written>)
    requires i <= |buf| && AllWritable(boxes) && boxes != [] && buf[i..] == EncodedAll(boxes)
    ensures var b, next := boxes[0], i + HeaderOf(boxes[0]) + |boxes[0].body|;
            && Writable(b) && AllWritable(boxes[1..]) && next <= |buf| && buf[i..next] == Encoded(b)
            && buf[next..] == EncodedAll(boxes[1..]) && (b.form.ToTheEnd? ==> next == |buf|)
  {
    hide Encoded, Writable;
    var b, rest := boxes[0], boxes[1..];
    assert Writable(b);
    var n := HeaderOf(b) + |b.body|;
    assert |buf[i..]| == n + |EncodedAll(rest)|;
    assert buf[i..i + n] == buf[i..][..n] == Encoded(b);
    assert buf[i + n..] == buf[i..][n..] == EncodedAll(rest);
    assert b.form.ToTheEnd? ==> rest == [] && EncodedAll(rest) == [];
  }

  lemma {:induction false} AtomsWritten(buf: seq<Byte>, i: nat, boxes: seq<Written>)
    requires i <= |buf| < MAX_LEN && AllWritable(boxes) && buf[i..] == EncodedAll(boxes)
    ensures Atoms(buf, i) == Placements(boxes, i) && !EndsWrapped(buf, i) && BodiesAt(buf, boxes, i)
    decreases |boxes|
  {
    hide NextAtom, Encoded, BodiesAt, AllWritable, Writable, Placements, Atoms, EndsWrapped;
    if boxes == [] {
      ShortEnd(buf, i);
      NoBodies(buf, i);
    } else {
      SplitWritten(buf, i, boxes);
      FindsWritten(buf, i, boxes[0]);
      PartsOf(buf, i, boxes[0]);
      hide EncodedAll, HeaderOf;
      AtomsWritten(buf, i + HeaderOf(boxes[0]) + |boxes[0].body|, boxes[1..]);
      BodiesMore(buf, boxes, i);
      OnePlaced(buf, i, boxes);
    }
  }

  lemma OnePlaced(buf: seq<Byte>, i: nat, boxes: seq<Written>)
    requires boxes != [] && i <= |buf| < MAX_LEN
    requires var b, next := boxes[0], i + HeaderOf(boxes[0]) + |boxes[0].body|;
             && NextAtom(buf, i) == Found(Atom(b.name, i + HeaderOf(b), next)) && next <= |buf|
             && Atoms(buf, next) == Placements(boxes[1..], next) && !EndsWrapped(buf, next)
    ensures Atoms(buf, i) == Placements(boxes, i) && !EndsWrapped(buf, i)
  {
    hide NextAtom;
  }

  lemma NoBodies(buf: seq<Byte>, i: nat)
    ensures BodiesAt(buf, [], i) && Placements([], i) == []
  {
  }

  /** The body of the first of some boxes that has a name. */
  function BodyOf(boxes: seq<Written>, want: Name): Answer
    decreases |boxes|
  {
    if boxes == [] then Missing else if boxes[0].name == want then Body(boxes[0].body) else BodyOf(boxes[1..], want)
  }

  /** Boxes written out, however each says how long it is, are read back: the body of the
      first of a name, or none. */
  lemma ReadsBack(boxes: seq<Written>, want: Name)
    requires AllWritable(boxes) && |EncodedAll(boxes)| < MAX_LEN
    ensures Sought(EncodedAll(boxes), want) == BodyOf(boxes, want)
  {
    hide EncodedAll, EndsWrapped, Atoms, BodiesAt, AllWritable;
    var buf := EncodedAll(boxes);
    assert buf[0..] == buf;
    AtomsWritten(buf, 0, boxes);
    FirstIsFirst(buf, boxes, 0, want);
  }

  lemma {:induction false} FirstIsFirst(buf: seq<Byte>, boxes: seq<Written>, i: nat, want: Name)
    requires BodiesAt(buf, boxes, i)
    ensures var f := First(Placements(boxes, i), want);
            if f.None? then BodyOf(boxes, want) == Missing
            else f.value.from <= f.value.to <= |buf| && BodyOf(boxes, want) == Body(buf[f.value.from..f.value.to])
    decreases |boxes|
  {
    if boxes == [] {
    } else {
      var b, rest, all := boxes[0], boxes[1..], Placements(boxes, i);
      var next := i + HeaderOf(b) + |b.body|;
      assert all[1..] == Placements(rest, next);
      assert all[0].name == b.name && buf[all[0].from..all[0].to] == b.body;
      if b.name != want {
        BodiesLess(buf, boxes, i);
        FirstIsFirst(buf, rest, next, want);
      }
    }
  }

  lemma BodiesLess(buf: seq<Byte>, boxes: seq<Written>, i: nat)
    requires boxes != [] && BodiesAt(buf, boxes, i)
    ensures BodiesAt(buf, boxes[1..], i + HeaderOf(boxes[0]) + |boxes[0].body|)
  {
    var rest, next := boxes[1..], i + HeaderOf(boxes[0]) + |boxes[0].body|;
    forall k | 0 <= k < |rest|
      ensures var a := Placements(rest, next)[k];
              next <= a.from <= a.to <= |buf| && buf[a.from..a.to] == rest[k].body
    {
      assert Placements(boxes, i)[k + 1] == Placements(rest, next)[k] && rest[k] == boxes[k + 1];
      After(rest, next, k);
    }
  }

  lemma {:induction false} After(boxes: seq<Written>, i: nat, k: nat)
    requires k < |boxes|
    ensures i <= Placements(boxes, i)[k].from
    decreases k
  {
    if k > 0 { After(boxes[1..], i + HeaderOf(boxes[0]) + |boxes[0].body|, k - 1); }
  }
}
