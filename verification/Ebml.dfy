/** EBML, the encoding under Matroska (section 4 of RFC 8794), as internal/media/mkv.go
    walks it: variable-length integers, and elements one after another. */
module Ebml {
  import opened Bytes

  /** How many bytes an integer that begins with `first` takes: where its first set bit
      falls, or 9 when none is set. */
  function Width(first: Byte): (w: nat)
    ensures 1 <= w <= 9
    ensures w <= 8 <==> first > 0
    ensures w <= 8 ==> Marker(w) <= first < 2 * Marker(w)
  {
    if first >= 0x80 then 1 else if first >= 0x40 then 2 else if first >= 0x20 then 3 else if first >= 0x10 then 4
    else if first >= 0x08 then 5 else if first >= 0x04 then 6 else if first >= 0x02 then 7
    else if first >= 0x01 then 8 else 9
  }

  /** The marker bit of an integer of a width. */
  function Marker(width: nat): (m: nat)
    requires 1 <= width <= 8
    ensures 1 <= m <= 0x80
  {
    if width == 1 then 0x80 else if width == 2 then 0x40 else if width == 3 then 0x20 else if width == 4 then 0x10
    else if width == 5 then 0x08 else if width == 6 then 0x04 else if width == 7 then 0x02 else 0x01
  }

  datatype Vint = NoVint | Vint(value: int, width: nat)

  /** What a marker and what follows it come to: an identifier keeps its marker and a
      length drops it, and a length whose bits are all set means unknown. */
  function Valued(first: Byte, rest: seq<Byte>, keepMarker: bool): int
    requires first > 0
  {
    var marker := Marker(Width(first));
    if !keepMarker && first % marker == marker - 1 && AllOnes(rest) then -1
    else Follow(if keepMarker then first else first % marker, rest)
  }

  /** A variable-length integer at the head of a buffer. */
  function ReadVint(buf: seq<Byte>, keepMarker: bool): (v: Vint)
    ensures v.Vint? ==> 1 <= v.width <= 8 && v.width <= |buf| && v.value >= -1
    ensures v.Vint? && keepMarker ==> v.value >= 0
  {
    if buf == [] || buf[0] == 0 || |buf| < Width(buf[0]) then NoVint
    else
      var width := Width(buf[0]);
      Vint(Valued(buf[0], buf[1..width], keepMarker), width)
  }

  // ----- Both readers

  /** The scan both readers begin with. */
  method ScanWidth(first: Byte) returns (width: nat, mask: nat)
    ensures width == Width(first)
    ensures width <= 8 ==> mask == Marker(width)
  {
    width, mask := 1, 0x80;
    while width <= 8 && first / mask % 2 == 0
      invariant 1 <= width <= 9 && (width <= 8 ==> mask == Marker(width)) && (width == 9 ==> mask == 0)
      invariant width <= 8 ==> first < 2 * mask
      invariant width == 9 ==> first == 0
      decreases 9 - width
    {
      assert first < mask;
      mask := mask / 2;
      width := width + 1;
    }
    if width <= 8 { assert first >= mask; }
  }

  method ReadVintLoop(buf: seq<Byte>, keepMarker: bool) returns (v: Vint)
    ensures v == ReadVint(buf, keepMarker)
  {
    if |buf| == 0 { return NoVint; }
    var width, mask := ScanWidth(buf[0]);
    if width > 8 || |buf| < width { return NoVint; }
    var value := Accumulate(buf[0], mask, buf[1..width], keepMarker);
    return Vint(value, width);
  }

  /** The bytes after the first, shifted in one by one. */
  method Accumulate(first: Byte, mask: nat, rest: seq<Byte>, keepMarker: bool) returns (value: int)
    requires first > 0 && mask == Marker(Width(first))
    ensures value == Valued(first, rest, keepMarker)
  {
    var sofar: nat := if keepMarker then first else first % mask;
    var allOnes := !keepMarker && first % mask == mask - 1;
    var i := 0;
    while i < |rest|
      invariant i <= |rest|
      invariant Follow(if keepMarker then first else first % mask, rest) == Follow(sofar, rest[i..])
      invariant allOnes == (!keepMarker && first % mask == mask - 1 && AllOnes(rest[..i]))
    {
      assert rest[i..][1..] == rest[i + 1..];
      assert AllOnes(rest[..i + 1]) == (AllOnes(rest[..i]) && rest[i] == 0xFF) by { OnesMore(rest, i); }
      sofar := sofar * 0x100 + rest[i];
      allOnes := allOnes && rest[i] == 0xFF;
      i := i + 1;
    }
    assert rest[..i] == rest && rest[i..] == [];
    if allOnes { return -1; }
    return sofar;
  }

  lemma OnesMore(rest: seq<Byte>, i: nat)
    requires i < |rest|
    ensures AllOnes(rest[..i + 1]) == (AllOnes(rest[..i]) && rest[i] == 0xFF)
  {
    var more, fewer := rest[..i + 1], rest[..i];
    assert more == fewer + [rest[i]];
    if AllOnes(more) {
      assert more[i] == rest[i];
      forall j | 0 <= j < i ensures fewer[j] == 0xFF { assert more[j] == fewer[j]; }
    }
  }

  /** A reader at a place in its bytes. */
  class Source {
    const data: seq<Byte>
    var at: nat

    constructor (data: seq<Byte>)
      ensures this.data == data && at == 0
    {
      this.data, at := data, 0;
    }

    /** All of `n` bytes, or not: what there was is gone either way. */
    method ReadFull(n: nat) returns (got: seq<Byte>, ok: bool)
      requires at <= |data|
      modifies this
      ensures ok <==> old(at) + n <= |data|
      ensures ok ==> got == data[old(at)..old(at) + n] && at == old(at) + n
      ensures old(at) <= at <= |data|
    {
      ok := at + n <= |data|;
      var end := if ok then at + n else |data|;
      got := data[at..end];
      at := end;
    }

    /** The same integer from a reader, by the same bytes: the two agree on every input,
        on the value and on how much of it was used. */
    method ReadInt(keepMarker: bool) returns (value: int, ok: bool)
      requires at <= |data|
      modifies this
      ensures var v := ReadVint(data[old(at)..], keepMarker);
              && (ok <==> v.Vint?)
              && (ok ==> value == v.value && at == old(at) + v.width)
      ensures old(at) <= at <= |data|
    {
      var first;
      value := 0;
      ghost var all := data[at..];
      first, ok := ReadFull(1);
      if !ok { return; }
      assert first[0] == all[0];
      var width, mask := ScanWidth(first[0]);
      if width > 8 { return 0, false; }
      var rest;
      rest, ok := ReadFull(width - 1);
      if !ok { return; }
      assert rest == all[1..width];
      value := Accumulate(first[0], mask, rest, keepMarker);
    }

    /** An element's header: its identifier and how much data follows. An unknown
        length stops the reader. */
    method ReadHeader() returns (id: nat, length: nat, ok: bool)
      requires at <= |data|
      modifies this
      ensures var v := ReadVint(data[old(at)..], true);
              var n := if v.Vint? then ReadVint(data[old(at) + v.width..], false) else NoVint;
              && (ok <==> n.Vint? && n.value >= 0)
              && (ok ==> id == v.value % TWO32 && length == n.value && at == old(at) + v.width + n.width)
      ensures old(at) <= at <= |data|
    {
      hide ReadVint;
      id, length := 0, 0;
      var read: int;
      read, ok := ReadInt(true);
      if !ok { return; }
      id := read % TWO32;
      read, ok := ReadInt(false);
      if !ok { return; }
      if read < 0 { return id, 0, false; }
      length := read;
    }
  }

  // ----- Elements

  /** An element: its identifier and where its data is. */
  datatype Element = Element(id: nat, from: nat, to: nat)

  /** The element whose header begins at `i`, if it is all there. */
  datatype Next = Stop | Next(element: Element)

  function NextElement(buf: seq<Byte>, i: nat): (n: Next)
    requires i <= |buf|
    ensures n.Next? ==> i < n.element.from <= n.element.to <= |buf|
  {
    var id := ReadVint(buf[i..], true);
    if id.NoVint? then Stop
    else
      var length := ReadVint(buf[i + id.width..], false);
      if length.NoVint? || length.value < 0 then Stop
      else
        var from := i + id.width + length.width;
        if from + length.value > |buf| then Stop
        else Next(Element(id.value % TWO32, from, from + length.value))
  }

  /** The elements of a buffer from `i` on, to the first that is not whole. */
  function Elements(buf: seq<Byte>, i: nat): seq<Element>
    requires i <= |buf|
    decreases |buf| - i
  {
    match NextElement(buf, i)
    case Stop => []
    case Next(e) => [e] + Elements(buf, e.to)
  }

  method WalkElements(buf: seq<Byte>) returns (found: seq<Element>)
    ensures found == Elements(buf, 0)
  {
    hide ReadVint, Elements;
    found := [];
    var i := 0;
    while i < |buf|
      invariant i <= |buf| && Elements(buf, 0) == found + Elements(buf, i)
      decreases |buf| - i
    {
      ElementsStep(buf, i, found);
      var id := ReadVintLoop(buf[i..], true);
      if id.NoVint? { return; }
      var length := ReadVintLoop(buf[i + id.width..], false);
      if length.NoVint? || length.value < 0 { return; }
      var from := i + id.width + length.width;
      if from + length.value > |buf| { return; }
      found := found + [Element(id.value % TWO32, from, from + length.value)];
      i := from + length.value;
    }
    NothingThere(buf);
    assert found + [] == found;
  }

  lemma ElementsStep(buf: seq<Byte>, i: nat, found: seq<Element>)
    requires i <= |buf|
    ensures var n := NextElement(buf, i);
            && (n.Stop? ==> found + Elements(buf, i) == found)
            && (n.Next? ==> found + Elements(buf, i) == (found + [n.element]) + Elements(buf, n.element.to))
  {
    hide NextElement;
    var n := NextElement(buf, i);
    if n.Next? {
      assert found + ([n.element] + Elements(buf, n.element.to)) == (found + [n.element]) + Elements(buf, n.element.to);
    }
  }

  /** On any bytes, what is found is in order, within bounds, and no two overlap. */
  lemma {:induction false} ElementsInOrder(buf: seq<Byte>, i: nat)
    requires i <= |buf|
    ensures var es := Elements(buf, i);
            && (forall k :: 0 <= k < |es| ==> i <= es[k].from <= es[k].to <= |buf|)
            && (forall j, k :: 0 <= j < k < |es| ==> es[j].to < es[k].from)
    decreases |buf| - i
  {
    var n := NextElement(buf, i);
    if n.Next? {
      ElementsInOrder(buf, n.element.to);
      var rest := Elements(buf, n.element.to);
      var es := Elements(buf, i);
      assert es == [n.element] + rest;
      if rest != [] { FirstAfter(buf, n.element.to); }
    }
  }

  lemma FirstAfter(buf: seq<Byte>, i: nat)
    requires i <= |buf| && Elements(buf, i) != []
    ensures i < Elements(buf, i)[0].from
  {
  }

  // ----- Written and read back

  function Pow256(n: nat): (p: nat)
    ensures p >= 1
  {
    if n == 0 then 1 else 0x100 * Pow256(n - 1)
  }

  function BigEndian(v: nat, n: nat): (b: seq<Byte>)
    ensures |b| == n
  {
    if n == 0 then [] else BigEndian(v / 0x100, n - 1) + [v % 0x100]
  }

  /** How many values an integer of a width can have: seven bits a byte. */
  function Room(width: nat): nat
    requires 1 <= width <= 8
  {
    Marker(width) * Pow256(width - 1)
  }

  function EncodeVint(v: nat, width: nat): (b: seq<Byte>)
    requires 1 <= width <= 8 && v < Room(width)
    ensures |b| == width
  {
    var p := Pow256(width - 1);
    Divided(v, p, Marker(width));
    [Marker(width) + v / p] + BigEndian(v % p, width - 1)
  }

  lemma Divided(v: nat, p: nat, m: nat)
    requires p > 0 && v < m * p
    ensures 0 <= v / p < m && v == (v / p) * p + v % p
  {
    if v / p >= m { TimesMonotone(m, v / p, p); }
  }

  lemma TimesMonotone(a: int, b: int, p: nat)
    requires a <= b
    ensures a * p <= b * p
  {
  }

  lemma {:induction false} FollowSplit(value: nat, a: seq<Byte>, c: Byte)
    ensures Follow(value, a + [c]) == Follow(value, a) * 0x100 + c
    decreases |a|
  {
    if a == [] {
      assert a + [c] == [c];
    } else {
      assert (a + [c])[1..] == a[1..] + [c];
      FollowSplit(value * 0x100 + a[0], a[1..], c);
    }
  }

  lemma {:induction false} FollowBigEndian(value: nat, v: nat, n: nat)
    requires v < Pow256(n)
    ensures Follow(value, BigEndian(v, n)) == value * Pow256(n) + v
  {
    if n == 0 {
    } else {
      FollowBigEndian(value, v / 0x100, n - 1);
      FollowSplit(value, BigEndian(v / 0x100, n - 1), v % 0x100);
      Regroup(value, Pow256(n - 1));
    }
  }

  lemma Regroup(value: nat, p: nat)
    ensures value * p * 0x100 == value * (0x100 * p)
  {
  }

  lemma {:induction false} OnesExactly(v: nat, n: nat)
    requires v < Pow256(n)
    ensures AllOnes(BigEndian(v, n)) <==> v == Pow256(n) - 1
  {
    if n == 0 {
    } else {
      OnesExactly(v / 0x100, n - 1);
      OnesMore(BigEndian(v, n), n - 1);
      assert BigEndian(v, n)[..n - 1] == BigEndian(v / 0x100, n - 1);
      assert BigEndian(v, n)[..n] == BigEndian(v, n);
    }
  }

  lemma Remainder(q: nat, m: nat)
    requires q < m
    ensures (m + q) % m == q
  {
  }

  lemma LastIsOnes(v: nat, p: nat, m: nat)
    requires p > 0 && v < m * p
    ensures v == m * p - 1 <==> v / p == m - 1 && v % p == p - 1
  {
    Divided(v, p, m);
    Spread(m, p);
    if v == m * p - 1 {
      assert (m - 1) * p <= v < m * p;
      QuotientIs(v, p, m - 1);
    }
  }

  lemma Spread(m: nat, p: nat)
    ensures (m - 1) * p == m * p - p
  {
  }

  lemma QuotientIs(v: nat, p: nat, q: int)
    requires p > 0 && q * p <= v < q * p + p
    ensures v / p == q && v % p == v - q * p
  {
    var d := v / p;
    assert v == d * p + v % p;
    if d < q { TimesMonotone(d + 1, q, p); }
    if d > q { TimesMonotone(q + 1, d, p); }
  }

  /** An integer is read back, whatever follows it and however wide it was written: an
      identifier with its marker, a length without -- unless it is the one value of
      its width that is kept for unknown. */
  lemma ReadsVint(v: nat, width: nat, rest: seq<Byte>, keepMarker: bool)
    requires 1 <= width <= 8 && v < Room(width)
    ensures ReadVint(EncodeVint(v, width) + rest, keepMarker) ==
            Vint(if keepMarker then Room(width) + v else if v == Room(width) - 1 then -1 else v, width)
  {
    var m, p := Marker(width), Pow256(width - 1);
    var q, low := v / p, v % p;
    Divided(v, p, m);
    var tail := BigEndian(low, width - 1);
    WidthOfMarker(width, q);
    ValuedIs(v, width, keepMarker);
    hide Valued, BigEndian, Pow256, Width, Marker;
    var buf := EncodeVint(v, width) + rest;
    assert EncodeVint(v, width) == [m + q] + tail;
    assert buf[0] == m + q;
    assert buf[1..width] == tail;
  }

  lemma KeptMarker(width: nat, q: nat, low: nat)
    requires 1 <= width <= 8 && q < Marker(width) && low < Pow256(width - 1)
    ensures Valued(Marker(width) + q, BigEndian(low, width - 1), true) == Room(width) + (q * Pow256(width - 1) + low)
  {
    WidthOfMarker(width, q);
    hide BigEndian, Pow256, Width, Marker, AllOnes;
    FollowBigEndian(Marker(width) + q, low, width - 1);
    Together(Marker(width), q, Pow256(width - 1));
  }

  lemma DroppedMarker(width: nat, q: nat, low: nat)
    requires 1 <= width <= 8 && q < Marker(width) && low < Pow256(width - 1)
    ensures Valued(Marker(width) + q, BigEndian(low, width - 1), false) ==
            if q == Marker(width) - 1 && low == Pow256(width - 1) - 1 then -1 else q * Pow256(width - 1) + low
  {
    WidthOfMarker(width, q);
    Remainder(q, Marker(width));
    OnesExactly(low, width - 1);
    hide BigEndian, Pow256, Width, Marker, AllOnes;
    FollowBigEndian(q, low, width - 1);
  }

  /** What the first byte of an integer and the rest of it come to. */
  lemma ValuedIs(v: nat, width: nat, keepMarker: bool)
    requires 1 <= width <= 8 && v < Room(width)
    requires 0 <= v / Pow256(width - 1) < Marker(width)
    ensures Valued(Marker(width) + v / Pow256(width - 1), BigEndian(v % Pow256(width - 1), width - 1), keepMarker) ==
            if keepMarker then Room(width) + v else if v == Room(width) - 1 then -1 else v
  {
    var p := Pow256(width - 1);
    hide BigEndian, Pow256, Width, Marker, AllOnes, Valued;
    Divided(v, p, Marker(width));
    LastIsOnes(v, p, Marker(width));
    KeptMarker(width, v / p, v % p);
    DroppedMarker(width, v / p, v % p);
  }

  lemma Together(m: nat, q: nat, p: nat)
    ensures (m + q) * p == m * p + q * p
  {
  }

  lemma WidthOfMarker(width: nat, q: nat)
    requires 1 <= width <= 8 && q < Marker(width)
    ensures Width(Marker(width) + q) == width
  {
  }

  /** An element to write: its identifier's bits and width, the width its length is
      written in, and its data. */
  datatype Item = Item(idBits: nat, idWidth: nat, sizeWidth: nat, data: seq<Byte>)

  /** An identifier is four bytes at most, and a length is not the value that means
      unknown. */
  predicate Writable(x: Item) {
    && 1 <= x.idWidth <= 4 && 1 <= x.sizeWidth <= 8
    && x.idBits < Room(x.idWidth) && |x.data| < Room(x.sizeWidth) - 1
  }

  function Encode(x: Item): seq<Byte>
    requires Writable(x)
  {
    EncodeVint(x.idBits, x.idWidth) + EncodeVint(|x.data|, x.sizeWidth) + x.data
  }

  function EncodeAll(items: seq<Item>): seq<Byte>
    requires forall x :: x in items ==> Writable(x)
  {
    if items == [] then [] else Encode(items[0]) + EncodeAll(items[1..])
  }

  function IdOf(x: Item): nat
    requires Writable(x)
  {
    Room(x.idWidth) + x.idBits
  }

  lemma IdsFit(x: Item)
    requires Writable(x)
    ensures IdOf(x) < TWO32
  {
    assert Pow256(0) == 1 && Pow256(1) == 0x100 && Pow256(2) == 0x1_0000 && Pow256(3) == 0x100_0000;
  }

  /** The element at `i` is the item written there. */
  lemma ReadsItem(before: seq<Byte>, x: Item, after: seq<Byte>)
    requires Writable(x)
    ensures var buf, i := before + (Encode(x) + after), |before|;
            var from := i + x.idWidth + x.sizeWidth;
            NextElement(buf, i) == Next(Element(IdOf(x), from, from + |x.data|))
            && buf[from..from + |x.data|] == x.data && from + |x.data| == |before + Encode(x)|
  {
    hide ReadVint, EncodeVint, Room;
    var buf, i := before + (Encode(x) + after), |before|;
    var id, size := EncodeVint(x.idBits, x.idWidth), EncodeVint(|x.data|, x.sizeWidth);
    Pieces(before, id, size, x.data, after);
    ReadsVint(x.idBits, x.idWidth, size + x.data + after, true);
    ReadsVint(|x.data|, x.sizeWidth, x.data + after, false);
    IdsFit(x);
  }

  lemma Pieces(before: seq<Byte>, id: seq<Byte>, size: seq<Byte>, data: seq<Byte>, after: seq<Byte>)
    ensures var buf, i := before + (id + size + data + after), |before|;
            && buf[i..] == id + (size + data + after)
            && buf[i + |id|..] == size + (data + after)
            && buf[i + |id| + |size|..i + |id| + |size| + |data|] == data
  {
    var buf, i := before + (id + size + data + after), |before|;
    assert buf[i..] == id + size + data + after == id + (size + data + after);
    assert buf[i + |id|..] == size + data + after == size + (data + after);
  }

  /** What a walk found, as identifiers and data. */
  function Read(buf: seq<Byte>, found: seq<Element>): seq<(nat, seq<Byte>)>
    requires forall e :: e in found ==> e.from <= e.to <= |buf|
  {
    if found == [] then [] else [(found[0].id, buf[found[0].from..found[0].to])] + Read(buf, found[1..])
  }

  function Contents(items: seq<Item>): seq<(nat, seq<Byte>)>
    requires forall x :: x in items ==> Writable(x)
  {
    if items == [] then [] else [(IdOf(items[0]), items[0].data)] + Contents(items[1..])
  }

  lemma InBounds(buf: seq<Byte>, i: nat)
    requires i <= |buf|
    ensures forall e :: e in Elements(buf, i) ==> e.from <= e.to <= |buf|
  {
    ElementsInOrder(buf, i);
  }

  lemma {:induction false} ReadsAllFrom(before: seq<Byte>, items: seq<Item>)
    requires forall x :: x in items ==> Writable(x)
    ensures var buf := before + EncodeAll(items);
            (forall e :: e in Elements(buf, |before|) ==> e.from <= e.to <= |buf|)
            && Read(buf, Elements(buf, |before|)) == Contents(items)
    decreases |items|
  {
    hide NextElement, Encode, IdOf, Writable, Elements;
    var buf := before + EncodeAll(items);
    InBounds(buf, |before|);
    if items == [] {
      NothingThere(buf);
    } else {
      ReadsItem(before, items[0], EncodeAll(items[1..]));
      var next := before + Encode(items[0]);
      assert next + EncodeAll(items[1..]) == buf;
      ReadsAllFrom(next, items[1..]);
      ElementsFrom(buf, |before|);
    }
  }

  lemma ElementsFrom(buf: seq<Byte>, i: nat)
    requires i <= |buf| && NextElement(buf, i).Next?
    ensures var e := NextElement(buf, i).element;
            Elements(buf, i) != [] && Elements(buf, i)[0] == e && Elements(buf, i)[1..] == Elements(buf, e.to)
  {
    hide NextElement;
  }

  lemma NothingThere(buf: seq<Byte>)
    ensures Elements(buf, |buf|) == []
  {
    assert buf[|buf|..] == [];
  }

  /** Walking the encoding of any list of elements gives back the list. */
  lemma ReadsBack(items: seq<Item>)
    requires forall x :: x in items ==> Writable(x)
    ensures forall e :: e in Elements(EncodeAll(items), 0) ==> e.from <= e.to <= |EncodeAll(items)|
    ensures Read(EncodeAll(items), Elements(EncodeAll(items), 0)) == Contents(items)
  {
    ReadsAllFrom([], items);
    assert [] + EncodeAll(items) == EncodeAll(items);
  }
}
