/** A picture track (internal/media/keyframes.go, trackKeyframes): from its bytes to its
    keyframe index, through the boxes its tables are in. */
module Tracks {
  import opened Bytes
  import opened Text
  import opened Boxes
  import opened Keyframes

  const MDIA: Name := [0x6D, 0x64, 0x69, 0x61]
  const MDHD: Name := [0x6D, 0x64, 0x68, 0x64]
  const MINF: Name := [0x6D, 0x69, 0x6E, 0x66]
  const STBL: Name := [0x73, 0x74, 0x62, 0x6C]
  const STTS: Name := [0x73, 0x74, 0x74, 0x73]
  const CTTS: Name := [0x63, 0x74, 0x74, 0x73]
  const STSS: Name := [0x73, 0x74, 0x73, 0x73]
  const EDTS: Name := [0x65, 0x64, 0x74, 0x73]
  const ELST: Name := [0x65, 0x6C, 0x73, 0x74]

  /** What reading a track comes to: an index, none, or a box whose size makes the walk
      panic. */
  datatype Reading = Indexed(index: Index) | NoIndex | Panicked

  /** The clock of a track: how many ticks a second has and how many the track lasts. */
  datatype Clock = Clock(timescale: nat, duration: int)

  function ClockOf(mdhd: seq<Byte>): Option<Clock> {
    if |mdhd| < 20 || (mdhd[0] == 1 && |mdhd| < 32) then None
    else
      var c := if mdhd[0] == 1 then Clock(U32(mdhd, 20), Int64(U64(mdhd, 24)))
               else Clock(U32(mdhd, 12), U32(mdhd, 16));
      if c.timescale == 0 then None else Some(c)
  }

  /** A media header has a clock exactly when it is long enough for its version and ticks. */
  lemma ClockExactly(mdhd: seq<Byte>)
    ensures ClockOf(mdhd).Some? <==>
            20 <= |mdhd| && if mdhd[0] == 1 then 32 <= |mdhd| && U32(mdhd, 20) > 0 else U32(mdhd, 12) > 0
  {
  }

  /** The body of a box when there is one. */
  function There(a: Answer): Option<seq<Byte>> { if a.Body? then Some(a.bytes) else None }

  /** The tables a sample table's boxes hold. A composition table that is cut short or not
      there is none; sample times have to be there whole, and marks to be whole. */
  datatype Held = Held(stts: Option<seq<Run>>, ctts: seq<Run>, sync: Option<seq<nat>>, whole: bool)

  function HeldIn(stts: Answer, ctts: Answer, stss: Answer): Held {
    var offsets := if ctts.Body? then RunsOf(ctts.bytes, true) else None;
    var marked := stss.Body? && |stss.bytes| >= 8;
    var whole := marked ==> 8 + U32(stss.bytes, 4) * 4 <= |stss.bytes|;
    Held(if stts.Body? then RunsOf(stts.bytes, false) else None,
         if offsets.Some? then offsets.value else [],
         if marked && whole then MarksOf(stss.bytes) else None,
         whole)
  }

  /** Where presentation begins, if a track's edit list says. */
  ghost predicate ShiftIs(elst: Answer, shift: int) {
    if elst.Body? && |elst.bytes| >= 8 then IsShift(elst.bytes, shift) else shift == 0
  }

  /** What a track's bytes say, box by box, in the order they are asked for. */
  ghost predicate Reads(trak: seq<Byte>, r: Reading)
    requires |trak| < MAX_LEN
  {
    var mdhd := SoughtAt(trak, [MDIA, MDHD]);
    if !mdhd.Body? then r == if mdhd.Panics? then Panicked else NoIndex
    else if ClockOf(mdhd.bytes).None? then r == NoIndex
    else
      var stbl := SoughtAt(trak, [MDIA, MINF, STBL]);
      if !stbl.Body? then r == if stbl.Panics? then Panicked else NoIndex
      else ReadsTables(trak, ClockOf(mdhd.bytes).value, stbl.bytes, r)
  }

  ghost predicate ReadsTables(trak: seq<Byte>, clock: Clock, stbl: seq<Byte>, r: Reading)
    requires |trak| < MAX_LEN && |stbl| < MAX_LEN && clock.timescale > 0
  {
    var stts, ctts, stss := Sought(stbl, STTS), Sought(stbl, CTTS), Sought(stbl, STSS);
    var elst := SoughtAt(trak, [EDTS, ELST]);
    var held := HeldIn(stts, ctts, stss);
    if stts.Panics? then r == Panicked
    else if held.stts.None? then r == NoIndex
    else if ctts.Panics? || stss.Panics? then r == Panicked
    else if !held.whole then r == NoIndex
    else if elst.Panics? then r == Panicked
    else exists shift ::
      ShiftIs(elst, shift)
      && r == Answered(IndexOf(Tables(held.stts.value, held.ctts, held.sync, clock.timescale, shift), clock.duration))
  }

  function Answered(index: Option<Index>): Reading {
    match index
    case None => NoIndex
    case Some(i) => Indexed(i)
  }

  /** Reads a picture track's sample tables and walks them. */
  method IndexOfTrack(trak: seq<Byte>) returns (r: Reading)
    requires |trak| < MAX_LEN
    ensures Reads(trak, r)
  {
    hide SoughtAt, Sought, IndexOf, IsShift, RunsOf, MarksOf, U32, U64, Int64;
    var mdhd := Box(trak, [MDIA, MDHD]);
    if !mdhd.Body? { return if mdhd.Panics? then Panicked else NoIndex; }
    var clock := ClockOf(mdhd.bytes);
    if clock.None? { return NoIndex; }
    var stbl := Box(trak, [MDIA, MINF, STBL]);
    if !stbl.Body? { return if stbl.Panics? then Panicked else NoIndex; }
    var stts := FindIn(stbl.bytes, STTS);
    if stts.Panics? { return Panicked; }
    if stts.Missing? { return NoIndex; }
    var times := ReadRuns(stts.bytes, false);
    if times.None? { return NoIndex; }
    var ctts := FindIn(stbl.bytes, CTTS);
    if ctts.Panics? { return Panicked; }
    var offsets: Option<seq<Run>> := None;
    if ctts.Body? { offsets := ReadRuns(ctts.bytes, true); }
    var stss := FindIn(stbl.bytes, STSS);
    if stss.Panics? { return Panicked; }
    var sync, whole := ReadMarks(There(stss));
    if !whole { return NoIndex; }
    var elst := Box(trak, [EDTS, ELST]);
    if elst.Panics? { return Panicked; }
    var shift := EditShift(There(elst));
    assert ShiftIs(elst, shift);
    var t := Tables(times.value, if offsets.Some? then offsets.value else [], sync, clock.value.timescale, shift);
    var index := TrackKeyframes(t, clock.value.duration);
    return Answered(index);
  }

  // ----- A track as it is written

  /** A track: its clock, in the wide form or the narrow one; its tables; its edits. */
  datatype Track = Track(clock: Clock, wideClock: bool, stts: seq<Run>, ctts: seq<Run>, sync: Option<seq<nat>>,
                         edits: seq<Edit>, wideEdits: bool)

  function TablesOf(k: Track): Tables {
    Tables(k.stts, k.ctts, k.sync, k.clock.timescale, Begins(k.edits))
  }

  predicate Fitting(k: Track) {
    && 0 < k.clock.timescale < TWO32 && 0 <= k.clock.duration < (if k.wideClock then TWO63 else TWO32)
    && RunsFit(k.stts, false) && RunsFit(k.ctts, true) && EditsFit(k.edits, k.wideEdits)
    && (k.sync.Some? ==> k.sync.value != [] && |k.sync.value| < TWO32
                         && forall i :: 0 <= i < |k.sync.value| ==> k.sync.value[i] < TWO32)
  }

  const PLAIN: seq<Byte> := [0, 0, 0, 0]

  /** Version and flags, the two times it was made and changed, ticks a second, length. */
  function EncodedClock(c: Clock, wide: bool): seq<Byte>
    requires 0 < c.timescale < TWO32 && 0 <= c.duration < (if wide then TWO63 else TWO32)
  {
    if wide then [1, 0, 0, 0] + Put64(0) + Put64(0) + Put32(c.timescale) + Put64(c.duration)
    else PLAIN + Put32(0) + Put32(0) + Put32(c.timescale) + Put32(c.duration) + PLAIN
  }

  /** The boxes of a sample table, in any order and with any others among them. */
  ghost predicate HoldsTables(boxes: seq<Written>, k: Track)
    requires Fitting(k)
  {
    && AllWritable(boxes)
    && BodyOf(boxes, STTS) == Body(EncodedRuns(PLAIN, k.stts, false))
    && BodyOf(boxes, CTTS) == (if k.ctts == [] then Missing else Body(EncodedRuns(PLAIN, k.ctts, true)))
    && BodyOf(boxes, STSS) == (if k.sync.None? then Missing else Body(Table(PLAIN, MarkEntries(k.sync.value))))
  }

  /** A track's boxes, its media's, their information's, its sample table's, its edits'. */
  datatype Boxing = Boxing(top: seq<Written>, media: seq<Written>, info: seq<Written>, tables: seq<Written>,
                           edits: seq<Written>)

  /** A track's bytes: boxes in boxes, in any order, each in any form, with any others among
      them. */
  ghost predicate WritesIn(trak: seq<Byte>, k: Track, x: Boxing)
    requires Fitting(k)
  {
    && AllWritable(x.top) && AllWritable(x.media) && AllWritable(x.info) && AllWritable(x.edits)
    && HoldsTables(x.tables, k) && trak == EncodedAll(x.top)
    && BodyOf(x.top, MDIA) == Body(EncodedAll(x.media))
    && BodyOf(x.media, MDHD) == Body(EncodedClock(k.clock, k.wideClock))
    && BodyOf(x.media, MINF) == Body(EncodedAll(x.info))
    && BodyOf(x.info, STBL) == Body(EncodedAll(x.tables))
    && (if k.edits == [] then BodyOf(x.top, EDTS) == Missing
        else BodyOf(x.top, EDTS) == Body(EncodedAll(x.edits))
             && BodyOf(x.edits, ELST) == Body(EncodedEdits(k.edits, k.wideEdits)))
  }

  ghost predicate Writes(trak: seq<Byte>, k: Track)
    requires Fitting(k)
  {
    exists x :: WritesIn(trak, k, x)
  }

  lemma ClockReadsBack(c: Clock, wide: bool)
    requires 0 < c.timescale < TWO32 && 0 <= c.duration < (if wide then TWO63 else TWO32)
    ensures ClockOf(EncodedClock(c, wide)) == Some(c)
  {
    hide U32, U64, Put32, Put64;
    var b := EncodedClock(c, wide);
    if wide {
      assert b[20..24] == Put32(c.timescale) && b[24..32] == Put64(c.duration);
      Reads32(b, 20, c.timescale);
      Reads64(b, 24, c.duration);
    } else {
      assert b[12..16] == Put32(c.timescale) && b[16..20] == Put32(c.duration);
      Reads32(b, 12, c.timescale);
      Reads32(b, 16, c.duration);
    }
  }

  /** A box in boxes. */
  lemma BoxInBox(boxes: seq<Written>, name: Name, path: seq<Name>)
    requires AllWritable(boxes) && |EncodedAll(boxes)| < MAX_LEN
    ensures var inner, found := BodyOf(boxes, name), SoughtAt(EncodedAll(boxes), [name] + path);
            if inner.Body? then |inner.bytes| < MAX_LEN && found == SoughtAt(inner.bytes, path) else found == inner
  {
    hide Sought;
    ReadsBack(boxes, name);
    assert ([name] + path)[0] == name && ([name] + path)[1..] == path;
  }

  lemma TablesReadBack(tables: seq<Written>, k: Track)
    requires Fitting(k) && HoldsTables(tables, k) && |EncodedAll(tables)| < MAX_LEN
    ensures var stbl := EncodedAll(tables);
            HeldIn(Sought(stbl, STTS), Sought(stbl, CTTS), Sought(stbl, STSS))
            == Held(Some(k.stts), k.ctts, k.sync, true)
    ensures !Sought(EncodedAll(tables), STTS).Panics? && !Sought(EncodedAll(tables), CTTS).Panics?
            && !Sought(EncodedAll(tables), STSS).Panics?
  {
    hide Sought, RunsOf, MarksOf, EncodedRuns, Table, MarkEntries, U32;
    ReadsBack(tables, STTS);
    ReadsBack(tables, CTTS);
    ReadsBack(tables, STSS);
    RunsReadBack(PLAIN, k.stts, false, []);
    RunsReadBack(PLAIN, k.ctts, true, []);
    var stts, ctts := EncodedRuns(PLAIN, k.stts, false), EncodedRuns(PLAIN, k.ctts, true);
    assert stts + [] == stts && ctts + [] == ctts;
    if k.sync.Some? {
      MarksReadBack(PLAIN, k.sync.value, []);
      var stss := Table(PLAIN, MarkEntries(k.sync.value));
      assert stss + [] == stss;
    }
  }

  /** The two paths to a track's clock and its tables. */
  lemma PathsReadBack(trak: seq<Byte>, k: Track, x: Boxing)
    requires |trak| < MAX_LEN && Fitting(k) && WritesIn(trak, k, x)
    ensures SoughtAt(trak, [MDIA, MDHD]) == Body(EncodedClock(k.clock, k.wideClock))
    ensures SoughtAt(trak, [MDIA, MINF, STBL]) == Body(EncodedAll(x.tables))
    ensures |EncodedAll(x.tables)| < MAX_LEN
  {
    hide Sought, SoughtAt, EncodedAll, AllWritable, EncodedClock, EncodedEdits, EncodedRuns, RunsFit, EditsFit;
    assert [MDIA, MDHD] == [MDIA] + [MDHD] && [MDHD] == [MDHD] + [];
    assert [MDIA, MINF, STBL] == [MDIA] + [MINF, STBL] && [MINF, STBL] == [MINF] + [STBL] && [STBL] == [STBL] + [];
    BoxInBox(x.top, MDIA, [MDHD]);
    BoxInBox(x.top, MDIA, [MINF, STBL]);
    BoxInBox(x.media, MDHD, []);
    BoxInBox(x.media, MINF, [STBL]);
    BoxInBox(x.info, STBL, []);
    NoPath(EncodedClock(k.clock, k.wideClock));
    NoPath(EncodedAll(x.tables));
  }

  lemma NoPath(b: seq<Byte>)
    requires |b| < MAX_LEN
    ensures SoughtAt(b, []) == Body(b)
  {
  }

  lemma EditsFound(trak: seq<Byte>, k: Track, x: Boxing)
    requires |trak| < MAX_LEN && Fitting(k) && WritesIn(trak, k, x)
    ensures var elst := SoughtAt(trak, [EDTS, ELST]);
            !elst.Panics? && forall shift :: ShiftIs(elst, shift) <==> shift == Begins(k.edits)
  {
    hide Sought, SoughtAt, EncodedAll, AllWritable, EncodedEdits, IsShift, EncodedClock, EncodedRuns, RunsFit;
    assert [EDTS, ELST] == [EDTS] + [ELST] && [ELST] == [ELST] + [];
    BoxInBox(x.top, EDTS, [ELST]);
    if k.edits != [] {
      BoxInBox(x.edits, ELST, []);
      var list := EncodedEdits(k.edits, k.wideEdits);
      NoPath(list);
      assert list + [] == list;
      EditsReadBack(k.edits, k.wideEdits, [], 0);
      forall shift ensures IsShift(list, shift) <==> shift == Begins(k.edits) {
        EditsReadBack(k.edits, k.wideEdits, [], shift);
      }
    }
  }

  /** What the walk reads once each of its boxes is known. */
  lemma ReadsAs(trak: seq<Byte>, k: Track, mdhd: seq<Byte>, stbl: seq<Byte>, r: Reading)
    requires |trak| < MAX_LEN && |stbl| < MAX_LEN && k.clock.timescale > 0
    requires SoughtAt(trak, [MDIA, MDHD]) == Body(mdhd) && ClockOf(mdhd) == Some(k.clock)
    requires SoughtAt(trak, [MDIA, MINF, STBL]) == Body(stbl)
    requires !Sought(stbl, STTS).Panics? && !Sought(stbl, CTTS).Panics? && !Sought(stbl, STSS).Panics?
    requires HeldIn(Sought(stbl, STTS), Sought(stbl, CTTS), Sought(stbl, STSS))
             == Held(Some(k.stts), k.ctts, k.sync, true)
    requires !SoughtAt(trak, [EDTS, ELST]).Panics?
    requires forall shift :: ShiftIs(SoughtAt(trak, [EDTS, ELST]), shift) <==> shift == Begins(k.edits)
    ensures Reads(trak, r) <==> r == Answered(IndexOf(TablesOf(k), k.clock.duration))
  {
    hide *;
    TablesAs(trak, k, stbl, r);
    Unfolds(trak, r);
  }

  lemma Unfolds(trak: seq<Byte>, r: Reading)
    requires |trak| < MAX_LEN
    requires SoughtAt(trak, [MDIA, MDHD]).Body? && ClockOf(SoughtAt(trak, [MDIA, MDHD]).bytes).Some?
    requires SoughtAt(trak, [MDIA, MINF, STBL]).Body? && |SoughtAt(trak, [MDIA, MINF, STBL]).bytes| < MAX_LEN
    requires ClockOf(SoughtAt(trak, [MDIA, MDHD]).bytes).value.timescale > 0
    ensures Reads(trak, r) <==>
            ReadsTables(trak, ClockOf(SoughtAt(trak, [MDIA, MDHD]).bytes).value,
                        SoughtAt(trak, [MDIA, MINF, STBL]).bytes, r)
  {
    hide SoughtAt, ClockOf, ReadsTables;
  }

  lemma TablesAs(trak: seq<Byte>, k: Track, stbl: seq<Byte>, r: Reading)
    requires |trak| < MAX_LEN && |stbl| < MAX_LEN && k.clock.timescale > 0
    requires !Sought(stbl, STTS).Panics? && !Sought(stbl, CTTS).Panics? && !Sought(stbl, STSS).Panics?
    requires HeldIn(Sought(stbl, STTS), Sought(stbl, CTTS), Sought(stbl, STSS))
             == Held(Some(k.stts), k.ctts, k.sync, true)
    requires !SoughtAt(trak, [EDTS, ELST]).Panics?
    requires forall shift :: ShiftIs(SoughtAt(trak, [EDTS, ELST]), shift) <==> shift == Begins(k.edits)
    ensures ReadsTables(trak, k.clock, stbl, r) <==> r == Answered(IndexOf(TablesOf(k), k.clock.duration))
  {
    hide Sought, SoughtAt, HeldIn, IndexOf, ClockOf, ShiftIs, Begins;
  }

  /** A track written out, its boxes in any order and form, is read as the index of its
      tables. */
  lemma TrackReadsBack(trak: seq<Byte>, k: Track, r: Reading)
    requires |trak| < MAX_LEN && Fitting(k) && Writes(trak, k)
    ensures Reads(trak, r) <==> r == Answered(IndexOf(TablesOf(k), k.clock.duration))
  {
    hide *;
    var x := Boxed(trak, k);
    PathsReadBack(trak, k, x);
    TablesWritten(trak, k, x);
    TablesReadBack(x.tables, k);
    EditsFound(trak, k, x);
    ClockWritten(k);
    ReadsAs(trak, k, EncodedClock(k.clock, k.wideClock), EncodedAll(x.tables), r);
  }

  lemma Boxed(trak: seq<Byte>, k: Track) returns (x: Boxing)
    requires Fitting(k) && Writes(trak, k)
    ensures WritesIn(trak, k, x)
  {
    x :| WritesIn(trak, k, x);
  }

  lemma TablesWritten(trak: seq<Byte>, k: Track, x: Boxing)
    requires Fitting(k) && WritesIn(trak, k, x)
    ensures HoldsTables(x.tables, k) && AllWritable(x.tables)
  {
  }

  lemma ClockWritten(k: Track)
    requires Fitting(k)
    ensures 0 < k.clock.timescale < TWO32 && 0 <= k.clock.duration < (if k.wideClock then TWO63 else TWO32)
    ensures ClockOf(EncodedClock(k.clock, k.wideClock)) == Some(k.clock)
  {
    ClockReadsBack(k.clock, k.wideClock);
  }
}
