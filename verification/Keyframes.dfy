/** Where a film's keyframes are (internal/media/keyframes.go): run-length tables of
    samples, walked side by side without writing any of them out. */
module Keyframes {
  import opened Bytes
  import opened Text

  const SECOND := 1_000_000_000

  /** So many samples, each this long or offset by this much. */
  datatype Run = Run(count: nat, value: int)

  // ----- The tables written out

  /** Every sample's value, one by one. */
  function Flat(runs: seq<Run>): seq<int> {
    if runs == [] then [] else seq(runs[0].count, _ => runs[0].value) + Flat(runs[1..])
  }

  /** How many samples the first `n` runs are. */
  function Total(runs: seq<Run>, n: nat): nat
    requires n <= |runs|
  {
    if n == 0 then 0 else Total(runs, n - 1) + runs[n - 1].count
  }

  lemma {:induction false} FlatJoined(a: seq<Run>, b: seq<Run>)
    ensures Flat(a + b) == Flat(a) + Flat(b)
  {
    if a == [] {
      assert a + b == b;
    } else {
      assert (a + b)[1..] == a[1..] + b;
      FlatJoined(a[1..], b);
      var front := seq(a[0].count, _ => a[0].value);
      assert front + (Flat(a[1..]) + Flat(b)) == (front + Flat(a[1..])) + Flat(b);
    }
  }

  lemma {:induction false} FlatTotal(runs: seq<Run>, n: nat)
    requires n <= |runs|
    ensures |Flat(runs[..n])| == Total(runs, n)
    decreases n
  {
    if n == 0 {
    } else {
      FlatTotal(runs, n - 1);
      assert runs[..n] == runs[..n - 1] + [runs[n - 1]];
      FlatJoined(runs[..n - 1], [runs[n - 1]]);
      OneRun(runs[n - 1]);
    }
  }

  lemma OneRun(r: Run)
    ensures Flat([r]) == seq(r.count, _ => r.value)
  {
    assert [r][1..] == [];
    assert seq(r.count, _ => r.value) + [] == seq(r.count, _ => r.value);
  }

  /** The sample `j` into a run. */
  lemma FlatAt(runs: seq<Run>, n: nat, j: nat)
    requires n < |runs| && j < runs[n].count
    ensures Total(runs, n) + j < Total(runs, n + 1) <= |Flat(runs)| && Flat(runs)[Total(runs, n) + j] == runs[n].value
  {
    var before, after := runs[..n], runs[n + 1..];
    assert runs == before + ([runs[n]] + after);
    FlatJoined(before, [runs[n]] + after);
    FlatJoined([runs[n]], after);
    FlatTotal(runs, n);
    OneRun(runs[n]);
  }

  lemma FlatWhole(runs: seq<Run>)
    ensures |Flat(runs)| == Total(runs, |runs|)
  {
    FlatTotal(runs, |runs|);
    assert runs[..|runs|] == runs;
  }

  lemma {:induction false} TotalGrows(runs: seq<Run>, m: nat, n: nat)
    requires m <= n <= |runs|
    ensures Total(runs, m) <= Total(runs, n)
    decreases n
  {
    if m < n { TotalGrows(runs, m, n - 1); }
  }

  function Sum(s: seq<int>, n: nat): int
    requires n <= |s|
  {
    if n == 0 then 0 else Sum(s, n - 1) + s[n - 1]
  }

  // ----- What each sample is

  /** The picture track's tables: how long each sample is, how far each is shown from
      when it is decoded, which are marked -- None for a table that is not there, when
      every one is a keyframe -- and where presentation starts. */
  datatype Tables = Tables(stts: seq<Run>, ctts: seq<Run>, sync: Option<seq<nat>>, timescale: nat, shift: int)

  /** When sample `i` is decoded: the lengths of all before it. */
  function Decoded(t: Tables, i: nat): int
    requires i <= |Flat(t.stts)|
  {
    Sum(Flat(t.stts), i)
  }

  /** How far it is shown from that; past the end of the table, not at all. */
  function Offset(t: Tables, i: nat): int {
    if i < |Flat(t.ctts)| then Flat(t.ctts)[i] else 0
  }

  /** Go's division, toward zero. */
  function Quotient(a: int, b: nat): int
    requires b > 0
  {
    if a >= 0 then a / b else -((-a) / b)
  }

  function ToTime(t: Tables, ticks: int): int
    requires t.timescale > 0
  {
    Quotient(ticks * SECOND, t.timescale)
  }

  /** When it is shown: never before the film begins. */
  function Shown(t: Tables, i: nat): int
    requires t.timescale > 0 && i <= |Flat(t.stts)|
  {
    var at := ToTime(t, Decoded(t, i) + Offset(t, i) - t.shift);
    if at > 0 then at else 0
  }

  /** The keyframes among the first `n` samples, taken in the order the marks are in:
      a mark that is not the next one in its place is waited for and never found. */
  function Picked(sync: Option<seq<nat>>, n: nat): (samples: seq<nat>)
    ensures forall i :: 0 <= i < |samples| ==> samples[i] < n
    ensures forall i, j :: 0 <= i < j < |samples| ==> samples[i] < samples[j]
    ensures sync.Some? ==> |samples| <= |sync.value| && forall i :: 0 <= i < |samples| ==>
            samples[i] + 1 == sync.value[i]
  {
    if n == 0 then []
    else
      var before := Picked(sync, n - 1);
      if sync.None? || (|before| < |sync.value| && sync.value[|before|] == n) then before + [n - 1] else before
  }

  /** Marks that climb and are all of samples there are. */
  ghost predicate Proper(sync: seq<nat>, total: nat) {
    && (forall i :: 0 <= i < |sync| ==> 1 <= sync[i] <= total)
    && (forall i, j :: 0 <= i < j < |sync| ==> sync[i] < sync[j])
  }

  lemma {:induction false} PicksMarked(sync: seq<nat>, n: nat)
    requires Proper(sync, n)
    ensures |Picked(Some(sync), n)| == |sync|
  {
    PicksUpTo(sync, n, n);
  }

  lemma {:induction false} PicksUpTo(sync: seq<nat>, total: nat, n: nat)
    requires Proper(sync, total) && n <= total
    ensures var k := |Picked(Some(sync), n)|; k < |sync| ==> sync[k] > n
    decreases n
  {
    if n == 0 {
    } else {
      PicksUpTo(sync, total, n - 1);
    }
  }

  /** With marks that climb, the samples taken are exactly the ones marked; with no
      marks, all of them. */
  lemma PicksExactly(sync: Option<seq<nat>>, total: nat)
    requires sync.Some? ==> Proper(sync.value, total)
    ensures sync.Some? ==> |Picked(sync, total)| == |sync.value| && forall i :: 0 <= i < |sync.value| ==>
            Picked(sync, total)[i] + 1 == sync.value[i]
    ensures sync.None? ==> Picked(sync, total) == seq(total, i => i)
  {
    if sync.Some? { PicksMarked(sync.value, total); } else { PicksAll(total); }
  }

  lemma {:induction false} PicksAll(n: nat)
    ensures Picked(None, n) == seq(n, i => i)
  {
    if n == 0 {
    } else {
      PicksAll(n - 1);
    }
  }

  /** The same as the code counts: a sample's number goes back to zero after 2^32 of
      them, so a mark can be found again. */
  function Taken(sync: Option<seq<nat>>, n: nat): (samples: seq<nat>)
    ensures forall i :: 0 <= i < |samples| ==> samples[i] < n
    ensures forall i, j :: 0 <= i < j < |samples| ==> samples[i] < samples[j]
  {
    if n == 0 then []
    else
      var before := Taken(sync, n - 1);
      if sync.None? || (|before| < |sync.value| && sync.value[|before|] == n % TWO32) then before + [n - 1] else before
  }

  lemma {:induction false} TakenIsPicked(sync: Option<seq<nat>>, n: nat)
    requires n < TWO32
    ensures Taken(sync, n) == Picked(sync, n)
  {
    if n == 0 {
    } else {
      TakenIsPicked(sync, n - 1);
      assert n % TWO32 == n by { Small(n); }
    }
  }

  lemma Small(n: nat)
    requires n < TWO32
    ensures n % TWO32 == n
  {
  }

  // ----- Widths

  /** Samples are counted in 32 bits, and ticks and nanoseconds in 64: nothing wraps
      when there are fewer samples than the count can hold and fewer ticks than a time
      in nanoseconds can. */
  ghost predicate Fits(t: Tables) {
    && |Flat(t.stts)| < TWO32
    && forall i :: 0 <= i <= |Flat(t.stts)| ==>
         -TWO63 <= Decoded(t, i) < TWO63 && -TWO63 <= Decoded(t, i) + Offset(t, i) < TWO63
         && InTicks(Decoded(t, i) + Offset(t, i) - t.shift)
  }

  predicate InTicks(ticks: int) {
    -TWO63 <= ticks * SECOND < TWO63
  }

  /** ticks as the code converts them. */
  function ToTime64(t: Tables, ticks: int): int
    requires t.timescale > 0
  {
    Quotient(Int64(ticks * SECOND), t.timescale)
  }

  function Shown64(t: Tables, dts: int, offset: int): int
    requires t.timescale > 0
  {
    var at := ToTime64(t, Int64(Int64(dts + offset) - t.shift));
    if at > 0 then at else 0
  }

  // ----- The walk

  /** How far the composition table has been used: `ci` runs taken up, `left` samples of
      the last of them to go. */
  ghost predicate Cursor(ctts: seq<Run>, ci: nat, left: nat, k: nat) {
    && ci <= |ctts|
    && (if ci == 0 then left == 0 else left <= ctts[ci - 1].count)
    && left <= Total(ctts, ci)
    && Total(ctts, ci) - left == if k < |Flat(ctts)| then k else |Flat(ctts)|
  }

  /** The next sample's offset, taking up runs until one has any left. */
  method NextOffset(ctts: seq<Run>, ci0: nat, left0: nat, ghost k: nat) returns (offset: int, ci: nat, left: nat)
    requires Cursor(ctts, ci0, left0, k)
    ensures Cursor(ctts, ci, left, k + 1)
    ensures offset == if k < |Flat(ctts)| then Flat(ctts)[k] else 0
  {
    ci, left, offset := ci0, left0, 0;
    FlatWhole(ctts);
    while left == 0 && ci < |ctts|
      invariant Cursor(ctts, ci, left, k)
      decreases |ctts| - ci
    {
      left := ctts[ci].count;
      ci := ci + 1;
    }
    TotalGrows(ctts, ci, |ctts|);
    if left > 0 {
      offset := ctts[ci - 1].value;
      FlatAt(ctts, ci - 1, ctts[ci - 1].count - left);
      left := left - 1;
    }
  }

  datatype Walk = Walk(keys: seq<int>, samples: seq<int>, dts: int, sample: int, ci: nat, left: nat, next: nat)

  /** Samples' numbers as they are kept. */
  function Numbers(samples: seq<nat>): (r: seq<int>)
    ensures |r| == |samples|
  {
    seq(|samples|, i requires 0 <= i < |samples| => samples[i] % TWO32)
  }

  /** When a sample is shown, as 64 bits have it. */
  function ShownAs(t: Tables, i: nat): int
    requires t.timescale > 0 && i <= |Flat(t.stts)|
  {
    Shown64(t, Int64(Decoded(t, i)), Offset(t, i))
  }

  function Times(t: Tables, samples: seq<nat>): (r: seq<int>)
    requires t.timescale > 0 && forall i :: 0 <= i < |samples| ==> samples[i] <= |Flat(t.stts)|
    ensures |r| == |samples|
  {
    seq(|samples|, i requires 0 <= i < |samples| => ShownAs(t, samples[i]))
  }

  /** What the walk has once `k` samples are behind it. */
  ghost predicate WalkOk(t: Tables, w: Walk, k: nat)
    requires t.timescale > 0
  {
    && k <= |Flat(t.stts)| && Cursor(t.ctts, w.ci, w.left, k)
    && w.sample == (k + 1) % TWO32 && w.dts == Int64(Decoded(t, k)) && w.next == |Taken(t.sync, k)|
    && w.samples == Numbers(Taken(t.sync, k)) && w.keys == Times(t, Taken(t.sync, k))
  }

  /** One sample. */
  method WalkSample(t: Tables, w: Walk, value: int, ghost k: nat) returns (after: Walk)
    requires t.timescale > 0 && WalkOk(t, w, k) && k < |Flat(t.stts)| && value == Flat(t.stts)[k]
    ensures WalkOk(t, after, k + 1)
  {
    hide Flat, Cursor, Decoded, Shown64, Int64, Taken, Offset;
    var offset, ci, left := 0, w.ci, w.left;
    if |t.ctts| > 0 {
      offset, ci, left := NextOffset(t.ctts, w.ci, w.left, k);
    } else {
      NoCursor(t.ctts, ci, left, k);
    }
    IsOffset(t, k);
    TakenNext(t.sync, k);
    ghost var before, more := Taken(t.sync, k), Taken(t.sync, k + 1);
    var keys, samples, next := w.keys, w.samples, w.next;
    if t.sync.None? || (next < |t.sync.value| && t.sync.value[next] == w.sample) {
      keys := keys + [Shown64(t, w.dts, offset)];
      samples := samples + [(w.sample - 1) % TWO32];
      next := next + 1;
      NumbersNext(before, k);
      TimesNext(t, before, k);
    }
    DecodedNext(t, k);
    after := Walk(keys, samples, Int64(w.dts + value), (w.sample + 1) % TWO32, ci, left, next);
  }

  lemma IsOffset(t: Tables, k: nat)
    ensures Offset(t, k) == if k < |Flat(t.ctts)| then Flat(t.ctts)[k] else 0
  {
  }

  lemma TakenNext(sync: Option<seq<nat>>, k: nat)
    ensures Taken(sync, k + 1) ==
            if sync.None? || (|Taken(sync, k)| < |sync.value| && sync.value[|Taken(sync, k)|] == (k + 1) % TWO32)
            then Taken(sync, k) + [k] else Taken(sync, k)
  {
  }

  lemma NumbersNext(before: seq<nat>, k: nat)
    ensures Numbers(before + [k]) == Numbers(before) + [((k + 1) % TWO32 - 1) % TWO32]
  {
    assert ((k + 1) % TWO32 - 1) % TWO32 == k % TWO32;
  }

  lemma TimesNext(t: Tables, before: seq<nat>, k: nat)
    requires t.timescale > 0 && k < |Flat(t.stts)|
    requires forall i :: 0 <= i < |before| ==> before[i] <= |Flat(t.stts)|
    ensures Times(t, before + [k]) == Times(t, before) + [ShownAs(t, k)]
  {
    hide Flat, ShownAs;
  }

  /** Time wraps as it goes as it would at the end. */
  lemma DecodedNext(t: Tables, k: nat)
    requires k < |Flat(t.stts)|
    ensures Int64(Decoded(t, k + 1)) == Int64(Int64(Decoded(t, k)) + Flat(t.stts)[k])
  {
    hide Flat;
  }

  lemma NoCursor(ctts: seq<Run>, ci: nat, left: nat, k: nat)
    requires ctts == [] && Cursor(ctts, ci, left, k)
    ensures Cursor(ctts, ci, left, k + 1) && Flat(ctts) == []
  {
  }

  datatype Index = Index(keyframes: seq<int>, samples: seq<int>, total: int, duration: int)

  predicate Sorted(s: seq<int>) {
    forall i, j :: 0 <= i < j < |s| ==> s[i] <= s[j]
  }

  predicate Climbing(s: seq<int>) {
    forall i, j :: 0 <= i < j < |s| ==> s[i] < s[j]
  }

  /** The index of a track, on the tables written out: the samples taken, under the
      numbers they are counted by, at the times 64 bits make of them. There is none
      when there is no keyframe or they are shown out of order. */
  function IndexOf(t: Tables, duration: int): (index: Option<Index>)
    requires t.timescale > 0
    ensures index.Some? ==> index.value.keyframes != [] && Sorted(index.value.keyframes)
                            && |index.value.keyframes| == |index.value.samples|
  {
    var n := |Flat(t.stts)|;
    var keys := Times(t, Taken(t.sync, n));
    if keys == [] || !Sorted(keys) then None
    else Some(Index(keys, Numbers(Taken(t.sync, n)), n % TWO32, ToTime64(t, Int64(duration - t.shift))))
  }

  /** The walk over the run-length tables finds what they come to written out. */
  method TrackKeyframes(t: Tables, duration: int) returns (index: Option<Index>)
    requires t.timescale > 0
    ensures index == IndexOf(t, duration)
  {
    hide Flat, Cursor, Taken, Quotient, Int64, Times, Numbers, Decoded, ToTime64;
    var w := Walk([], [], 0, 1, 0, 0, 0);
    WalkStart(t, w);
    FlatWhole(t.stts);
    var ri := 0;
    while ri < |t.stts|
      invariant ri <= |t.stts| && WalkOk(t, w, Total(t.stts, ri))
    {
      hide WalkOk;
      var run := t.stts[ri];
      var j := 0;
      while j < run.count
        invariant j <= run.count && WalkOk(t, w, Total(t.stts, ri) + j)
      {
        FlatAt(t.stts, ri, j);
        w := WalkSample(t, w, run.value, Total(t.stts, ri) + j);
        j := j + 1;
      }
      ri := ri + 1;
    }
    if |w.keys| == 0 || !Sorted(w.keys) { return None; }
    return Some(Index(w.keys, w.samples, (w.sample - 1) % TWO32, ToTime64(t, Int64(duration - t.shift))));
  }

  lemma WalkStart(t: Tables, w: Walk)
    requires t.timescale > 0 && w == Walk([], [], 0, 1, 0, 0, 0)
    ensures WalkOk(t, w, 0)
  {
  }

  // ----- What an index is

  /** When each of some samples is shown. */
  ghost function ShownAt(t: Tables, samples: seq<nat>): (times: seq<int>)
    requires t.timescale > 0 && forall i :: 0 <= i < |samples| ==> samples[i] < |Flat(t.stts)|
    ensures |times| == |samples| && forall i :: 0 <= i < |samples| ==> times[i] == Shown(t, samples[i])
  {
    seq(|samples|, i requires 0 <= i < |samples| => Shown(t, samples[i]))
  }

  /** In range, the widths do not show. */
  lemma ShownFits(t: Tables, i: nat)
    requires t.timescale > 0 && Fits(t) && i <= |Flat(t.stts)|
    ensures ShownAs(t, i) == Shown(t, i)
  {
    hide Flat, Offset, Quotient;
    var ticks := Decoded(t, i) + Offset(t, i) - t.shift;
    assert InTicks(ticks);
    TicksSmall(ticks);
  }

  lemma TicksSmall(ticks: int)
    requires InTicks(ticks)
    ensures -TWO63 <= ticks < TWO63
  {
  }

  lemma DurationFits(ticks: int)
    requires InTicks(ticks)
    ensures Int64(ticks) == ticks && Int64(ticks * SECOND) == ticks * SECOND
  {
  }

  /** When nothing wraps: the samples of an index are the ones picked, in order and none
      twice, each at the time it is shown, and there is an index exactly when there are
      any and they are shown in order. */
  lemma IndexRefines(t: Tables, duration: int)
    requires t.timescale > 0 && Fits(t)
    ensures var index, n := IndexOf(t, duration), |Flat(t.stts)|;
            var picked := Picked(t.sync, n);
            && (index.Some? <==> picked != [] && forall i, j :: 0 <= i < j < |picked| ==>
                                                   Shown(t, picked[i]) <= Shown(t, picked[j]))
            && (index.Some? ==>
                index.value.samples == picked && index.value.keyframes == ShownAt(t, picked)
                && index.value.total == n)
    ensures IndexOf(t, duration).Some? && -TWO63 <= duration - t.shift < TWO63 && InTicks(duration - t.shift) ==>
              IndexOf(t, duration).value.duration == ToTime(t, duration - t.shift)
  {
    hide Flat, Picked, Taken, Quotient, Fits, ShownAs, Shown;
    var n := |Flat(t.stts)|;
    FitsCount(t);
    TakenIsPicked(t.sync, n);
    var picked := Picked(t.sync, n);
    assert Numbers(picked) == picked;
    forall i | 0 <= i < |picked| ensures Times(t, picked)[i] == ShownAt(t, picked)[i] { ShownFits(t, picked[i]); }
    assert Times(t, picked) == ShownAt(t, picked);
    if InTicks(duration - t.shift) { DurationFits(duration - t.shift); }
  }

  /** Go's division: the quotient nearest zero. */
  lemma QuotientIs(a: int, b: nat)
    requires b > 0
    ensures a >= 0 ==> Quotient(a, b) * b <= a < Quotient(a, b) * b + b
    ensures a <= 0 ==> Quotient(a, b) * b - b < a <= Quotient(a, b) * b
  {
    var n := if a >= 0 then a else -a;
    assert n == n / b * b + n % b;
    if a < 0 { assert Quotient(a, b) * b == -(n / b * b); }
  }

  /** A sample's time, in nanoseconds: that of its ticks, cut short, and never before the
      film begins. */
  lemma ShownIs(t: Tables, i: nat)
    requires t.timescale > 0 && i <= |Flat(t.stts)|
    ensures var ticks, shown := Decoded(t, i) + Offset(t, i) - t.shift, Shown(t, i);
            && (ticks <= 0 ==> shown == 0)
            && (ticks >= 0 ==> shown * t.timescale <= ticks * 1_000_000_000 < shown * t.timescale + t.timescale)
  {
    hide Quotient, Flat, Decoded, Offset;
    var ticks := Decoded(t, i) + Offset(t, i) - t.shift;
    QuotientIs(ticks * SECOND, t.timescale);
    var q := Quotient(ticks * SECOND, t.timescale);
    if ticks <= 0 && q > 0 { MoreThan(q, t.timescale); }
    if ticks >= 0 && q < 0 { LessThan(q, t.timescale); }
  }

  lemma MoreThan(q: int, b: nat)
    requires q > 0 && b > 0
    ensures q * b >= b > 0
  {
  }

  lemma LessThan(q: int, b: nat)
    requires q < 0 && b > 0
    ensures q * b + b <= 0
  {
  }

  /** A sample is decoded when all before it have gone by. */
  lemma DecodedIs(t: Tables)
    ensures Decoded(t, 0) == 0
    ensures forall i :: 0 <= i < |Flat(t.stts)| ==> Decoded(t, i + 1) == Decoded(t, i) + Flat(t.stts)[i]
    ensures forall i: nat :: Offset(t, i) == if i < |Flat(t.ctts)| then Flat(t.ctts)[i] else 0
  {
    hide Flat;
  }

  /** Two samples of a second each, shown half a second late and a fifth, of a film whose
      edit list begins at half a second. */
  lemma AnIndex()
    ensures IndexOf(FILM, 2000) == Some(Index([0, 700_000_000], [0, 1], 2, 1_500_000_000))
  {
    hide Quotient, Int64, Flat, Taken, ShownAs, Decoded, Offset;
    FilmFlat();
    FilmTimes();
    AllTaken(2);
    assert Taken(None, 2) == [0, 1];
    QuotientIs(1500 * SECOND, 1000);
    assert Int64(2000 - 500) == 1500 && Int64(1500 * SECOND) == 1500 * SECOND;
    assert Times(FILM, [0, 1]) == [0, 700_000_000] && Numbers([0, 1]) == [0, 1];
  }

  /** And nothing of it wraps. */
  lemma FilmFits()
    ensures Fits(FILM)
  {
    hide Flat;
    FilmFlat();
    assert Decoded(FILM, 0) == 0 && Decoded(FILM, 1) == 1000 && Decoded(FILM, 2) == 2000;
  }

  const FILM := Tables([Run(2, 1000)], [Run(1, 500), Run(1, 200)], None, 1000, 500)

  lemma FilmFlat()
    ensures Flat(FILM.stts) == [1000, 1000] && Flat(FILM.ctts) == [500, 200]
  {
    hide Flat;
    OneRun(Run(2, 1000));
    FlatJoined([Run(1, 500)], [Run(1, 200)]);
    OneRun(Run(1, 500));
    OneRun(Run(1, 200));
    assert FILM.ctts == [Run(1, 500)] + [Run(1, 200)];
  }

  lemma FilmTimes()
    ensures |Flat(FILM.stts)| == 2 && ShownAs(FILM, 0) == 0 && ShownAs(FILM, 1) == 700_000_000
  {
    hide Quotient, Int64, Flat;
    FilmFlat();
    assert Decoded(FILM, 1) == 1000 by { assert Decoded(FILM, 0) == 0; }
    QuotientIs(0, 1000);
    QuotientIs(700 * SECOND, 1000);
  }

  lemma FitsCount(t: Tables)
    requires Fits(t)
    ensures |Flat(t.stts)| < TWO32
  {
  }

  /** The most a count can say. */
  const LONGEST := TWO32 - 1

  ghost predicate StoredRuns(runs: seq<Run>) {
    |runs| <= LONGEST && forall i :: 0 <= i < |runs| ==> runs[i].count <= LONGEST
  }

  /** Tables as a file can hold them: no more entries, and none longer, than a count of
      32 bits can say. */
  ghost predicate Stored(t: Tables) {
    && t.timescale > 0 && StoredRuns(t.stts) && StoredRuns(t.ctts)
    && (t.sync.Some? ==> |t.sync.value| <= LONGEST
                         && forall i :: 0 <= i < |t.sync.value| ==> t.sync.value[i] <= LONGEST)
  }

  /** And they have no more samples than that many of the longest runs. */
  const MOST := LONGEST * LONGEST

  lemma {:induction false} ManyRuns(runs: seq<Run>)
    requires forall i :: 0 <= i < |runs| ==> runs[i].count <= LONGEST
    ensures |Flat(runs)| <= |runs| * LONGEST
    decreases |runs|
  {
    if runs == [] {
    } else {
      ManyRuns(runs[1..]);
    }
  }

  lemma StoredSamples(runs: seq<Run>)
    requires StoredRuns(runs)
    ensures |Flat(runs)| <= MOST
  {
    ManyRuns(runs);
    assert |runs| * LONGEST <= LONGEST * LONGEST;
  }

  /** With so many samples, every index there is has climbing samples. */
  ghost predicate AlwaysClimbs(total: nat) {
    forall t, duration :: Stored(t) && |Flat(t.stts)| == total && IndexOf(t, duration).Some? ==>
                            Climbing(IndexOf(t, duration).value.samples)
  }

  lemma NumbersClimb(samples: seq<nat>)
    requires forall i :: 0 <= i < |samples| ==> samples[i] < TWO32
    requires forall i, j :: 0 <= i < j < |samples| ==> samples[i] < samples[j]
    ensures Climbing(Numbers(samples))
  {
  }

  /** The longest runs, and one more if it takes it, of so many samples of no length. */
  function Longest(total: nat): seq<Run> {
    if total == 0 then [] else if total <= LONGEST then [Run(total, 0)]
    else Longest(total - LONGEST) + [Run(LONGEST, 0)]
  }

  function Still(total: nat): Tables {
    Tables(Longest(total), [], None, 1, 0)
  }

  lemma {:induction false} StillFlat(total: nat)
    ensures |Flat(Still(total).stts)| == total && forall i :: 0 <= i < total ==> Flat(Still(total).stts)[i] == 0
  {
    if total == 0 {
    } else if total <= LONGEST {
      OneRun(Run(total, 0));
    } else {
      StillFlat(total - LONGEST);
      FlatJoined(Longest(total - LONGEST), [Run(LONGEST, 0)]);
      OneRun(Run(LONGEST, 0));
    }
  }

  lemma {:induction false} LongestStored(total: nat, runs: nat)
    requires total <= runs * LONGEST
    ensures |Longest(total)| <= runs && forall i :: 0 <= i < |Longest(total)| ==> Longest(total)[i].count <= LONGEST
    decreases runs
  {
    if total > LONGEST {
      assert total - LONGEST <= (runs - 1) * LONGEST;
      LongestStored(total - LONGEST, runs - 1);
    }
  }

  lemma {:induction false} NoLength(s: seq<int>, n: nat)
    requires n <= |s| && forall i :: 0 <= i < |s| ==> s[i] == 0
    ensures Sum(s, n) == 0
  {
    if n == 0 {
    } else {
      NoLength(s, n - 1);
    }
  }

  lemma {:induction false} AllTaken(n: nat)
    ensures Taken(None, n) == seq(n, i => i)
  {
    if n == 0 {
    } else {
      AllTaken(n - 1);
    }
  }

  /** Every still sample is a keyframe at zero. */
  lemma StillIndex(total: nat)
    requires total > 0
    ensures IndexOf(Still(total), 0).Some? && IndexOf(Still(total), 0).value.samples == Numbers(seq(total, i => i))
  {
    hide Flat, Taken;
    var t := Still(total);
    StillFlat(total);
    AllTaken(total);
    forall i | 0 <= i <= total ensures ShownAs(t, i) == 0 {
      NoLength(Flat(t.stts), i);
      NoOffsets(t, i);
    }
    assert Sorted(Times(t, Taken(t.sync, total)));
  }

  lemma NoOffsets(t: Tables, i: nat)
    requires t.ctts == []
    ensures Offset(t, i) == 0
  {
  }

  /** The samples of every index climb if and only if there are at most 2^32 of them,
      or more than any file's tables can have. */
  lemma ClimbsExactly(total: nat)
    ensures AlwaysClimbs(total) <==> total <= TWO32 || MOST < total
  {
    hide Flat, Taken, Times;
    if total <= TWO32 {
      forall t, duration | Stored(t) && |Flat(t.stts)| == total && IndexOf(t, duration).Some?
        ensures Climbing(IndexOf(t, duration).value.samples)
      {
        NumbersClimb(Taken(t.sync, total));
      }
    } else if MOST < total {
      forall t | Stored(t) ensures |Flat(t.stts)| != total { StoredSamples(t.stts); }
    } else {
      ManyDoNot(total);
    }
  }

  lemma ManyDoNot(total: nat)
    requires TWO32 < total <= MOST
    ensures !AlwaysClimbs(total)
  {
    hide Flat, Taken, Times;
    StillIndex(total);
    StillFlat(total);
    LongestStored(total, LONGEST);
    var t := Still(total);
    var samples := IndexOf(t, 0).value.samples;
    assert samples[0] == 0 && samples[TWO32] == 0;
    assert Stored(t) && !Climbing(samples);
  }

  // ----- One mark found twice

  /** Two of the longest runs there are, of samples with no length, and one mark twice. */
  const TWICE := Tables([Run(LONGEST, 0), Run(LONGEST, 0)], [], Some([5, 5]), 1, 0)

  lemma {:induction false} FoundTwice(n: nat)
    requires n <= 2 * LONGEST
    ensures Taken(Some([5, 5]), n) == if n < 5 then [] else if n < TWO32 + 5 then [4] else [4, TWO32 + 4]
  {
    if n == 0 {
    } else {
      FoundTwice(n - 1);
    }
  }

  /** The fifth sample is in the index, and again when the count has come round to it. */
  lemma MarkedTwice()
    ensures Stored(TWICE) && IndexOf(TWICE, 0).Some? && IndexOf(TWICE, 0).value.samples == [4, 4]
  {
    hide Flat, Taken;
    var n := 2 * LONGEST;
    TwiceFlat();
    FoundTwice(n);
    var taken := Taken(TWICE.sync, n);
    forall i | 0 <= i <= n ensures ShownAs(TWICE, i) == 0 {
      NoLength(Flat(TWICE.stts), i);
      NoOffsets(TWICE, i);
    }
    assert Times(TWICE, taken) == [0, 0] && Numbers(taken) == [4, 4];
  }

  lemma TwiceFlat()
    ensures |Flat(TWICE.stts)| == 2 * LONGEST && forall i :: 0 <= i < 2 * LONGEST ==> Flat(TWICE.stts)[i] == 0
  {
    var r := Run(LONGEST, 0);
    assert TWICE.stts == [r] + [r];
    FlatJoined([r], [r]);
    OneRun(r);
  }

  // ----- The tables as they are stored

  /** Entry `i` of a table of pairs. */
  function RunAt(b: seq<Byte>, i: nat, signed: bool): Run
    requires 8 + i * 8 + 8 <= |b|
  {
    var v := U32(b, 8 + i * 8 + 4);
    Run(U32(b, 8 + i * 8), if signed then Signed32(v) else v)
  }

  /** A table of (count, value) pairs, or none when it does not hold as many as it says. */
  function RunsOf(b: seq<Byte>, signed: bool): Option<seq<Run>> {
    if |b| < 8 || 8 + U32(b, 4) * 8 > |b| then None
    else Some(seq(U32(b, 4), i requires 0 <= i < U32(b, 4) => RunAt(b, i, signed)))
  }

  method ReadRuns(b: seq<Byte>, signed: bool) returns (runs: Option<seq<Run>>)
    ensures runs == RunsOf(b, signed)
  {
    hide U32;
    if |b| < 8 { return None; }
    var n := U32(b, 4);
    var out: seq<Run> := [];
    var i := 0;
    while i < n
      invariant i <= n && |out| == i && 8 + i * 8 <= |b|
      invariant forall j :: 0 <= j < i ==> out[j] == RunAt(b, j, signed)
    {
      var at := 8 + i * 8;
      if at + 8 > |b| { return None; }
      out := out + [RunAt(b, i, signed)];
      i := i + 1;
    }
    assert out == RunsOf(b, signed).value;
    return Some(out);
  }

  /** The samples marked; a table that marks none is read as one that is not there. */
  function MarksOf(b: seq<Byte>): Option<seq<nat>>
    requires |b| >= 8 && 8 + U32(b, 4) * 4 <= |b|
  {
    if U32(b, 4) == 0 then None else Some(seq(U32(b, 4), i requires 0 <= i < U32(b, 4) => U32(b, 8 + i * 4)))
  }

  method ReadMarks(stss: Option<seq<Byte>>) returns (sync: Option<seq<nat>>, ok: bool)
    ensures stss.None? || |stss.value| < 8 ==> ok && sync.None?
    ensures stss.Some? && |stss.value| >= 8 ==> (ok <==> 8 + U32(stss.value, 4) * 4 <= |stss.value|)
    ensures stss.Some? && |stss.value| >= 8 && ok ==> sync == MarksOf(stss.value)
  {
    hide U32;
    if stss.None? || |stss.value| < 8 { return None, true; }
    var b := stss.value;
    var n := U32(b, 4);
    var out: seq<nat> := [];
    var i := 0;
    while i < n
      invariant i <= n && |out| == i && 8 + i * 4 <= |b|
      invariant forall j :: 0 <= j < i ==> out[j] == U32(b, 8 + j * 4)
    {
      var at := 8 + i * 4;
      if at + 4 > |b| { return None, false; }
      out := out + [U32(b, at)];
      i := i + 1;
    }
    if n == 0 { return None, true; }
    assert out == MarksOf(b).value;
    return Some(out), true;
  }

  /** The media time of entry `i` of an edit list. */
  function MediaTime(b: seq<Byte>, i: nat): int
    requires |b| >= 8 && 8 + i * EditWidth(b) + EditWidth(b) <= |b|
  {
    if b[0] == 1 then Int64(U64(b, 8 + i * 20 + 8)) else Signed32(U32(b, 8 + i * 12 + 4))
  }

  function EditWidth(b: seq<Byte>): nat
    requires |b| >= 8
  {
    if b[0] == 1 then 20 else 12
  }

  /** The first edit that is not a pause, which is where presentation begins; none, or
      a list cut short before one, is no shift. */
  ghost predicate IsShift(b: seq<Byte>, shift: int)
    requires |b| >= 8
  {
    var n, width := U32(b, 4), EditWidth(b);
    (exists i: nat :: i < n && 8 + i * width + width <= |b| && MediaTime(b, i) == shift && shift >= 0
       && forall j: nat :: j < i && 8 + j * width + width <= |b| ==> MediaTime(b, j) < 0)
    || (shift == 0 && forall j: nat :: j < n && 8 + j * width + width <= |b| ==> MediaTime(b, j) < 0)
  }

  method EditShift(elst: Option<seq<Byte>>) returns (shift: int)
    ensures elst.None? || |elst.value| < 8 ==> shift == 0
    ensures elst.Some? && |elst.value| >= 8 ==> IsShift(elst.value, shift)
  {
    hide U32, U64, Int64, Signed32;
    if elst.None? || |elst.value| < 8 { return 0; }
    var b := elst.value;
    var n, width := U32(b, 4), EditWidth(b);
    var i := 0;
    while i < n
      invariant i <= n && 8 + i * width <= |b|
      invariant forall j: nat :: j < i && 8 + j * width + width <= |b| ==> MediaTime(b, j) < 0
    {
      if 8 + i * width + width > |b| { return 0; }
      var mediaTime := MediaTime(b, i);
      if mediaTime >= 0 { return mediaTime; }
      i := i + 1;
    }
    return 0;
  }

  // ----- The tables as they are written

  predicate RunsFit(runs: seq<Run>, signed: bool) {
    |runs| < TWO32
    && forall i :: 0 <= i < |runs| ==>
         runs[i].count < TWO32
         && if signed then -0x8000_0000 <= runs[i].value < 0x8000_0000 else 0 <= runs[i].value < TWO32
  }

  /** How many there are of a value, and the value. */
  function EncodedRun(r: Run, signed: bool): (b: seq<Byte>)
    requires RunsFit([r], signed)
    ensures |b| == 8
  {
    assert [r][0] == r;
    Put32(r.count) + Put32(if signed then Unsigned32(r.value) else r.value)
  }

  /** A table: four bytes of version and flags, how many entries, and the entries. */
  function Table(version: seq<Byte>, entries: seq<seq<Byte>>): seq<Byte>
    requires |entries| < TWO32
  {
    version + Put32(|entries|) + Joined(entries)
  }

  function EncodedRuns(version: seq<Byte>, runs: seq<Run>, signed: bool): seq<Byte>
    requires RunsFit(runs, signed)
  {
    Table(version, RunEntries(runs, signed))
  }

  function RunEntries(runs: seq<Run>, signed: bool): (entries: seq<seq<Byte>>)
    requires RunsFit(runs, signed)
    ensures |entries| == |runs| && forall i :: 0 <= i < |runs| ==> |entries[i]| == 8
  {
    seq(|runs|, i requires 0 <= i < |runs| => EncodedRun(runs[i], signed))
  }

  /** Where an entry of a table is, whatever follows the table. */
  lemma EntryAt(b: seq<Byte>, version: seq<Byte>, entries: seq<seq<Byte>>, width: nat, rest: seq<Byte>, i: nat)
    requires |version| == 4 && |entries| < TWO32 && forall k :: 0 <= k < |entries| ==> |entries[k]| == width
    requires b == Table(version, entries) + rest
    ensures |b| == 8 + |entries| * width + |rest| && U32(b, 4) == |entries|
    ensures i < |entries| ==>
              0 <= i * width && 8 + i * width + width <= |b| && b[8 + i * width..8 + i * width + width] == entries[i]
  {
    hide Put32, U32, Joined;
    var n := Put32(|entries|);
    JoinedWide(entries, width);
    assert b[4..8] == n;
    Reads32(b, 4, |entries|);
    if i < |entries| {
      PartAt(entries, width, i);
      var at := i * width;
      assert b[8 + at..8 + at + width] == Joined(entries)[at..at + width];
    }
  }

  lemma RunReadsBack(b: seq<Byte>, i: nat, r: Run, signed: bool)
    requires RunsFit([r], signed) && 8 + i * 8 + 8 <= |b| && b[8 + i * 8..8 + i * 8 + 8] == EncodedRun(r, signed)
    ensures RunAt(b, i, signed) == r
  {
    hide Put32, U32;
    assert [r][0] == r;
    var at, e := 8 + i * 8, EncodedRun(r, signed);
    var v := if signed then Unsigned32(r.value) else r.value;
    assert e[0..4] == Put32(r.count) && e[4..8] == Put32(v);
    Part(b, at, e, 0, 4);
    Part(b, at, e, 4, 8);
    Reads32(b, at, r.count);
    Reads32(b, at + 4, v);
    ReadsSigned(r.value);
  }

  /** Runs written out are read back, whatever follows them; cut anywhere they are not. */
  lemma RunsReadBack(version: seq<Byte>, runs: seq<Run>, signed: bool, rest: seq<Byte>)
    requires |version| == 4 && RunsFit(runs, signed)
    ensures RunsOf(EncodedRuns(version, runs, signed) + rest, signed) == Some(runs)
    ensures forall k :: 0 <= k < |EncodedRuns(version, runs, signed)| ==>
              RunsOf(EncodedRuns(version, runs, signed)[..k], signed) == None
  {
    hide U32, RunAt, RunEntries, Table, EncodedRun;
    var table, entries := EncodedRuns(version, runs, signed), RunEntries(runs, signed);
    var b := table + rest;
    EntryAt(b, version, entries, 8, rest, 0);
    forall i | 0 <= i < |runs| ensures RunAt(b, i, signed) == runs[i] {
      EntryAt(b, version, entries, 8, rest, i);
      assert entries[i] == EncodedRun(runs[i], signed) by { EntryIs(runs, signed, i); }
      RunReadsBack(b, i, runs[i], signed);
    }
    assert RunsOf(b, signed).value == runs;
    assert table + [] == table;
    EntryAt(table, version, entries, 8, [], 0);
    forall k | 0 <= k < |table| ensures RunsOf(table[..k], signed) == None {
      if k >= 8 { SameCount(table, k); }
    }
  }

  lemma EntryIs(runs: seq<Run>, signed: bool, i: nat)
    requires RunsFit(runs, signed) && i < |runs|
    ensures RunsFit([runs[i]], signed) && RunEntries(runs, signed)[i] == EncodedRun(runs[i], signed)
  {
  }

  lemma SameCount(b: seq<Byte>, k: nat)
    requires 8 <= k <= |b|
    ensures U32(b[..k], 4) == U32(b, 4)
  {
  }

  /** Two samples of a thousand ticks. */
  lemma TwoOfAThousand()
    ensures RunsOf([0, 0, 0, 0, 0, 0, 0, 1, 0, 0, 0, 2, 0, 0, 3, 0xE8], false) == Some([Run(2, 1000)])
  {
    var b: seq<Byte> := [0, 0, 0, 0, 0, 0, 0, 1, 0, 0, 0, 2, 0, 0, 3, 0xE8];
    assert U32(b, 4) == 1 && U32(b, 8) == 2 && U32(b, 12) == 1000;
    assert RunAt(b, 0, false) == Run(2, 1000);
    assert RunsOf(b, false).value == [Run(2, 1000)];
  }

  function MarkEntries(marks: seq<nat>): (entries: seq<seq<Byte>>)
    requires forall i :: 0 <= i < |marks| ==> marks[i] < TWO32
    ensures |entries| == |marks| && forall i :: 0 <= i < |marks| ==> |entries[i]| == 4
  {
    seq(|marks|, i requires 0 <= i < |marks| => Put32(marks[i]))
  }

  /** Marks written out are read back, whatever follows them, and no marks as none. */
  lemma MarksReadBack(version: seq<Byte>, marks: seq<nat>, rest: seq<Byte>)
    requires |version| == 4 && |marks| < TWO32 && forall i :: 0 <= i < |marks| ==> marks[i] < TWO32
    ensures var b := Table(version, MarkEntries(marks)) + rest;
            && |b| >= 8 && 8 + U32(b, 4) * 4 <= |b|
            && MarksOf(b) == if marks == [] then None else Some(marks)
  {
    hide U32, Table, Put32;
    var entries := MarkEntries(marks);
    var b := Table(version, entries) + rest;
    EntryAt(b, version, entries, 4, rest, 0);
    forall i | 0 <= i < |marks| ensures U32(b, 8 + i * 4) == marks[i] {
      EntryAt(b, version, entries, 4, rest, i);
      Reads32(b, 8 + i * 4, marks[i]);
    }
    if marks != [] { assert MarksOf(b).value == marks; }
  }

  /** How long an edit is and the media time it begins at, negative for a pause. */
  datatype Edit = Edit(length: nat, at: int)

  predicate EditsFit(edits: seq<Edit>, wide: bool) {
    |edits| < TWO32
    && forall i :: 0 <= i < |edits| ==>
         if wide then edits[i].length < TWO64 && -TWO63 <= edits[i].at < TWO63
         else edits[i].length < TWO32 && -0x8000_0000 <= edits[i].at < 0x8000_0000
  }

  /** With the rate, which is one. */
  function EncodedEdit(e: Edit, wide: bool): (b: seq<Byte>)
    requires EditsFit([e], wide)
    ensures |b| == if wide then 20 else 12
  {
    assert [e][0] == e;
    (if wide then Put64(e.length) + Put64(Unsigned64(e.at)) else Put32(e.length) + Put32(Unsigned32(e.at)))
    + [0, 1, 0, 0]
  }

  function EditEntries(edits: seq<Edit>, wide: bool): (entries: seq<seq<Byte>>)
    requires EditsFit(edits, wide)
    ensures |entries| == |edits| && forall i :: 0 <= i < |edits| ==> |entries[i]| == if wide then 20 else 12
  {
    seq(|edits|, i requires 0 <= i < |edits| => EncodedEdit(edits[i], wide))
  }

  /** Where presentation begins: at the first edit that is not a pause. */
  function Begins(edits: seq<Edit>): int {
    if edits == [] then 0 else if edits[0].at >= 0 then edits[0].at else Begins(edits[1..])
  }

  function EncodedEdits(edits: seq<Edit>, wide: bool): seq<Byte>
    requires EditsFit(edits, wide)
  {
    Table([if wide then 1 else 0, 0, 0, 0], EditEntries(edits, wide))
  }

  lemma EditReadsBack(b: seq<Byte>, i: nat, e: Edit, wide: bool)
    requires EditsFit([e], wide) && |b| >= 8 && (b[0] == 1 <==> wide)
    requires 8 + i * EditWidth(b) + EditWidth(b) <= |b|
    requires b[8 + i * EditWidth(b)..8 + i * EditWidth(b) + EditWidth(b)] == EncodedEdit(e, wide)
    ensures MediaTime(b, i) == e.at
  {
    hide Put32, Put64, U32, U64, Signed32, Int64;
    assert [e][0] == e;
    ReadsSigned(e.at);
    var bytes := EncodedEdit(e, wide);
    if wide {
      var at := 8 + i * 20;
      assert bytes[8..16] == Put64(Unsigned64(e.at));
      Part(b, at, bytes, 8, 16);
      Reads64(b, at + 8, Unsigned64(e.at));
    } else {
      var at := 8 + i * 12;
      assert bytes[4..8] == Put32(Unsigned32(e.at));
      Part(b, at, bytes, 4, 8);
      Reads32(b, at + 4, Unsigned32(e.at));
    }
  }

  /** An edit list written out, in either width, is read back as where its first edit that
      is no pause begins, and as nothing else. */
  lemma EditsReadBack(edits: seq<Edit>, wide: bool, rest: seq<Byte>, shift: int)
    requires EditsFit(edits, wide)
    ensures |EncodedEdits(edits, wide) + rest| >= 8
    ensures IsShift(EncodedEdits(edits, wide) + rest, shift) <==> shift == Begins(edits)
  {
    hide U32, Table, MediaTime, EncodedEdit;
    var version: seq<Byte> := [if wide then 1 else 0, 0, 0, 0];
    var entries, width := EditEntries(edits, wide), if wide then 20 else 12;
    var b := EncodedEdits(edits, wide) + rest;
    EntryAt(b, version, entries, width, rest, 0);
    assert b[0] == version[0] by { FirstByte(b, version, entries, rest); }
    forall i | 0 <= i < |edits| ensures 8 + i * width + width <= |b| && MediaTime(b, i) == edits[i].at {
      EntryAt(b, version, entries, width, rest, i);
      assert EditsFit([edits[i]], wide) && entries[i] == EncodedEdit(edits[i], wide);
      EditReadsBack(b, i, edits[i], wide);
    }
    BeginsFirst(edits);
    if i: nat :| i < |edits| && edits[i].at >= 0 && edits[i].at == Begins(edits)
                 && forall j :: 0 <= j < i ==> edits[j].at < 0 {
      assert MediaTime(b, i) == edits[i].at;
    }
  }

  lemma FirstByte(b: seq<Byte>, version: seq<Byte>, entries: seq<seq<Byte>>, rest: seq<Byte>)
    requires |version| == 4 && |entries| < TWO32 && b == Table(version, entries) + rest
    ensures b[0] == version[0]
  {
  }

  lemma {:induction false} BeginsFirst(edits: seq<Edit>)
    ensures (exists i: nat :: i < |edits| && edits[i].at >= 0 && edits[i].at == Begins(edits)
                              && forall j :: 0 <= j < i ==> edits[j].at < 0)
            || (Begins(edits) == 0 && forall j :: 0 <= j < |edits| ==> edits[j].at < 0)
  {
    if edits == [] {
    } else if edits[0].at < 0 {
      BeginsFirst(edits[1..]);
      if i: nat :| i < |edits[1..]| && edits[1..][i].at >= 0 && edits[1..][i].at == Begins(edits[1..])
                   && forall j :: 0 <= j < i ==> edits[1..][j].at < 0 {
        assert edits[i + 1].at == Begins(edits);
        forall j | 0 <= j < i + 1 ensures edits[j].at < 0 { assert j > 0 ==> edits[1..][j - 1] == edits[j]; }
      } else {
        forall j | 0 <= j < |edits| ensures edits[j].at < 0 { assert j > 0 ==> edits[1..][j - 1] == edits[j]; }
      }
    }
  }
}
