/** Whether something falls in a window of time (internal/calendar/timerange.go), and
    every instance that does (internal/calendar/expand.go). Times are seconds, read
    in one zone. */
module Recurrence {
  import opened Text

  // ----- The instances of a rule

  /** A rule's occurrences and its added dates in order, without end when `count` is
      None, and the dates taken away. What the rule says is left to `at`. */
  datatype Rule = Rule(at: nat -> int, count: Option<nat>, gone: set<int>)

  ghost predicate Ordered(r: Rule) {
    forall i, j :: 0 <= i < j && InCount(r, j) ==> r.at(i) < r.at(j)
  }

  predicate InCount(r: Rule, i: nat) { r.count.Some? ==> i < r.count.value }

  /** When an instance begins. */
  ghost predicate Occurs(r: Rule, t: int) {
    t !in r.gone && exists i: nat :: InCount(r, i) && r.at(i) == t
  }

  function Without(r: Rule, skip: set<int>): Rule { r.(gone := r.gone + skip) }

  lemma WithoutOccurs(r: Rule, skip: set<int>)
    ensures Ordered(r) ==> Ordered(Without(r, skip))
    ensures forall t :: Occurs(Without(r, skip), t) <==> Occurs(r, t) && t !in skip
  {
    forall t ensures Occurs(Without(r, skip), t) <==> Occurs(r, t) && t !in skip {
      if i: nat :| InCount(r, i) && r.at(i) == t { assert InCount(Without(r, skip), i) && Without(r, skip).at(i) == t; }
      if i: nat :| InCount(Without(r, skip), i) && Without(r, skip).at(i) == t { assert InCount(r, i) && r.at(i) == t; }
    }
  }

  lemma {:induction false} Climbs(r: Rule, i: nat)
    requires Ordered(r) && InCount(r, i)
    ensures r.at(i) >= r.at(0) + i
  {
    if i == 0 {
    } else {
      Climbs(r, i - 1);
      assert r.at(i - 1) < r.at(i);
    }
  }

  predicate Past(t: int, bound: int, inclusive: bool) { t > bound || (inclusive && t == bound) }

  /** The first instance past a time, which is the only one there may be to look at:
      what comes before it is not past, and what comes after it is later. */
  ghost predicate IsFirstPast(r: Rule, bound: int, inclusive: bool, first: Option<int>) {
    && (first.Some? ==> Occurs(r, first.value) && Past(first.value, bound, inclusive)
                        && forall t :: Occurs(r, t) && Past(t, bound, inclusive) ==> first.value <= t)
    && (first.None? ==> forall t :: Occurs(r, t) ==> !Past(t, bound, inclusive))
  }

  /** Walks the instances to the first past a time. There is an end to it: the times
      climb, and only so many are taken away. */
  method After(r: Rule, bound: int, inclusive: bool) returns (first: Option<int>)
    requires Ordered(r)
    ensures IsFirstPast(r, bound, inclusive, first)
  {
    ghost var left := r.gone;   // what is taken away and not yet come to
    var i := 0;
    while InCount(r, i)
      invariant forall j :: 0 <= j < i && InCount(r, j) ==> r.at(j) in r.gone || !Past(r.at(j), bound, inclusive)
      invariant i > 0 ==> InCount(r, i - 1)
      invariant forall j :: i <= j && InCount(r, j) && r.at(j) in r.gone ==> r.at(j) in left
      decreases |left|, bound + 1 - r.at(0) - i
    {
      var t := r.at(i);
      Climbs(r, i);
      if t !in r.gone && Past(t, bound, inclusive) {
        FoundFirst(r, bound, inclusive, i);
        return Some(t);
      }
      if t in r.gone && Past(t, bound, inclusive) { left := left - {t}; }
      i := i + 1;
    }
    return None;
  }

  lemma FoundFirst(r: Rule, bound: int, inclusive: bool, i: nat)
    requires Ordered(r) && InCount(r, i) && r.at(i) !in r.gone && Past(r.at(i), bound, inclusive)
    requires forall j :: 0 <= j < i && InCount(r, j) ==> r.at(j) in r.gone || !Past(r.at(j), bound, inclusive)
    ensures IsFirstPast(r, bound, inclusive, Some(r.at(i)))
  {
    forall t | Occurs(r, t) && Past(t, bound, inclusive) ensures r.at(i) <= t {
      var j: nat :| InCount(r, j) && r.at(j) == t;
      if j < i { assert r.at(j) in r.gone || !Past(r.at(j), bound, inclusive); }
    }
  }

  /** Every instance from one time to another, both included, in order. */
  ghost predicate IsBetween(r: Rule, from: int, until: int, times: seq<int>) {
    && (forall i, j :: 0 <= i < j < |times| ==> times[i] < times[j])
    && (forall t :: t in times <==> Occurs(r, t) && from <= t <= until)
  }

  /** The same of the first `n` of what the rule says. */
  ghost predicate BetweenSoFar(r: Rule, from: int, until: int, times: seq<int>, n: nat) {
    && (forall i, j :: 0 <= i < j < |times| ==> times[i] < times[j])
    && (forall t :: t in times <==> OccursBy(r, t, n) && from <= t <= until)
  }

  ghost predicate OccursBy(r: Rule, t: int, n: nat) {
    t !in r.gone && exists i: nat :: i < n && InCount(r, i) && r.at(i) == t
  }

  lemma OneMoreBetween(r: Rule, from: int, until: int, times: seq<int>, n: nat)
    requires Ordered(r) && InCount(r, n) && BetweenSoFar(r, from, until, times, n)
    ensures var t := r.at(n);
            BetweenSoFar(r, from, until, if t !in r.gone && from <= t <= until then times + [t] else times, n + 1)
  {
    var t := r.at(n);
    var more := if t !in r.gone && from <= t <= until then times + [t] else times;
    forall u ensures OccursBy(r, u, n + 1) <==> OccursBy(r, u, n) || (u == t && t !in r.gone) {
      if i: nat :| i < n + 1 && InCount(r, i) && r.at(i) == u { assert i < n || u == t; }
      if i: nat :| i < n && InCount(r, i) && r.at(i) == u { assert i < n + 1; }
    }
    forall i | 0 <= i < |times| ensures times[i] < t {
      assert times[i] in times;
      var k: nat :| k < n && InCount(r, k) && r.at(k) == times[i];
      assert r.at(k) < r.at(n);
    }
    assert forall u :: u in more <==> u in times || (u == t && t !in r.gone && from <= t <= until);
  }

  lemma AllBetween(r: Rule, from: int, until: int, times: seq<int>, n: nat)
    requires Ordered(r) && BetweenSoFar(r, from, until, times, n)
    requires !InCount(r, n) || r.at(n) > until
    ensures IsBetween(r, from, until, times)
  {
    forall t | from <= t <= until ensures OccursBy(r, t, n) <==> Occurs(r, t) {
      if i: nat :| InCount(r, i) && r.at(i) == t {
        assert i > n ==> !InCount(r, n) || r.at(n) < r.at(i);
        assert i < n;
      }
    }
  }

  method Between(r: Rule, from: int, until: int) returns (times: seq<int>)
    requires Ordered(r)
    ensures IsBetween(r, from, until, times)
  {
    hide BetweenSoFar, IsBetween;
    times := [];
    NoneBetween(r, from, until);
    var i := 0;
    while InCount(r, i)
      invariant i > 0 ==> InCount(r, i - 1)
      invariant BetweenSoFar(r, from, until, times, i)
      decreases until - r.at(0) - i + 1
    {
      var t := r.at(i);
      Climbs(r, i);
      if t > until { break; }
      OneMoreBetween(r, from, until, times, i);
      if t !in r.gone && from <= t {
        times := times + [t];
      }
      i := i + 1;
    }
    AllBetween(r, from, until, times, i);
  }

  lemma NoneBetween(r: Rule, from: int, until: int)
    ensures BetweenSoFar(r, from, until, [], 0)
  {
  }

  // ----- The window

  /** From `start` to `end`, or without end. */
  datatype Window = Window(start: int, end: Option<int>) {
    predicate EndsAfter(t: int) { end.None? || end.value > t }
    predicate EndsAtOrAfter(t: int) { end.None? || end.value >= t }
    predicate StartsBy(t: int) { start <= t }

    /** Whether one instance overlaps the window. */
    predicate HoldsInstance(at: int, length: int) {
      if length > 0 then at + length > start && EndsAfter(at) else StartsBy(at) && EndsAfter(at)
    }
  }

  /** The constant-work test: only the first instance that could overlap is looked at,
      and that is enough, for instances of any length. */
  method HoldsOne(w: Window, r: Rule, length: int) returns (holds: bool)
    requires Ordered(r)
    ensures holds <==> SomeHolds(w, r, length)
  {
    var first;
    if length > 0 {
      first := After(r, w.start - length, false);
    } else {
      first := After(r, w.start, true);
    }
    holds := first.Some? && w.EndsAfter(first.value);
    FirstDecides(w, r, length, first);
  }

  ghost predicate SomeHolds(w: Window, r: Rule, length: int) {
    exists t :: Occurs(r, t) && w.HoldsInstance(t, length)
  }

  lemma FirstDecides(w: Window, r: Rule, length: int, first: Option<int>)
    requires if length > 0 then IsFirstPast(r, w.start - length, false, first) else IsFirstPast(r, w.start, true, first)
    ensures first.Some? && w.EndsAfter(first.value) <==> SomeHolds(w, r, length)
  {
    if first.Some? && w.EndsAfter(first.value) {
      assert Occurs(r, first.value) && w.HoldsInstance(first.value, length);
    }
    if t :| Occurs(r, t) && w.HoldsInstance(t, length) {
      assert if length > 0 then Past(t, w.start - length, false) else Past(t, w.start, true);
    }
  }

  // ----- Components

  const EVENT := "VEVENT"
  const TODO := "VTODO"
  const JOURNAL := "VJOURNAL"
  const TIMEZONE := "VTIMEZONE"
  const DAY := 24 * 3600

  /** A component whose dates can be read. `rule` is what repeats, with its DTSTART
      the first of its dates, its RDATEs added and its EXDATEs taken away. */
  datatype Comp = Comp(
    name: string, recurrenceId: Option<int>, rule: Option<Rule>,
    start: Option<int>, dated: bool, length: Option<int>, end: Option<int>, due: Option<int>,
    completed: Option<int>, created: Option<int>)

  /** How long each instance lasts. */
  function Duration(c: Comp): int
    requires c.start.Some?
  {
    if c.length.Some? then c.length.value
    else if c.end.Some? then c.end.value - c.start.value
    else if c.due.Some? then c.due.value - c.start.value
    else if c.dated && c.name != TODO then DAY
    else 0
  }

  predicate EventIn(w: Window, c: Comp) {
    c.start.Some? &&
    var length := Duration(c);
    if length > 0 then w.start < c.start.value + length && w.EndsAfter(c.start.value)
    else w.StartsBy(c.start.value) && w.EndsAfter(c.start.value)
  }

  predicate TodoIn(w: Window, c: Comp) {
    var length := if c.length.Some? then c.length.value else 0;
    if c.start.Some? && length != 0 then
      var finish := c.start.value + length;
      w.StartsBy(finish) && (w.EndsAfter(c.start.value) || w.EndsAtOrAfter(finish))
    else if c.start.Some? && c.due.Some? then
      (w.start < c.due.value || w.StartsBy(c.start.value))
      && (w.EndsAfter(c.start.value) || w.EndsAtOrAfter(c.due.value))
    else if c.start.Some? then w.StartsBy(c.start.value) && w.EndsAfter(c.start.value)
    else if c.due.Some? then w.start < c.due.value && w.EndsAtOrAfter(c.due.value)
    else if c.completed.Some? && c.created.Some? then
      (w.StartsBy(c.created.value) || w.StartsBy(c.completed.value))
      && (w.EndsAtOrAfter(c.created.value) || w.EndsAtOrAfter(c.completed.value))
    else if c.completed.Some? then w.StartsBy(c.completed.value) && w.EndsAtOrAfter(c.completed.value)
    else if c.created.Some? then w.EndsAfter(c.created.value)
    else true
  }

  predicate JournalIn(w: Window, c: Comp) {
    c.start.Some? &&
    if c.dated then w.start < c.start.value + DAY && w.EndsAfter(c.start.value)
    else w.StartsBy(c.start.value) && w.EndsAfter(c.start.value)
  }

  predicate OnceIn(w: Window, c: Comp) {
    if c.name == EVENT then EventIn(w, c)
    else if c.name == TODO then TodoIn(w, c)
    else if c.name == JOURNAL then JournalIn(w, c)
    else false
  }

  /** An event that does not repeat is in a window exactly when, as the one instance
      of a rule, it would be. */
  lemma OnceIsAnInstance(w: Window, c: Comp, r: Rule)
    requires c.start.Some? && c.name == EVENT
    requires forall t :: Occurs(r, t) <==> t == c.start.value
    ensures OnceIn(w, c) <==> SomeHolds(w, r, Duration(c))
  {
    assert Occurs(r, c.start.value);
  }

  /** What reading a component demands: one that repeats has a DTSTART. */
  ghost predicate Readable(c: Comp) {
    c.rule.Some? ==> Ordered(c.rule.value) && c.start.Some?
  }

  /** What an object has to be to be stored: besides the time zones, components of one
      kind, which is one of the three. */
  ghost predicate Valid(cal: seq<Comp>, kind: string) {
    && kind in {EVENT, TODO, JOURNAL}
    && forall i :: 0 <= i < |cal| && cal[i].name != TIMEZONE ==> cal[i].name == kind && Readable(cal[i])
  }

  // ----- Overlaps

  /** The occurrences overrides stand for, among the components of some names. */
  function Overridden(cal: seq<Comp>, name: Option<string>): set<int> {
    set i | 0 <= i < |cal| && cal[i].recurrenceId.Some? && (name.None? || name.value == cal[i].name) ::
        cal[i].recurrenceId.value
  }

  /** Whether a component has an instance in a window. */
  ghost predicate CompIn(w: Window, c: Comp, skip: set<int>)
    requires Readable(c)
  {
    if c.rule.Some? then SomeHolds(w, Without(c.rule.value, skip), Duration(c)) else OnceIn(w, c)
  }

  method InRange(w: Window, c: Comp, skip: set<int>) returns (yes: bool)
    requires Readable(c)
    ensures yes <==> CompIn(w, c, skip)
  {
    if c.rule.Some? {
      WithoutOccurs(c.rule.value, skip);
      yes := HoldsOne(w, Without(c.rule.value, skip), Duration(c));
    } else if c.name == EVENT {
      yes := EventIn(w, c);
    } else if c.name == TODO {
      yes := TodoIn(w, c);
    } else if c.name == JOURNAL {
      yes := JournalIn(w, c);
    } else {
      yes := false;
    }
  }

  function Skip(c: Comp, overridden: set<int>): set<int> {
    if c.recurrenceId.None? then overridden else {}
  }

  ghost predicate SomeIn(cal: seq<Comp>, name: string, w: Window)
    requires forall i :: 0 <= i < |cal| && cal[i].name == name ==> Readable(cal[i])
  {
    exists i :: 0 <= i < |cal| && cal[i].name == name && CompIn(w, cal[i], Skip(cal[i], Overridden(cal, Some(name))))
  }

  method Overlaps(cal: seq<Comp>, name: string, w: Window) returns (yes: bool)
    requires forall i :: 0 <= i < |cal| && cal[i].name == name ==> Readable(cal[i])
    ensures yes <==> SomeIn(cal, name, w)
  {
    hide Readable, CompIn;
    var overridden: set<int> := {};
    var i := 0;
    while i < |cal|
      invariant i <= |cal| && overridden == Overridden(cal[..i], Some(name))
    {
      OverriddenMore(cal, i, Some(name));
      if cal[i].name == name && cal[i].recurrenceId.Some? {
        overridden := overridden + {cal[i].recurrenceId.value};
      }
      i := i + 1;
    }
    assert cal[..i] == cal;
    i := 0;
    while i < |cal|
      invariant i <= |cal|
      invariant forall j :: 0 <= j < i && cal[j].name == name ==> !CompIn(w, cal[j], Skip(cal[j], overridden))
    {
      if cal[i].name == name {
        yes := InRange(w, cal[i], Skip(cal[i], overridden));
        if yes { return; }
      }
      i := i + 1;
    }
    return false;
  }

  lemma OverriddenMore(cal: seq<Comp>, i: nat, name: Option<string>)
    requires i < |cal|
    ensures Overridden(cal[..i + 1], name) == Overridden(cal[..i], name)
      + (if cal[i].recurrenceId.Some? && (name.None? || name.value == cal[i].name) then {cal[i].recurrenceId.value}
          else {})
  {
    var more, fewer := cal[..i + 1], cal[..i];
    assert forall j :: 0 <= j < i ==> more[j] == fewer[j];
    assert more[i] == cal[i];
    forall t | t in Overridden(fewer, name) ensures t in Overridden(more, name) {
      var j :| 0 <= j < |fewer| && fewer[j].recurrenceId.Some? && (name.None? || name.value == fewer[j].name)
          && fewer[j].recurrenceId.value == t;
      assert more[j].recurrenceId.value == t;
    }
    forall t | t in Overridden(more, name) && !(cal[i].recurrenceId == Some(t)
        && (name.None? || name.value == cal[i].name))
      ensures t in Overridden(fewer, name) {
      var j :| 0 <= j < |more| && more[j].recurrenceId.Some? && (name.None? || name.value == more[j].name)
          && more[j].recurrenceId.value == t;
      assert fewer[j].recurrenceId.value == t;
    }
    if cal[i].recurrenceId.Some? && (name.None? || name.value == cal[i].name) {
      assert more[i].recurrenceId.value in Overridden(more, name);
    }
  }

  // ----- The table of section 9.9 of RFC 4791

  lemma AloneIn(c: Comp, w: Window)
    requires Readable(c)
    ensures SomeIn([c], c.name, w) <==> CompIn(w, c, {})
  {
    var cal := [c];
    assert cal[0] == c && Skip(c, Overridden(cal, Some(c.name))) <= Overridden(cal, Some(c.name));
    if c.recurrenceId.None? { assert Overridden(cal, Some(c.name)) == {}; }
  }

  /** A task that does not repeat: by its start and its length, by its start and when it is
      due, by one of the two, by when it was done and made, or always. */
  lemma TaskRows(c: Comp, w: Window)
    requires c.name == TODO && c.rule.None?
    ensures var yes, open := SomeIn([c], TODO, w), w.end.None?;
            match (c.start, c.due)
            case (Some(start), due) =>
              if c.length.Some? && c.length.value != 0 then
                var until := start + c.length.value;
                yes <==> w.start <= until && (open || w.end.value > start || w.end.value >= until)
              else if due.Some? then
                yes <==> (w.start < due.value || w.start <= start)
                         && (open || w.end.value > start || w.end.value >= due.value)
              else yes <==> w.start <= start && (open || w.end.value > start)
            case (None, Some(due)) => yes <==> w.start < due && (open || w.end.value >= due)
            case (None, None) =>
              match (c.completed, c.created)
              case (Some(done), Some(made)) =>
                yes <==> (w.start <= made || w.start <= done) && (open || w.end.value >= made || w.end.value >= done)
              case (Some(done), None) => yes <==> w.start <= done && (open || w.end.value >= done)
              case (None, Some(made)) => yes <==> open || w.end.value > made
              case (None, None) => yes
  {
    AloneIn(c, w);
  }

  /** An event that does not repeat, by its start and end, its start and length, its day or
      its start alone. One with no start is in no window. */
  lemma EventRows(c: Comp, w: Window)
    requires c.name == EVENT && c.rule.None?
    ensures var yes, open := SomeIn([c], EVENT, w), w.end.None?;
            match c.start
            case None => !yes
            case Some(start) =>
              if c.length.Some? && c.length.value > 0 then
                yes <==> w.start < start + c.length.value && (open || w.end.value > start)
              else if c.length.None? && c.end.Some? && c.end.value > start then
                yes <==> w.start < c.end.value && (open || w.end.value > start)
              else if c.length.None? && c.end.None? && c.due.None? && c.dated then
                yes <==> w.start < start + 86400 && (open || w.end.value > start)
              else if c.length.None? && c.end.None? && c.due.Some? && c.due.value > start then
                yes <==> w.start < c.due.value && (open || w.end.value > start)
              else yes <==> w.start <= start && (open || w.end.value > start)
  {
    AloneIn(c, w);
  }

  /** A journal entry that does not repeat, by its day or its moment. */
  lemma JournalRows(c: Comp, w: Window)
    requires c.name == JOURNAL && c.rule.None?
    ensures var yes, open := SomeIn([c], JOURNAL, w), w.end.None?;
            match c.start
            case None => !yes
            case Some(start) =>
              if c.dated then yes <==> w.start < start + 86400 && (open || w.end.value > start)
              else yes <==> w.start <= start && (open || w.end.value > start)
  {
    AloneIn(c, w);
  }

  /** How long each instance of one that repeats lasts. */
  lemma LengthRows(c: Comp)
    requires c.start.Some?
    ensures var length := Duration(c);
            match (c.length, c.end, c.due)
            case (Some(n), _, _) => length == n
            case (None, Some(end), _) => c.start.value + length == end
            case (None, None, Some(due)) => c.start.value + length == due
            case (None, None, None) => length == if c.dated && c.name != TODO then 86400 else 0
  {
  }

  /** A component that repeats is in a window when an instance of it is, of any kind it
      may be: one that begins before the window ends and ends after it begins, or, of no
      length, begins in it. */
  lemma RepeatingRows(c: Comp, w: Window)
    requires Readable(c) && c.rule.Some?
    ensures var length := Duration(c);
            SomeIn([c], c.name, w) <==>
            exists t :: Occurs(c.rule.value, t) && (w.end.None? || w.end.value > t)
                        && if length > 0 then w.start < t + length else w.start <= t
  {
    hide Occurs;
    AloneIn(c, w);
    WithoutOccurs(c.rule.value, {});
    var r, length := c.rule.value, Duration(c);
    if t :| Occurs(r, t) && (w.end.None? || w.end.value > t) && if length > 0 then w.start < t + length
        else w.start <= t {
      assert Occurs(Without(r, {}), t) && w.HoldsInstance(t, length);
    }
    if CompIn(w, c, {}) {
      var t :| Occurs(Without(r, {}), t) && w.HoldsInstance(t, length);
      assert Occurs(r, t);
    }
  }

  /** A wider window loses nothing: no event, task or entry, and none that repeats. */
  lemma WiderKeeps(cal: seq<Comp>, name: string, w: Window, wide: Window)
    requires forall i :: 0 <= i < |cal| && cal[i].name == name ==> Readable(cal[i])
    requires wide.start <= w.start && (wide.end.Some? ==> w.end.Some? && w.end.value <= wide.end.value)
    ensures SomeIn(cal, name, w) ==> SomeIn(cal, name, wide)
  {
    hide Readable, Overridden;
    if SomeIn(cal, name, w) {
      var i :| 0 <= i < |cal| && cal[i].name == name && CompIn(w, cal[i], Skip(cal[i], Overridden(cal, Some(name))));
      WiderHolds(cal[i], Skip(cal[i], Overridden(cal, Some(name))), w, wide);
    }
  }

  lemma WiderHolds(c: Comp, skip: set<int>, w: Window, wide: Window)
    requires Readable(c) && CompIn(w, c, skip)
    requires wide.start <= w.start && (wide.end.Some? ==> w.end.Some? && w.end.value <= wide.end.value)
    ensures CompIn(wide, c, skip)
  {
    hide Occurs;
    if c.rule.Some? {
      var t :| Occurs(Without(c.rule.value, skip), t) && w.HoldsInstance(t, Duration(c));
      assert wide.HoldsInstance(t, Duration(c));
    }
  }

  // ----- Expand

  /** A component of an expanded answer: one as it is, or an occurrence of one. */
  datatype Instance = Whole(of: nat) | Occurrence(of: nat, at: int)

  /** What a component comes to in an expanded answer. The search for a repeating
      component's instances begins `length` before the window and has to have an end. */
  ghost predicate Comes(cal: seq<Comp>, w: Window, overrides: set<int>, x: Instance) {
    x.of < |cal| && cal[x.of].name != TIMEZONE && Readable(cal[x.of]) &&
    var c := cal[x.of];
    if c.recurrenceId.Some? || c.rule.None? then x.Whole? && CompIn(w, c, {})
    else
      x.Occurrence? && w.end.Some?
      && Occurs(Without(c.rule.value, overrides), x.at) && w.start - Duration(c) <= x.at <= w.end.value
      && w.HoldsInstance(x.at, Duration(c))
  }

  method Expand(cal: seq<Comp>, w: Window) returns (out: seq<Instance>)
    requires forall i :: 0 <= i < |cal| && cal[i].name != TIMEZONE ==> Readable(cal[i])
    ensures forall x :: x in out <==> Comes(cal, w, Overridden(cal, None), x)
  {
    hide CompIn, Readable, Occurs;
    var overrides: set<int> := {};
    var i := 0;
    while i < |cal|
      invariant i <= |cal| && overrides == Overridden(cal[..i], None)
    {
      OverriddenMore(cal, i, None);
      if cal[i].recurrenceId.Some? {
        overrides := overrides + {cal[i].recurrenceId.value};
      }
      i := i + 1;
    }
    assert cal[..i] == cal;
    out := [];
    i := 0;
    while i < |cal|
      invariant i <= |cal|
      invariant forall x :: x in out <==> x.of < i && Comes(cal, w, overrides, x)
    {
      var more := ExpandOne(cal, w, overrides, i);
      out := out + more;
      i := i + 1;
    }
  }

  method ExpandOne(cal: seq<Comp>, w: Window, overrides: set<int>, i: nat) returns (out: seq<Instance>)
    requires i < |cal| && (cal[i].name != TIMEZONE ==> Readable(cal[i]))
    ensures forall x :: x in out <==> x.of == i && Comes(cal, w, overrides, x)
  {
    hide CompIn, Occurs;
    out := [];
    var c := cal[i];
    if c.name == TIMEZONE { return; }
    if c.recurrenceId.Some? || c.rule.None? {
      var yes := InRange(w, c, {});
      if yes { out := [Whole(i)]; }
      return;
    }
    // With no end the search ends before it begins.
    if w.end.None? { return; }
    var length := Duration(c);
    WithoutOccurs(c.rule.value, overrides);
    var times := Between(Without(c.rule.value, overrides), w.start - length, w.end.value);
    var j := 0;
    while j < |times|
      invariant j <= |times|
      invariant forall x :: x in out <==>
                x.Occurrence? && x.of == i && x.at in times[..j]
                && w.HoldsInstance(x.at, length)
    {
      assert times[..j + 1] == times[..j] + [times[j]];
      if w.HoldsInstance(times[j], length) {
        out := out + [Occurrence(i, times[j])];
      }
      j := j + 1;
    }
    assert times[..j] == times;
  }

  // ----- The two agree

  /** A search that begins `length` before the window misses no instance of a length
      that is not negative. */
  lemma SearchMissesNone(w: Window, t: int, length: int)
    requires w.end.Some? && length >= 0 && w.HoldsInstance(t, length)
    ensures w.start - length <= t <= w.end.value
  {
  }

  ghost predicate YieldsKind(cal: seq<Comp>, kind: string, w: Window) {
    exists x :: Comes(cal, w, Overridden(cal, None), x) && cal[x.of].name == kind
  }

  /** A component that repeats and is not an override: one whose instances are told
      apart, and may be skipped, one by one. */
  predicate Master(c: Comp) {
    c.name != TIMEZONE && c.recurrenceId.None? && c.rule.Some? && c.start.Some?
  }

  /** A component of the kind that is in the window by itself, whatever the others do. */
  ghost predicate FixedIn(cal: seq<Comp>, kind: string, w: Window)
    requires Valid(cal, kind)
  {
    exists i :: 0 <= i < |cal| && cal[i].name == kind && !Master(cal[i]) && CompIn(w, cal[i], {})
  }

  /** An instance the test would count and the expansion would leave out: it overlaps
      the window and no override of its kind stands for it, but the search does not
      come to it or a time zone claims to be its override. */
  predicate Missed(cal: seq<Comp>, kind: string, w: Window, length: int, t: int) {
    && w.HoldsInstance(t, length) && t !in Overridden(cal, Some(kind))
    && (w.end.None? || t < w.start - length || t in Overridden(cal, None))
  }

  ghost predicate SomeMissed(cal: seq<Comp>, kind: string, w: Window) {
    exists i, t :: 0 <= i < |cal| && Master(cal[i]) && Missed(cal, kind, w, Duration(cal[i]), t)
  }

  /** The same object with other rules for what repeats in it. */
  function Repeating(cal: seq<Comp>, rules: seq<Rule>): (r: seq<Comp>)
    requires |rules| == |cal|
    ensures |r| == |cal|
  {
    seq(|cal|, i requires 0 <= i < |cal| => if Master(cal[i]) then cal[i].(rule := Some(rules[i])) else cal[i])
  }

  ghost predicate AllOrdered(rules: seq<Rule>) {
    forall i :: 0 <= i < |rules| ==> Ordered(rules[i])
  }

  ghost predicate Agree(cal: seq<Comp>, kind: string, w: Window)
    requires Valid(cal, kind)
  {
    SomeIn(cal, kind, w) <==> YieldsKind(cal, kind, w)
  }

  /** The test and the expansion agree on an object whatever rules its components repeat by. */
  ghost predicate AgreeHoweverItRepeats(cal: seq<Comp>, kind: string, w: Window)
    requires Valid(cal, kind)
  {
    forall rules :: |rules| == |cal| && AllOrdered(rules) ==>
        Valid(Repeating(cal, rules), kind) && Agree(Repeating(cal, rules), kind, w)
  }

  /** A master's instance in the window that the test counts. */
  ghost predicate Counted(cal: seq<Comp>, kind: string, w: Window, i: nat, t: int)
    requires i < |cal| && Master(cal[i])
  {
    Occurs(cal[i].rule.value, t) && t !in Overridden(cal, Some(kind)) && w.HoldsInstance(t, Duration(cal[i]))
  }

  ghost predicate SomeCounted(cal: seq<Comp>, kind: string, w: Window) {
    exists i, t :: 0 <= i < |cal| && Master(cal[i]) && Counted(cal, kind, w, i, t)
  }

  ghost predicate SomeFound(cal: seq<Comp>, kind: string, w: Window) {
    exists i, t :: 0 <= i < |cal| && Master(cal[i]) && Counted(cal, kind, w, i, t)
                   && !Missed(cal, kind, w, Duration(cal[i]), t)
  }

  lemma OwnAreOverrides(cal: seq<Comp>, kind: string)
    ensures Overridden(cal, Some(kind)) <= Overridden(cal, None)
  {
  }

  /** The test says yes for a component that is in the window by itself, or an instance
      it counts. */
  lemma SomeInIs(cal: seq<Comp>, kind: string, w: Window)
    requires Valid(cal, kind)
    ensures SomeIn(cal, kind, w) <==> FixedIn(cal, kind, w) || SomeCounted(cal, kind, w)
  {
    var own := Overridden(cal, Some(kind));
    forall i | 0 <= i < |cal| && cal[i].name == kind
      ensures Master(cal[i]) ==> (CompIn(w, cal[i], own) <==> exists t :: Counted(cal, kind, w, i, t))
      ensures !Master(cal[i]) ==> (CompIn(w, cal[i], Skip(cal[i], own)) <==> CompIn(w, cal[i], {}))
    {
      if Master(cal[i]) {
        var c := cal[i];
        WithoutOccurs(c.rule.value, own);
        if t :| Counted(cal, kind, w, i, t) {
          assert Occurs(Without(c.rule.value, own), t) && w.HoldsInstance(t, Duration(c));
        }
        if CompIn(w, c, own) {
          var t :| Occurs(Without(c.rule.value, own), t) && w.HoldsInstance(t, Duration(c));
          assert Counted(cal, kind, w, i, t);
        }
      }
    }
    if SomeCounted(cal, kind, w) {
      var i, t :| 0 <= i < |cal| && Master(cal[i]) && Counted(cal, kind, w, i, t);
      assert cal[i].name == kind && CompIn(w, cal[i], Skip(cal[i], own));
    }
  }

  /** The expansion has a component of the kind for the same, less what it misses. */
  lemma YieldsIs(cal: seq<Comp>, kind: string, w: Window)
    requires Valid(cal, kind)
    ensures YieldsKind(cal, kind, w) <==> FixedIn(cal, kind, w) || SomeFound(cal, kind, w)
  {
    hide Ordered;
    var overrides := Overridden(cal, None);
    OwnAreOverrides(cal, kind);
    if FixedIn(cal, kind, w) {
      var i :| 0 <= i < |cal| && cal[i].name == kind && !Master(cal[i]) && CompIn(w, cal[i], {});
      assert Comes(cal, w, overrides, Whole(i));
    }
    if SomeFound(cal, kind, w) {
      var i, t :| 0 <= i < |cal| && Master(cal[i]) && Counted(cal, kind, w, i, t)
          && !Missed(cal, kind, w, Duration(cal[i]), t);
      WithoutOccurs(cal[i].rule.value, overrides);
      assert Comes(cal, w, overrides, Occurrence(i, t));
    }
    if YieldsKind(cal, kind, w) {
      var x :| Comes(cal, w, overrides, x) && cal[x.of].name == kind;
      var c := cal[x.of];
      if Master(c) {
        WithoutOccurs(c.rule.value, overrides);
        assert Counted(cal, kind, w, x.of, x.at) && !Missed(cal, kind, w, Duration(c), x.at);
      } else {
        assert CompIn(w, c, {});
      }
    }
  }

  /** Other rules change neither what is overridden nor what is in the window by itself. */
  lemma RepeatingIs(cal: seq<Comp>, rules: seq<Rule>, kind: string, w: Window)
    requires Valid(cal, kind) && |rules| == |cal| && AllOrdered(rules)
    ensures var r := Repeating(cal, rules);
            && Valid(r, kind) && Overridden(r, Some(kind)) == Overridden(cal, Some(kind))
            && Overridden(r, None) == Overridden(cal, None) && (FixedIn(r, kind, w) <==> FixedIn(cal, kind, w))
            && forall i :: 0 <= i < |cal| ==> (Master(r[i]) <==> Master(cal[i]))
                                              && (Master(cal[i]) ==>
                                                  r[i].rule == Some(rules[i]) && Duration(r[i]) == Duration(cal[i]))
                                              && (!Master(cal[i]) ==> r[i] == cal[i])
  {
    hide Ordered, CompIn;
    var r := Repeating(cal, rules);
    forall name ensures Overridden(r, name) == Overridden(cal, name) {
      SameOverridden(cal, r, name);
      SameOverridden(r, cal, name);
    }
    if FixedIn(cal, kind, w) {
      var i :| 0 <= i < |cal| && cal[i].name == kind && !Master(cal[i]) && CompIn(w, cal[i], {});
      assert r[i] == cal[i];
    }
  }

  lemma SameOverridden(a: seq<Comp>, b: seq<Comp>, name: Option<string>)
    requires |a| == |b| && forall i :: 0 <= i < |a| ==> a[i].recurrenceId == b[i].recurrenceId && a[i].name == b[i].name
    ensures Overridden(a, name) <= Overridden(b, name)
  {
    forall t | t in Overridden(a, name) ensures t in Overridden(b, name) {
      var i :| 0 <= i < |a| && a[i].recurrenceId.Some? && (name.None? || name.value == a[i].name)
          && a[i].recurrenceId.value == t;
      assert b[i].recurrenceId.value == t;
    }
  }

  const NEVER := Rule((i: nat) => 0, Some(0), {})

  function Once(t: int): Rule { Rule((i: nat) => t + i, Some(1), {}) }

  lemma OnceOccurs(t: int)
    ensures Ordered(Once(t)) && forall u :: Occurs(Once(t), u) <==> u == t
  {
    assert InCount(Once(t), 0) && Once(t).at(0) == t;
  }

  /** Only the i-th component has an instance, and it is at `t`. */
  function OnlyOnce(n: nat, i: nat, t: int): seq<Rule> {
    seq(n, j => if j == i then Once(t) else NEVER)
  }

  /** One instance that would be missed is enough for a rule on which they part. */
  lemma MissedParts(cal: seq<Comp>, kind: string, w: Window, i: nat, t: int)
    requires Valid(cal, kind) && i < |cal| && Master(cal[i]) && Missed(cal, kind, w, Duration(cal[i]), t)
    requires !FixedIn(cal, kind, w)
    ensures !AgreeHoweverItRepeats(cal, kind, w)
  {
    hide Missed, Ordered, FixedIn, SomeIn, YieldsKind, Occurs;
    var rules := OnlyOnce(|cal|, i, t);
    OnceOccurs(t);
    forall j | 0 <= j < |rules| ensures Ordered(rules[j]) && forall u :: Occurs(rules[j], u) <==> j == i && u == t {
      if j != i { NeverOccurs(); }
    }
    var r := Repeating(cal, rules);
    RepeatingIs(cal, rules, kind, w);
    SomeInIs(r, kind, w);
    YieldsIs(r, kind, w);
    MissedSame(cal, r, kind, w);
    assert Counted(r, kind, w, i, t) by { MissedHolds(cal, kind, w, Duration(cal[i]), t); }
    assert !Agree(r, kind, w);
  }

  lemma NeverOccurs()
    ensures Ordered(NEVER) && forall u :: !Occurs(NEVER, u)
  {
  }

  lemma MissedHolds(cal: seq<Comp>, kind: string, w: Window, length: int, t: int)
    requires Missed(cal, kind, w, length, t)
    ensures w.HoldsInstance(t, length) && t !in Overridden(cal, Some(kind))
  {
  }

  lemma MissedSame(cal: seq<Comp>, r: seq<Comp>, kind: string, w: Window)
    requires Overridden(r, Some(kind)) == Overridden(cal, Some(kind)) && Overridden(r, None) == Overridden(cal, None)
    ensures forall length, t :: Missed(r, kind, w, length, t) <==> Missed(cal, kind, w, length, t)
  {
  }

  /** The test that looks at one instance and the expansion that writes every one out:
      on an object that could be stored they agree however its components repeat if and
      only if it has a component in the window by itself or no instance could be missed. */
  lemma AgreesExactly(cal: seq<Comp>, kind: string, w: Window)
    requires Valid(cal, kind)
    ensures AgreeHoweverItRepeats(cal, kind, w) <==> FixedIn(cal, kind, w) || !SomeMissed(cal, kind, w)
  {
    hide Missed, Ordered, FixedIn, SomeIn, YieldsKind, Counted;
    if FixedIn(cal, kind, w) || !SomeMissed(cal, kind, w) {
      forall rules | |rules| == |cal| && AllOrdered(rules)
        ensures Valid(Repeating(cal, rules), kind) && Agree(Repeating(cal, rules), kind, w)
      {
        var r := Repeating(cal, rules);
        RepeatingIs(cal, rules, kind, w);
        SomeInIs(r, kind, w);
        YieldsIs(r, kind, w);
        MissedSame(cal, r, kind, w);
      }
    } else {
      var i, t :| 0 <= i < |cal| && Master(cal[i]) && Missed(cal, kind, w, Duration(cal[i]), t);
      MissedParts(cal, kind, w, i, t);
    }
  }

  // ----- When none can be missed

  ghost predicate LengthsNotNegative(cal: seq<Comp>) {
    forall i :: 0 <= i < |cal| && Master(cal[i]) ==> Duration(cal[i]) >= 0
  }

  /** No time zone claims to be the override of an instance that would be in the window
      and that no real override stands for. */
  ghost predicate ZonesOutside(cal: seq<Comp>, kind: string, w: Window) {
    forall i, z ::
      0 <= i < |cal| && Master(cal[i]) && z in Overridden(cal, None) && z !in Overridden(cal, Some(kind)) ==>
      !w.HoldsInstance(z, Duration(cal[i]))
  }

  /** With a window that ends and no length negative, only a time zone's RECURRENCE-ID
      hides an instance from the expansion. */
  lemma OnlyZonesHide(cal: seq<Comp>, kind: string, w: Window)
    requires w.end.Some? && LengthsNotNegative(cal)
    ensures SomeMissed(cal, kind, w) <==> !ZonesOutside(cal, kind, w)
  {
    if !ZonesOutside(cal, kind, w) {
      var i, z :| 0 <= i < |cal| && Master(cal[i]) && z in Overridden(cal, None) && z !in Overridden(cal, Some(kind))
                  && w.HoldsInstance(z, Duration(cal[i]));
      assert Missed(cal, kind, w, Duration(cal[i]), z);
    }
    if SomeMissed(cal, kind, w) {
      var i, t :| 0 <= i < |cal| && Master(cal[i]) && Missed(cal, kind, w, Duration(cal[i]), t);
      SearchMissesNone(w, t, Duration(cal[i]));
    }
  }

  /** An instant later than all of some. */
  lemma {:induction false} Later(times: set<int>, from: int) returns (t: int)
    ensures t >= from && forall u :: u in times ==> u < t
    decreases |times|
  {
    t := from;
    if u :| u in times {
      var rest := times - {u};
      t := Later(rest, from);
      if t <= u { t := u + 1; }
      assert forall v :: v in times ==> v == u || v in rest;
    }
  }

  /** A window with no end hides everything that repeats. */
  lemma NoEndHides(cal: seq<Comp>, kind: string, w: Window)
    requires w.end.None?
    ensures SomeMissed(cal, kind, w) <==> exists i :: 0 <= i < |cal| && Master(cal[i])
  {
    if i :| 0 <= i < |cal| && Master(cal[i]) {
      var t := Later(Overridden(cal, Some(kind)), w.start);
      assert Missed(cal, kind, w, Duration(cal[i]), t);
    }
  }

  /** So for such a window and lengths: they agree however the object repeats exactly
      when something is in the window by itself or every time zone's override is
      outside it. */
  lemma ZonesExactly(cal: seq<Comp>, kind: string, w: Window)
    requires Valid(cal, kind) && w.end.Some? && LengthsNotNegative(cal)
    ensures AgreeHoweverItRepeats(cal, kind, w) <==> FixedIn(cal, kind, w) || ZonesOutside(cal, kind, w)
  {
    AgreesExactly(cal, kind, w);
    OnlyZonesHide(cal, kind, w);
  }

  /** And on every object of that kind, with the rules it has: it overlaps the window
      exactly when expanding it yields a component of its kind. */
  lemma OverlapsIsExpand(cal: seq<Comp>, kind: string, w: Window)
    requires Valid(cal, kind) && w.end.Some? && LengthsNotNegative(cal) && ZonesOutside(cal, kind, w)
    ensures SomeIn(cal, kind, w) <==> YieldsKind(cal, kind, w)
  {
    hide SomeIn, YieldsKind, FixedIn, Missed, Counted, Readable;
    OnlyZonesHide(cal, kind, w);
    SomeInIs(cal, kind, w);
    YieldsIs(cal, kind, w);
  }

  // ----- Where they part

  function Meeting(r: Rule, start: int, length: int): Comp {
    Comp(EVENT, None, Some(r), Some(start), false, Some(length), None, None, None, None)
  }

  /** Whether the two agree on every rule there could be, for one window and length. */
  ghost predicate AgreeOnEveryRule(w: Window, length: int) {
    forall r: Rule, start: int :: Ordered(r) ==>
      (SomeIn([Meeting(r, start, length)], EVENT, w) <==> YieldsKind([Meeting(r, start, length)], EVENT, w))
  }

  lemma MeetingIn(r: Rule, start: int, length: int, w: Window)
    requires Ordered(r)
    ensures SomeIn([Meeting(r, start, length)], EVENT, w) <==> SomeHolds(w, r, length)
    ensures YieldsKind([Meeting(r, start, length)], EVENT, w) <==>
            w.end.Some?
            && exists t :: Occurs(r, t) && w.start - length <= t <= w.end.value && w.HoldsInstance(t, length)
  {
    var cal := [Meeting(r, start, length)];
    assert Overridden(cal, None) == {} && Overridden(cal, Some(EVENT)) == {};
    assert Without(r, {}) == r by { assert r.gone + {} == r.gone; }
    assert cal[0].name == EVENT && Readable(cal[0]);
    assert CompIn(w, cal[0], {}) <==> SomeHolds(w, r, length);
    if w.end.Some? {
      if t :| Occurs(r, t) && w.start - length <= t <= w.end.value && w.HoldsInstance(t, length) {
        assert Comes(cal, w, {}, Occurrence(0, t));
      }
    }
  }

  /** They agree on every rule exactly when the window ends and either the length is
      not negative or the window is empty: the search through the instances starts
      `length` before the window -- after its start, for a negative one -- and a
      window with no end has none of them. */
  lemma WindowsExactly(w: Window, length: int)
    ensures AgreeOnEveryRule(w, length) <==> w.end.Some? && (length >= 0 || w.end.value <= w.start)
  {
    if w.end.Some? && (length >= 0 || w.end.value <= w.start) {
      forall r: Rule, start: int | Ordered(r)
        ensures SomeIn([Meeting(r, start, length)], EVENT, w) <==> YieldsKind([Meeting(r, start, length)], EVENT, w)
      {
        MeetingIn(r, start, length, w);
        if t :| Occurs(r, t) && w.HoldsInstance(t, length) {
          assert length >= 0;
          SearchMissesNone(w, t, length);
        }
      }
    } else {
      var r := Once(w.start);
      OnceOccurs(w.start);
      MeetingIn(r, w.start, length, w);
      assert Occurs(r, w.start) && w.HoldsInstance(w.start, length);
      assert SomeIn([Meeting(r, w.start, length)], EVENT, w);
    }
  }

  /** A time zone that claims to be the override of one occurrence. */
  function Skips(t: int): Comp {
    Comp(TIMEZONE, Some(t), None, None, false, None, None, None, None, None)
  }

  /** Time zones that each claim to be an override, and one event that repeats. */
  function Zoned(zones: seq<int>, r: Rule, start: int, length: int): seq<Comp> {
    seq(|zones|, i requires 0 <= i < |zones| => Skips(zones[i])) + [Meeting(r, start, length)]
  }

  lemma ZonedIs(zones: seq<int>, r: Rule, start: int, length: int, w: Window)
    requires Ordered(r)
    ensures var cal := Zoned(zones, r, start, length);
            && Valid(cal, EVENT) && !FixedIn(cal, EVENT, w) && Overridden(cal, Some(EVENT)) == {}
            && (forall t :: t in Overridden(cal, None) <==> t in zones)
            && forall i :: 0 <= i < |cal| ==> (Master(cal[i]) <==> i == |zones|)
  {
    hide Ordered;
    var cal := Zoned(zones, r, start, length);
    assert cal[|zones|] == Meeting(r, start, length);
    forall i | 0 <= i < |zones| ensures cal[i] == Skips(zones[i]) {}
    forall t | t in zones ensures t in Overridden(cal, None) {
      var i :| 0 <= i < |zones| && zones[i] == t;
      assert cal[i].recurrenceId.value in Overridden(cal, None);
    }
  }

  /** A time zone that carries a RECURRENCE-ID takes an occurrence out of the expansion
      that the test still counts: the two agree whatever the event repeats by exactly
      when none of the instants the zones claim would be in the window. */
  lemma ZoneOverride(w: Window, zones: seq<int>, r: Rule, start: int, length: int)
    requires Ordered(r) && w.end.Some? && length >= 0
    ensures Valid(Zoned(zones, r, start, length), EVENT)
    ensures AgreeHoweverItRepeats(Zoned(zones, r, start, length), EVENT, w)
            <==> forall z :: z in zones ==> !w.HoldsInstance(z, length)
  {
    hide Ordered, FixedIn, AgreeHoweverItRepeats;
    var cal := Zoned(zones, r, start, length);
    ZonedIs(zones, r, start, length, w);
    assert Duration(cal[|zones|]) == length;
    ZonesExactly(cal, EVENT, w);
  }
}
