/** internal/auth/throttle.go: failures answered one at a time, for everyone at once. */
module Throttling {
  import opened Text

  /** The spacing of answered failures, how many go unspaced, and how long one may be
      held. */
  datatype Config = Config(every: int, burst: int, maxWait: int)

  /** How far an idle queue runs behind: an idle period earns back the burst, and the
      slot about to be taken is one of it. */
  function Earned(cfg: Config): int { (cfg.burst - 1) * cfg.every }

  /** A failure's turn: its slot in the queue, and when it is answered. */
  datatype Turn = Turn(slot: int, at: int)

  datatype Reserved = Reserved(next: int, turn: Option<Turn>)

  function Max(a: int, b: int): int { if a < b then b else a }

  /** What a failure at `now` is given, and where the queue is left. */
  function Reserve(cfg: Config, next: int, now: int): Reserved {
    var slot := Max(next, now - Earned(cfg));
    if slot - now > cfg.maxWait then Reserved(slot, None)
    else Reserved(slot + cfg.every, Some(Turn(slot, Max(now, slot))))
  }

  /** A failure that is answered waits no longer than it may, and is not answered
      before its slot. */
  lemma WaitsNoLonger(cfg: Config, next: int, now: int)
    requires cfg.maxWait >= 0
    ensures var r := Reserve(cfg, next, now);
            r.turn.Some? ==> 0 <= r.turn.value.at - now <= cfg.maxWait && r.turn.value.slot <= r.turn.value.at
  {
  }

  class Throttle {
    const cfg: Config
    var next: int   // the earliest moment the next failure may be answered

    constructor (cfg: Config, next: int)
      ensures this.cfg == cfg && this.next == next
    {
      this.cfg, this.next := cfg, next;
    }

    /** Takes the next slot and says how long its holder must wait, or that it would
        be too long. */
    method TakeSlot(now: int) returns (wait: int, ok: bool)
      modifies this
      ensures var r := Reserve(cfg, old(next), now);
              && next == r.next && (ok <==> r.turn.Some?)
              && (ok ==> now + wait == r.turn.value.at && wait >= 0)
      ensures var idle := now - (cfg.burst - 1) * cfg.every;
              var slot := if old(next) < idle then idle else old(next);
              && (ok <==> slot <= now + cfg.maxWait)
              && next == (if ok then slot + cfg.every else slot)
              && (ok ==> wait == if slot <= now then 0 else slot - now)
    {
      var earliest := now - (cfg.burst - 1) * cfg.every;
      if next < earliest {
        next := earliest;
      }
      wait := next - now;
      if wait > cfg.maxWait { return 0, false; }
      next := next + cfg.every;
      if wait < 0 { wait := 0; }
      ok := true;
    }

    /** A success is answered at once and takes no slot; a failure is answered in its
        turn, or refused. */
    method Delay(success: bool, now: int) returns (answered: Option<int>)
      modifies this
      ensures success ==> answered == Some(now) && next == old(next)
      ensures !success ==>
                var r := Reserve(cfg, old(next), now);
                next == r.next && answered == if r.turn.Some? then Some(r.turn.value.at) else None
      ensures !success ==>
                var idle := now - (cfg.burst - 1) * cfg.every;
                var slot := if old(next) < idle then idle else old(next);
                && next == (if slot <= now + cfg.maxWait then slot + cfg.every else slot)
                && answered == if slot > now + cfg.maxWait then None else if slot <= now then Some(now) else Some(slot)
    {
      if success { return Some(now); }
      var wait, ok := TakeSlot(now);
      if !ok { return None; }
      return Some(now + wait);
    }
  }

  /** Failures come one spacing after another: of two in a row the second's slot is at
      least a spacing after the first's, and just that when the queue is not idle. */
  lemma Spaced(cfg: Config, next: int, now: int, later: int)
    requires Reserve(cfg, next, now).turn.Some?
    requires Reserve(cfg, Reserve(cfg, next, now).next, later).turn.Some?
    ensures var first := Reserve(cfg, next, now);
            var second := Reserve(cfg, first.next, later);
            && second.turn.value.slot >= first.turn.value.slot + cfg.every
            && (later - (cfg.burst - 1) * cfg.every <= first.turn.value.slot + cfg.every ==>
                  second.turn.value.slot == first.turn.value.slot + cfg.every)
  {
  }

  // ----- Any run of any number of callers

  predicate InWindow(turn: Option<Turn>, from: int, length: nat) {
    turn.Some? && from <= turn.value.at <= from + length
  }

  /** How many of a run's failures are answered in a closed window. The moments they
      come at are in no order: callers read the clock before they take the lock. */
  function Answered(cfg: Config, next: int, nows: seq<int>, from: int, length: nat): nat
    decreases |nows|
  {
    if nows == [] then 0
    else
      var r := Reserve(cfg, next, nows[0]);
      (if InWindow(r.turn, from, length) then 1 else 0) + Answered(cfg, r.next, nows[1..], from, length)
  }

  /** The slots of what is answered in the window are spaced, and none is earlier than
      the window by more than the burst. */
  lemma {:induction false} SlotsSpaced(cfg: Config, next: int, nows: seq<int>, from: int, length: nat)
    requires cfg.every > 0 && cfg.burst >= 1
    ensures var k := Answered(cfg, next, nows, from, length);
            k > 0 ==> (k - 1) * cfg.every <= from + length - Max(next, from - Earned(cfg))
    decreases |nows|
  {
    EarnedNotNegative(cfg);
    hide Earned;
    if nows == [] {
    } else {
      var r := Reserve(cfg, next, nows[0]);
      SlotsSpaced(cfg, r.next, nows[1..], from, length);
      Times(Answered(cfg, r.next, nows[1..], from, length) - 1, cfg.every);
    }
  }

  lemma EarnedNotNegative(cfg: Config)
    requires cfg.every > 0 && cfg.burst >= 1
    ensures Earned(cfg) >= 0
  {
  }

  lemma Times(k: int, e: int)
    ensures (k + 1) * e == k * e + e
  {
  }

  /** Any closed window holds at most the burst and one more for every spacing that
      fits in it. */
  lemma AtMost(cfg: Config, next: int, nows: seq<int>, from: int, length: nat)
    requires cfg.every > 0 && cfg.burst >= 1
    ensures Answered(cfg, next, nows, from, length) <= cfg.burst + length / cfg.every
  {
    SlotsSpaced(cfg, next, nows, from, length);
    var k := Answered(cfg, next, nows, from, length);
    if k > 0 {
      Differ(k - 1, cfg.burst - 1, cfg.every);
      Quotient(k - cfg.burst, length, cfg.every);
    }
  }

  lemma Differ(a: int, b: int, e: int)
    ensures (a - b) * e == a * e - b * e
  {
  }

  lemma Quotient(q: int, length: nat, e: int)
    requires e > 0 && q * e <= length
    ensures q <= length / e
  {
    var d := length / e;
    if q > d {
      Scales(d + 1, q, e);
      Times(d, e);
    }
  }

  /** No failure is ever answered when even an idle queue would hold it too long. */
  lemma {:induction false} NoneAnswered(cfg: Config, next: int, nows: seq<int>, from: int, length: nat)
    requires -Earned(cfg) > cfg.maxWait
    ensures Answered(cfg, next, nows, from, length) == 0
    decreases |nows|
  {
    hide Earned;
    if nows == [] {
    } else {
      NoneAnswered(cfg, Reserve(cfg, next, nows[0]).next, nows[1..], from, length);
    }
  }

  /** With a burst of none or fewer a failure is still answered, after the spacings it
      is short of, when it may be held so long: then a window of no length holds one. */
  lemma BurstOfNone(cfg: Config, now: int)
    requires cfg.every > 0 && cfg.burst <= 0 && (1 - cfg.burst) * cfg.every <= cfg.maxWait
    ensures Answered(cfg, now, [now], now + (1 - cfg.burst) * cfg.every, 0) == 1
  {
    assert [now][1..] == [];
    Times(-cfg.burst, cfg.every);
    Scales(0, 1 - cfg.burst, cfg.every);
    EarnedIs(cfg);
    hide Earned;
  }

  lemma EarnedIs(cfg: Config)
    ensures -Earned(cfg) == (1 - cfg.burst) * cfg.every
  {
  }

  /** What a window of a length may hold. */
  function Bound(cfg: Config, length: nat): nat
    requires cfg.every > 0
  {
    Max(0, cfg.burst + length / cfg.every)
  }

  /** The bound holds of every window of every run. */
  ghost predicate AlwaysAtMost(cfg: Config)
    requires cfg.every > 0
  {
    forall next, nows, from, length :: Answered(cfg, next, nows, from, length) <= Bound(cfg, length)
  }

  /** It does if and only if the burst is one at least or no failure is ever answered,
      an idle queue being too far behind. */
  lemma AtMostExactly(cfg: Config)
    requires cfg.every > 0
    ensures AlwaysAtMost(cfg) <==> cfg.burst >= 1 || (1 - cfg.burst) * cfg.every > cfg.maxWait
  {
    if cfg.burst >= 1 {
      forall next, nows, from, length: nat ensures Answered(cfg, next, nows, from, length) <= Bound(cfg, length) {
        AtMost(cfg, next, nows, from, length);
      }
    } else if (1 - cfg.burst) * cfg.every > cfg.maxWait {
      EarnedIs(cfg);
      forall next, nows, from, length: nat ensures Answered(cfg, next, nows, from, length) <= Bound(cfg, length) {
        NoneAnswered(cfg, next, nows, from, length);
      }
    } else {
      BurstOfNone(cfg, 0);
      assert Bound(cfg, 0) == 0;
    }
  }

  /** And no bound below it holds for a window of no length: a burst of failures at
      once is all answered at once, from a queue that has been idle. */
  lemma {:induction false} BurstAtOnce(cfg: Config, next: int, now: int, k: nat)
    requires cfg.every > 0 && cfg.maxWait >= 0 && k <= cfg.burst
    requires next <= now - (k - 1) * cfg.every
    ensures Answered(cfg, next, seq(k, _ => now), now, 0) == k
    decreases k
  {
    if k == 0 {
    } else {
      var nows := seq(k, _ => now);
      assert nows[1..] == seq(k - 1, _ => now);
      Scales(k - 1, cfg.burst - 1, cfg.every);
      Scales(0, k - 1, cfg.every);
      Times(k - 2, cfg.every);
      hide Earned;
      BurstAtOnce(cfg, Reserve(cfg, next, now).next, now, k - 1);
    }
  }

  /** So many failures, a spacing apart. */
  function Spacings(cfg: Config, at: int, n: nat): seq<int>
    decreases n
  {
    if n == 0 then [] else [at] + Spacings(cfg, at + cfg.every, n - 1)
  }

  /** One that finds its slot come is answered at once. */
  lemma AnsweredAtOnce(cfg: Config, next: int, now: int)
    requires cfg.maxWait >= 0 && now - (cfg.burst - 1) * cfg.every <= next <= now
    ensures Reserve(cfg, next, now) == Reserved(next + cfg.every, Some(Turn(next, now)))
  {
  }

  lemma {:induction false} EachAsItComes(cfg: Config, next: int, n: nat, from: int, length: nat)
    requires cfg.every > 0 && cfg.maxWait >= 0 && cfg.burst >= 1
    requires from <= next && (n > 0 ==> next + (n - 1) * cfg.every <= from + length)
    ensures Answered(cfg, next, Spacings(cfg, next, n), from, length) == n
    decreases n
  {
    EarnedNotNegative(cfg);
    hide Earned;
    if n == 0 {
    } else {
      var nows := Spacings(cfg, next, n);
      assert nows[1..] == Spacings(cfg, next + cfg.every, n - 1);
      Times(n - 2, cfg.every);
      Scales(0, n - 1, cfg.every);
      EarnedIs(cfg);
      Times(-cfg.burst, cfg.every);
      AnsweredAtOnce(cfg, next, next);
      hide Reserve;
      EachAsItComes(cfg, next + cfg.every, n - 1, from, length);
    }
  }

  predicate Spans(n: nat, e: int, length: nat) { n * e <= length }

  /** A queue as far behind as so many slots. */
  predicate Behind(cfg: Config, next: int, now: int, k: nat) { next == now - (k - 1) * cfg.every }

  lemma {:induction false} BurstThenEach(cfg: Config, next: int, now: int, k: nat, n: nat, length: nat)
    requires cfg.every > 0 && cfg.maxWait >= 0 && k <= cfg.burst && cfg.burst >= 1
    requires Behind(cfg, next, now, k) && Spans(n, cfg.every, length)
    ensures Answered(cfg, next, seq(k, _ => now) + Spacings(cfg, now + cfg.every, n), now, length) == k + n
    decreases k
  {
    hide Reserve, Spans, Spacings, Behind;
    var after := Spacings(cfg, now + cfg.every, n);
    if k == 0 {
      assert seq(0, _ => now) + after == after;
      AfterTheBurst(cfg, next, now, n, length);
    } else {
      var nows := seq(k, _ => now) + after;
      assert nows[0] == now && nows[1..] == seq(k - 1, _ => now) + after;
      InTurn(cfg, next, now, k);
      BurstThenEach(cfg, next + cfg.every, now, k - 1, n, length);
    }
  }

  lemma AfterTheBurst(cfg: Config, next: int, now: int, n: nat, length: nat)
    requires cfg.every > 0 && cfg.maxWait >= 0 && cfg.burst >= 1
    requires Behind(cfg, next, now, 0) && Spans(n, cfg.every, length)
    ensures Answered(cfg, next, Spacings(cfg, now + cfg.every, n), now, length) == n
  {
    Times(n - 1, cfg.every);
    EachAsItComes(cfg, now + cfg.every, n, now, length);
  }

  lemma InTurn(cfg: Config, next: int, now: int, k: nat)
    requires cfg.every > 0 && cfg.maxWait >= 0 && 1 <= k <= cfg.burst && Behind(cfg, next, now, k)
    ensures Behind(cfg, next + cfg.every, now, k - 1)
    ensures Reserve(cfg, next, now) == Reserved(next + cfg.every, Some(Turn(next, now)))
  {
    Scales(k - 1, cfg.burst - 1, cfg.every);
    Scales(0, k - 1, cfg.every);
    Times(k - 2, cfg.every);
    AnsweredAtOnce(cfg, next, now);
  }

  /** The bound is reached in a window of any number of spacings: a burst of failures at
      once, and one more as each spacing ends, are all answered as they come. */
  lemma BoundReached(cfg: Config, now: int, n: nat, length: nat)
    requires cfg.every > 0 && cfg.maxWait >= 0 && cfg.burst >= 1 && length == n * cfg.every
    ensures exists next, nows :: Answered(cfg, next, nows, now, length) == cfg.burst + length / cfg.every
  {
    var next := now - (cfg.burst - 1) * cfg.every;
    BurstThenEach(cfg, next, now, cfg.burst, n, length);
    WholeSpacings(n, length, cfg.every);
  }

  lemma WholeSpacings(n: nat, length: nat, e: int)
    requires e > 0 && length == n * e
    ensures length / e == n
  {
    Quotient(n, length, e);
    More(n, length / e, e);
  }

  lemma More(n: int, d: int, e: int)
    requires e > 0
    ensures d > n ==> d * e > n * e
  {
    if d > n {
      Scales(n + 1, d, e);
      Times(n, e);
    }
  }

  lemma Scales(a: int, b: int, e: int)
    requires a <= b && e > 0
    ensures a * e <= b * e
  {
    assert (b - a) * e >= 0;
  }
}
