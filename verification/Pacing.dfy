/** Traffic shaping: how many frames a transfer emits, how its jitter is drawn, and when frames leave. */
module Pacing {
  import opened Bytes

  const U64_MAX: nat := U64_RANGE - 1

  datatype Ladder = PowerOfTwo | Multiple(n: nat) | NoLadder

  datatype Config = Config(ladder: Ladder, minFrames: nat, jitterFrames: nat)

  // ---- the plan ---------------------------------------------------------

  /** The least power of two from `p` on that is at least `n`. */
  function DoubleUpTo(p: nat, n: nat): (r: nat)
    requires p >= 1
    ensures r >= n && r >= p && (r == p || r < 2 * n)
    decreases n - p
  {
    if p >= n then p else DoubleUpTo(2 * p, n)
  }

  /** `checked_next_power_of_two`, falling back to the count itself beyond 64 bits; likewise the
      checked multiple. */
  function Quantised(ladder: Ladder, real_: nat): nat {
    match ladder
    case PowerOfTwo => var p := DoubleUpTo(1, real_); if p <= U64_MAX then p else real_
    case Multiple(n) =>
      if n == 0 then real_
      else var q := DivCeil(real_, n) * n; if q <= U64_MAX then q else real_
    case NoLadder => real_
  }

  /** The frames to emit for `real_` data frames and a jitter draw of at most the configured size. */
  function Plan(c: Config, real_: nat, jitter: nat): nat
    requires jitter <= c.jitterFrames
  {
    Max(Min(Max(Quantised(c.ladder, real_), c.minFrames) + jitter, U64_MAX), real_)
  }

  /** Cover is only ever added, no more of it than ladder, minimum and jitter ask for, and the count
      always fits. */
  lemma PlanCovers(c: Config, real_: nat, jitter: nat)
    requires real_ <= U64_MAX && jitter <= c.jitterFrames
    ensures real_ <= Plan(c, real_, jitter) <= U64_MAX
    ensures c.minFrames <= U64_MAX ==> Plan(c, real_, jitter) >= c.minFrames
    ensures Plan(c, real_, jitter) <= Max(Quantised(c.ladder, real_), c.minFrames) + c.jitterFrames
  {
  }

  lemma {:induction false} DoubleMonotone(p: nat, a: nat, b: nat)
    requires p >= 1 && a <= b
    ensures DoubleUpTo(p, a) <= DoubleUpTo(p, b)
    decreases b - p
  {
    if p < a { DoubleMonotone(2 * p, a, b); }
  }

  lemma QuantisedMonotone(ladder: Ladder, a: nat, b: nat)
    requires a <= b <= U64_MAX
    ensures a <= Quantised(ladder, a) <= Quantised(ladder, b)
  {
    match ladder
    case PowerOfTwo =>
      DoubleMonotone(1, a, b);
      if DoubleUpTo(1, a) <= U64_MAX < DoubleUpTo(1, b) { DoublesMeet(1, a, b); }
    case Multiple(n) => if n > 0 { MultipleMonotone(n, a, b); }
    case NoLadder =>
  }

  /** If the powers differ, the smaller one lies at or below the larger count. */
  lemma {:induction false} DoublesMeet(p: nat, a: nat, b: nat)
    requires p >= 1 && a <= b && DoubleUpTo(p, a) < DoubleUpTo(p, b)
    ensures DoubleUpTo(p, a) <= b
    decreases b - p
  {
    if p < a { DoublesMeet(2 * p, a, b); }
  }

  lemma MultipleMonotone(n: nat, a: nat, b: nat)
    requires n > 0 && a <= b <= U64_MAX
    ensures a <= Quantised(Multiple(n), a) <= Quantised(Multiple(n), b)
  {
    var p, q := DivCeil(a, n), DivCeil(b, n);
    if q < p { Product(q, p - 1, n, n); }
    if p < q { Product(p, q - 1, n, n); Product(p, q, n, n); }
  }

  /** For one jitter draw, more data never means fewer frames. */
  lemma PlanMonotone(c: Config, a: nat, b: nat, jitter: nat)
    requires a <= b <= U64_MAX && jitter <= c.jitterFrames
    ensures Plan(c, a, jitter) <= Plan(c, b, jitter)
  {
    QuantisedMonotone(c.ladder, a, b);
  }

  /** The power-of-two ladder alone costs less than the payload again. */
  lemma LadderUnderTwice(real_: nat)
    requires 1 <= real_ <= U64_MAX
    ensures Plan(Config(PowerOfTwo, 0, 0), real_, 0) < 2 * real_
  {
  }

  // ---- the draw ---------------------------------------------------------

  /** Draws below this are accepted. */
  function Zone(bound: nat): nat
    requires bound > 0
  {
    U64_MAX - U64_MAX % bound
  }

  /** Rejection sampling over the words the generator hands out; `None` if they run out first. */
  method RandomBelow(bound: nat, words: seq<nat>) returns (r: Option<nat>)
    ensures bound <= 1 ==> r == Some(0)
    ensures bound > 1 ==> r == match FirstAccepted(bound, words) case Some(v) => Some(v % bound) case None => None
    ensures bound > 0 && r.Some? ==> r.value < bound
  {
    if bound <= 1 { return Some(0); }
    var i := 0;
    while i < |words|
      invariant i <= |words| && FirstAccepted(bound, words) == FirstAccepted(bound, words[i..])
    {
      if words[i] < Zone(bound) { return Some(words[i] % bound); }
      assert words[i..][1..] == words[i + 1..];
      i := i + 1;
    }
    r := None;
  }

  function FirstAccepted(bound: nat, words: seq<nat>): Option<nat>
    requires bound > 0
  {
    if words == [] then None else if words[0] < Zone(bound) then Some(words[0]) else FirstAccepted(bound, words[1..])
  }

  /** How many values below `n` leave remainder `r`. */
  function Count(n: nat, bound: nat, r: nat): nat
    requires bound > 0
  {
    if n == 0 then 0 else Count(n - 1, bound, r) + (if (n - 1) % bound == r then 1 else 0)
  }

  lemma {:induction false} CountBlock(q: nat, bound: nat, r: nat, k: nat)
    requires bound > 0 && r < bound && k <= bound
    ensures Count(q * bound + k, bound, r) == Count(q * bound, bound, r) + (if k > r then 1 else 0)
    decreases k
  {
    if k > 0 {
      CountBlock(q, bound, r, k - 1);
      DivModUnique(q * bound + (k - 1), bound, q, k - 1);
    }
  }

  lemma {:induction false} CountBlocks(q: nat, bound: nat, r: nat)
    requires bound > 0 && r < bound
    ensures Count(q * bound, bound, r) == q
    decreases q
  {
    if q > 0 {
      CountBlocks(q - 1, bound, r);
      CountBlock(q - 1, bound, r, bound);
      Distribute(q - 1, 1, bound);
    }
  }

  /** Every remainder is left by the same number of accepted words: the draw is uniform. */
  lemma DrawIsUniform(bound: nat, r: nat)
    requires 0 < bound <= U64_MAX && r < bound
    ensures Zone(bound) > 0 && Count(Zone(bound), bound, r) == Zone(bound) / bound
  {
    var q := U64_MAX / bound;
    assert U64_MAX == q * bound + U64_MAX % bound;
    CountBlocks(q, bound, r);
    DivModUnique(q * bound, bound, q, 0);
    assert U64_MAX % bound < U64_MAX by { if bound < U64_MAX { assert U64_MAX % bound < bound; } }
  }

  // ---- the schedule -----------------------------------------------------

  /** A frame's slot is the later of the schedule and the present, and the next one is due an
      interval after it. */
  class Pacer {
    var next: nat
    const interval: nat

    constructor (start: nat, step: nat)
      ensures next == start && interval == step
    {
      next, interval := start, step;
    }

    /** Called at `now`; the slot is when the frame becomes due. */
    method Tick(now: nat) returns (slot: nat)
      modifies this
      ensures slot == Max(old(next), now) && next == slot + interval
    {
      if next > now {
        slot := next;
        next := next + interval;
      } else {
        slot := now;
        next := now + interval;
      }
    }
  }

  /** One frame: when the pacer was asked, the slot it gave, and when the frame left. */
  datatype Frame = Frame(asked: nat, slot: nat, left: nat)

  /** A sequence of frames paced from `next` on: each is asked for after the one before it left, and
      leaves at its slot or, if the sleep or the link is late, after it. */
  ghost predicate Paced(fs: seq<Frame>, next: nat, interval: nat) {
    fs == [] ||
    (&& fs[0].slot == Max(next, fs[0].asked) && fs[0].left >= fs[0].slot
     && (|fs| > 1 ==> fs[1].asked >= fs[0].left)
     && Paced(fs[1..], fs[0].slot + interval, interval))
  }

  lemma {:induction false} PacedAt(fs: seq<Frame>, next: nat, interval: nat, i: nat)
    requires Paced(fs, next, interval) && i < |fs|
    ensures fs[i].left >= fs[i].slot >= fs[i].asked
    ensures i + 1 < |fs| ==> fs[i + 1].slot >= fs[i].slot + interval && fs[i + 1].slot >= fs[i].left
    decreases i
  {
    if i > 0 { PacedAt(fs[1..], fs[0].slot + interval, interval, i - 1); }
  }

  /** Slots are at least an interval apart, however late the caller is. */
  lemma {:induction false} SlotsApart(fs: seq<Frame>, next: nat, interval: nat, i: nat, j: nat)
    requires Paced(fs, next, interval) && i <= j < |fs|
    ensures fs[j].slot >= fs[i].slot + (j - i) * interval
    decreases j
  {
    if i < j {
      SlotsApart(fs, next, interval, i, j - 1);
      PacedAt(fs, next, interval, j - 1);
      assert (j - i) * interval == (j - 1 - i) * interval + interval;
    }
  }

  /** No burst: however late frames fall, between any two that leave within `window` of each other
      there are fewer others than intervals in the window. */
  lemma NoBurst(fs: seq<Frame>, next: nat, interval: nat, i: nat, j: nat, window: nat)
    requires Paced(fs, next, interval) && i < j < |fs| && fs[j].left < fs[i].left + window
    ensures (j - i - 1) * interval < window
  {
    PacedAt(fs, next, interval, i);
    PacedAt(fs, next, interval, j);
    SlotsApart(fs, next, interval, i + 1, j);
  }
}
