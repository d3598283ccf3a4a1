/** The sliding window that limits how often a process is restarted
    (`crates/init/src/process.rs`). Times are seconds held in 64 bits. */
module RestartLimiter {

  const RESTART_EVENTS_COUNT := 5
  const RESTART_MIN_DELAY := 10

  type Time = t: nat | t < 0x1_0000_0000_0000_0000

  /** Unsigned subtraction wraps around. */
  function WrapSub(a: Time, b: Time): Time {
    if a >= b then a - b else a + 0x1_0000_0000_0000_0000 - b
  }

  /** Restarts are refused while the last five starts fall within less than ten seconds. */
  predicate MayRestart(restart: bool, events: seq<Time>) {
    restart &&
    !(|events| == RESTART_EVENTS_COUNT &&
      WrapSub(events[RESTART_EVENTS_COUNT - 1], events[0]) < RESTART_MIN_DELAY)
  }

  function Record(events: seq<Time>, now: Time): seq<Time> {
    (if |events| >= RESTART_EVENTS_COUNT then events[1..] else events) + [now]
  }

  /** The window after a series of starts. */
  function Window(ts: seq<Time>): seq<Time> {
    if ts == [] then [] else Record(Window(ts[..|ts| - 1]), ts[|ts| - 1])
  }

  /** What a process line holds between starts. */
  class ProcessSpec {
    const restart: bool
    var restartEvents: seq<Time>

    constructor (restart: bool)
      ensures this.restart == restart && restartEvents == Window([])
    {
      this.restart := restart;
      restartEvents := [];
    }

    method Start(now: Time, ghost starts: seq<Time>)
      requires restartEvents == Window(starts)
      modifies this
      ensures restartEvents == Window(starts + [now])
    {
      assert (starts + [now])[..|starts|] == starts;
      if |restartEvents| >= RESTART_EVENTS_COUNT { restartEvents := restartEvents[1..]; }
      restartEvents := restartEvents + [now];
    }
  }

  /** The window is exactly the last five starts, or all of them when fewer. */
  lemma {:induction false} WindowIsLast(ts: seq<Time>)
    ensures Window(ts) == ts[if |ts| > RESTART_EVENTS_COUNT then |ts| - RESTART_EVENTS_COUNT else 0..]
  {
    if ts != [] {
      var before := ts[..|ts| - 1];
      WindowIsLast(before);
      assert before + [ts[|ts| - 1]] == ts;
    }
  }

  // ----- how many starts

  ghost predicate NonDecreasing(ts: seq<Time>) { forall i, j :: 0 <= i <= j < |ts| ==> ts[i] <= ts[j] }

  /** Every start after the first was allowed by the window at that moment. */
  ghost predicate Allowed(ts: seq<Time>) { forall i :: 1 <= i < |ts| ==> MayRestart(true, Window(ts[..i])) }

  /** The clock did not go back between the first and the last start of any window that a later
      start was judged by. */
  ghost predicate ClockForward(ts: seq<Time>) { forall i :: 0 <= i && i + 5 < |ts| ==> ts[i] <= ts[i + 4] }

  /** Five starts followed by another one take at least ten seconds. */
  ghost predicate Spaced(ts: seq<Time>) {
    forall i :: 0 <= i && i + 5 < |ts| ==> ts[i + 4] - ts[i] >= RESTART_MIN_DELAY
  }

  lemma WindowSpans(ts: seq<Time>, i: nat)
    requires Allowed(ts) && i + 5 < |ts|
    ensures WrapSub(ts[i + 4], ts[i]) >= RESTART_MIN_DELAY
  {
    var before := ts[..i + 5];
    WindowIsLast(before);
    assert MayRestart(true, Window(before));
    assert Window(before)[0] == ts[i] && Window(before)[4] == ts[i + 4];
  }

  /** The limiter keeps starts apart exactly when the clock does not go back within a window: the
      subtraction wraps around. */
  lemma SpacedIffClockForward(ts: seq<Time>)
    requires Allowed(ts)
    ensures Spaced(ts) <==> ClockForward(ts)
  {
    forall i | 0 <= i && i + 5 < |ts| ensures ts[i] <= ts[i + 4] <==> ts[i + 4] - ts[i] >= RESTART_MIN_DELAY {
      WindowSpans(ts, i);
    }
  }

  lemma {:induction false} BlocksTakeTime(ts: seq<Time>, i: nat, k: nat)
    requires Spaced(ts) && i + 4 * k + 1 < |ts|
    ensures ts[i + 4 * k] - ts[i] >= RESTART_MIN_DELAY * k
    decreases k
  {
    if k > 0 {
      BlocksTakeTime(ts, i, k - 1);
      assert ts[i + 4 * (k - 1) + 4] - ts[i + 4 * (k - 1)] >= RESTART_MIN_DELAY;
    }
  }

  /** With a clock that goes forward over every window, any consecutive starts i..j of which the
      last is the latest, and that span E seconds, number at most 4 * (E / 10) + 5. */
  lemma RateBound(ts: seq<Time>, i: nat, j: nat)
    requires Allowed(ts) && ClockForward(ts) && i <= j < |ts| && forall k :: i <= k <= j ==> ts[k] <= ts[j]
    ensures j - i + 1 <= 4 * ((ts[j] - ts[i]) / RESTART_MIN_DELAY) + 5
  {
    SpacedIffClockForward(ts);
    var k := (ts[j] - ts[i]) / RESTART_MIN_DELAY;
    if j - i + 1 > 4 * k + 5 {
      BlocksTakeTime(ts, i, k + 1);
    }
  }

  lemma OrderedRateBound(ts: seq<Time>, i: nat, j: nat)
    requires Allowed(ts) && NonDecreasing(ts) && i <= j < |ts|
    ensures j - i + 1 <= 4 * ((ts[j] - ts[i]) / RESTART_MIN_DELAY) + 5
  {
    RateBound(ts, i, j);
  }

  /** So no more than five starts fall within less than ten seconds. */
  lemma FiveInTenSeconds(ts: seq<Time>, i: nat, j: nat)
    requires Allowed(ts) && ClockForward(ts) && i <= j < |ts| && forall k :: i <= k <= j ==> ts[k] <= ts[j]
    requires ts[j] - ts[i] < RESTART_MIN_DELAY
    ensures j - i + 1 <= 5
  {
    RateBound(ts, i, j);
  }

  /** The bound is reached, for every span: starts bunched by four, the last one at once. */
  function Bunched(k: nat): seq<Time>
    requires 10 * k < 0x1_0000_0000_0000_0000
  {
    seq(4 * k + 5, i requires 0 <= i < 4 * k + 5 => if i < 4 * k + 4 then 10 * (i / 4) else 10 * k)
  }

  lemma BunchedInOrder(k: nat)
    requires 10 * k < 0x1_0000_0000_0000_0000
    ensures NonDecreasing(Bunched(k))
  {
    var ts := Bunched(k);
    forall i, j | 0 <= i <= j < |ts| ensures ts[i] <= ts[j] {
      assert i / 4 <= j / 4;
    }
  }

  lemma BunchedAllowed(k: nat, i: nat)
    requires 10 * k < 0x1_0000_0000_0000_0000 && 1 <= i < |Bunched(k)|
    ensures MayRestart(true, Window(Bunched(k)[..i]))
  {
    var ts := Bunched(k);
    WindowIsLast(ts[..i]);
    if i >= 5 {
      var w := Window(ts[..i]);
      assert w[0] == ts[i - 5] && w[4] == ts[i - 1];
      assert (i - 1) / 4 == (i - 5) / 4 + 1;
    }
  }

  lemma BoundIsReached(k: nat)
    requires 10 * k < 0x1_0000_0000_0000_0000
    ensures var ts := Bunched(k);
            && NonDecreasing(ts) && Allowed(ts)
            && |ts| == 4 * ((ts[|ts| - 1] - ts[0]) / RESTART_MIN_DELAY) + 5
  {
    BunchedInOrder(k);
    forall i | 1 <= i < |Bunched(k)| { BunchedAllowed(k, i); }
  }

  /** With a clock that goes back over a window the limit is void: six starts within five
      seconds. */
  lemma ClockBackVoidsLimit()
    ensures var ts: seq<Time> := [5, 4, 3, 2, 1, 0];
            Allowed(ts) && !ClockForward(ts) && |ts| > 4 * (5 / RESTART_MIN_DELAY) + 5
  {
    var ts: seq<Time> := [5, 4, 3, 2, 1, 0];
    forall i | 1 <= i < |ts| ensures MayRestart(true, Window(ts[..i])) {
      WindowIsLast(ts[..i]);
    }
    assert ts[0] > ts[0 + 4];
  }
}
