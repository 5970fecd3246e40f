/**
 * The ball-spawning rule of the page script (`spawnIfNeeded` in `index.js`):
 * a small state machine over the number of balls and the time the last one
 * was added. The more balls there already are, the sooner another follows,
 * until the count passes `MAX_BALLS`. Creating the ball's body and adding it
 * to the world are outside this model; only the count and the clock matter.
 */
module Spawner {
  import opened Wrappers

  /** Above this many balls nothing more is spawned. */
  const MAX_BALLS: nat := 30

  /** The number of balls and the frame time (in milliseconds) at which the last one was added. */
  datatype SpawnState = SpawnState(count: nat, lastAdded: real)

  /**
   * One ball, with the clock of the last addition at zero: the start the page
   * evidently intends. In `index.js` the first frame reads the clock before
   * its initialisation and throws, so the initialisation is never reached;
   * `PageAsWrittenNeverSpawns` models that order.
   */
  const INITIAL: SpawnState := SpawnState(1, 0.0)

  /**
   * One call at frame time `now`. A spawn adds exactly one ball and restarts
   * the clock at `now`; otherwise nothing changes. Above `MAX_BALLS` nothing
   * is ever spawned.
   */
  function SpawnIfNeeded(s: SpawnState, now: real): (r: SpawnState)
    ensures r == s || r == SpawnState(s.count + 1, now)
    ensures s.count > MAX_BALLS ==> r == s
  {
    if s.count > MAX_BALLS then s
    else
      var elapsed := now - s.lastAdded;
      var crowded := s.count > 10 && elapsed > 300.0;
      var several := s.count > 3 && elapsed > 600.0;
      var overdue := elapsed > 1000.0;
      if crowded || several || overdue then SpawnState(s.count + 1, now) else s
  }

  /** The waiting time before the next ball, as a function of how many there are. */
  function Threshold(count: nat): (t: real)
    ensures 300.0 <= t <= 1000.0
  {
    if count > 10 then 300.0 else if count > 3 then 600.0 else 1000.0
  }

  /** A ball is spawned exactly when there are at most `MAX_BALLS` and more than `Threshold(count)` has elapsed. */
  lemma SpawnsIffPastThreshold(s: SpawnState, now: real)
    ensures SpawnIfNeeded(s, now) != s <==>
            s.count <= MAX_BALLS && now - s.lastAdded > Threshold(s.count)
    ensures SpawnIfNeeded(s, now) != s ==> SpawnIfNeeded(s, now) == SpawnState(s.count + 1, now)
  {
  }

  /** More than a second since the last ball always spawns another while there are at most `MAX_BALLS`. */
  lemma OverdueSpawns(s: SpawnState, now: real)
    requires s.count <= MAX_BALLS && now - s.lastAdded > 1000.0
    ensures SpawnIfNeeded(s, now) == SpawnState(s.count + 1, now)
  {
  }

  /** Within 300 ms of the last ball nothing is spawned, however many balls there are. */
  lemma TooSoonNeverSpawns(s: SpawnState, now: real)
    requires now - s.lastAdded <= 300.0
    ensures SpawnIfNeeded(s, now) == s
  {
  }

  /** A second call at the same instant never spawns again: the clock was just restarted. */
  lemma SameInstantIdempotent(s: SpawnState, now: real)
    ensures SpawnIfNeeded(SpawnIfNeeded(s, now), now) == SpawnIfNeeded(s, now)
  {
  }

  /** Calls at the given frame times, one after the other. */
  function Run(s: SpawnState, times: seq<real>): (r: SpawnState)
    ensures s.count <= r.count <= s.count + |times|
    decreases |times|
  {
    if times == [] then s else Run(SpawnIfNeeded(s, times[0]), times[1..])
  }

  /** Starting with at most `MAX_BALLS + 1` balls, no sequence of calls ever exceeds `MAX_BALLS + 1`. */
  lemma {:induction false} RunBounded(s: SpawnState, times: seq<real>)
    requires s.count <= MAX_BALLS + 1
    ensures Run(s, times).count <= MAX_BALLS + 1
    decreases |times|
  {
    if times != [] {
      RunBounded(SpawnIfNeeded(s, times[0]), times[1..]);
    }
  }

  /** From the page's starting state, there are never more than 31 balls. */
  lemma InitialRunBounded(times: seq<real>)
    ensures Run(INITIAL, times).count <= 31
  {
    RunBounded(INITIAL, times);
  }

  /**
   * One animation frame, with the clock already initialised: `spawnIfNeeded`
   * is called once per ball, over a list that grows while it is walked, so a
   * ball spawned in the frame gets its own call too. The very first frame
   * has no time (`None`) and every comparison against it fails. All calls of
   * a frame share one `now`, so a frame spawns at most one ball and acts
   * exactly like a single call.
   */
  method Frame(s: SpawnState, time: Option<real>) returns (r: SpawnState)
    ensures time.None? || s.count == 0 ==> r == s
    ensures time.Some? && s.count > 0 ==> r == SpawnIfNeeded(s, time.value)
    ensures r.count <= s.count + 1
  {
    r := s;
    if time.None? {
      return;
    }
    var now := time.value;
    var k := 0;
    SameInstantIdempotent(s, now);
    while k < r.count
      invariant k == 0 ==> r == s
      invariant k > 0 ==> r == SpawnIfNeeded(s, now)
      invariant k <= r.count
      invariant s.count == 0 ==> k == 0
      decreases r.count - k + (if k == 0 then 1 else 0)
    {
      r := SpawnIfNeeded(r, now);
      k := k + 1;
    }
  }

  /** Once the page has run for a second, its first extra ball appears. */
  lemma InitialSpawnsAfterOneSecond(now: real)
    requires now > 1000.0
    ensures SpawnIfNeeded(INITIAL, now) == SpawnState(2, now)
    ensures Run(INITIAL, [now]).count == 2
  {
  }

  /**
   * The page as `index.js` orders it. The first frame runs while the module is
   * still being evaluated, before `let timeLastAdded = 0` has run, so the clock
   * is `None`: a binding that throws a `ReferenceError` when read.
   */
  datatype PageState = PageState(count: nat, clock: Option<real>)

  /** A call either returns with a new state or throws. */
  datatype Outcome = Done(state: PageState) | Threw

  /** One ball, and the clock not yet initialised. */
  const PAGE_START: PageState := PageState(1, None)

  /**
   * `spawnIfNeeded` with a clock that may be uninitialised. Every path past
   * the count guard reads the clock, so at most `MAX_BALLS` balls and no clock
   * means the call throws.
   */
  function SpawnAsWritten(s: PageState, now: real): (r: Outcome)
    ensures s.clock.None? ==> (r.Threw? <==> s.count <= MAX_BALLS)
    ensures r.Done? ==> r.state.clock.Some? == s.clock.Some? && s.count <= r.state.count <= s.count + 1
  {
    if s.count > MAX_BALLS then Done(s)
    else
      match s.clock
      case None => Threw
      case Some(last) =>
        var t := SpawnIfNeeded(SpawnState(s.count, last), now);
        Done(PageState(t.count, Some(t.lastAdded)))
  }

  /** Once the clock is initialised, the page's call is exactly the rule `SpawnIfNeeded`. */
  lemma SpawnAsWrittenOnceInitialised(count: nat, last: real, now: real)
    ensures var t := SpawnIfNeeded(SpawnState(count, last), now);
            SpawnAsWritten(PageState(count, Some(last)), now) == Done(PageState(t.count, Some(t.lastAdded)))
  {
  }

  /**
   * One frame of the page: the calls for each ball in turn, where an
   * exception ends the frame and the state stays as it was. With the clock
   * initialised, the frame acts like a single call (see `Frame`). A frame
   * without a time changes nothing either way: its calls throw or compare
   * against a missing time, which always fails.
   */
  function FrameAsWritten(s: PageState, time: Option<real>): (r: PageState)
    ensures s.clock.None? && s.count <= MAX_BALLS ==> r == s
    ensures s.count <= r.count <= s.count + 1
  {
    if s.count == 0 || time.None? then s
    else
      match SpawnAsWritten(s, time.value)
      case Threw => s
      case Done(t) => t
  }

  /** With the clock initialised, a timed frame of the page is one call of the rule `SpawnIfNeeded`, as `Frame` shows for the loop. */
  lemma FrameAsWrittenOnceInitialised(count: nat, last: real, now: real)
    requires count > 0
    ensures var t := SpawnIfNeeded(SpawnState(count, last), now);
            FrameAsWritten(PageState(count, Some(last)), Some(now)) == PageState(t.count, Some(t.lastAdded))
  {
    SpawnAsWrittenOnceInitialised(count, last, now);
  }

  /** The page's frames, one per entry of `times`. */
  function RunAsWritten(s: PageState, times: seq<Option<real>>): (r: PageState)
    ensures s.count <= r.count
    decreases |times|
  {
    if times == [] then s else RunAsWritten(FrameAsWritten(s, times[0]), times[1..])
  }

  /**
   * As written, every frame's first call reads the uninitialised clock and
   * throws, the clock's `let` is never reached, and the page stays at one ball
   * for ever.
   */
  lemma {:induction false} PageAsWrittenNeverSpawns(times: seq<Option<real>>)
    ensures SpawnAsWritten(PAGE_START, 0.0) == Threw
    ensures RunAsWritten(PAGE_START, times) == PAGE_START
    decreases |times|
  {
    if times != [] {
      assert FrameAsWritten(PAGE_START, times[0]) == PAGE_START;
      PageAsWrittenNeverSpawns(times[1..]);
    }
  }
}
