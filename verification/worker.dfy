/** The one-slot worker timer: at most one ingredient trip is under way at a time. */
module WorkerTimer {

  /** `remaining` counts the ticks until the worker is back. */
  datatype Worker = Worker(fetching: bool, remaining: int)

  const Idle: Worker := Worker(false, 0)

  /** A worker on a trip has at least one tick to go; an idle one has none. */
  predicate WorkerValid(w: Worker)
  {
    if w.fetching then w.remaining >= 1 else w.remaining == 0
  }

  /** Whether the worker comes back on this tick. */
  predicate Returns(w: Worker)
  {
    w.fetching && w.remaining - 1 <= 0
  }

  /** The worker after one tick. */
  function Countdown(w: Worker): (w': Worker)
    ensures WorkerValid(w) ==> WorkerValid(w')
    ensures Returns(w) ==> w' == Idle
    ensures w.fetching && !Returns(w) ==> w' == Worker(true, w.remaining - 1)
    ensures !w.fetching ==> w' == w
  {
    if !w.fetching then w
    else if w.remaining - 1 <= 0 then Idle
    else w.(remaining := w.remaining - 1)
  }

  /** The worker after `n` ticks. */
  function CountdownN(w: Worker, n: nat): Worker
    decreases n
  {
    if n == 0 then w else CountdownN(Countdown(w), n - 1)
  }

  /** The ingredient units delivered during `n` ticks while the owned car's yield is `size`. */
  function DeliveredN(w: Worker, n: nat, size: nat): nat
    decreases n
  {
    if n == 0 then 0 else (if Returns(w) then size else 0) + DeliveredN(Countdown(w), n - 1, size)
  }

  /** A worker sent on a trip of `speed` ticks is away for the first `speed` - 1 ticks,
      delivering nothing, and is idle again after exactly `speed` ticks, having
      delivered one load. */
  lemma {:induction false} TripTakesSpeedTicks(speed: nat, size: nat, k: nat)
    requires 1 <= speed && k <= speed
    ensures CountdownN(Worker(true, speed), k) == if k < speed then Worker(true, speed - k) else Idle
    ensures DeliveredN(Worker(true, speed), k, size) == if k < speed then 0 else size
  {
    if k > 0 {
      var w := Worker(true, speed);
      assert CountdownN(w, k) == CountdownN(Countdown(w), k - 1);
      assert DeliveredN(w, k, size) == (if Returns(w) then size else 0) + DeliveredN(Countdown(w), k - 1, size);
      if speed == 1 {
        assert Countdown(w) == Idle && Returns(w);
      } else {
        assert Countdown(w) == Worker(true, speed - 1) && !Returns(w);
        TripTakesSpeedTicks(speed - 1, size, k - 1);
      }
    }
  }

  /** An idle worker stays idle and delivers nothing. */
  lemma {:induction false} IdleStaysIdle(n: nat, size: nat)
    ensures CountdownN(Idle, n) == Idle && DeliveredN(Idle, n, size) == 0
  {
    if n > 0 {
      IdleStaysIdle(n - 1, size);
    }
  }
}
