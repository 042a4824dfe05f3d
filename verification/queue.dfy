/** The customer queue: arrivals at the tail, and one tick of waiting with departures. */
module Queue {

  /** A waiting customer; `waited` counts the ticks spent in the queue. */
  datatype Customer = Customer(id: int, waited: int)

  /** A customer who has waited this many ticks leaves without being served. */
  const Patience: int := 10

  /** `n` new customers with consecutive ids from `firstId`, none of whom has waited yet. */
  function Arrivals(firstId: int, n: nat): (r: seq<Customer>)
    ensures |r| == n
    ensures forall i :: 0 <= i < n ==> r[i] == Customer(firstId + i, 0)
  {
    if n == 0 then [] else Arrivals(firstId, n - 1) + [Customer(firstId + n - 1, 0)]
  }

  /** Whether a customer runs out of patience on the next tick. */
  predicate Leaves(c: Customer)
  {
    c.waited + 1 >= Patience
  }

  function Aged(c: Customer): Customer
  {
    c.(waited := c.waited + 1)
  }

  /** The queue after one tick: every customer has waited one more tick, and those
      who ran out of patience are gone; the others keep their order. */
  function AgeQueue(q: seq<Customer>): (r: seq<Customer>)
    ensures |r| <= |q|
    ensures forall c :: c in r ==> c.waited < Patience
  {
    if q == [] then []
    else
      var last := q[|q| - 1];
      AgeQueue(q[..|q| - 1]) + (if Leaves(last) then [] else [Aged(last)])
  }

  /** How many customers of `q` leave on the next tick. */
  function LeaveCount(q: seq<Customer>): (n: nat)
    ensures n <= |q|
  {
    if q == [] then 0
    else LeaveCount(q[..|q| - 1]) + (if Leaves(q[|q| - 1]) then 1 else 0)
  }

  predicate IdsIncreasing(q: seq<Customer>)
  {
    forall i, j :: 0 <= i < j < |q| ==> q[i].id < q[j].id
  }

  predicate IdsBelow(q: seq<Customer>, bound: int)
  {
    forall c :: c in q ==> c.id < bound
  }

  /** Nobody has waited longer than anyone ahead of them. */
  predicate WaitsNonIncreasing(q: seq<Customer>)
  {
    forall i, j :: 0 <= i < j < |q| ==> q[i].waited >= q[j].waited
  }

  /** Read from the tail: the last customer's id is below `bound` and they have waited
      between `minWait` and `Patience` - 1 ticks, and the customers ahead of them satisfy
      the same with the last customer's id as the bound and wait as the least wait.
      `QueueShapedMeans` states what this amounts to. */
  predicate QueueShaped(q: seq<Customer>, bound: int, minWait: int)
    decreases |q|
  {
    q == [] ||
    var last := q[|q| - 1];
    last.id < bound && minWait <= last.waited < Patience && QueueShaped(q[..|q| - 1], last.id, last.waited)
  }

  /** What holds of the queue between two operations of the game: it is ordered by id,
      which is arrival order, every id was handed out already, those ahead have waited
      at least as long as those behind, and everyone still waiting has waited at least
      one tick and has not run out of patience. */
  predicate QueueValid(q: seq<Customer>, nextId: int)
  {
    QueueShaped(q, nextId, 1)
  }

  /** Every customer either stays (aged by one tick) or leaves. */
  lemma {:induction false} AgeQueueCount(q: seq<Customer>)
    ensures |AgeQueue(q)| + LeaveCount(q) == |q|
  {
    if q != [] {
      AgeQueueCount(q[..|q| - 1]);
    }
  }

  /** The survivors are exactly the customers who do not leave, each aged by one tick. */
  lemma {:induction false} AgeQueueMembers(q: seq<Customer>)
    ensures forall d :: d in q && !Leaves(d) ==> Aged(d) in AgeQueue(q)
    ensures forall c :: c in AgeQueue(q) ==> Customer(c.id, c.waited - 1) in q
  {
    if q != [] {
      var init := q[..|q| - 1];
      AgeQueueMembers(init);
      assert q == init + [q[|q| - 1]];
    }
  }

  /** A well-shaped queue is ordered by strictly increasing id, all its ids are below
      `bound`, waits never increase from head to tail, and every wait lies between
      `minWait` and `Patience` - 1. */
  lemma {:induction false} QueueShapedMeans(q: seq<Customer>, bound: int, minWait: int)
    requires QueueShaped(q, bound, minWait)
    ensures IdsIncreasing(q) && IdsBelow(q, bound) && WaitsNonIncreasing(q)
    ensures forall c :: c in q ==> minWait <= c.waited < Patience
    decreases |q|
  {
    if q != [] {
      var init, last := q[..|q| - 1], q[|q| - 1];
      QueueShapedMeans(init, last.id, last.waited);
      forall i, j | 0 <= i < j < |q|
        ensures q[i].id < q[j].id && q[i].waited >= q[j].waited
      {
        assert q[i] == init[i] && init[i] in init;
        if j < |q| - 1 {
          assert q[j] == init[j];
        }
      }
      forall c | c in q
        ensures c.id < bound && minWait <= c.waited < Patience
      {
        if c != last {
          var i :| 0 <= i < |q| && q[i] == c;
          assert q[i] == init[i] && init[i] in init;
        }
      }
    }
  }

  /** Conversely, every queue ordered by id with its ids below `bound`, its waits never
      increasing from head to tail and between `minWait` and `Patience` - 1 is well shaped. */
  lemma {:induction false} QueueShapedFromOrder(q: seq<Customer>, bound: int, minWait: int)
    requires IdsIncreasing(q) && IdsBelow(q, bound) && WaitsNonIncreasing(q)
    requires forall c :: c in q ==> minWait <= c.waited < Patience
    ensures QueueShaped(q, bound, minWait)
    decreases |q|
  {
    if q != [] {
      var init, last := q[..|q| - 1], q[|q| - 1];
      assert q == init + [last];
      assert last in q;
      forall c | c in init
        ensures c.id < last.id && last.waited <= c.waited < Patience
      {
        var i :| 0 <= i < |init| && init[i] == c;
        assert q[i] == c;
      }
      assert IdsIncreasing(init) && WaitsNonIncreasing(init) by {
        forall i, j | 0 <= i < j < |init|
          ensures init[i].id < init[j].id && init[i].waited >= init[j].waited
        {
          assert init[i] == q[i] && init[j] == q[j];
        }
      }
      QueueShapedFromOrder(init, last.id, last.waited);
    }
  }

  /** Raising the bound and lowering the least wait keep the shape. */
  lemma QueueShapedRelax(q: seq<Customer>, bound: int, bound': int, minWait: int, minWait': int)
    requires QueueShaped(q, bound, minWait) && bound <= bound' && minWait' <= minWait
    ensures QueueShaped(q, bound', minWait')
  {
  }

  /** Fresh arrivals behind a well-shaped queue keep it well shaped, with the id counter
      advanced past them. */
  lemma {:induction false} ArrivalsKeepShape(q: seq<Customer>, nextId: int, n: nat)
    requires QueueShaped(q, nextId, 0)
    ensures QueueShaped(q + Arrivals(nextId, n), nextId + n, 0)
  {
    if n == 0 {
      assert q + Arrivals(nextId, n) == q;
    } else {
      ArrivalsKeepShape(q, nextId, n - 1);
      var longer := q + Arrivals(nextId, n);
      assert longer[..|longer| - 1] == q + Arrivals(nextId, n - 1);
    }
  }

  /** Serving from the head keeps the rest of the queue well shaped. */
  lemma {:induction false} SuffixKeepsShape(q: seq<Customer>, bound: int, minWait: int, k: nat)
    requires QueueShaped(q, bound, minWait) && k <= |q|
    ensures QueueShaped(q[k..], bound, minWait)
    decreases |q|
  {
    if k < |q| {
      var init := q[..|q| - 1];
      SuffixKeepsShape(init, q[|q| - 1].id, q[|q| - 1].waited, k);
      assert q[k..][..|q[k..]| - 1] == init[k..];
    }
  }

  /** One tick of waiting raises the least wait by one and keeps the order and the bound. */
  lemma {:induction false} AgeQueueKeepsShape(q: seq<Customer>, bound: int, minWait: int)
    requires QueueShaped(q, bound, minWait)
    ensures QueueShaped(AgeQueue(q), bound, minWait + 1)
    decreases |q|
  {
    if q != [] {
      var init, last := q[..|q| - 1], q[|q| - 1];
      AgeQueueKeepsShape(init, last.id, last.waited);
      if Leaves(last) {
        assert AgeQueue(q) == AgeQueue(init);
        QueueShapedRelax(AgeQueue(init), last.id, bound, last.waited + 1, minWait + 1);
      } else {
        var aged := AgeQueue(q);
        assert aged[..|aged| - 1] == AgeQueue(init);
      }
    }
  }

  /** One tick of the queue keeps it valid: fresh arrivals behind the waiting customers,
      `k` customers served from the head, then one tick of waiting. */
  lemma TickKeepsQueueValid(q: seq<Customer>, nextId: int, n: nat, k: nat)
    requires QueueValid(q, nextId)
    requires k <= |q| + n
    ensures QueueValid(AgeQueue((q + Arrivals(nextId, n))[k..]), nextId + n)
  {
    QueueShapedRelax(q, nextId, nextId, 1, 0);
    ArrivalsKeepShape(q, nextId, n);
    SuffixKeepsShape(q + Arrivals(nextId, n), nextId + n, 0, k);
    AgeQueueKeepsShape((q + Arrivals(nextId, n))[k..], nextId + n, 0);
  }
}
