/** The rules of the game on values: the whole game state as a record, the phases of a
    tick and of the player commands as functions on it, and what they preserve. */
module Rules {
  import opened Cars
  import opened Queue
  import opened WorkerTimer

  /** Customers arriving on every tick before the random part and the reputation bonus. */
  const BaseCustomers: int := 1
  /** Ingredient units one pizza consumes. */
  const PizzaCost: int := 4
  const InitialIngredients: int := 180
  const InitialIngredientPrice: int := 150
  const MinIngredientPrice: int := 100
  const MaxIngredientPrice: int := 200
  const InitialIntervalMs: int := 2000
  const MinIntervalMs: int := 10

  // Reputation is kept in tenths of a point, so that the +0.1 per served customer
  // is exact: 1000 stands for 100.0 and the bounds 0..200 become 0..2000.
  // The rates are written as numerals where they multiply a count: each customer
  // served pays 8 and adds 1 (0.1 point), each customer who leaves costs 10 (1 point),
  // and the ingredient price is re-rolled on every tick that is a multiple of 5.
  const InitialReputation: int := 1000
  const MaxReputation: int := 2000
  /** 50 reputation points, in tenths. */
  const ReputationPerBonusCustomer: int := 500

  function Min(a: int, b: int): int { if a <= b then a else b }
  function Max(a: int, b: int): int { if a >= b then a else b }

  /** Extra arrivals per tick: one for every full 50 points of reputation above 100, never negative. */
  function ReputationBonus(reputation: int): (b: nat)
    ensures reputation < InitialReputation ==> b == 0
    ensures reputation >= InitialReputation ==>
              b * ReputationPerBonusCustomer <= reputation - InitialReputation < (b + 1) * ReputationPerBonusCustomer
    ensures reputation <= MaxReputation ==> b <= 2
  {
    Max(0, (reputation - InitialReputation) / ReputationPerBonusCustomer)
  }

  /** The number of customers arriving on a tick, where `roll` is the random draw in 0..2. */
  function ArrivalCount(reputation: int, roll: int): (n: nat)
    requires 0 <= roll <= 2
    ensures n >= BaseCustomers + roll
    ensures reputation <= MaxReputation ==> n <= BaseCustomers + roll + 2
    ensures reputation < InitialReputation + ReputationPerBonusCustomer ==> n == BaseCustomers + roll
  {
    BaseCustomers + roll + ReputationBonus(reputation)
  }

  /** Ingredient units one trip brings back with the car of id `carId` (none for an unknown id). */
  function Yield(carId: string): (n: nat)
    ensures n > 0 <==> FindCar(Catalog, carId).Some?
  {
    match FindCar(Catalog, carId)
    case Some(car) => car.size
    case None => 0
  }

  /** Everything the game keeps between two operations; `reputation` is in tenths. */
  datatype GameState = GameState(
    tick: int,
    pizzas: int,
    customers: seq<Customer>,
    ingredients: int,
    money: int,
    ingredientPrice: int,
    reputation: int,
    intervalMs: int,
    nextCustomerId: int,
    worker: Worker,
    currentCarId: string)

  /** A new game. */
  const Initial: GameState :=
    GameState(0, 0, [], InitialIngredients, 0, InitialIngredientPrice, InitialReputation,
              InitialIntervalMs, 1, Idle, DefaultCarId)

  /** What holds between two operations: counters and stock are never negative, reputation
      and the ingredient price stay in their ranges, the owned car is in the catalogue, the
      worker and the queue are well formed, and pizzas never wait while customers do. */
  predicate StateValid(s: GameState)
  {
    s.tick >= 0 && s.pizzas >= 0 && s.ingredients >= 0 && s.money >= 0 &&
    0 <= s.reputation <= MaxReputation &&
    MinIngredientPrice <= s.ingredientPrice <= MaxIngredientPrice &&
    s.intervalMs >= MinIntervalMs &&
    FindCar(Catalog, s.currentCarId).Some? &&
    WorkerValid(s.worker) &&
    QueueValid(s.customers, s.nextCustomerId) &&
    (s.pizzas == 0 || s.customers == [])
  }

  /** How many customers the serve pass hands a pizza to: as many as possible, one pizza each. */
  function ServedCount(pizzas: int, waiting: nat): (n: nat)
    ensures n <= waiting && n <= Max(0, pizzas)
    ensures n == waiting || n == Max(0, pizzas)
  {
    if pizzas <= 0 then 0 else Min(pizzas, waiting)
  }

  /** The serve pass: the customers at the head of the queue each get one pizza, paying 8
      and raising reputation by 0.1 each, capped at 200. */
  function Serve(s: GameState): GameState
  {
    var n := ServedCount(s.pizzas, |s.customers|);
    s.(pizzas := s.pizzas - n, customers := s.customers[n..], money := s.money + 8 * n,
       reputation := if n == 0 then s.reputation else Min(MaxReputation, s.reputation + n))
  }

  /** After the serve pass either no pizza or no customer is left; exactly `ServedCount`
      pizzas were handed out, each removing the customer at the head of the queue, paying 8
      and adding 0.1 point of reputation up to the cap of 200; nothing else changes. */
  lemma ServeMeans(s: GameState)
    ensures var r := Serve(s);
            && (r.pizzas <= 0 || r.customers == [])
            && r.pizzas <= s.pizzas
            && s.pizzas - r.pizzas == ServedCount(s.pizzas, |s.customers|)
            && |r.customers| + (s.pizzas - r.pizzas) == |s.customers|
            && r.customers == s.customers[s.pizzas - r.pizzas..]
            && r.money == s.money + 8 * (s.pizzas - r.pizzas)
            && (s.reputation <= MaxReputation ==> s.reputation <= r.reputation <= MaxReputation)
            && (s.reputation <= MaxReputation ==>
                  r.reputation == Min(MaxReputation, s.reputation + (s.pizzas - r.pizzas)))
            && r.(pizzas := s.pizzas, customers := s.customers, money := s.money, reputation := s.reputation) == s
  {
  }

  /** `n` new customers join the tail with fresh consecutive ids. */
  function Arrive(s: GameState, n: nat): (r: GameState)
    ensures |r.customers| == |s.customers| + n && r.customers[..|s.customers|] == s.customers
    ensures forall i :: |s.customers| <= i < |r.customers| ==> r.customers[i].waited == 0
  {
    s.(customers := s.customers + Arrivals(s.nextCustomerId, n), nextCustomerId := s.nextCustomerId + n)
  }

  /** One tick of waiting: those out of patience leave, each costing one reputation point,
      never below zero. */
  function Age(s: GameState): GameState
  {
    var left := LeaveCount(s.customers);
    s.(customers := AgeQueue(s.customers),
       reputation := if left == 0 then s.reputation else Max(0, s.reputation - 10 * left))
  }

  /** Reputation brought back into 0..200. */
  function ClampReputation(s: GameState): (r: GameState)
    ensures 0 <= r.reputation <= MaxReputation
    ensures 0 <= s.reputation <= MaxReputation ==> r == s
    ensures s.reputation > MaxReputation ==> r.reputation == MaxReputation
    ensures s.reputation < 0 ==> r.reputation == 0
    ensures r.(reputation := s.reputation) == s
  {
    s.(reputation := Max(0, Min(MaxReputation, s.reputation)))
  }

  /** The worker's countdown for one tick; a returning worker brings one load of the car
      owned at that moment. */
  function WorkerPhase(s: GameState): (r: GameState)
    ensures WorkerValid(s.worker) ==> WorkerValid(r.worker)
    ensures r.ingredients >= s.ingredients
    ensures r.ingredients > s.ingredients ==> Returns(s.worker) && r.worker == Idle
  {
    s.(worker := Countdown(s.worker),
       ingredients := s.ingredients + (if Returns(s.worker) then Yield(s.currentCarId) else 0))
  }

  /** Every fifth tick the ingredient price is re-rolled to `newPrice`. */
  function PricePhase(s: GameState, newPrice: int): (r: GameState)
    ensures r.ingredientPrice == s.ingredientPrice || r.ingredientPrice == newPrice
    ensures s.tick % 5 != 0 ==> r == s
  {
    s.(ingredientPrice := if s.tick % 5 == 0 then newPrice else s.ingredientPrice)
  }

  /** The state of a tick once customers have arrived and been served, before they wait. */
  function BeforeWaiting(s: GameState, roll: int): GameState
    requires 0 <= roll <= 2
  {
    Serve(Arrive(s.(tick := s.tick + 1), ArrivalCount(s.reputation, roll)))
  }

  /** One tick: arrivals, serve pass, waiting, reputation clamp, worker, price. */
  function AfterStep(s: GameState, roll: int, newPrice: int): (r: GameState)
    requires 0 <= roll <= 2
    ensures r.tick == s.tick + 1
    ensures r.nextCustomerId == s.nextCustomerId + ArrivalCount(s.reputation, roll)
    ensures r.worker == Countdown(s.worker)
    ensures r.ingredients == s.ingredients + (if Returns(s.worker) then Yield(s.currentCarId) else 0)
    ensures r.ingredientPrice == if r.tick % 5 == 0 then newPrice else s.ingredientPrice
    ensures r.intervalMs == s.intervalMs && r.currentCarId == s.currentCarId
  {
    PricePhase(WorkerPhase(ClampReputation(Age(BeforeWaiting(s, roll)))), newPrice)
  }

  /** Making a pizza: without `PizzaCost` units nothing happens; otherwise the units are
      used up and the serve pass runs. */
  function AfterMakePizza(s: GameState): (r: GameState)
    ensures s.ingredients < PizzaCost ==> r == s
    ensures s.ingredients >= PizzaCost ==> r.ingredients == s.ingredients - PizzaCost
  {
    if s.ingredients < PizzaCost then s
    else Serve(s.(ingredients := s.ingredients - PizzaCost, pizzas := s.pizzas + 1))
  }

  /** Whether `sendWorker` accepts: no trip is under way, the money covers the ingredient
      price and the owned car is in the catalogue. */
  predicate CanSendWorker(s: GameState)
  {
    !s.worker.fetching && s.money >= s.ingredientPrice && FindCar(Catalog, s.currentCarId).Some?
  }

  /** Sending the worker: the price is paid up front and the trip takes the owned car's
      speed in ticks; a rejected command changes nothing. */
  function AfterSendWorker(s: GameState): (r: GameState)
  {
    if CanSendWorker(s) then
      s.(worker := Worker(true, FindCar(Catalog, s.currentCarId).value.speed),
         money := s.money - s.ingredientPrice)
    else s
  }

  /** Whether `buyCar(carId)` accepts: the car is in the catalogue, not the owned one,
      unlocked at the current tick and affordable. */
  predicate CanBuyCar(s: GameState, carId: string)
  {
    match FindCar(Catalog, carId)
    case None => false
    case Some(car) => carId != s.currentCarId && s.tick >= car.unlockTick && s.money >= car.price
  }

  /** Buying a car: its price is paid and it becomes the owned car; a rejected command
      changes nothing. */
  function AfterBuyCar(s: GameState, carId: string): (r: GameState)
  {
    if CanBuyCar(s, carId) then
      s.(currentCarId := carId, money := s.money - FindCar(Catalog, carId).value.price)
    else s
  }

  /** Resetting the economy: tick, pizzas, queue, money and reputation go back to their
      starting values. */
  function AfterReset(s: GameState): (r: GameState)
  {
    s.(tick := Initial.tick, pizzas := Initial.pizzas, customers := Initial.customers,
       money := Initial.money, reputation := Initial.reputation)
  }

  /** Setting the tick period, never below `MinIntervalMs`. */
  function AfterSetIntervalMs(s: GameState, ms: int): (r: GameState)
  {
    s.(intervalMs := Max(MinIntervalMs, ms))
  }

  /** A dispatch pays the price and starts a trip of the owned car's speed, which is at
      least one tick; while that trip is under way a second dispatch is rejected. */
  lemma SendWorkerMeans(s: GameState)
    requires CanSendWorker(s)
    ensures var r := AfterSendWorker(s);
            && r.money == s.money - s.ingredientPrice >= 0
            && r.worker.fetching && r.worker.remaining == FindCar(Catalog, s.currentCarId).value.speed >= 1
            && !CanSendWorker(r) && AfterSendWorker(r) == r
  {
    CatalogSpeedsPositive();
  }

  /** A purchase pays exactly the car's price, never going into debt, and makes it the
      owned car, which yields that car's load per trip; nothing else changes; buying it a
      second time is rejected. */
  lemma BuyCarMeans(s: GameState, carId: string)
    requires CanBuyCar(s, carId)
    ensures var r := AfterBuyCar(s, carId);
            && 0 <= r.money <= s.money
            && r.money == s.money - FindCar(Catalog, carId).value.price
            && r.currentCarId == carId
            && r.(money := s.money, currentCarId := s.currentCarId) == s
            && Yield(r.currentCarId) == FindCar(Catalog, carId).value.size
            && !CanBuyCar(r, carId) && AfterBuyCar(r, carId) == r
  {
  }

  /** Sending the worker keeps the state valid. */
  lemma SendWorkerKeepsValid(s: GameState)
    requires StateValid(s)
    ensures StateValid(AfterSendWorker(s))
  {
    CatalogSpeedsPositive();
  }

  /** Buying a car keeps the state valid: the new car is in the catalogue and money stays
      non-negative. */
  lemma BuyCarKeepsValid(s: GameState, carId: string)
    requires StateValid(s)
    ensures StateValid(AfterBuyCar(s, carId))
  {
  }

  /** A reset keeps the state valid: the emptied queue is valid for any id counter, and
      the queue being empty no pizza stock can be stranded. */
  lemma ResetKeepsValid(s: GameState)
    requires StateValid(s)
    ensures StateValid(AfterReset(s))
  {
  }

  /** A reset agrees with a new game on every field it touches, and resetting twice is
      the same as resetting once. */
  lemma ResetMeans(s: GameState)
    ensures var r := AfterReset(s);
            && r.tick == 0 && r.pizzas == 0 && r.customers == [] && r.money == 0
            && r.reputation == InitialReputation
            && AfterReset(r) == r
  {
  }

  /** The interval is at least `MinIntervalMs`, equals the request when that is allowed,
      and only the last request counts. */
  lemma SetIntervalMsMeans(s: GameState, ms: int, ms': int)
    requires StateValid(s)
    ensures StateValid(AfterSetIntervalMs(s, ms))
    ensures AfterSetIntervalMs(s, ms).intervalMs >= MinIntervalMs
    ensures ms >= MinIntervalMs ==> AfterSetIntervalMs(s, ms).intervalMs == ms
    ensures AfterSetIntervalMs(AfterSetIntervalMs(s, ms), ms') == AfterSetIntervalMs(s, ms')
  {
  }

  /** The queue a tick serves from: the waiting customers followed by the new arrivals. */
  function Queued(s: GameState, roll: int): seq<Customer>
    requires 0 <= roll <= 2
  {
    s.customers + Arrivals(s.nextCustomerId, ArrivalCount(s.reputation, roll))
  }

  /** How many customers leave on a tick. */
  function Leavers(s: GameState, roll: int): nat
    requires 0 <= roll <= 2
  {
    LeaveCount(BeforeWaiting(s, roll).customers)
  }

  /** What one tick does to the customers, the money and the reputation: the first
      `served` customers of the queue with the arrivals get a pizza, the others wait a
      tick and `Leavers` of them leave; everyone is accounted for. */
  lemma StepAccounting(s: GameState, roll: int, newPrice: int, served: nat)
    requires s.pizzas >= 0 && 0 <= s.reputation <= MaxReputation && 0 <= roll <= 2
    requires served == Min(s.pizzas, |Queued(s, roll)|)
    ensures AfterStep(s, roll, newPrice).pizzas == s.pizzas - served
    ensures AfterStep(s, roll, newPrice).money == s.money + 8 * served
    ensures AfterStep(s, roll, newPrice).customers == AgeQueue(Queued(s, roll)[served..])
    ensures Leavers(s, roll) == LeaveCount(Queued(s, roll)[served..])
    ensures served + |AfterStep(s, roll, newPrice).customers| + Leavers(s, roll) == |Queued(s, roll)|
    ensures AfterStep(s, roll, newPrice).reputation ==
              Max(0, Min(MaxReputation, s.reputation + served) - 10 * Leavers(s, roll))
  {
    var queued := Queued(s, roll);
    var b := BeforeWaiting(s, roll);
    assert ServedCount(s.pizzas, |queued|) == served;
    assert b.customers == queued[served..] && b.pizzas == s.pizzas - served;
    assert b.reputation == Min(MaxReputation, s.reputation + served);
    var left := Leavers(s, roll);
    AgeQueueCount(queued[served..]);
    var c := Age(b);
    assert c.reputation == if left == 0 then b.reputation else Max(0, b.reputation - 10 * left);
    assert 0 <= c.reputation <= MaxReputation;
  }

  /** In a valid state no pizza is in stock while customers wait, so a tick serves only
      customers who have just arrived; those it serves have waited at least as long as
      every customer who is left waiting. */
  lemma StepServesLongestWaiting(s: GameState, roll: int, served: nat)
    requires StateValid(s) && 0 <= roll <= 2
    requires served == Min(s.pizzas, |Queued(s, roll)|)
    ensures served == 0 || s.customers == []
    ensures forall i, j :: 0 <= i < served <= j < |Queued(s, roll)| ==>
              Queued(s, roll)[i].waited >= Queued(s, roll)[j].waited
  {
    var n := ArrivalCount(s.reputation, roll);
    QueueShapedRelax(s.customers, s.nextCustomerId, s.nextCustomerId, 1, 0);
    ArrivalsKeepShape(s.customers, s.nextCustomerId, n);
    QueueShapedMeans(Queued(s, roll), s.nextCustomerId + n, 0);
  }

  /** Making a pizza is first come, first served: the customers it serves, from the head
      of the queue, have waited at least as long as every customer who stays. */
  lemma MakePizzaServesLongestWaiting(s: GameState, served: nat)
    requires StateValid(s) && s.ingredients >= PizzaCost
    requires served == Min(s.pizzas + 1, |s.customers|)
    ensures AfterMakePizza(s).customers == s.customers[served..]
    ensures forall i, j :: 0 <= i < served <= j < |s.customers| ==>
              s.customers[i].waited >= s.customers[j].waited
  {
    QueueShapedMeans(s.customers, s.nextCustomerId, 1);
  }

  /** A tick keeps the state valid. */
  lemma StepKeepsValid(s: GameState, roll: int, newPrice: int)
    requires StateValid(s) && 0 <= roll <= 2
    requires MinIngredientPrice <= newPrice <= MaxIngredientPrice
    ensures StateValid(AfterStep(s, roll, newPrice))
  {
    var arrived := ArrivalCount(s.reputation, roll);
    var queued := s.customers + Arrivals(s.nextCustomerId, arrived);
    var served := Min(s.pizzas, |queued|);
    var b := BeforeWaiting(s, roll);
    assert b.customers == queued[served..];
    TickKeepsQueueValid(s.customers, s.nextCustomerId, arrived, served);
    assert b.pizzas == 0 || b.customers == [];
  }

  /** Making a pizza keeps the state valid. */
  lemma MakePizzaKeepsValid(s: GameState)
    requires StateValid(s)
    ensures StateValid(AfterMakePizza(s))
  {
    if s.ingredients >= PizzaCost {
      var r := AfterMakePizza(s);
      var n := s.pizzas + 1 - r.pizzas;
      QueueShapedRelax(s.customers, s.nextCustomerId, s.nextCustomerId, 1, 1);
      SuffixKeepsShape(s.customers, s.nextCustomerId, 1, n);
    }
  }

  /** A successful `makePizza`: four units are used, the new pizza joins the stock and the
      serve pass hands out `served` pizzas, one to each customer at the head of the queue. */
  lemma MakePizzaAccounting(s: GameState, served: nat)
    requires s.pizzas >= 0 && s.ingredients >= PizzaCost
    requires served == Min(s.pizzas + 1, |s.customers|)
    ensures AfterMakePizza(s).ingredients == s.ingredients - PizzaCost
    ensures AfterMakePizza(s).pizzas == s.pizzas + 1 - served
    ensures AfterMakePizza(s).customers == s.customers[served..]
    ensures AfterMakePizza(s).money == s.money + 8 * served
  {
  }

  /** One tick of waiting: every customer either stays, one tick older, or leaves; the
      survivors have all waited less than `Patience`; reputation falls by one point per
      leaver and never below zero. */
  lemma AgeMeans(s: GameState)
    requires s.reputation >= 0
    ensures |Age(s).customers| + LeaveCount(s.customers) == |s.customers|
    ensures forall c :: c in Age(s).customers ==> c.waited < Patience
    ensures Age(s).reputation == Max(0, s.reputation - 10 * LeaveCount(s.customers))
  {
    AgeQueueCount(s.customers);
  }

  /** With customers waiting there is no pizza in stock, so a new pizza goes straight to
      the customer at the head of the queue. */
  lemma MakePizzaServesHead(s: GameState)
    requires StateValid(s) && s.ingredients >= PizzaCost && s.customers != []
    ensures var r := AfterMakePizza(s);
            && r.pizzas == 0 && r.customers == s.customers[1..] && r.money == s.money + 8
            && r.reputation == Min(MaxReputation, s.reputation + 1)
  {
    assert s.pizzas == 0;
  }
}
