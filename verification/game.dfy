/** The pizza shop engine: a tick-driven state machine with player commands. */
module Game {
  import opened Cars
  import opened Queue
  import opened WorkerTimer
  import opened Rules

  class PizzaGame {
    var tick: int
    var pizzas: int
    /** Waiting customers, oldest first. */
    var customers: seq<Customer>
    var ingredients: int
    var money: int
    /** The cost of the next worker trip. */
    var ingredientPrice: int
    /** In tenths of a point. */
    var reputation: int
    var intervalMs: int
    var nextCustomerId: int
    var worker: Worker
    var currentCarId: string

    /** The fields as one value. */
    function State(): GameState
      reads this
    {
      GameState(tick, pizzas, customers, ingredients, money, ingredientPrice, reputation,
                intervalMs, nextCustomerId, worker, currentCarId)
    }

    /** The class invariant: the fields form a valid game state. */
    ghost predicate Valid()
      reads this
    {
      StateValid(State())
    }

    constructor ()
      ensures State() == Initial
      ensures Valid()
    {
      tick := 0;
      pizzas := 0;
      customers := [];
      ingredients := InitialIngredients;
      money := 0;
      ingredientPrice := InitialIngredientPrice;
      reputation := InitialReputation;
      intervalMs := InitialIntervalMs;
      nextCustomerId := 1;
      worker := Idle;
      currentCarId := DefaultCarId;
    }

    /** The owned car. */
    function CurrentCar(): (r: Option<Car>)
      reads this
      ensures r.Some? ==> r.value in Catalog && r.value.id == currentCarId
      ensures Valid() ==> r.Some?
    {
      FindCar(Catalog, currentCarId)
    }

    /** The upgrade offered next: the first catalogue entry that is not owned and is unlocked,
        whether or not it is affordable. */
    function NextAvailableCar(): (r: Option<Car>)
      reads this
      ensures r.Some? ==> r.value in Catalog && r.value.id != currentCarId && r.value.unlockTick <= tick
      ensures r.None? <==> forall i :: 0 <= i < |Catalog| ==> !Available(Catalog[i], currentCarId, tick)
      ensures r.Some? ==> exists i :: 0 <= i < |Catalog| && Catalog[i] == r.value &&
                                      forall j :: 0 <= j < i ==> !Available(Catalog[j], currentCarId, tick)
    {
      FirstAvailableFrom(Catalog, currentCarId, tick, 0)
    }

    /** The serve pass: hands one pizza to each customer at the head of the queue
        while both pizzas and customers remain. */
    method ServeCustomers() returns (sold: nat)
      modifies this`pizzas, this`customers, this`money, this`reputation
      ensures State() == Serve(old(State()))
      ensures sold == ServedCount(old(pizzas), |old(customers)|)
    {
      sold := 0;
      while pizzas > 0 && |customers| > 0
        invariant sold <= |old(customers)|
        invariant sold == 0 || (pizzas >= 0 && old(pizzas) > 0)
        invariant pizzas == old(pizzas) - sold
        invariant customers == old(customers)[sold..]
        invariant money == old(money) + 8 * sold
        invariant reputation == if sold == 0 then old(reputation) else Min(MaxReputation, old(reputation) + sold)
        decreases |customers|
      {
        pizzas := pizzas - 1;
        customers := customers[1..];
        money := money + 8;
        reputation := Min(MaxReputation, reputation + 1);
        sold := sold + 1;
      }
    }

    /** Appends `n` new customers with fresh consecutive ids at the tail of the queue. */
    method AddArrivals(n: nat)
      modifies this`customers, this`nextCustomerId
      ensures State() == Arrive(old(State()), n)
    {
      var i := 0;
      while i < n
        invariant 0 <= i <= n
        invariant customers == old(customers) + Arrivals(old(nextCustomerId), i)
        invariant nextCustomerId == old(nextCustomerId) + i
      {
        customers := customers + [Customer(nextCustomerId, 0)];
        nextCustomerId := nextCustomerId + 1;
        i := i + 1;
      }
    }

    /** One tick of waiting for every queued customer: those out of patience leave, each
        costing one reputation point (never below zero); the rest keep their order. */
    method AgeCustomers() returns (left: nat)
      modifies this`customers, this`reputation
      ensures State() == Age(old(State()))
      ensures left == LeaveCount(old(customers))
    {
      left := 0;
      var remaining: seq<Customer> := [];
      var j := 0;
      while j < |customers|
        invariant 0 <= j <= |customers|
        invariant customers == old(customers)
        invariant remaining == AgeQueue(customers[..j])
        invariant left == LeaveCount(customers[..j])
        invariant reputation == if left == 0 then old(reputation) else Max(0, old(reputation) - 10 * left)
      {
        var c := Aged(customers[j]);
        if c.waited >= Patience {
          left := left + 1;
          reputation := Max(0, reputation - 10);
        } else {
          remaining := remaining + [c];
        }
        assert customers[..j + 1][..j] == customers[..j];
        j := j + 1;
      }
      assert customers[..j] == customers;
      customers := remaining;
    }

    /** The worker's countdown for one tick; when the worker comes back, the load of the
        car owned at that moment is added to the stock. */
    method TickWorker()
      modifies this`worker, this`ingredients
      ensures State() == WorkerPhase(old(State()))
    {
      if worker.fetching {
        worker := worker.(remaining := worker.remaining - 1);
        if worker.remaining <= 0 {
          worker := Idle;
          var car := CurrentCar();
          var units := if car.Some? then car.value.size else 0;
          ingredients := ingredients + units;
        }
      }
    }

    /** One tick. `roll` stands for the random extra arrivals (0..2) and `newPrice` for the
        ingredient price drawn when the price is re-rolled (100..200). Returns how many
        customers arrived and how many left. */
    method Step(roll: int, newPrice: int) returns (arrived: nat, left: nat)
      requires 0 <= roll <= 2
      requires MinIngredientPrice <= newPrice <= MaxIngredientPrice
      modifies this`tick, this`customers, this`nextCustomerId, this`pizzas, this`money,
               this`reputation, this`worker, this`ingredients, this`ingredientPrice
      ensures State() == AfterStep(old(State()), roll, newPrice)
      ensures arrived == ArrivalCount(old(reputation), roll)
      ensures left == Leavers(old(State()), roll)
      ensures old(Valid()) ==> Valid()
    {
      ghost var s0 := State();
      if Valid() {
        StepKeepsValid(s0, roll, newPrice);
      }
      tick := tick + 1;
      arrived := ArrivalCount(reputation, roll);
      assert State() == s0.(tick := s0.tick + 1);
      AddArrivals(arrived);
      var _ := ServeCustomers();
      ghost var s1 := State();
      assert s1 == BeforeWaiting(s0, roll);
      left := AgeCustomers();
      NormalizeReputation();
      TickWorker();
      RerollPrice(newPrice);
    }

    /** Brings reputation back into 0..200 after the customer part of a tick. */
    method NormalizeReputation()
      modifies this`reputation
      ensures State() == ClampReputation(old(State()))
    {
      reputation := Max(0, Min(MaxReputation, reputation));
    }

    /** On every fifth tick, the ingredient price becomes `newPrice`, the random draw. */
    method RerollPrice(newPrice: int)
      modifies this`ingredientPrice
      ensures State() == PricePhase(old(State()), newPrice)
    {
      if tick % 5 == 0 {
        ingredientPrice := newPrice;
      }
    }

    /** Makes one pizza from `PizzaCost` ingredient units, then serves waiting customers. */
    method MakePizza() returns (ok: bool)
      modifies this`ingredients, this`pizzas, this`customers, this`money, this`reputation
      ensures State() == AfterMakePizza(old(State()))
      ensures ok <==> old(ingredients) >= PizzaCost
      ensures old(Valid()) ==> Valid()
    {
      if Valid() {
        MakePizzaKeepsValid(State());
      }
      if ingredients < PizzaCost {
        return false;
      }
      ingredients := ingredients - PizzaCost;
      pizzas := pizzas + 1;
      var _ := ServeCustomers();
      ok := true;
    }

    /** Sends the worker on an ingredient trip, paying the current ingredient price up front. */
    method SendWorker() returns (ok: bool)
      modifies this`worker, this`money
      ensures old(Valid()) ==> Valid()
      ensures ok <==> !old(worker).fetching && old(money) >= ingredientPrice && CurrentCar().Some?
      ensures ok == CanSendWorker(old(State()))
      ensures State() == AfterSendWorker(old(State()))
    {
      if Valid() {
        SendWorkerKeepsValid(State());
      }
      if worker.fetching {
        return false;
      }
      if money < ingredientPrice {
        return false;
      }
      var car := CurrentCar();
      if car.None? {
        return false;
      }
      CatalogSpeedsPositive();
      worker := Worker(true, car.value.speed);
      money := money - ingredientPrice;
      ok := true;
    }

    /** Replaces the owned car by the catalogue car `carId`, paying its price. */
    method BuyCar(carId: string) returns (ok: bool)
      modifies this`money, this`currentCarId
      ensures old(Valid()) ==> Valid()
      ensures ok <==> match FindCar(Catalog, carId)
                      case None => false
                      case Some(car) => carId != old(currentCarId) && tick >= car.unlockTick && old(money) >= car.price
      ensures ok == CanBuyCar(old(State()), carId)
      ensures State() == AfterBuyCar(old(State()), carId)
    {
      if Valid() {
        BuyCarKeepsValid(State(), carId);
      }
      var found := FindCar(Catalog, carId);
      if found.None? {
        return false;
      }
      var car := found.value;
      if currentCarId == carId {
        return false;
      }
      if tick < car.unlockTick {
        return false;
      }
      if money < car.price {
        return false;
      }
      money := money - car.price;
      currentCarId := carId;
      ok := true;
    }

    /** Returns the economy to its starting point; ingredients, their price, the owned car
        and the worker are kept. */
    method Reset()
      modifies this`tick, this`pizzas, this`customers, this`money, this`reputation
      ensures old(Valid()) ==> Valid()
      ensures State() == AfterReset(old(State()))
    {
      if Valid() {
        ResetKeepsValid(State());
      }
      tick := 0;
      pizzas := 0;
      customers := [];
      money := 0;
      reputation := InitialReputation;
    }

    /** Sets the tick period, never below `MinIntervalMs`. */
    method SetIntervalMs(ms: int)
      modifies this`intervalMs
      ensures old(Valid()) ==> Valid()
      ensures State() == AfterSetIntervalMs(old(State()), ms)
    {
      if Valid() {
        SetIntervalMsMeans(State(), ms, ms);
      }
      intervalMs := Max(MinIntervalMs, ms);
    }
  }

  /** A trip sent off with the car of speed `s`, followed by exactly `s` ticks with no car
      purchase in between, brings the worker back idle with one load of that car's yield. */
  method DispatchAndWait(game: PizzaGame, rolls: seq<int>, prices: seq<int>)
    requires game.Valid() && !game.worker.fetching && game.money >= game.ingredientPrice
    requires |rolls| == |prices| == game.CurrentCar().value.speed
    requires forall k :: 0 <= k < |rolls| ==> 0 <= rolls[k] <= 2
    requires forall k :: 0 <= k < |prices| ==> MinIngredientPrice <= prices[k] <= MaxIngredientPrice
    modifies game
    ensures game.Valid()
    ensures game.worker == Idle
    ensures game.currentCarId == old(game.currentCarId)
    ensures game.ingredients == old(game.ingredients) + Yield(game.currentCarId)
  {
    var ok := game.SendWorker();
    CatalogSpeedsPositive();
    WaitForWorker(game, rolls, prices);
  }

  /** A worker `|rolls|` ticks away is back, idle, after `|rolls|` ticks, having delivered
      exactly one load of the owned car's yield and nothing before that. */
  method WaitForWorker(game: PizzaGame, rolls: seq<int>, prices: seq<int>)
    requires game.Valid() && |rolls| == |prices| >= 1 && game.worker == Worker(true, |rolls|)
    requires forall k :: 0 <= k < |rolls| ==> 0 <= rolls[k] <= 2
    requires forall k :: 0 <= k < |prices| ==> MinIngredientPrice <= prices[k] <= MaxIngredientPrice
    modifies game
    ensures game.Valid()
    ensures game.worker == Idle
    ensures game.currentCarId == old(game.currentCarId)
    ensures game.ingredients == old(game.ingredients) + Yield(game.currentCarId)
  {
    ghost var speed, size := |rolls|, Yield(game.currentCarId);
    var k := 0;
    while k < |rolls|
      invariant 0 <= k <= speed
      invariant game.Valid()
      invariant game.currentCarId == old(game.currentCarId)
      invariant game.worker == CountdownN(Worker(true, speed), k)
      invariant game.ingredients == old(game.ingredients) + DeliveredN(Worker(true, speed), k, size)
    {
      TripTakesSpeedTicks(speed, size, k);
      TripTakesSpeedTicks(speed, size, k + 1);
      ghost var before := game.State();
      var _, _ := game.Step(rolls[k], prices[k]);
      assert game.State() == AfterStep(before, rolls[k], prices[k]);
      k := k + 1;
    }
    TripTakesSpeedTicks(speed, size, speed);
  }
}
