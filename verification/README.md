# Pizza shop engine in Dafny

A model of `PizzaGame` in `pizza.js`, the engine of a small browser pizza shop game.

The game is a tick-driven state machine. Its state is:
- integer counters: tick, pizzas, ingredient units, money, ingredient price, reputation;
- a FIFO queue of waiting customers, each with an id and a count of ticks waited;
- a one-slot worker who fetches ingredients with the owned car;
- a static catalogue of three cars.

On every tick:
1. New customers arrive at the tail of the queue.
2. The serve pass hands out pizzas from the head.
3. Every customer waits one more tick, and those who reach 10 ticks leave, costing reputation.
4. Reputation is clamped.
5. The worker's countdown runs; a worker who comes back brings the owned car's load.
6. Every fifth tick, the ingredient price is re-rolled.

The player commands are making a pizza, sending the worker, buying a car, resetting the economy and setting the tick interval. Each one is either rejected with no change, or applies one exact update.

Layout:
- `cars.dfy` (module `Cars`): the catalogue and the two `find` lookups over it.
- `queue.dfy` (module `Queue`): customers, arrivals, one tick of waiting, and the queue invariant. The invariant is: ids strictly increasing and already handed out, waits never increasing from head to tail, and waits between 1 and 9. It is stated recursively as `QueueShaped`; `QueueShapedMeans` and `QueueShapedFromOrder` show it is the same thing as the pairwise statement.
- `worker.dfy` (module `WorkerTimer`): the worker's countdown and its iteration over several ticks.
- `rules.dfy` (module `Rules`):
  - the whole game state as a value (`GameState`) and the invariant `StateValid`;
  - each phase of a tick (`Arrive`, `Serve`, `Age`, `ClampReputation`, `WorkerPhase`, `PricePhase`) as a function on that value, and the whole tick as `AfterStep`;
  - each command as a function on that value (`AfterMakePizza`, `AfterSendWorker`, `AfterBuyCar`, `AfterReset`, `AfterSetIntervalMs`), with the acceptance conditions `CanSendWorker` and `CanBuyCar`;
  - the lemmas about those functions.
- `game.dfy` (module `Game`): the class `PizzaGame`. Its fields are the source's fields, and its methods update them in place with the source's loops. `Step` and each command are proved to leave `State()` equal to their rule function applied to the old state. The helper methods `ServeCustomers`, `AddArrivals`, `AgeCustomers`, `TickWorker`, `NormalizeReputation` and `RerollPrice` are proved equal to their phase function. The class invariant `Valid()` is `StateValid(State())`. The constructor establishes it, and `Step` and every command preserve it. The phase helpers do not promise it on their own, because the invariant only holds again once the whole tick is done: right after the arrivals, for example, fresh customers with no waiting time are in the queue.

The source is one class. The model splits it by concern, following the source's own kinds of data: the catalogue entries, the customer records in the queue and the worker record each get a module with their rules. `Rules` then puts them together into the game state, and `Game` holds the class.

Two numeric choices:
- Reputation is kept in integer tenths of a point. 1000 stands for 100.0, the bounds 0..200 become 0..2000, each serve adds 1, each leaver costs 10, and the arrival bonus is `max(0, (rep - 1000) / 500)`, rounded down.
- The two random draws are parameters of `Step`. `roll` in 0..2 is the random extra arrivals, and `newPrice` in 100..200 is the re-rolled ingredient price.

`Step` returns how many customers arrived and how many left. The source only writes these counts into its status message.

## Model

| member | source | states |
|---|---|---|
| Cars.FindCar | pizza.js:164-166 | the result is absent exactly when no entry has the id; otherwise it is a catalogue entry with that id |
| Cars.Available | pizza.js:170 | the `find` predicate of the upgrade lookup: not the owned car and unlocked at the tick; its use is stated by `FirstAvailableFrom` |
| Cars.FirstAvailableFrom | pizza.js:169-171 | the result is the first entry, in catalogue order, that is not the owned car and is unlocked at the tick; absent exactly when there is none |
| Cars.CatalogIdsDistinct | pizza.js:24-28 | catalogue ids are pairwise distinct, so a lookup by id names a single car |
| Cars.FindCarInCatalog | pizza.js:164-166 | a lookup in the catalogue returns a car exactly when that car is a catalogue entry with the id |
| Cars.CatalogSpeedsPositive | pizza.js:24-28 | every car's trip takes at least one tick |
| Queue.Arrivals | pizza.js:65-67 | `n` arrivals, the i-th with id `firstId + i` and nothing waited |
| Queue.AgeQueue | pizza.js:73-84 | after one tick of waiting, no survivor has waited 10 ticks, and the queue did not grow |
| Queue.LeaveCount | pizza.js:73-84 | the number of leavers never exceeds the queue length |
| Queue.AgeQueueCount | pizza.js:73-84 | every customer either stays or leaves: survivors plus leavers equal the old queue length |
| Queue.AgeQueueMembers | pizza.js:75-83 | each customer who does not run out of patience stays, one tick older; every survivor is such a customer |
| Queue.QueueShapedMeans | pizza.js:65-84 | a valid queue has strictly increasing ids, all below the next id, waits that never increase from head to tail, and waits in range |
| Queue.QueueShapedFromOrder | pizza.js:65-84 | conversely, increasing ids below the bound with non-increasing waits in range make a valid queue |
| Queue.QueueShapedRelax | pizza.js:66-76 | raising the id bound or lowering the least wait keeps the queue valid |
| Queue.ArrivalsKeepShape | pizza.js:65-67 | fresh arrivals behind a valid queue keep ids increasing, with the counter advanced past them |
| Queue.SuffixKeepsShape | pizza.js:189-196 | removing customers from the head keeps the rest valid |
| Queue.AgeQueueKeepsShape | pizza.js:75-84 | one tick of waiting keeps the id order and the wait order, and raises the least wait by one while every remaining wait stays below 10 |
| Queue.TickKeepsQueueValid | pizza.js:60-84 | arrivals, then serving from the head, then waiting, turn a valid queue into a valid one for the advanced id counter |
| WorkerTimer.Countdown | pizza.js:96-106 | one tick keeps the worker well formed; a worker with one tick left comes back idle; otherwise one tick fewer remains; an idle worker is unchanged |
| WorkerTimer.TripTakesSpeedTicks | pizza.js:95-106 | a worker sent with `speed` ticks is still away with `speed - k` to go and has delivered nothing after `k < speed` ticks; after exactly `speed` ticks it is idle, having delivered one load |
| WorkerTimer.IdleStaysIdle | pizza.js:96 | an idle worker stays idle and delivers nothing |
| Rules.Yield | pizza.js:101-103 | a trip brings back a positive load exactly when the owned car is in the catalogue, and nothing otherwise |
| Rules.ReputationBonus | pizza.js:63 | the bonus is zero below 100 points and otherwise the number of full 50-point steps above 100; at most 2 while reputation is at most 200 |
| Rules.ArrivalCount | pizza.js:62-64 | arrivals are at least `1 + roll`, at most `3 + roll` within the reputation bound, and exactly `1 + roll` below 150 points |
| Rules.ServedCount | pizza.js:188-196 | the serve pass serves as many customers as possible: every customer or every pizza, never more than either |
| Rules.Serve | pizza.js:187-201 | defines the serve pass on values; its properties are stated by `ServeMeans` |
| Rules.ServeMeans | pizza.js:187-201 | afterwards no pizza or no customer remains; exactly `min(pizzas, queue)` customers are served (none when there is no pizza), from the head of the queue; pizzas drop and money rises by 8 per customer; reputation becomes `min(200, rep + 0.1 served)`; nothing else changes |
| Rules.Arrive | pizza.js:65-67 | arrivals keep the waiting queue as its head and add `n` customers with nothing waited at its tail |
| Rules.Age | pizza.js:73-84 | defines one tick of waiting on values; its properties are stated by `AgeMeans` and `Queue.AgeQueueKeepsShape` |
| Rules.AgeMeans | pizza.js:73-84 | survivors plus leavers equal the old queue; survivors waited less than 10 ticks; reputation falls one point per leaver, floored at 0 |
| Rules.ClampReputation | pizza.js:93 | reputation ends in 0..200: above 200 it becomes 200, below 0 it becomes 0, and in range it is left alone; no other field changes |
| Rules.WorkerPhase | pizza.js:96-106 | the worker stays well formed; ingredients never fall, and they rise only when the worker returns and is then idle |
| Rules.PricePhase | pizza.js:109-111 | the price is either kept or the drawn one, and off the multiples of 5 nothing changes |
| Rules.StateValid | pizza.js:2-31 | the invariant of a game between operations: non-negative tick, stock and money, reputation in 0..200, price in 100..200, interval at least 10, the owned car in the catalogue, a well-formed worker, a valid queue, and no pizza in stock while customers wait |
| Rules.AfterStep | pizza.js:57-111 | a tick advances the tick by one and the id counter by the arrivals; it counts the worker down and adds the owned car's load on return; it re-rolls the price exactly on multiples of 5; it leaves the interval and the owned car alone |
| Rules.StepAccounting | pizza.js:57-93 | in one tick, `min(pizzas, queue with arrivals)` customers are served from the head for 8 each; the rest age; served, survivors and leavers together are the whole queue; reputation is `max(0, min(200, rep + 0.1 served) - leavers)` |
| Rules.StepServesLongestWaiting | pizza.js:65-70 | in a valid state a tick serves only customers who have just arrived, since no pizza is in stock while customers wait; those served have waited at least as long as every customer left waiting |
| Rules.StepKeepsValid | pizza.js:57-111 | a tick keeps every invariant: non-negative stock and money, reputation in 0..200, price in 100..200, the owned car in the catalogue, a well-formed worker and queue, and no pizza in stock while customers wait |
| Rules.AfterMakePizza | pizza.js:120-133 | with fewer than 4 units nothing changes; otherwise exactly 4 units are used |
| Rules.MakePizzaAccounting | pizza.js:127-130 | a pizza made with `pizzas` in stock serves `min(pizzas + 1, queue)` customers from the head for 8 each |
| Rules.MakePizzaKeepsValid | pizza.js:120-133 | making a pizza keeps every invariant, in particular the queue's and ingredients never negative |
| Rules.CanSendWorker | pizza.js:137-153 | the three guards of `sendWorker`: no trip under way, money covering the price, a car owned; `Game.PizzaGame.SendWorker` is proved to succeed exactly when it holds |
| Rules.AfterSendWorker | pizza.js:136-161 | the state after `sendWorker`; its properties are stated by `SendWorkerMeans` and `SendWorkerKeepsValid` |
| Rules.SendWorkerMeans | pizza.js:136-161 | an accepted dispatch pays the price without going into debt and starts a trip of the car's speed, at least one tick; during that trip a second dispatch is rejected and changes nothing |
| Rules.SendWorkerKeepsValid | pizza.js:136-161 | sending the worker keeps every invariant |
| Rules.CanBuyCar | pizza.js:175-179 | the four guards of `buyCar`: a known car, not the owned one, unlocked and affordable; `Game.PizzaGame.BuyCar` is proved to succeed exactly when it holds |
| Rules.AfterBuyCar | pizza.js:174-185 | the state after `buyCar`; its properties are stated by `BuyCarMeans` and `BuyCarKeepsValid` |
| Rules.BuyCarMeans | pizza.js:174-185 | an accepted purchase debits exactly the car's price, without going into debt, and makes the car the owned one, whose load later trips bring; nothing else changes; buying the same car again is rejected and changes nothing |
| Rules.BuyCarKeepsValid | pizza.js:174-185 | buying a car keeps every invariant |
| Rules.AfterReset | pizza.js:203-212 | the state after `reset`; its properties are stated by `ResetMeans` and `ResetKeepsValid` |
| Rules.ResetKeepsValid | pizza.js:203-212 | a reset keeps every invariant |
| Rules.ResetMeans | pizza.js:203-212 | a reset agrees with a new game on tick, pizzas, queue, money and reputation, and a second reset changes nothing |
| Rules.AfterSetIntervalMs | pizza.js:33-34 | the state after `setIntervalMs`; its properties are stated by `SetIntervalMsMeans` |
| Rules.SetIntervalMsMeans | pizza.js:33-34 | the interval is at least 10 and equals the request when the request is at least 10; only the last request counts; the invariant is kept |
| Rules.MakePizzaServesLongestWaiting | pizza.js:127-130 | in a valid state the customers a new pizza serves come from the head of the queue and have waited at least as long as every customer who stays |
| Rules.MakePizzaServesHead | pizza.js:127-130 | in a valid state with customers waiting, the new pizza goes straight to the head customer for 8 and 0.1 point |
| Game.PizzaGame.constructor | pizza.js:2-31 | a new game has the documented defaults and is valid |
| Game.PizzaGame.CurrentCar | pizza.js:164-166 | the owned car is the catalogue entry with the current id, always present in a valid game |
| Game.PizzaGame.NextAvailableCar | pizza.js:169-171 | the next upgrade is the first catalogue car, in catalogue order, that is not owned and is unlocked; absent exactly when every car is owned or locked |
| Game.PizzaGame.ServeCustomers | pizza.js:187-201 | the loop leaves the state the serve pass describes and returns the number served |
| Game.PizzaGame.AddArrivals | pizza.js:65-67 | the loop appends the arrivals with fresh ids and advances the counter |
| Game.PizzaGame.AgeCustomers | pizza.js:73-84 | the loop leaves the aged queue and floored reputation, and returns the number who left |
| Game.PizzaGame.TickWorker | pizza.js:96-106 | the worker counts down; on return the owned car's size is added |
| Game.PizzaGame.NormalizeReputation | pizza.js:93 | reputation is clamped into 0..200 |
| Game.PizzaGame.RerollPrice | pizza.js:109-111 | the price changes to the drawn one exactly on multiples of 5 |
| Game.PizzaGame.Step | pizza.js:57-117 | the new state is one tick of the rules; it returns the arrival count and the leavers, and it keeps the invariant |
| Game.PizzaGame.MakePizza | pizza.js:120-133 | succeeds exactly with at least 4 units; the new state is the rule's; keeps the invariant |
| Game.PizzaGame.SendWorker | pizza.js:136-161 | succeeds exactly when no trip is under way, money covers the price and a car is owned; the new state is the rule's; keeps the invariant |
| Game.PizzaGame.BuyCar | pizza.js:174-185 | succeeds exactly for a known, not owned, unlocked and affordable car; the new state is the rule's; keeps the invariant |
| Game.PizzaGame.Reset | pizza.js:203-212 | the new state is the rule's: tick, pizzas, queue, money and reputation return to their defaults, the rest is kept; keeps the invariant |
| Game.PizzaGame.SetIntervalMs | pizza.js:33-34 | the new state is the rule's: the interval becomes `max(10, ms)` and nothing else changes; keeps the invariant |
| Game.DispatchAndWait | pizza.js:136-161 | a successful dispatch followed by exactly `speed` ticks leaves the worker idle and the stock up by exactly one load of the unchanged car |
| Game.WaitForWorker | pizza.js:95-106 | a worker `n` ticks away is idle after `n` ticks, with exactly one load delivered and the invariant kept |

## Left out

- Timers: `start`, `stop`, the `running` flag, the `_timer` handle and the restart in `setIntervalMs` (pizza.js:35-55) schedule `step` on the host's clock. A caller of the model calls `Step` instead.
- `notify`, the `onUpdate` callback and its payload, `lastMessage` and every status or error text (pizza.js:214-234 and throughout) are user-interface output. A rejected command is visible only through its `false` result.
- `Math.random` (pizza.js:62, 110) is replaced by the `roll` and `newPrice` parameters of `Step`, restricted to the ranges the source draws from.
- Reputation is exact in tenths. The source adds 0.1 in floating point, and the rounding drift that accumulates there is not modelled.
- `Math.round` in `setIntervalMs` is not modelled: `SetIntervalMs` takes an integer.
- Game.PizzaGame.SetIntervalMs: the surrounding timer restart and message are not modelled; only the clamp is.
- Customers are values. The source updates `waited` on customer objects held only by the queue, so no aliasing is lost.
- The `price`, `baseCustomers` and `carCatalog` fields are never reassigned in the source, so they are constants here.
- The `window.PizzaGame` export (pizza.js:237) is browser glue.
