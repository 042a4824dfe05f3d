/** The static car catalogue and the two lookups the game makes over it. */
module Cars {

  datatype Option<T> = None | Some(value: T)

  /** One catalogue entry: `size` is how many ingredient units one trip brings back,
      `speed` how many ticks a trip takes, `price` what buying it costs and
      `unlockTick` the first tick at which it may be bought. */
  datatype Car = Car(id: string, name: string, size: nat, speed: nat, price: nat, unlockTick: nat)

  const Catalog: seq<Car> := [
    Car("fiat", "Fiat Uno", 100, 10, 0, 0),
    Car("kangoo", "Renault Kangoo", 220, 7, 300, 50),
    Car("transit", "Ford Transit", 500, 4, 900, 150)
  ]

  /** The car every new game owns. */
  const DefaultCarId: string := "fiat"

  /** The first car of `cars` whose id is `id`, if there is one. */
  function FindCar(cars: seq<Car>, id: string): (r: Option<Car>)
    ensures r.None? <==> forall i :: 0 <= i < |cars| ==> cars[i].id != id
    ensures r.Some? ==> r.value in cars && r.value.id == id
  {
    if cars == [] then None
    else if cars[0].id == id then Some(cars[0])
    else FindCar(cars[1..], id)
  }

  /** A car is offered as the next upgrade when it is not the owned one and is unlocked. */
  predicate Available(c: Car, currentId: string, tick: int)
  {
    c.id != currentId && tick >= c.unlockTick
  }

  /** The first car at or after index `k`, in catalogue order, that is available. */
  function FirstAvailableFrom(cars: seq<Car>, currentId: string, tick: int, k: nat): (r: Option<Car>)
    requires k <= |cars|
    decreases |cars| - k
    ensures r.None? <==> forall i :: k <= i < |cars| ==> !Available(cars[i], currentId, tick)
    ensures r.Some? ==> exists i :: k <= i < |cars| && cars[i] == r.value && Available(cars[i], currentId, tick) &&
                                    forall j :: k <= j < i ==> !Available(cars[j], currentId, tick)
  {
    if k == |cars| then None
    else if Available(cars[k], currentId, tick) then Some(cars[k])
    else FirstAvailableFrom(cars, currentId, tick, k + 1)
  }

  /** The ids in the catalogue are pairwise distinct, so a lookup by id names one entry. */
  lemma CatalogIdsDistinct()
    ensures forall i, j :: 0 <= i < j < |Catalog| ==> Catalog[i].id != Catalog[j].id
  {
  }

  /** Looking a car up by id in the catalogue finds exactly the entry with that id. */
  lemma FindCarInCatalog(id: string, c: Car)
    ensures FindCar(Catalog, id) == Some(c) <==> c in Catalog && c.id == id
  {
    CatalogIdsDistinct();
    if c in Catalog && c.id == id {
      var r := FindCar(Catalog, id);
      assert r.Some?;
      var i :| 0 <= i < |Catalog| && Catalog[i] == c;
      var j :| 0 <= j < |Catalog| && Catalog[j] == r.value;
      assert i == j;
    }
  }

  /** Every trip takes at least one tick. */
  lemma CatalogSpeedsPositive()
    ensures forall c :: c in Catalog ==> c.speed >= 1
  {
  }
}
