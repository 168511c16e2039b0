/**
 * One floor of three spots, driven through a car, a truck, a refused car,
 * a removal and a second try, step by step on the lot's value.
 */
module Scenario {
  import opened Wrappers
  import opened Vehicles
  import opened Spots
  import opened Floors
  import opened LotSpec

  function Free(i: int): Spot { Spot(0, i, false, "") }
  function Taken(i: int, plate: string): Spot { Spot(0, i, true, plate) }

  /** Car A in spot 0. */
  function AfterA(): LotState
  {
    LotState([[Taken(0, "A"), Free(1), Free(2)]], map["A" := (0, [0])])
  }

  /** Car A in spot 0, truck B in spots 1 and 2. */
  function AfterB(): LotState
  {
    LotState([[Taken(0, "A"), Taken(1, "B"), Taken(2, "B")]], map["A" := (0, [0]), "B" := (0, [1, 2])])
  }

  /** Truck B in spots 1 and 2 only. */
  function AfterRemoveA(): LotState
  {
    LotState([[Free(0), Taken(1, "B"), Taken(2, "B")]], map["B" := (0, [1, 2])])
  }

  /** The car takes the lowest spot of an empty floor. */
  lemma ParkFirstCar()
    ensures Park(InitialState(1, 3), Vehicle("A", Car)) == (true, AfterA())
  {
    var st := InitialState(1, 3);
    var s := st.floors[0];
    assert s == [Free(0), Free(1), Free(2)];
    assert FindSpots(s, 1) == [0];
    assert ParkFrom(st.floors, Vehicle("A", Car), 0) == Some((0, [0]));
    assert Occupy(s, [0], "A") == AfterA().floors[0];
    assert st.floors[0 := Occupy(s, [0], "A")] == AfterA().floors;
  }

  /** The truck takes the lowest pair of adjacent free spots, 1 and 2. */
  lemma ParkTruck()
    ensures Park(AfterA(), Vehicle("B", Truck)) == (true, AfterB())
  {
    var s := AfterA().floors[0];
    assert !PairFree(s, 0) && PairFree(s, 1);
    assert FindSpots(s, 2) == [1, 2];
    assert ParkFrom(AfterA().floors, Vehicle("B", Truck), 0) == Some((0, [1, 2]));
    assert Occupy(s, [1, 2], "B") == AfterB().floors[0];
    assert AfterA().floors[0 := Occupy(s, [1, 2], "B")] == AfterB().floors;
    assert AfterA().locations["B" := (0, [1, 2])] == AfterB().locations;
  }

  /** With every spot taken the lot is full and a car is refused. */
  lemma FullLotRefusesCar()
    ensures NoFreeSpot(AfterB())
    ensures Park(AfterB(), Vehicle("C", Car)) == (false, AfterB())
  {
    assert FreeSpots(AfterB().floors[0]) == {};
  }

  /** Removing car A frees spot 0 only, and the lot is no longer full. */
  lemma RemoveFirstCar()
    ensures LocationsInRange(AfterB())
    ensures Remove(AfterB(), "A") == (true, AfterRemoveA())
    ensures !NoFreeSpot(AfterRemoveA())
  {
    var s := AfterB().floors[0];
    assert HeldBy(s[0], "A");
    assert Vacate(s, "A") == AfterRemoveA().floors[0];
    assert AfterB().floors[0 := Vacate(s, "A")] == AfterRemoveA().floors;
    assert AfterB().locations - {"A"} == AfterRemoveA().locations;
    assert 0 in FreeSpots(AfterRemoveA().floors[0]);
  }

  /** The second car now gets spot 0, and the lookup reports it there. */
  lemma ParkSecondCar()
    ensures Park(AfterRemoveA(), Vehicle("C", Car)).0
    ensures Locate(Park(AfterRemoveA(), Vehicle("C", Car)).1, "C") == Some((0, [0]))
  {
    var s := AfterRemoveA().floors[0];
    assert FindSpots(s, 1) == [0];
  }
}
