/**
 * The parking lot as the program holds it: the floors, each with its spots
 * in an array, and the map from licence plate to location, changed in place
 * by each operation.
 */
module ParkingLots {
  import opened Wrappers
  import opened Vehicles
  import opened Spots
  import opened Floors
  import opened LotSpec
  import opened LotProperties

  class ParkingLot {
    /** licence plate -> (floor number, spot numbers) */
    var vehicleLocations: map<string, Location>
    const floors: seq<Floor>

    /** The spot arrays of all floors: what the lot's operations may change besides the map. */
    ghost function Arrays(): set<array<Spot>>
    {
      set f | 0 <= f < |floors| :: floors[f].spots
    }

    /** The lot's current value: every floor's spots, in floor order, and the map. */
    ghost function State(): LotState
      reads this, Arrays()
    {
      LotState(seq(|floors|, f requires 0 <= f < |floors| reads Arrays() => floors[f].spots[..]),
               vehicleLocations)
    }

    /** Floor f has number f, its spots are numbered from 0, and no two floors share a spot array. */
    ghost predicate FloorsValid()
      reads this, Arrays()
    {
      (forall f :: 0 <= f < |floors| ==> floors[f].floorNumber == f) &&
      (forall f, g :: 0 <= f < g < |floors| ==> floors[f].spots != floors[g].spots) &&
      Numbered(State())
    }

    /** The floors are valid, and the spots and the map are consistent with each other. */
    ghost predicate Valid()
      reads this, Arrays()
    {
      FloorsValid() && Consistent(State())
    }

    /** Each floor of a lot with valid floors is a valid floor. */
    lemma FloorValid(f: int)
      requires FloorsValid() && 0 <= f < |floors|
      ensures floors[f].Valid()
    {
      assert State().floors[f] == floors[f].spots[..];
    }

    /** A lot of `numFloors` floors of `spotsPerFloor` free spots each, with nothing parked. */
    constructor (numFloors: int, spotsPerFloor: int)
      ensures Valid()
      ensures State() == InitialState(numFloors, spotsPerFloor)
      ensures fresh(Arrays())
    {
      var built: seq<Floor> := [];
      var i := 0;
      while i < numFloors
        invariant 0 <= i && |built| == i
        invariant i <= if numFloors < 0 then 0 else numFloors
        invariant forall f :: 0 <= f < i ==>
          built[f].floorNumber == f && fresh(built[f].spots) && built[f].spots[..] == EmptyFloor(f, spotsPerFloor)
        invariant forall f, g :: 0 <= f < g < i ==> built[f].spots != built[g].spots
      {
        var floor := new Floor(i, spotsPerFloor);
        built := built + [floor];
        i := i + 1;
      }
      floors := built;
      vehicleLocations := map[];
      new;
      assert forall f :: 0 <= f < |floors| ==> State().floors[f] == InitialState(numFloors, spotsPerFloor).floors[f];
      assert State() == InitialState(numFloors, spotsPerFloor);
    }

    /**
     * Park `vehicle`: refused when its plate is already parked; otherwise
     * the floors are tried in order, and the first floor whose search finds
     * a candidate, and accepts it, takes the vehicle, which is recorded there.
     */
    method ParkVehicle(vehicle: Vehicle) returns (ok: bool)
      requires Valid()
      modifies this, Arrays()
      ensures Valid()
      ensures (ok, State()) == Park(old(State()), vehicle)
    {
      if vehicle.licensePlate in vehicleLocations {
        return false;
      }
      ghost var before := State();
      var placed := PlaceOnFirstFloor(vehicle);
      if placed.None? {
        return false;
      }
      var (f, availableSpots) := placed.value;
      ghost var placedState := State();
      ghost var after := Park(before, vehicle).1;
      assert after == placedState.(locations := before.locations[vehicle.licensePlate := (f, availableSpots)]);
      vehicleLocations := vehicleLocations[vehicle.licensePlate := (floors[f].floorNumber, availableSpots)];
      assert State().floors == placedState.floors;
      assert State() == after;
      ParkPreservesConsistent(before, vehicle);
      assert before == old(State());
      return true;
    }

    /**
     * The floor loop of parking: on each floor in turn search for a
     * candidate and ask the floor to take the vehicle there; the first
     * floor that does so ends the loop. Returns where the vehicle went.
     */
    method PlaceOnFirstFloor(vehicle: Vehicle) returns (placed: Option<(nat, seq<int>)>)
      requires FloorsValid()
      modifies Arrays()
      ensures FloorsValid()
      ensures placed == ParkFrom(old(State()).floors, vehicle, 0)
      ensures placed.None? ==> State() == old(State())
      ensures placed.Some? ==> (placed.value.0 < |floors| &&
        State() == old(State()).(floors := old(State()).floors[placed.value.0 :=
          Occupy(old(State()).floors[placed.value.0], placed.value.1, vehicle.licensePlate)]))
    {
      ghost var before := State();
      for f := 0 to |floors|
        invariant FloorsValid()
        invariant State() == before
        invariant ParkFrom(before.floors, vehicle, 0) == ParkFrom(before.floors, vehicle, f)
      {
        var parked, availableSpots := TryFloor(f, vehicle);
        ParkFromStep(before.floors, vehicle, f, availableSpots, parked);
        if parked {
          return Some((f, availableSpots));
        }
      }
      return None;
    }

    /**
     * One turn of the floor loop: search floor f for a candidate and, when
     * there is one, ask the floor to take the vehicle there. Only floor f
     * can change, and only when it takes the vehicle.
     */
    method TryFloor(f: nat, vehicle: Vehicle) returns (parked: bool, availableSpots: seq<int>)
      requires FloorsValid() && f < |floors|
      modifies floors[f].spots
      ensures FloorsValid()
      ensures availableSpots == FindSpots(old(State()).floors[f], vehicle.RequiredSpots())
      ensures parked == (availableSpots != [] && CanPark(old(State()).floors[f], availableSpots))
      ensures !parked ==> State() == old(State())
      ensures parked ==> State() == old(State()).(floors := old(State()).floors[f :=
        Occupy(old(State()).floors[f], availableSpots, vehicle.licensePlate)])
    {
      ghost var before := State();
      FloorValid(f);
      assert before.floors[f] == floors[f].spots[..];
      availableSpots := floors[f].FindAvailableSpots(vehicle);
      parked := false;
      if availableSpots != [] {
        parked := floors[f].ParkVehicle(vehicle, availableSpots);
      }
      if parked {
        OccupyEffect(before.floors[f], availableSpots, vehicle.licensePlate);
        assert State().floors == before.floors[f := Occupy(before.floors[f], availableSpots, vehicle.licensePlate)];
      } else {
        assert State().floors == before.floors;
      }
    }

    /**
     * Remove the vehicle with plate `licensePlate`: refused when it is not
     * recorded; otherwise its spots on the recorded floor are freed and its
     * record is erased.
     */
    method RemoveVehicle(licensePlate: string) returns (ok: bool)
      requires Valid()
      modifies this, Arrays()
      ensures Valid()
      ensures LocationsInRange(old(State()))
      ensures (ok, State()) == Remove(old(State()), licensePlate)
    {
      ghost var before := State();
      RemovePreservesConsistent(before, licensePlate);
      if licensePlate !in vehicleLocations {
        return false;
      }
      var floorNumber := vehicleLocations[licensePlate].0;
      FloorValid(floorNumber);
      ghost var row := floors[floorNumber].spots[..];
      assert row == before.floors[floorNumber];
      ok := floors[floorNumber].RemoveVehicle(licensePlate);
      if ok {
        vehicleLocations := vehicleLocations - {licensePlate};
      }
      VacateEffect(row, licensePlate);
      assert State().floors == before.floors[floorNumber := Vacate(row, licensePlate)];
      if !ok {
        assert before.floors[floorNumber := row] == before.floors;
      }
      assert State() == Remove(before, licensePlate).1;
    }

    /** The number of free spots of each floor, in floor order. */
    method GetAvailableSpotsPerFloor() returns (available: seq<int>)
      ensures available == FreePerFloor(State())
    {
      available := [];
      for f := 0 to |floors|
        invariant |available| == f
        invariant forall g :: 0 <= g < f ==> available[g] == FreeCount(floors[g].spots[..])
      {
        var count := floors[f].AvailableSpotsCount();
        available := available + [count];
      }
    }

    /** Whether no floor has a free spot (true when there are no floors). */
    method IsFull() returns (full: bool)
      ensures full == NoFreeSpot(State())
    {
      for f := 0 to |floors|
        invariant forall g :: 0 <= g < f ==> FreeCount(floors[g].spots[..]) == 0
      {
        var count := floors[f].AvailableSpotsCount();
        if count > 0 {
          assert State().floors[f] == floors[f].spots[..];
          return false;
        }
      }
      return true;
    }

    /** Where the vehicle with plate `licensePlate` is parked, if it is. */
    method FindVehicle(licensePlate: string) returns (location: Option<Location>)
      requires Valid()
      ensures location == Locate(State(), licensePlate)
      ensures location.Some? ==>
        var (f, spotNumbers) := location.value;
        0 <= f < |floors| && forall k :: 0 <= k < |spotNumbers| ==>
          0 <= spotNumbers[k] < floors[f].spots.Length && HeldBy(floors[f].spots[spotNumbers[k]], licensePlate)
    {
      if licensePlate in vehicleLocations {
        location := Some(vehicleLocations[licensePlate]);
        assert RecordHeld(State().floors, State().locations, licensePlate);
      } else {
        location := None;
      }
    }
  }
}
