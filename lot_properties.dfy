/** What parking and removing promise, proved on the lot's value. */
module LotProperties {
  import opened Wrappers
  import opened Vehicles
  import opened Spots
  import opened Floors
  import opened LotSpec

  /**
   * A successful park places the vehicle on the lowest floor whose search
   * finds a candidate, in exactly that candidate (one spot, or two adjacent
   * spots for a truck), occupies those spots only, and records them: a
   * lookup right after returns that floor and those spots.
   */
  lemma ParkPlacesFirstFit(st: LotState, vehicle: Vehicle)
    requires Park(st, vehicle).0
    ensures var after := Park(st, vehicle).1;
      var plate := vehicle.licensePlate;
      var required := vehicle.RequiredSpots();
      plate !in st.locations && plate in after.locations &&
      var (f, spotNumbers) := after.locations[plate];
      0 <= f < |st.floors| &&
      spotNumbers == FindSpots(st.floors[f], required) &&
      |spotNumbers| == required && SpotListShape(spotNumbers) &&
      (forall g :: 0 <= g < f ==> FindSpots(st.floors[g], required) == []) &&
      after.floors == st.floors[f := Occupy(st.floors[f], spotNumbers, plate)] &&
      after.locations == st.locations[plate := (f, spotNumbers)] &&
      Locate(after, plate) == Some((f, spotNumbers))
  {
  }

  /** Parking a plate a second time, with no removal in between, is refused and changes nothing. */
  lemma ParkTwiceRefused(st: LotState, vehicle: Vehicle, again: Vehicle)
    requires Park(st, vehicle).0
    requires again.licensePlate == vehicle.licensePlate
    ensures Park(Park(st, vehicle).1, again) == (false, Park(st, vehicle).1)
  {
  }

  /** Occupying free spots on floor f for a new plate leaves every other plate's record held. */
  lemma ParkKeepsOtherRecord(st: LotState, f: int, spotNumbers: seq<int>, plate: string, p: string)
    requires Consistent(st)
    requires 0 <= f < |st.floors| && CanPark(st.floors[f], spotNumbers)
    requires p in st.locations && p != plate
    ensures RecordHeld(st.floors[f := Occupy(st.floors[f], spotNumbers, plate)],
                       st.locations[plate := (f, spotNumbers)], p)
  {
    var row := st.floors[f];
    var floors' := st.floors[f := Occupy(row, spotNumbers, plate)];
    OccupyEffect(row, spotNumbers, plate);
    assert RecordHeld(st.floors, st.locations, p);
    var (g, own) := st.locations[p];
    forall k | 0 <= k < |own|
      ensures floors'[g][own[k]] == st.floors[g][own[k]]
    {
      if g == f {
        assert HeldBy(row[own[k]], p);
      }
    }
  }

  /** Occupying free spots on floor f for a new plate leaves every occupied spot recorded. */
  lemma ParkKeepsOccupiedRecorded(st: LotState, f: int, spotNumbers: seq<int>, plate: string, g: int, i: int)
    requires Consistent(st) && plate !in st.locations
    requires 0 <= f < |st.floors| && CanPark(st.floors[f], spotNumbers)
    requires 0 <= g < |st.floors| && 0 <= i < |st.floors[g]|
    requires LotState(st.floors[f := Occupy(st.floors[f], spotNumbers, plate)],
                      st.locations[plate := (f, spotNumbers)]).floors[g][i].isOccupied
    ensures Recorded(LotState(st.floors[f := Occupy(st.floors[f], spotNumbers, plate)],
                              st.locations[plate := (f, spotNumbers)]), g, i)
  {
    OccupyEffect(st.floors[f], spotNumbers, plate);
    if g != f || i !in spotNumbers {
      assert Recorded(st, g, i);
    }
  }

  /** Parking keeps the lot's invariant. */
  lemma {:induction false} ParkPreservesConsistent(st: LotState, vehicle: Vehicle)
    requires Consistent(st)
    ensures Consistent(Park(st, vehicle).1)
  {
    var (ok, after) := Park(st, vehicle);
    if ok {
      var plate := vehicle.licensePlate;
      ParkPlacesFirstFit(st, vehicle);
      var (f, spotNumbers) := after.locations[plate];
      var row := st.floors[f];
      FoundSpotsCanPark(row, vehicle.RequiredSpots());
      OccupyEffect(row, spotNumbers, plate);
      assert after == LotState(st.floors[f := Occupy(row, spotNumbers, plate)], st.locations[plate := (f, spotNumbers)]);
      assert Numbered(after);
      forall p | p in after.locations
        ensures RecordHeld(after.floors, after.locations, p)
      {
        if p != plate {
          ParkKeepsOtherRecord(st, f, spotNumbers, plate, p);
        }
      }
      forall g, i | 0 <= g < |after.floors| && 0 <= i < |after.floors[g]| && after.floors[g][i].isOccupied
        ensures Recorded(after, g, i)
      {
        ParkKeepsOccupiedRecorded(st, f, spotNumbers, plate, g, i);
      }
    }
  }

  /**
   * In a consistent lot, the spots of floor `f` that `plate` occupies are
   * exactly the spots its record names, and removing succeeds exactly when
   * the plate has a record.
   */
  lemma {:induction false} RemoveFreesRecordedSpots(st: LotState, plate: string)
    requires Consistent(st)
    ensures LocationsInRange(st)
    ensures Remove(st, plate).0 <==> plate in st.locations
    ensures plate in st.locations ==>
      var (f, spotNumbers) := st.locations[plate];
      (forall i :: 0 <= i < |st.floors[f]| ==> (HeldBy(st.floors[f][i], plate) <==> i in spotNumbers)) &&
      Remove(st, plate).1 == LotState(st.floors[f := Vacate(st.floors[f], plate)], st.locations - {plate})
  {
    assert LocationsInRange(st) by {
      forall p | p in st.locations
        ensures 0 <= st.locations[p].0 < |st.floors|
      {
        assert RecordHeld(st.floors, st.locations, p);
      }
    }
    if plate in st.locations {
      assert RecordHeld(st.floors, st.locations, plate);
      var (f, spotNumbers) := st.locations[plate];
      assert HeldBy(st.floors[f][spotNumbers[0]], plate);
      forall i | 0 <= i < |st.floors[f]| && HeldBy(st.floors[f][i], plate)
        ensures i in spotNumbers
      {
        assert Recorded(st, f, i);
      }
    }
  }

  /** Removing keeps the lot's invariant. */
  lemma {:induction false} RemovePreservesConsistent(st: LotState, plate: string)
    requires Consistent(st)
    ensures LocationsInRange(st)
    ensures Consistent(Remove(st, plate).1)
  {
    RemoveFreesRecordedSpots(st, plate);
    var (ok, after) := Remove(st, plate);
    if ok {
      var (f, spotNumbers) := st.locations[plate];
      var row := st.floors[f];
      VacateEffect(row, plate);
      assert Numbered(after);
      forall p | p in after.locations
        ensures RecordHeld(after.floors, after.locations, p)
      {
        assert RecordHeld(st.floors, st.locations, p);
      }
      forall g, i | 0 <= g < |after.floors| && 0 <= i < |after.floors[g]| && after.floors[g][i].isOccupied
        ensures Recorded(after, g, i)
      {
        assert after.floors[g][i] == st.floors[g][i];
        assert Recorded(st, g, i);
      }
    }
  }

  /** Parking a vehicle and then removing it gives back the lot as it was. */
  lemma {:induction false} ParkThenRemoveRestores(st: LotState, vehicle: Vehicle)
    requires Consistent(st)
    requires Park(st, vehicle).0
    ensures LocationsInRange(Park(st, vehicle).1)
    ensures Remove(Park(st, vehicle).1, vehicle.licensePlate) == (true, st)
  {
    var plate := vehicle.licensePlate;
    ParkPlacesFirstFit(st, vehicle);
    var after := Park(st, vehicle).1;
    var (f, spotNumbers) := after.locations[plate];
    var row := st.floors[f];
    var occupied := Occupy(row, spotNumbers, plate);
    assert after == LotState(st.floors[f := occupied], st.locations[plate := (f, spotNumbers)]);
    RemoveFreesRecordedSpots(st, plate);
    FoundSpotsCanPark(row, vehicle.RequiredSpots());
    OccupyEffect(row, spotNumbers, plate);
    assert HeldBy(occupied[spotNumbers[0]], plate);
    assert NumberedFloor(row, f);
    assert !Holds(row, plate);
    OccupyThenVacate(row, spotNumbers, plate);
    assert st.floors[f := occupied][f := Vacate(occupied, plate)] == st.floors;
    assert st.locations[plate := (f, spotNumbers)] - {plate} == st.locations;
  }

  /**
   * Whether the lot is full decides whether a one-spot vehicle that is not
   * parked yet can be parked.
   */
  lemma {:induction false} FullIffOneSpotRefused(st: LotState, vehicle: Vehicle)
    requires vehicle.vehicleType != Truck
    requires vehicle.licensePlate !in st.locations
    ensures NoFreeSpot(st) <==> !Park(st, vehicle).0
  {
    forall f | 0 <= f < |st.floors|
      ensures FreeCount(st.floors[f]) == 0 <==> FindSpots(st.floors[f], 1) == []
    {
      NoFreeSpotIffNoSingleCandidate(st.floors[f]);
    }
  }

  // ---------------------------------------------------------------------
  // Counting: occupied spots and recorded spots are the same number.

  /** The (floor, spot) cells that are occupied. */
  ghost function OccupiedCells(st: LotState): set<(int, int)>
  {
    set f, i | 0 <= f < |st.floors| && 0 <= i < |st.floors[f]| && st.floors[f][i].isOccupied :: (f, i)
  }

  /** The (floor, spot) cells named by one record. */
  ghost function Cells(location: Location): set<(int, int)>
  {
    set k | 0 <= k < |location.1| :: (location.0, location.1[k])
  }

  /** The (floor, spot) cells named by any record. */
  ghost function RecordedCells(locations: map<string, Location>): set<(int, int)>
  {
    set p, k | p in locations && 0 <= k < |locations[p].1| :: (locations[p].0, locations[p].1[k])
  }

  /** Some plate of a non-empty index. */
  ghost function AnyPlate(locations: map<string, Location>): (plate: string)
    requires locations != map[]
    ensures plate in locations
  {
    assert locations.Keys != {};
    var plate :| plate in locations; plate
  }

  /** The total length of all recorded spot lists. */
  ghost function RecordedLength(locations: map<string, Location>): nat
    decreases |locations|
  {
    if locations == map[] then 0
    else
      var plate := AnyPlate(locations);
      assert (locations - {plate}).Keys == locations.Keys - {plate};
      |locations[plate].1| + RecordedLength(locations - {plate})
  }

  /** A one-spot or adjacent-pair record names as many cells as its list is long. */
  lemma CellsOfShape(location: Location)
    requires SpotListShape(location.1)
    ensures |Cells(location)| == |location.1|
  {
    var (f, spotNumbers) := location;
    if |spotNumbers| == 1 {
      assert Cells(location) == {(f, spotNumbers[0])};
    } else {
      assert Cells(location) == {(f, spotNumbers[0]), (f, spotNumbers[1])};
    }
  }

  /** The cells of an index are those of one record plus those of the others. */
  lemma RecordedCellsSplit(locations: map<string, Location>, plate: string)
    requires plate in locations
    ensures RecordedCells(locations) == RecordedCells(locations - {plate}) + Cells(locations[plate])
  {
    var rest := locations - {plate};
    forall c | c in RecordedCells(locations)
      ensures c in RecordedCells(rest) + Cells(locations[plate])
    {
      var p, k :| p in locations && 0 <= k < |locations[p].1| && c == (locations[p].0, locations[p].1[k]);
      if p != plate {
        assert p in rest && rest[p] == locations[p];
      }
    }
  }

  /** A cell named by two records that are held by their plates belongs to one plate only. */
  lemma RecordsDisjoint(floors: seq<seq<Spot>>, locations: map<string, Location>, plate: string)
    requires forall p :: p in locations ==> RecordHeld(floors, locations, p)
    requires plate in locations
    ensures RecordedCells(locations - {plate}) * Cells(locations[plate]) == {}
  {
  }

  /** Records whose spots are held by their own plates name as many cells as their lists are long. */
  lemma {:induction false} RecordedCellsCount(floors: seq<seq<Spot>>, locations: map<string, Location>)
    requires forall p :: p in locations ==> RecordHeld(floors, locations, p)
    ensures |RecordedCells(locations)| == RecordedLength(locations)
    decreases |locations|
  {
    if locations == map[] {
      assert RecordedCells(locations) == {};
    } else {
      var plate := AnyPlate(locations);
      var rest := locations - {plate};
      assert rest.Keys == locations.Keys - {plate};
      forall p | p in rest
        ensures RecordHeld(floors, rest, p)
      {
        assert RecordHeld(floors, locations, p);
      }
      RecordedCellsCount(floors, rest);
      assert RecordHeld(floors, locations, plate);
      CellsOfShape(locations[plate]);
      RecordedCellsSplit(locations, plate);
      RecordsDisjoint(floors, locations, plate);
    }
  }

  /** In a consistent lot the number of occupied spots is the total length of all recorded spot lists. */
  lemma {:induction false} OccupiedMatchesRecords(st: LotState)
    requires Consistent(st)
    ensures |OccupiedCells(st)| == RecordedLength(st.locations)
  {
    assert OccupiedCells(st) == RecordedCells(st.locations) by {
      forall c | c in OccupiedCells(st)
        ensures c in RecordedCells(st.locations)
      {
        var f, i :| 0 <= f < |st.floors| && 0 <= i < |st.floors[f]| && st.floors[f][i].isOccupied && c == (f, i);
        assert Recorded(st, f, i);
        var p := st.floors[f][i].parkedVehicle;
        var k :| 0 <= k < |st.locations[p].1| && st.locations[p].1[k] == i;
      }
      forall c | c in RecordedCells(st.locations)
        ensures c in OccupiedCells(st)
      {
        var p, k :| p in st.locations && 0 <= k < |st.locations[p].1| && c == (st.locations[p].0, st.locations[p].1[k]);
        assert RecordHeld(st.floors, st.locations, p);
      }
    }
    RecordedCellsCount(st.floors, st.locations);
  }
}
