/**
 * The parking lot as a value: the spots of every floor and the index from
 * licence plate to location. Each operation of the lot is a function from
 * one such value to the next; the class `ParkingLot` is proved against them.
 */
module LotSpec {
  import opened Wrappers
  import opened Vehicles
  import opened Spots
  import opened Floors

  /** Where a parked vehicle is: its floor number and the numbers of its spots. */
  type Location = (int, seq<int>)

  /** Every floor's row of spots, in floor order, and the plate-to-location index. */
  datatype LotState = LotState(floors: seq<seq<Spot>>, locations: map<string, Location>)

  /** Floor f's spots belong to floor f and are numbered from 0. */
  predicate Numbered(st: LotState)
  {
    forall f :: 0 <= f < |st.floors| ==> NumberedFloor(st.floors[f], f)
  }

  /** A recorded spot list is one spot, or two adjacent spots in increasing order. */
  predicate SpotListShape(spotNumbers: seq<int>)
  {
    |spotNumbers| == 1 || (|spotNumbers| == 2 && spotNumbers[1] == spotNumbers[0] + 1)
  }

  /** The record of `plate` names a floor, and spots of that floor that `plate` occupies. */
  predicate RecordHeld(floors: seq<seq<Spot>>, locations: map<string, Location>, plate: string)
    requires plate in locations
  {
    var (f, spotNumbers) := locations[plate];
    0 <= f < |floors| && SpotListShape(spotNumbers) &&
    forall k :: 0 <= k < |spotNumbers| ==>
      0 <= spotNumbers[k] < |floors[f]| && HeldBy(floors[f][spotNumbers[k]], plate)
  }

  /** The occupant of spot i on floor f has a record naming floor f and spot i. */
  predicate Recorded(st: LotState, f: int, i: int)
    requires 0 <= f < |st.floors| && 0 <= i < |st.floors[f]|
  {
    var plate := st.floors[f][i].parkedVehicle;
    plate in st.locations && st.locations[plate].0 == f && i in st.locations[plate].1
  }

  /**
   * The lot's invariant: every record names in-range spots on its floor that
   * its plate occupies, and every occupied spot is named by the record of
   * the plate in it (so by exactly one record).
   */
  predicate Consistent(st: LotState)
  {
    Numbered(st) &&
    (forall plate :: plate in st.locations ==> RecordHeld(st.floors, st.locations, plate)) &&
    (forall f, i :: 0 <= f < |st.floors| && 0 <= i < |st.floors[f]| && st.floors[f][i].isOccupied ==>
       Recorded(st, f, i))
  }

  /** A new lot: `numFloors` floors of `spotsPerFloor` free spots, and no records. */
  function InitialState(numFloors: int, spotsPerFloor: int): (st: LotState)
    ensures |st.floors| == if numFloors < 0 then 0 else numFloors
    ensures forall f :: 0 <= f < |st.floors| ==> st.floors[f] == EmptyFloor(f, spotsPerFloor)
    ensures st.locations == map[]
    ensures Consistent(st)
  {
    LotState(seq(if numFloors < 0 then 0 else numFloors, f => EmptyFloor(f, spotsPerFloor)), map[])
  }

  /**
   * The floor loop of parking, from floor `f` on: on each floor search for a
   * candidate; if there is one and the floor accepts it, that is the
   * placement; otherwise go on to the next floor.
   */
  function ParkFrom(floors: seq<seq<Spot>>, vehicle: Vehicle, f: nat): (r: Option<(nat, seq<int>)>)
    requires f <= |floors|
    ensures r.None? <==> forall g :: f <= g < |floors| ==> FindSpots(floors[g], vehicle.RequiredSpots()) == []
    ensures r.Some? ==>
      f <= r.value.0 < |floors| &&
      r.value.1 == FindSpots(floors[r.value.0], vehicle.RequiredSpots()) && r.value.1 != [] &&
      forall g :: f <= g < r.value.0 ==> FindSpots(floors[g], vehicle.RequiredSpots()) == []
    decreases |floors| - f
  {
    if f == |floors| then None
    else
      var candidate := FindSpots(floors[f], vehicle.RequiredSpots());
      if candidate != [] && CanPark(floors[f], candidate) then Some((f, candidate))
      else ParkFrom(floors, vehicle, f + 1)
  }

  /** One turn of the floor loop: floor f either places the vehicle or passes it on to floor f + 1. */
  lemma ParkFromStep(floors: seq<seq<Spot>>, vehicle: Vehicle, f: nat, candidate: seq<int>, accepted: bool)
    requires f < |floors|
    requires candidate == FindSpots(floors[f], vehicle.RequiredSpots())
    requires accepted == (candidate != [] && CanPark(floors[f], candidate))
    ensures accepted ==> ParkFrom(floors, vehicle, f) == Some((f, candidate))
    ensures !accepted ==> ParkFrom(floors, vehicle, f) == ParkFrom(floors, vehicle, f + 1)
  {
  }

  /**
   * Park `vehicle`: refused when its plate is already recorded; otherwise
   * placed at the first floor's first-fit candidate and recorded there;
   * refused when no floor has a candidate. A refusal changes nothing.
   */
  function Park(st: LotState, vehicle: Vehicle): (r: (bool, LotState))
    ensures r.0 <==> (vehicle.licensePlate !in st.locations &&
                      exists f :: 0 <= f < |st.floors| && FindSpots(st.floors[f], vehicle.RequiredSpots()) != [])
    ensures !r.0 ==> r.1 == st
  {
    var plate := vehicle.licensePlate;
    if plate in st.locations then (false, st)
    else match ParkFrom(st.floors, vehicle, 0)
      case None => (false, st)
      case Some((f, spotNumbers)) =>
        (true, LotState(st.floors[f := Occupy(st.floors[f], spotNumbers, plate)],
                        st.locations[plate := (f, spotNumbers)]))
  }

  /** Every record names an existing floor. */
  predicate LocationsInRange(st: LotState)
  {
    forall plate :: plate in st.locations ==> 0 <= st.locations[plate].0 < |st.floors|
  }

  /**
   * Remove the vehicle with plate `plate`: refused when it has no record;
   * otherwise its spots on the recorded floor are freed and the record is
   * erased, unless that floor holds no spot of the plate, in which case
   * nothing changes.
   */
  function Remove(st: LotState, plate: string): (r: (bool, LotState))
    requires LocationsInRange(st)
    ensures r.0 ==> plate in st.locations && r.1.locations == st.locations - {plate}
    ensures plate !in st.locations ==> r == (false, st)
    ensures !r.0 ==> r.1 == st
  {
    if plate !in st.locations then (false, st)
    else
      var f := st.locations[plate].0;
      if Holds(st.floors[f], plate) then
        (true, LotState(st.floors[f := Vacate(st.floors[f], plate)], st.locations - {plate}))
      else (false, st)
  }

  /** Where the vehicle with plate `plate` is parked, if it is. */
  function Locate(st: LotState, plate: string): (r: Option<Location>)
    ensures r.Some? <==> plate in st.locations
    ensures Consistent(st) && r.Some? ==>
      var (f, spotNumbers) := r.value;
      0 <= f < |st.floors| && forall k :: 0 <= k < |spotNumbers| ==>
        0 <= spotNumbers[k] < |st.floors[f]| && HeldBy(st.floors[f][spotNumbers[k]], plate)
  {
    if plate in st.locations then Some(st.locations[plate]) else None
  }

  /** The number of free spots of each floor, in floor order. */
  function FreePerFloor(st: LotState): (r: seq<int>)
    ensures |r| == |st.floors|
    ensures forall f :: 0 <= f < |r| ==> r[f] == FreeCount(st.floors[f])
  {
    seq(|st.floors|, f requires 0 <= f < |st.floors| => FreeCount(st.floors[f]))
  }

  /** No floor has a free spot (true of a lot with no floors). */
  predicate NoFreeSpot(st: LotState)
  {
    forall f :: 0 <= f < |st.floors| ==> FreeCount(st.floors[f]) == 0
  }
}
