/**
 * A floor: a fixed row of spots, numbered from 0, searched first-fit.
 * The pure functions state what each search and update means on the
 * sequence of spots; the class `Floor` holds the spots in an array and is
 * proved against them.
 */
module Floors {
  import opened Vehicles
  import opened Spots

  /** Spot i is a spot of the row and is free. */
  predicate IsFree(s: seq<Spot>, i: int)
  {
    0 <= i < |s| && !s[i].isOccupied
  }

  /** Spots i and i + 1 are both free. */
  predicate PairFree(s: seq<Spot>, i: int)
  {
    IsFree(s, i) && IsFree(s, i + 1)
  }

  /** Spot `sp` is occupied by the vehicle with plate `licensePlate`. */
  predicate HeldBy(sp: Spot, licensePlate: string)
  {
    sp.isOccupied && sp.parkedVehicle == licensePlate
  }

  /** Some spot of the row is occupied by `licensePlate`. */
  predicate Holds(s: seq<Spot>, licensePlate: string)
  {
    exists i :: 0 <= i < |s| && HeldBy(s[i], licensePlate)
  }

  /** Spot i of floor f has number i, belongs to floor f and carries no plate when free. */
  predicate NumberedFloor(s: seq<Spot>, f: int)
  {
    forall i :: 0 <= i < |s| ==> s[i].floorNumber == f && s[i].spotNumber == i && s[i].Clean()
  }

  /** The spots of a new floor: `numSpots` free spots, none when `numSpots` is not positive. */
  function EmptyFloor(f: int, numSpots: int): (s: seq<Spot>)
    ensures |s| == if numSpots < 0 then 0 else numSpots
    ensures NumberedFloor(s, f)
    ensures forall i :: 0 <= i < |s| ==> !s[i].isOccupied
  {
    seq(if numSpots < 0 then 0 else numSpots, i => EmptySpot(f, i))
  }

  /** The lowest free spot at or after `from`, or |s| when there is none. */
  function FirstFreeFrom(s: seq<Spot>, from: nat): (r: nat)
    requires from <= |s|
    ensures from <= r <= |s|
    ensures r < |s| ==> IsFree(s, r)
    ensures forall j :: from <= j < r ==> s[j].isOccupied
    decreases |s| - from
  {
    if from == |s| then |s|
    else if !s[from].isOccupied then from
    else FirstFreeFrom(s, from + 1)
  }

  /** The lowest i at or after `from` with spots i and i + 1 free, or |s| when there is none. */
  function FirstPairFrom(s: seq<Spot>, from: nat): (r: nat)
    requires from <= |s|
    ensures from <= r <= |s|
    ensures r < |s| ==> PairFree(s, r)
    ensures forall j :: from <= j < r ==> !PairFree(s, j)
    decreases |s| - from
  {
    if from + 1 >= |s| then |s|
    else if PairFree(s, from) then from
    else FirstPairFrom(s, from + 1)
  }

  /**
   * The first-fit candidate for a vehicle needing `required` spots: the
   * lowest free spot for one, the lowest pair of adjacent free spots for
   * two (no wrap-around), and nothing when no candidate exists.
   */
  function FindSpots(s: seq<Spot>, required: int): (r: seq<int>)
    ensures required == 1 ==> (r == [] <==> forall i :: 0 <= i < |s| ==> s[i].isOccupied)
    ensures required == 1 && r != [] ==>
      |r| == 1 && IsFree(s, r[0]) && forall j :: 0 <= j < r[0] ==> s[j].isOccupied
    ensures required == 2 ==> (r == [] <==> forall i :: 0 <= i < |s| - 1 ==> !PairFree(s, i))
    ensures required == 2 && r != [] ==>
      |r| == 2 && r[1] == r[0] + 1 && PairFree(s, r[0]) && forall j :: 0 <= j < r[0] ==> !PairFree(s, j)
    ensures required != 1 && required != 2 ==> r == []
  {
    if required == 1 then
      var i := FirstFreeFrom(s, 0);
      if i < |s| then [i] else []
    else if required == 2 then
      var i := FirstPairFrom(s, 0);
      if i < |s| then [i, i + 1] else []
    else []
  }

  /** Every listed spot number names a spot of the row, and that spot is free. */
  predicate CanPark(s: seq<Spot>, spotNumbers: seq<int>)
  {
    forall k :: 0 <= k < |spotNumbers| ==> IsFree(s, spotNumbers[k])
  }

  /** The row after `licensePlate` is assigned to every listed spot. */
  function Occupy(s: seq<Spot>, spotNumbers: seq<int>, licensePlate: string): (r: seq<Spot>)
  {
    seq(|s|, i requires 0 <= i < |s| => if i in spotNumbers then s[i].AssignVehicle(licensePlate).1 else s[i])
  }

  /** The row after every spot occupied by `licensePlate` is freed. */
  function Vacate(s: seq<Spot>, licensePlate: string): (r: seq<Spot>)
  {
    seq(|s|, i requires 0 <= i < |s| => if HeldBy(s[i], licensePlate) then s[i].RemoveVehicle().1 else s[i])
  }

  /** The numbers of the free spots of the row. */
  function FreeSpots(s: seq<Spot>): set<int>
  {
    set i | 0 <= i < |s| && !s[i].isOccupied
  }

  /** How many spots of the row are free. */
  function FreeCount(s: seq<Spot>): nat
  {
    |FreeSpots(s)|
  }

  /** A candidate found by the search always passes the re-check made before parking. */
  lemma FoundSpotsCanPark(s: seq<Spot>, required: int)
    ensures CanPark(s, FindSpots(s, required))
  {
  }

  /** Parking in a candidate occupies exactly the candidate's spots, with the plate, and leaves the rest alone. */
  lemma OccupyEffect(s: seq<Spot>, spotNumbers: seq<int>, licensePlate: string)
    requires CanPark(s, spotNumbers)
    ensures |Occupy(s, spotNumbers, licensePlate)| == |s|
    ensures forall i :: 0 <= i < |s| ==>
      (i in spotNumbers ==> HeldBy(Occupy(s, spotNumbers, licensePlate)[i], licensePlate)) &&
      (i !in spotNumbers ==> Occupy(s, spotNumbers, licensePlate)[i] == s[i])
    ensures forall f :: NumberedFloor(s, f) ==> NumberedFloor(Occupy(s, spotNumbers, licensePlate), f)
  {
  }

  /**
   * Freeing a plate frees exactly the spots it occupied, leaves every other
   * spot as it was, and finds something to free exactly when the plate holds a spot.
   */
  lemma VacateEffect(s: seq<Spot>, licensePlate: string)
    ensures |Vacate(s, licensePlate)| == |s|
    ensures forall i :: 0 <= i < |s| ==>
      (HeldBy(s[i], licensePlate) ==> !Vacate(s, licensePlate)[i].isOccupied) &&
      (!HeldBy(s[i], licensePlate) ==> Vacate(s, licensePlate)[i] == s[i])
    ensures !Holds(s, licensePlate) ==> Vacate(s, licensePlate) == s
    ensures forall f :: NumberedFloor(s, f) ==> NumberedFloor(Vacate(s, licensePlate), f)
  {
  }

  /** A floor has no free spot exactly when the one-spot search finds nothing there. */
  lemma {:induction false} NoFreeSpotIffNoSingleCandidate(s: seq<Spot>)
    ensures FreeCount(s) == 0 <==> FindSpots(s, 1) == []
  {
    if FindSpots(s, 1) != [] {
      assert FindSpots(s, 1)[0] in FreeSpots(s);
    }
  }

  /** Parking a plate that holds no spot into a free candidate, then freeing it, gives back the row. */
  lemma {:induction false} OccupyThenVacate(s: seq<Spot>, spotNumbers: seq<int>, licensePlate: string)
    requires CanPark(s, spotNumbers)
    requires forall i :: 0 <= i < |s| ==> s[i].Clean()
    requires !Holds(s, licensePlate)
    ensures Vacate(Occupy(s, spotNumbers, licensePlate), licensePlate) == s
  {
    var o := Occupy(s, spotNumbers, licensePlate);
    var r := Vacate(o, licensePlate);
    forall i | 0 <= i < |s|
      ensures r[i] == s[i]
    {
      if i in spotNumbers {
        var k :| 0 <= k < |spotNumbers| && spotNumbers[k] == i;
        assert IsFree(s, spotNumbers[k]);
      } else {
        assert !HeldBy(s[i], licensePlate);
      }
    }
  }

  // ---------------------------------------------------------------------
  // The bound of the two-spot search as the source writes it.

  /**
   * The range of C++ `size_t`, assuming a 64-bit target (on a 32-bit one it
   * is 2^32; the loop below misbehaves the same way with either).
   */
  const SizeTModulus: int := 0x1_0000_0000_0000_0000

  /** The two-spot loop's bound `spots.size() - 1`, computed in unsigned `size_t` arithmetic. */
  function PairLoopBoundAsWritten(n: nat): (b: nat)
    requires n < SizeTModulus
    ensures n >= 1 ==> b == n - 1
    ensures n == 0 ==> b == SizeTModulus - 1
  {
    (n - 1) % SizeTModulus
  }

  /** The loop as written runs iteration i on a floor of n spots, reading spots i and i + 1. */
  predicate PairProbeAsWritten(n: nat, i: nat)
    requires n < SizeTModulus
  {
    i < PairLoopBoundAsWritten(n)
  }

  /**
   * On a floor with no spots the loop as written still runs its first
   * iteration, and so reads spot 0 of an empty row (and spot 1 when that
   * read happens to see a free spot, since the test short-circuits).
   */
  lemma EmptyFloorTruckProbeOutOfRange(s: seq<Spot>)
    requires |s| == 0
    ensures PairProbeAsWritten(|s|, 0)
    ensures !(0 < |s|) && !(1 < |s|)
  {
  }

  /** On a floor with at least one spot, the guard `i + 1 < n` runs exactly the iterations the written bound runs. */
  lemma PairGuardAgreesOnNonEmptyFloor(n: nat, i: nat)
    requires 1 <= n < SizeTModulus
    ensures PairProbeAsWritten(n, i) <==> i + 1 < n
  {
  }

  // ---------------------------------------------------------------------

  /** A floor of the lot: its number and its spots, held in place in an array. */
  class Floor {
    const floorNumber: int
    const spots: array<Spot>

    /** Spot i is spot number i of this floor, and a free spot carries no plate. */
    ghost predicate Valid()
      reads spots
    {
      NumberedFloor(spots[..], floorNumber)
    }

    /** A floor of `numSpots` free spots (none when `numSpots` is not positive). */
    constructor (floorNumber: int, numSpots: int)
      ensures Valid() && fresh(spots)
      ensures this.floorNumber == floorNumber
      ensures spots[..] == EmptyFloor(floorNumber, numSpots)
    {
      this.floorNumber := floorNumber;
      var n := if numSpots < 0 then 0 else numSpots;
      spots := new Spot[n](i => EmptySpot(floorNumber, i));
      new;
      assert spots[..] == EmptyFloor(floorNumber, numSpots);
    }

    /**
     * The first-fit search: the lowest free spot for a one-spot vehicle,
     * the lowest pair of adjacent free spots for a truck, or nothing.
     * Changes no spot.
     */
    method FindAvailableSpots(vehicle: Vehicle) returns (r: seq<int>)
      requires Valid()
      ensures r == FindSpots(spots[..], vehicle.RequiredSpots())
    {
      var required := vehicle.RequiredSpots();
      if required == 1 {
        for i := 0 to spots.Length
          invariant forall j :: 0 <= j < i ==> spots[j].isOccupied
        {
          if !spots[i].isOccupied {
            return [spots[i].spotNumber];
          }
        }
      } else if required == 2 {
        var i := 0;
        // The source bounds this loop by `spots.size() - 1` in unsigned
        // arithmetic; the guard below is that bound without the wrap-around.
        while i + 1 < spots.Length
          invariant 0 <= i
          invariant forall j :: 0 <= j < i ==> !PairFree(spots[..], j)
        {
          if !spots[i].isOccupied && !spots[i + 1].isOccupied {
            assert PairFree(spots[..], i);
            return [spots[i].spotNumber, spots[i + 1].spotNumber];
          }
          i := i + 1;
        }
      }
      return [];
    }

    /**
     * Park `vehicle` in the listed spots. Every spot number is re-checked
     * (in range and free) before any spot is assigned; if one fails nothing
     * changes.
     */
    method ParkVehicle(vehicle: Vehicle, spotNumbers: seq<int>) returns (ok: bool)
      requires Valid()
      modifies spots
      ensures Valid()
      ensures ok == CanPark(old(spots[..]), spotNumbers)
      ensures ok ==> spots[..] == Occupy(old(spots[..]), spotNumbers, vehicle.licensePlate)
      ensures !ok ==> unchanged(spots)
    {
      for k := 0 to |spotNumbers|
        invariant forall j :: 0 <= j < k ==> IsFree(spots[..], spotNumbers[j])
      {
        var idx := spotNumbers[k];
        if idx < 0 || idx >= spots.Length || spots[idx].isOccupied {
          return false;
        }
      }
      ghost var before := spots[..];
      for k := 0 to |spotNumbers|
        invariant forall i :: 0 <= i < spots.Length ==>
          spots[i] == if i in spotNumbers[..k] then before[i].AssignVehicle(vehicle.licensePlate).1 else before[i]
      {
        var idx := spotNumbers[k];
        assert idx in spotNumbers[..k + 1];
        assert forall i :: i in spotNumbers[..k + 1] <==> i in spotNumbers[..k] || i == idx;
        var taken := spots[idx].AssignVehicle(vehicle.licensePlate);
        spots[idx] := taken.1;
      }
      assert spotNumbers[..|spotNumbers|] == spotNumbers;
      ok := true;
    }

    /**
     * Free every spot occupied by `licensePlate`; report whether there was
     * one. No other spot changes.
     */
    method RemoveVehicle(licensePlate: string) returns (removed: bool)
      requires Valid()
      modifies spots
      ensures Valid()
      ensures removed == Holds(old(spots[..]), licensePlate)
      ensures spots[..] == Vacate(old(spots[..]), licensePlate)
    {
      removed := false;
      ghost var before := spots[..];
      for i := 0 to spots.Length
        invariant forall j :: 0 <= j < i ==> spots[j] == Vacate(before, licensePlate)[j]
        invariant forall j :: i <= j < spots.Length ==> spots[j] == before[j]
        invariant removed == exists j :: 0 <= j < i && HeldBy(before[j], licensePlate)
      {
        if spots[i].isOccupied && spots[i].parkedVehicle == licensePlate {
          var freed := spots[i].RemoveVehicle();
          spots[i] := freed.1;
          removed := true;
        }
      }
    }

    /** The number of free spots on this floor. */
    method AvailableSpotsCount() returns (count: int)
      ensures count == FreeCount(spots[..])
    {
      count := 0;
      for i := 0 to spots.Length
        invariant count == |FreeSpots(spots[..i])|
      {
        assert spots[..i + 1] == spots[..i] + [spots[i]];
        if !spots[i].isOccupied {
          assert FreeSpots(spots[..i + 1]) == FreeSpots(spots[..i]) + {i};
          count := count + 1;
        } else {
          assert FreeSpots(spots[..i + 1]) == FreeSpots(spots[..i]);
        }
      }
      assert spots[..spots.Length] == spots[..];
    }
  }
}
