/** A single parking spot and the two operations that change it. */
module Spots {

  /**
   * One spot. `floorNumber` and `spotNumber` are its fixed identity;
   * `parkedVehicle` is the plate of the vehicle in it, and the empty string
   * when the spot is free.
   */
  datatype Spot = Spot(floorNumber: int, spotNumber: int, isOccupied: bool, parkedVehicle: string)
  {
    /** A free spot carries no plate. */
    predicate Clean()
    {
      !isOccupied ==> parkedVehicle == ""
    }

    /** Park `licensePlate` here. Succeeds, and changes the spot, only when it is free. */
    function AssignVehicle(licensePlate: string): (r: (bool, Spot))
      ensures r.0 <==> !isOccupied
      ensures r.0 ==> r.1.isOccupied && r.1.parkedVehicle == licensePlate
      ensures !r.0 ==> r.1 == this
      ensures r.1.floorNumber == floorNumber && r.1.spotNumber == spotNumber
      ensures r.1.Clean()
    {
      if isOccupied then (false, this)
      else (true, this.(isOccupied := true, parkedVehicle := licensePlate))
    }

    /** Free the spot. Succeeds, and changes the spot, only when it is occupied. */
    function RemoveVehicle(): (r: (bool, Spot))
      ensures r.0 <==> isOccupied
      ensures r.0 ==> !r.1.isOccupied && r.1.parkedVehicle == ""
      ensures !r.0 ==> r.1 == this
      ensures r.1.floorNumber == floorNumber && r.1.spotNumber == spotNumber
      ensures Clean() ==> r.1.Clean()
    {
      if !isOccupied then (false, this)
      else (true, this.(isOccupied := false, parkedVehicle := ""))
    }
  }

  /** A spot as it is built: free, with no plate. */
  function EmptySpot(floorNumber: int, spotNumber: int): (s: Spot)
    ensures !s.isOccupied && s.Clean()
    ensures s.floorNumber == floorNumber && s.spotNumber == spotNumber
  {
    Spot(floorNumber, spotNumber, false, "")
  }

  /** Parking in a free spot and then leaving gives back the free spot. */
  lemma AssignThenRemove(s: Spot, licensePlate: string)
    requires !s.isOccupied && s.Clean()
    ensures s.AssignVehicle(licensePlate).1.RemoveVehicle() == (true, s)
  {
  }

  /** Freeing an occupied spot and parking the same plate again gives back the spot. */
  lemma RemoveThenAssign(s: Spot)
    requires s.isOccupied
    ensures s.RemoveVehicle().1.AssignVehicle(s.parkedVehicle) == (true, s)
  {
  }
}
