/** The vehicles that ask for parking: a licence plate and a type. */
module Vehicles {

  /** The three kinds of vehicle the lot accepts. */
  datatype VehicleType = Bike | Car | Truck

  /** A parking request. The licence plate is the vehicle's unique key. */
  datatype Vehicle = Vehicle(licensePlate: string, vehicleType: VehicleType)
  {
    /** How many adjacent spots the vehicle takes: a truck two, anything else one. */
    function RequiredSpots(): (n: int)
      ensures n == 2 <==> vehicleType == Truck
      ensures n == 1 <==> vehicleType != Truck
    {
      if vehicleType == Truck then 2 else 1
    }
  }
}
