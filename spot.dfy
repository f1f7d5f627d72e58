/** A parking spot: holds at most one vehicle of a class no larger than its own (parklot.py:20-36). */
module Spots {
  import opened Optional
  import opened Vehicles

  class ParkingSpot {
    const spotId: int
    const size: VehicleType
    var occupied: bool
    var vehicle: Option<Vehicle>

    /** The spot's invariant: occupied exactly when a vehicle is present, and that vehicle fits. */
    ghost predicate Valid()
      reads this
    {
      && (occupied <==> vehicle.Some?)
      && (vehicle.Some? ==> Fits(vehicle.value.vehicleType, size))
    }

    /** The spot is free and large enough for `v`: the test both parking and the floor scan use. */
    predicate Accepts(v: Vehicle)
      reads this
    {
      !occupied && Fits(v.vehicleType, size)
    }

    /** A new spot is free and empty. */
    constructor (spotId: int, size: VehicleType)
      ensures this.spotId == spotId && this.size == size
      ensures !occupied && vehicle == None
      ensures Valid()
    {
      this.spotId := spotId;
      this.size := size;
      occupied := false;
      vehicle := None;
    }

    /**
     * Guarded test-and-set: refuses, changing nothing, when the spot is occupied or `v` is too
     * large; otherwise binds `v` and marks the spot occupied.
     */
    method ParkVehicle(v: Vehicle) returns (ok: bool)
      modifies this
      ensures ok <==> old(Accepts(v))
      ensures ok ==> occupied && vehicle == Some(v) && Valid()
      ensures !ok ==> occupied == old(occupied) && vehicle == old(vehicle)
      ensures old(Valid()) ==> Valid()
    {
      if occupied || Value(v.vehicleType) > Value(size) {
        return false;
      }
      vehicle := Some(v);
      occupied := true;
      return true;
    }

    /** Unconditionally frees the spot; the new state does not depend on the old one, so a second call changes nothing. */
    method RemoveVehicle()
      modifies this
      ensures !occupied && vehicle == None
      ensures Valid()
    {
      vehicle := None;
      occupied := false;
    }
  }
}
