/** Vehicle size classes, vehicles and the ticket ids derived from their plates (parklot.py:5-14, 67). */
module Vehicles {

  /** The ordered size classes BIKE < CAR < TRUCK; a spot's capacity is drawn from the same set. */
  datatype VehicleType = Bike | Car | Truck

  /** The enumeration's integer value (BIKE = 1, CAR = 2, TRUCK = 3). */
  function Value(t: VehicleType): (v: int)
    ensures 1 <= v <= 3
    ensures v == 1 <==> t == Bike
    ensures v == 3 <==> t == Truck
  {
    match t
    case Bike => 1
    case Car => 2
    case Truck => 3
  }

  /**
   * A vehicle of class `vt` may use a spot of capacity `size` when its value does not exceed
   * the spot's. Equivalently: bikes fit everywhere, trucks fit only truck spots, and every
   * class fits its own class — six of the nine combinations.
   */
  predicate Fits(vt: VehicleType, size: VehicleType): (b: bool)
    ensures b <==> vt == Bike || vt == size || size == Truck
  {
    Value(vt) <= Value(size)
  }

  /** `Fits` is a total order on the three classes. */
  lemma FitsIsTotalOrder(a: VehicleType, b: VehicleType, c: VehicleType)
    ensures Fits(a, a)
    ensures Fits(a, b) && Fits(b, a) ==> a == b
    ensures Fits(a, b) && Fits(b, c) ==> Fits(a, c)
    ensures Fits(a, b) || Fits(b, a)
  {
  }

  /** A vehicle never changes once built. */
  datatype Vehicle = Vehicle(licensePlate: string, vehicleType: VehicleType)

  const TicketPrefix: string := "T-"

  /** The ticket id of a plate: the fixed prefix followed by the plate. */
  function TicketId(plate: string): (id: string)
    ensures |id| == |TicketPrefix| + |plate|
    ensures id[..|TicketPrefix|] == TicketPrefix && id[|TicketPrefix|..] == plate
  {
    TicketPrefix + plate
  }

  /** Two plates share a ticket id exactly when they are the same plate. */
  lemma TicketIdInjective(p: string, q: string)
    ensures TicketId(p) == TicketId(q) <==> p == q
  {
    if TicketId(p) == TicketId(q) {
      assert p == TicketId(p)[|TicketPrefix|..] == TicketId(q)[|TicketPrefix|..] == q;
    }
  }
}
