/**
 * Small concrete parking lots worked through operation by operation, each outcome proved from
 * the operations' contracts (parklot.py:57-81).
 */
module LotScenarios {
  import opened Optional
  import opened Vehicles
  import opened Spots
  import opened Floors
  import opened Lot

  /** A lot of one floor has exactly that floor's spots. */
  lemma SpotsOfOneFloor(floor: ParkingFloor)
    ensures SpotsOf([floor]) == set s | s in floor.spots
  {
    forall s | s in SpotsOf([floor])
      ensures s in floor.spots
    {
      var k, j :| 0 <= k < 1 && 0 <= j < |[floor][k].spots| && [floor][k].spots[j] == s;
    }
    forall s | s in floor.spots
      ensures s in SpotsOf([floor])
    {
      var j :| 0 <= j < |floor.spots| && floor.spots[j] == s;
      assert [floor][0].spots[j] == s;
    }
  }

  /** On a one-floor lot the first fit is the floor's first fit. */
  lemma FirstFitOnOneFloor(floor: ParkingFloor, v: Vehicle)
    ensures FirstFitOnFloors([floor], v) ==
      match FirstFit(floor.spots, v)
      case None => None
      case Some(j) => Some((0, j))
  {
  }

  /** The first fit among two spots. */
  lemma FirstFitOfTwo(a: ParkingSpot, b: ParkingSpot, v: Vehicle)
    ensures FirstFit([a, b], v) ==
      if a.Accepts(v) then Some(0) else if b.Accepts(v) then Some(1) else None
  {
  }

  /** One car spot: once the first car's ticket is retired, a second car parks in its place. */
  method ReleaseMakesRoom() returns (t1: Option<string>, removed: bool, t2: Option<string>)
    ensures t1 == Some("T-CAR1")
    ensures removed
    ensures t2 == Some("T-CAR2")
  {
    assert TicketId("CAR1") == "T-CAR1";
    assert TicketId("CAR2") == "T-CAR2";
    var s := new ParkingSpot(1, Car);
    var floor := new ParkingFloor(1, [s]);
    SpotsOfOneFloor(floor);
    assert SpotsOf([floor]) == {s};
    var lot := new ParkingLot([floor]);
    var car1, car2 := Vehicle("CAR1", Car), Vehicle("CAR2", Car);

    FirstFitOnOneFloor(floor, car1);
    t1 := lot.ParkVehicle(car1);
    assert t1.Some? && t1.value == TicketId("CAR1");
    assert "T-CAR1" in lot.activeTickets && lot.activeTickets["T-CAR1"].1 == s;

    removed := lot.RemoveVehicle("T-CAR1");
    assert !s.occupied;

    FirstFitOnOneFloor(floor, car2);
    t2 := lot.ParkVehicle(car2);
    assert t2.Some? && t2.value == TicketId("CAR2");
  }

  /**
   * Two car spots: two cars fill the lot and a third is turned away; once the first car's ticket
   * is retired, the third car parks in the freed spot.
   */
  method ThirdCarParksAfterRelease() returns (t1: Option<string>, t2: Option<string>, t3: Option<string>,
                                              removed: bool, t4: Option<string>)
    ensures t1 == Some("T-CAR1") && t2 == Some("T-CAR2")
    ensures t3 == None
    ensures removed
    ensures t4 == Some("T-CAR3")
  {
    assert TicketId("CAR3") == "T-CAR3";
    var s1 := new ParkingSpot(1, Car);
    var s2 := new ParkingSpot(2, Car);
    var floor := new ParkingFloor(1, [s1, s2]);
    SpotsOfOneFloor(floor);
    assert SpotsOf([floor]) == {s1, s2};
    var lot := new ParkingLot([floor]);
    var car3 := Vehicle("CAR3", Car);
    t1, t2, t3 := FillThenReject(lot, floor, s1, s2, car3);
    removed, t4 := ReleaseFirstAndRepark(lot, floor, s1, s2, car3);
  }

  /**
   * The first half of ThirdCarParksAfterRelease: on an empty lot of two distinct car spots, cars
   * "CAR1" and "CAR2" take the two spots and `car` is turned away.
   */
  method FillThenReject(lot: ParkingLot, floor: ParkingFloor, s1: ParkingSpot, s2: ParkingSpot, car: Vehicle)
    returns (t1: Option<string>, t2: Option<string>, t3: Option<string>)
    requires lot.Valid() && lot.floors == [floor] && floor.spots == [s1, s2] && lot.allSpots == {s1, s2}
    requires s1 != s2 && s1.size == Car && s2.size == Car && !s1.occupied && !s2.occupied
    requires lot.activeTickets == map[] && car.vehicleType == Car
    modifies lot, s1, s2
    ensures t1 == Some("T-CAR1") && t2 == Some("T-CAR2") && t3 == None
    ensures lot.Valid() && s2.occupied
    ensures "T-CAR1" in lot.activeTickets && lot.activeTickets["T-CAR1"].1 == s1
  {
    assert TicketId("CAR1") == "T-CAR1";
    assert TicketId("CAR2") == "T-CAR2";
    var car1, car2 := Vehicle("CAR1", Car), Vehicle("CAR2", Car);

    FirstFitOfTwo(s1, s2, car1);
    FirstFitOnOneFloor(floor, car1);
    t1 := lot.ParkVehicle(car1);
    assert t1.Some? && t1.value == TicketId("CAR1");
    assert s1.occupied && !s2.occupied;

    FirstFitOfTwo(s1, s2, car2);
    FirstFitOnOneFloor(floor, car2);
    t2 := lot.ParkVehicle(car2);
    assert t2.Some? && t2.value == TicketId("CAR2");
    assert s1.occupied && s2.occupied;
    assert "T-CAR1" in lot.activeTickets && lot.activeTickets["T-CAR1"].1 == s1;

    FirstFitOfTwo(s1, s2, car);
    FirstFitOnOneFloor(floor, car);
    t3 := lot.ParkVehicle(car);
  }

  /**
   * The second half of ThirdCarParksAfterRelease: on the full two-spot lot, retiring "T-CAR1"
   * frees the first spot and `car` then parks under its own ticket.
   */
  method ReleaseFirstAndRepark(lot: ParkingLot, floor: ParkingFloor, s1: ParkingSpot, s2: ParkingSpot, car: Vehicle)
    returns (removed: bool, t: Option<string>)
    requires lot.Valid() && lot.floors == [floor] && floor.spots == [s1, s2] && lot.allSpots == {s1, s2}
    requires s1 != s2 && s1.size == Car && s2.occupied && car.vehicleType == Car
    requires "T-CAR1" in lot.activeTickets && lot.activeTickets["T-CAR1"].1 == s1
    modifies lot, s1, s2
    ensures removed
    ensures t == Some(TicketId(car.licensePlate))
  {
    removed := lot.RemoveVehicle("T-CAR1");
    assert !s1.occupied && s2.occupied;

    FirstFitOfTwo(s1, s2, car);
    FirstFitOnOneFloor(floor, car);
    t := lot.ParkVehicle(car);
  }

  /** A car cannot use a bike spot: parking fails and the lot stays empty. */
  method CarRejectedByBikeSpot() returns (t: Option<string>, spotFree: bool, ticketCount: nat)
    ensures t == None && spotFree && ticketCount == 0
  {
    var s := new ParkingSpot(1, Bike);
    var floor := new ParkingFloor(1, [s]);
    SpotsOfOneFloor(floor);
    assert SpotsOf([floor]) == {s};
    var lot := new ParkingLot([floor]);
    t := lot.ParkVehicle(Vehicle("CAR1", Car));
    spotFree := !s.occupied;
    ticketCount := |lot.activeTickets|;
  }

  /** Removing the same ticket twice succeeds once; the spot is free and the id is reusable. */
  method RemoveTwice() returns (first: bool, second: bool, spotFree: bool, again: Option<string>)
    ensures first && !second && spotFree
    ensures again == Some("T-BIKE1")
  {
    assert TicketId("BIKE1") == "T-BIKE1";
    var s := new ParkingSpot(1, Truck);
    var floor := new ParkingFloor(1, [s]);
    SpotsOfOneFloor(floor);
    assert SpotsOf([floor]) == {s};
    var lot := new ParkingLot([floor]);
    var bike := Vehicle("BIKE1", Bike);
    assert FirstFit(floor.spots, bike) == Some(0);
    assert FirstFitOnFloors(lot.floors, bike) == Some((0, 0));
    var t := lot.ParkVehicle(bike);
    assert t.Some?;
    assert t.value == TicketId("BIKE1");
    assert "T-BIKE1" in lot.activeTickets;
    first := lot.RemoveVehicle("T-BIKE1");
    assert first;
    assert "T-BIKE1" !in lot.activeTickets;
    second := lot.RemoveVehicle("T-BIKE1");
    spotFree := !s.occupied && s.vehicle == None;
    assert FirstFit(floor.spots, bike) == Some(0);
    assert FirstFitOnFloors(lot.floors, bike) == Some((0, 0));
    again := lot.ParkVehicle(bike);
  }

  /**
   * Parking a plate that is already parked succeeds and overwrites its ticket: the first spot
   * stays occupied with no ticket naming it, so removing the ticket frees only the second spot.
   */
  method ReparkOrphansFirstSpot() returns (t1: Option<string>, t2: Option<string>, removed: bool,
                                           firstStillOccupied: bool, secondFree: bool, removedAgain: bool)
    ensures t1 == Some("T-CAR1") && t2 == t1
    ensures removed && firstStillOccupied && secondFree
    ensures !removedAgain
  {
    assert TicketId("CAR1") == "T-CAR1";
    var s1 := new ParkingSpot(1, Car);
    var s2 := new ParkingSpot(2, Car);
    var floor := new ParkingFloor(1, [s1, s2]);
    SpotsOfOneFloor(floor);
    assert SpotsOf([floor]) == {s1, s2};
    var lot := new ParkingLot([floor]);
    var car := Vehicle("CAR1", Car);

    FirstFitOfTwo(s1, s2, car);
    FirstFitOnOneFloor(floor, car);
    t1 := lot.ParkVehicle(car);
    assert t1.Some? && t1.value == TicketId("CAR1");
    assert s1.occupied && !s2.occupied;

    FirstFitOfTwo(s1, s2, car);
    FirstFitOnOneFloor(floor, car);
    t2 := lot.ParkVehicle(car);
    assert t2.Some? && t2.value == TicketId("CAR1");
    assert s1.occupied && s2.occupied;
    assert lot.activeTickets["T-CAR1"].1 == s2;

    removed := lot.RemoveVehicle("T-CAR1");
    firstStillOccupied := s1.occupied;
    secondFree := !s2.occupied;
    removedAgain := lot.RemoveVehicle("T-CAR1");
  }
}
