/**
 * The parking lot: floors searched in order, and the table of active tickets mapping each
 * ticket id to the vehicle and the spot it holds (parklot.py:57-81).
 */
module Lot {
  import opened Optional
  import opened Vehicles
  import opened Spots
  import opened Floors

  /** Every spot on the given floors. */
  function SpotsOf(floors: seq<ParkingFloor>): (all: set<ParkingSpot>)
    ensures forall k, j :: 0 <= k < |floors| && 0 <= j < |floors[k].spots| ==> floors[k].spots[j] in all
  {
    set k, j | 0 <= k < |floors| && 0 <= j < |floors[k].spots| :: floors[k].spots[j]
  }

  /**
   * The (floor index, spot index) of the first spot, on the first floor that has one, that
   * accepts `v`; None when no floor has such a spot (see FirstFitOnFloorsNone and FirstFitOnFloorsAt).
   */
  function FirstFitOnFloors(floors: seq<ParkingFloor>, v: Vehicle): (r: Option<(nat, nat)>)
    reads SpotsOf(floors)
    ensures r.Some? ==> r.value.0 < |floors| && r.value.1 < |floors[r.value.0].spots|
    decreases |floors|
  {
    if |floors| == 0 then None
    else match FirstFit(floors[0].spots, v)
      case Some(j) => Some((0, j))
      case None =>
        match FirstFitOnFloors(floors[1..], v)
        case None => None
        case Some(loc) => Some((loc.0 + 1, loc.1))
  }

  /** FirstFitOnFloors finds nothing exactly when no floor has a first fit. */
  lemma {:induction false} FirstFitOnFloorsNone(floors: seq<ParkingFloor>, v: Vehicle)
    ensures FirstFitOnFloors(floors, v).None? <==>
      forall k :: 0 <= k < |floors| ==> FirstFit(floors[k].spots, v).None?
    decreases |floors|
  {
    if |floors| > 0 && FirstFit(floors[0].spots, v).None? {
      FirstFitOnFloorsNone(floors[1..], v);
      assert forall k :: 1 <= k < |floors| ==> floors[k] == floors[1..][k - 1];
    }
  }

  /**
   * FirstFitOnFloors picks spot `j` of floor `k` exactly when `j` is floor `k`'s first fit and no
   * floor before `k` has one.
   */
  lemma {:induction false} FirstFitOnFloorsAt(floors: seq<ParkingFloor>, v: Vehicle, k: nat, j: nat)
    ensures FirstFitOnFloors(floors, v) == Some((k, j)) <==>
      && k < |floors|
      && FirstFit(floors[k].spots, v) == Some(j)
      && forall k' :: 0 <= k' < k ==> FirstFit(floors[k'].spots, v).None?
    decreases |floors|
  {
    if |floors| > 0 && FirstFit(floors[0].spots, v).None? && k > 0 {
      FirstFitOnFloorsAt(floors[1..], v, k - 1, j);
      assert forall k' :: 1 <= k' < |floors| ==> floors[k'] == floors[1..][k' - 1];
    }
  }

  class ParkingLot {
    const floors: seq<ParkingFloor>
    var activeTickets: map<string, (Vehicle, ParkingSpot)>

    /** All allSpots of the lot; fixed for the lot's lifetime. */
    ghost const allSpots: set<ParkingSpot> := SpotsOf(floors)

    /** The spot at a location returned by `FirstFitOnFloors`. */
    function SpotAt(loc: (nat, nat)): (s: ParkingSpot)
      requires loc.0 < |floors| && loc.1 < |floors[loc.0].spots|
    {
      floors[loc.0].spots[loc.1]
    }

    /**
     * The lot's invariant: every spot keeps its own invariant, and every ticket is keyed by its
     * vehicle's plate and names a spot of this lot that holds that vehicle.
     */
    ghost predicate Valid()
      reads this, allSpots
    {
      && (forall s :: s in allSpots ==> s.Valid())
      && (forall id :: id in activeTickets ==>
            && id == TicketId(activeTickets[id].0.licensePlate)
            && activeTickets[id].1 in allSpots
            && activeTickets[id].1.vehicle == Some(activeTickets[id].0))
    }

    /** In a valid lot no two tickets name the same spot. */
    lemma TicketsNameDistinctSpots(id1: string, id2: string)
      requires Valid()
      requires id1 in activeTickets && id2 in activeTickets
      ensures activeTickets[id1].1 == activeTickets[id2].1 ==> id1 == id2
    {
    }

    /** Every occupied spot is named by some ticket (no vehicle is parked without a ticket). */
    ghost predicate EveryOccupiedSpotTicketed()
      reads this, allSpots
    {
      forall s :: s in allSpots && s.occupied ==>
        exists id :: id in activeTickets && activeTickets[id].1 == s
    }

    /** A new lot over the given floors has no tickets. */
    constructor (floors: seq<ParkingFloor>)
      requires forall s :: s in SpotsOf(floors) ==> s.Valid()
      ensures this.floors == floors && activeTickets == map[]
      ensures Valid()
    {
      this.floors := floors;
      activeTickets := map[];
    }

    /**
     * The search half of parking: asks each floor in order for its first accepting spot and
     * stops at the first floor that has one. Changes nothing.
     */
    method FindSpot(v: Vehicle) returns (found: Option<ParkingSpot>)
      ensures found.None? <==> FirstFitOnFloors(floors, v).None?
      ensures found.Some? ==> found.value == SpotAt(FirstFitOnFloors(floors, v).value)
      ensures found.Some? ==> found.value.Accepts(v)
    {
      var i := 0;
      while i < |floors|
        invariant 0 <= i <= |floors|
        invariant forall k :: 0 <= k < i ==> FirstFit(floors[k].spots, v).None?
      {
        found := floors[i].FindAvailableSpot(v);
        if found.Some? {
          FirstFitOnFloorsAt(floors, v, i, FirstFit(floors[i].spots, v).value);
          return;
        }
        i := i + 1;
      }
      FirstFitOnFloorsNone(floors, v);
      return None;
    }

    /**
     * Parks `v` in the first accepting spot of the first floor that has one, and records the
     * ticket "T-" + plate for it, overwriting any ticket already held under that id. Returns None
     * and changes nothing when no floor has such a spot.
     */
    method ParkVehicle(v: Vehicle) returns (ticket: Option<string>)
      requires Valid()
      modifies this, allSpots
      ensures Valid()
      ensures ticket.None? <==> old(FirstFitOnFloors(floors, v)).None?
      ensures ticket.None? ==>
        && activeTickets == old(activeTickets)
        && forall t :: t in allSpots ==> t.occupied == old(t.occupied) && t.vehicle == old(t.vehicle)
      ensures ticket.Some? ==>
        var s := SpotAt(old(FirstFitOnFloors(floors, v)).value);
        && ticket.value == TicketId(v.licensePlate)
        && s.occupied && s.vehicle == Some(v)
        && activeTickets == old(activeTickets)[ticket.value := (v, s)]
        && forall t :: t in allSpots && t != s ==> t.occupied == old(t.occupied) && t.vehicle == old(t.vehicle)
      // A plate not already ticketed keeps every occupied spot ticketed.
      ensures ticket.Some? && ticket.value !in old(activeTickets) && old(EveryOccupiedSpotTicketed()) ==>
        EveryOccupiedSpotTicketed()
      // Re-parking a ticketed plate orphans the spot its old ticket named: still occupied, no ticket.
      ensures ticket.Some? && ticket.value in old(activeTickets) ==>
        var orphan := old(activeTickets[ticket.value].1);
        && orphan.occupied && orphan.vehicle == old(orphan.vehicle)
        && (forall id :: id in activeTickets ==> activeTickets[id].1 != orphan)
        && !EveryOccupiedSpotTicketed()
    {
      var found := FindSpot(v);
      if found.None? {
        return None;
      }
      var spot := found.value;
      ghost var loc := FirstFitOnFloors(floors, v).value;
      assert Some(loc) == old(FirstFitOnFloors(floors, v));
      var ticketId := Commit(v, spot);
      ticket := Some(ticketId);
    }

    /**
     * The commit half of parking: occupies `spot` with `v` and records the ticket for it,
     * overwriting any ticket already held under the same id. Only `spot` and the ticket table change.
     */
    method Commit(v: Vehicle, spot: ParkingSpot) returns (ticketId: string)
      requires Valid()
      requires spot in allSpots && spot.Accepts(v)
      modifies this, spot
      ensures Valid()
      ensures ticketId == TicketId(v.licensePlate)
      ensures spot.occupied && spot.vehicle == Some(v)
      ensures activeTickets == old(activeTickets)[ticketId := (v, spot)]
      ensures ticketId !in old(activeTickets) && old(EveryOccupiedSpotTicketed()) ==>
        EveryOccupiedSpotTicketed()
      ensures ticketId in old(activeTickets) ==>
        var orphan := old(activeTickets[ticketId].1);
        && orphan != spot && orphan.occupied
        && (forall id :: id in activeTickets ==> activeTickets[id].1 != orphan)
        && !EveryOccupiedSpotTicketed()
    {
      var ok := spot.ParkVehicle(v);
      assert ok;
      ticketId := TicketId(v.licensePlate);
      activeTickets := activeTickets[ticketId := (v, spot)];
      if ticketId !in old(activeTickets) && old(EveryOccupiedSpotTicketed()) {
        forall t | t in allSpots && t.occupied
          ensures exists id :: id in activeTickets && activeTickets[id].1 == t
        {
          if t != spot {
            var id :| id in old(activeTickets) && old(activeTickets)[id].1 == t;
            assert activeTickets[id].1 == t;
          } else {
            assert activeTickets[ticketId].1 == t;
          }
        }
      } else if ticketId in old(activeTickets) {
        var orphan := old(activeTickets[ticketId].1);
        assert orphan.occupied && orphan in allSpots;
        assert forall id :: id in activeTickets ==> activeTickets[id].1 != orphan;
      }
    }

    /**
     * Retires ticket `ticketId` and frees the spot it names. Returns false and changes nothing
     * when the id is not an active ticket.
     */
    method RemoveVehicle(ticketId: string) returns (ok: bool)
      requires Valid()
      modifies this, allSpots
      ensures Valid()
      ensures ok <==> ticketId in old(activeTickets)
      ensures activeTickets == old(activeTickets) - {ticketId}
      ensures ok ==>
        var s := old(activeTickets[ticketId].1);
        && !s.occupied && s.vehicle == None
        && forall t :: t in allSpots && t != s ==> t.occupied == old(t.occupied) && t.vehicle == old(t.vehicle)
      ensures !ok ==>
        forall t :: t in allSpots ==> t.occupied == old(t.occupied) && t.vehicle == old(t.vehicle)
      ensures old(EveryOccupiedSpotTicketed()) ==> EveryOccupiedSpotTicketed()
    {
      if ticketId !in activeTickets {
        return false;
      }
      Release(ticketId);
      return true;
    }

    /**
     * The release half of removal: drops the ticket `ticketId` from the table and frees the spot
     * it names. Only that spot and the ticket table change.
     */
    method Release(ticketId: string)
      requires Valid()
      requires ticketId in activeTickets
      modifies this, activeTickets[ticketId].1
      ensures Valid()
      ensures activeTickets == old(activeTickets) - {ticketId}
      ensures !old(activeTickets[ticketId].1).occupied && old(activeTickets[ticketId].1).vehicle == None
      ensures old(EveryOccupiedSpotTicketed()) ==> EveryOccupiedSpotTicketed()
    {
      var spot := activeTickets[ticketId].1;
      activeTickets := activeTickets - {ticketId};
      assert forall id :: id in activeTickets ==> activeTickets[id].1 != spot;
      spot.RemoveVehicle();
      if old(EveryOccupiedSpotTicketed()) {
        forall t | t in allSpots && t.occupied
          ensures exists id :: id in activeTickets && activeTickets[id].1 == t
        {
          var id :| id in old(activeTickets) && old(activeTickets)[id].1 == t;
          assert activeTickets[id].1 == t;
        }
      }
    }
  }
}
