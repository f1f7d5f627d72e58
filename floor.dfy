/** A floor: an ordered list of spots searched first-fit (parklot.py:42-51). */
module Floors {
  import opened Optional
  import opened Vehicles
  import opened Spots

  /**
   * The index of the first spot in `spots` that accepts `v`, or None when no spot does
   * (see FirstFitNone and FirstFitAt).
   */
  function FirstFit(spots: seq<ParkingSpot>, v: Vehicle): (r: Option<nat>)
    reads spots
    ensures r.Some? ==> r.value < |spots|
    decreases |spots|
  {
    if |spots| == 0 then None
    else if spots[0].Accepts(v) then Some(0)
    else match FirstFit(spots[1..], v)
      case None => None
      case Some(k) => Some(k + 1)
  }

  /** FirstFit finds nothing exactly when no spot accepts `v`. */
  lemma {:induction false} FirstFitNone(spots: seq<ParkingSpot>, v: Vehicle)
    ensures FirstFit(spots, v).None? <==> forall j :: 0 <= j < |spots| ==> !spots[j].Accepts(v)
    decreases |spots|
  {
    if |spots| > 0 && !spots[0].Accepts(v) {
      FirstFitNone(spots[1..], v);
      assert forall j :: 1 <= j < |spots| ==> spots[j] == spots[1..][j - 1];
    }
  }

  /** FirstFit picks index `i` exactly when spot `i` accepts `v` and no spot before it does. */
  lemma {:induction false} FirstFitAt(spots: seq<ParkingSpot>, v: Vehicle, i: nat)
    ensures FirstFit(spots, v) == Some(i) <==>
      i < |spots| && spots[i].Accepts(v) && forall j :: 0 <= j < i ==> !spots[j].Accepts(v)
    decreases |spots|
  {
    if |spots| > 0 && !spots[0].Accepts(v) && i > 0 {
      FirstFitAt(spots[1..], v, i - 1);
      assert forall j :: 1 <= j < |spots| ==> spots[j] == spots[1..][j - 1];
    }
  }

  class ParkingFloor {
    const floorNumber: int
    const spots: seq<ParkingSpot>

    constructor (floorNumber: int, spots: seq<ParkingSpot>)
      ensures this.floorNumber == floorNumber && this.spots == spots
    {
      this.floorNumber := floorNumber;
      this.spots := spots;
    }

    /**
     * Linear scan in stored order, returning the first free spot large enough for `v`, or None
     * when there is none. Changes nothing.
     */
    method FindAvailableSpot(v: Vehicle) returns (r: Option<ParkingSpot>)
      ensures r.None? <==> FirstFit(spots, v).None?
      ensures r.Some? ==> r.value == spots[FirstFit(spots, v).value]
      ensures r.Some? ==> r.value.Accepts(v)
    {
      var i := 0;
      while i < |spots|
        invariant 0 <= i <= |spots|
        invariant forall j :: 0 <= j < i ==> !spots[j].Accepts(v)
      {
        var spot := spots[i];
        if !spot.occupied && Value(v.vehicleType) <= Value(spot.size) {
          FirstFitAt(spots, v, i);
          return Some(spot);
        }
        i := i + 1;
      }
      FirstFitNone(spots, v);
      return None;
    }
  }
}
