# Parking lot allocator in Dafny

This project models `parklot.py`, an in-memory parking-lot allocator. The allocator has these parts:

- Vehicles come in three size classes: BIKE < CAR < TRUCK.
- A spot takes one vehicle whose class is no larger than the spot's own.
- A floor is an ordered list of spots, searched first-fit.
- A lot is an ordered list of floors. Parking takes the first accepting spot on the first floor that has one. It then records the ticket `"T-" + plate` in a table of active tickets. Removing a vehicle retires the ticket and frees its spot.
- A payment processor bills `max(1, seconds // 3600)` hours at an hourly rate.

The model takes the same shape as the program:

- **Classes for state changed in place.** `ParkingSpot`, `ParkingFloor` and `ParkingLot` are classes with the source's fields.
  - A spot's `occupied` and `vehicle` fields are updated in place.
  - The lot's ticket dictionary is a `map` field that its methods reassign.
  - `ParkingLot.Valid()` is the lot's invariant, and every method that changes the lot keeps it. The invariant says two things. First, every spot is free exactly when it holds no vehicle, and a held vehicle fits its spot. Second, every ticket is keyed by its vehicle's plate and names a spot of the lot that holds that vehicle.
- **Datatypes for values.** `Vehicle` and `PaymentProcessor` are never mutated, so they are datatypes.
- **Specification functions for the searches.** The first-fit searches are stated as recursive functions:
  - `Floors.FirstFit` over one floor's spots;
  - `Lot.FirstFitOnFloors` over the floors.

  Lemmas characterise both functions both ways: which index they pick, and when they find nothing. The scanning methods are proved against them.

A plate that is already parked can be parked again. The second park overwrites the ticket (`parklot.py:68`). The model reproduces this rather than forbidding it: `ParkingLot.ParkVehicle` states that the old spot stays occupied with no ticket naming it. In every other case, parking keeps the property that every occupied spot has a ticket, and removal always keeps it.

Modules:

- `Optional`: the option type.
- `Vehicles`: size classes, vehicles and ticket ids.
- `Spots`: the parking spot.
- `Floors`: the floor and its first-fit search.
- `Lot`: the lot and its ticket table.
- `Payment`: the fee rule.
- `LotScenarios`: small concrete lots worked through operation by operation, each outcome proved.

## Model

| member | source | states |
|---|---|---|
| Vehicles.Value | parklot.py:5-8 | The class values are BIKE = 1, CAR = 2, TRUCK = 3: every value lies in 1..3, the value is 1 exactly for BIKE and 3 exactly for TRUCK |
| Vehicles.Fits | parklot.py:28 | A vehicle fits a spot exactly when it is a bike, or the spot is a truck spot, or both have the same class |
| Vehicles.FitsIsTotalOrder | parklot.py:5-8 | Fitting by class value is reflexive, antisymmetric, transitive and total |
| Vehicles.TicketId | parklot.py:67 | The ticket id is the prefix "T-" followed by the plate, character for character |
| Vehicles.TicketIdInjective | parklot.py:67 | Two plates get the same ticket id exactly when they are the same plate |
| Spots.ParkingSpot.constructor | parklot.py:21-25 | A new spot keeps its id and size, is free and holds no vehicle, so the spot invariant holds from the start |
| Spots.ParkingSpot.ParkVehicle | parklot.py:27-32 | Succeeds exactly when the spot was free and the vehicle fits. On success the spot is occupied by that vehicle. On failure nothing changes. The invariant (occupied exactly when a vehicle is held, and it fits) is preserved |
| Spots.ParkingSpot.RemoveVehicle | parklot.py:34-36 | Always leaves the spot free with no vehicle, whatever it held before. The new state does not depend on the old one, so a second call changes nothing |
| Floors.FirstFit | parklot.py:47-51 | Any index the first-fit search returns is within the floor's spot list |
| Floors.FirstFitNone | parklot.py:47-51 | The first-fit search finds nothing exactly when no spot of the floor is free and large enough |
| Floors.FirstFitAt | parklot.py:47-51 | The first-fit search returns index i exactly when spot i is free and large enough and no earlier spot is |
| Floors.ParkingFloor.constructor | parklot.py:43-45 | A new floor keeps its number and its spots in the given order |
| Floors.ParkingFloor.FindAvailableSpot | parklot.py:47-51 | The scan changes nothing. It returns the spot at the first-fit index, and that spot is free and large enough. It returns None exactly when the first-fit search finds nothing |
| Lot.FirstFitOnFloors | parklot.py:63-65 | Any location the lot-wide search returns names an existing floor and an existing spot on it |
| Lot.FirstFitOnFloorsNone | parklot.py:63-72 | The lot-wide search finds nothing exactly when no floor has an accepting spot |
| Lot.FirstFitOnFloorsAt | parklot.py:63-65 | The lot-wide search returns (floor k, spot j) exactly when j is floor k's first fit and no earlier floor has any accepting spot |
| Lot.ParkingLot.constructor | parklot.py:58-60 | A new lot keeps its floors in order, has no active tickets, and satisfies the lot invariant |
| Lot.ParkingLot.TicketsNameDistinctSpots | parklot.py:68 | In a valid lot two different tickets never name the same spot |
| Lot.ParkingLot.FindSpot | parklot.py:63-65 | The floor-by-floor search changes nothing. It returns the spot at the lot-wide first-fit location, and that spot accepts the vehicle. It returns None exactly when there is no such location |
| Lot.ParkingLot.ParkVehicle | parklot.py:62-72 | Fails exactly when no floor has an accepting spot, and then changes no spot and no ticket. Otherwise the first accepting spot on the first such floor holds the vehicle, the ticket table gains or overwrites "T-" + plate with (vehicle, that spot), and no other spot changes. The lot invariant is preserved. For a plate not yet ticketed, every occupied spot stays ticketed. Re-parking a ticketed plate leaves its earlier spot occupied with no ticket naming it |
| Lot.ParkingLot.Commit | parklot.py:66-68 | Parking into an accepting spot always succeeds. The ticket "T-" + plate then maps to (vehicle, spot), and only that spot and the table change. The same ticketing and orphan consequences as ParkVehicle hold |
| Lot.ParkingLot.RemoveVehicle | parklot.py:74-81 | Succeeds exactly when the id was an active ticket. Only that key leaves the table. On success exactly the recorded spot is freed; on failure no spot changes. The lot invariant is preserved, and so is "every occupied spot is ticketed" |
| Lot.ParkingLot.Release | parklot.py:78-79 | Popping a present ticket removes only that key and frees the spot it named. The lot invariant is preserved, and so is "every occupied spot is ticketed" |
| Payment.PaymentProcessor.CalculateFee | parklot.py:88-90 | Any stay under two hours costs exactly one hour's rate; from one hour on, the fee is the whole hours elapsed (floor division by 3600) times the rate |
| Payment.BilledHours | parklot.py:89 | At least one hour is billed. Any stay under two hours bills one hour. From one hour on, the billed hours h satisfy h·3600 ≤ seconds < (h+1)·3600 |
| Payment.FeeExamples | parklot.py:88-90 | 0 s, 3600 s and 3601 s each cost one rate, and 7200 s costs two. The default processor charges 10 for an empty stay |
| Payment.BilledHoursMonotone | parklot.py:89 | A longer stay is never billed fewer hours |
| Payment.FeeMonotone | parklot.py:88-90 | With a non-negative rate the fee never decreases as the stay grows |
| Payment.FeeAtLeastRate | parklot.py:88-90 | With a non-negative rate every stay costs at least one hour's rate |
| Payment.FeeExtraHour | parklot.py:88-90 | Past the first hour, one more hour of stay adds exactly one rate to the fee |
| LotScenarios.ThirdCarParksAfterRelease | parklot.py:62-81 | On a floor of two car spots, two cars get tickets "T-CAR1" and "T-CAR2" and a third car gets no ticket; after "T-CAR1" is removed the third car parks under "T-CAR3" |
| LotScenarios.ReleaseMakesRoom | parklot.py:62-81 | On a single car spot, a second car parks under its own ticket once the first car's ticket is removed |
| LotScenarios.CarRejectedByBikeSpot | parklot.py:62-72 | A car does not fit a bike spot: parking fails, the spot stays free and no ticket is issued |
| LotScenarios.RemoveTwice | parklot.py:74-81 | Removing a ticket succeeds once and then fails. The spot is free afterwards and the same plate can park again under the same id |
| LotScenarios.ReparkOrphansFirstSpot | parklot.py:62-81 | Parking the same plate twice gives the same ticket twice. Removing it frees only the second spot, leaves the first spot occupied, and a second removal fails |

## Left out

- Every `print` call and the `__str__` methods (parklot.py:16-17, 38-39, 53-54, 69, 71, 76, 80, 95) are left out. They only produce console text.
- `PaymentProcessor.process_payment` (parklot.py:92-96) is left out. It reads the wall clock and subtracts floats. Only `calculate_fee` is modelled.
- Durations are modelled as whole seconds (`int`) and the rate as an `int`. The source would also accept float durations and rates. Python's `//` is modelled exactly for integers, including negative durations, which are billed one hour.
- The module-level simulation (parklot.py:98-113) is left out. It is demo code built on `time.sleep` and globals.
- Python `Enum` machinery is left out. Only the three members and their values 1/2/3 are modelled.
- The source never type-checks its inputs, so a vehicle whose class is not a `VehicleType`, or a floor list holding other objects, is not modelled.
- The lot's `park_vehicle` is split into two helper methods: `FindSpot` (the floor loop) and `Commit` (occupy and record). The source does both in one loop body. The observable behaviour and contract are those of `ParkingLot.ParkVehicle`. Likewise, `RemoveVehicle` delegates its success path to `Release`.
- Lot.ParkingLot.constructor: this constructor requires every spot handed to it to be in its consistent state (occupied exactly when holding a fitting vehicle). Python places no such demand, but spots only change through their own methods, so every reachable spot satisfies it.
- Lot.ParkingLot.ParkVehicle and Lot.ParkingLot.RemoveVehicle: these methods require the lot invariant, which every constructor and method establishes or preserves. A lot whose spots were changed behind its back, for example by calling `remove_vehicle` directly on a spot a ticket names, is not covered.
- The result of the spot's `park_vehicle` call inside the lot's `park_vehicle` (parklot.py:66) is ignored by the source. The model proves it is always true there, because the spot came from the search.
