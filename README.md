# Parking lot allocator

A model of the multi-floor parking lot in `LLD.cpp`. It has four layers.

- **Vehicle.** Each vehicle has a licence plate and a type (bike, car, truck). A truck needs two spots; any other vehicle needs one.
- **Spot.** Each spot is either free or occupied by one plate. It belongs to a floor and has a number.
- **Floor.** A floor is a row of spots numbered from 0. It searches the row first-fit:
  - a one-spot vehicle gets the lowest free spot;
  - a truck gets the lowest pair of adjacent free spots.

  The floor re-checks a candidate before assigning it. It can free every spot a plate occupies and count its free spots.
- **ParkingLot.** The lot owns floors numbered from 0 and an index from plate to location (floor number and spot list).
  - **Park** refuses a plate that is already parked. Otherwise it tries the floors in order and records the first placement.
  - **Remove** looks up the record, frees the plate's spots on that floor and erases the record.
  - **Queries:** per-floor free counts, "is full" and "where is this plate".

The Dafny project follows these layers.

- `vehicles.dfy`: `Vehicle` and `RequiredSpots`.
- `spots.dfy`: a spot is a datatype value. `AssignVehicle` and `RemoveVehicle` return the success flag and the new spot.
- `floors.dfy`: pure functions on a row of spots say what each floor operation means. Class `Floor` keeps its spots in an `array<Spot>`, and its methods update it in place. Each method is proved against those functions.
- `lot_spec.dfy`: the whole lot as a value, `LotState`. `Park`, `Remove`, `Locate`, `FreePerFloor` and `NoFreeSpot` are functions on it. `Consistent` is the lot's invariant:
  - every record names in-range spots on its floor, one spot or two adjacent ones, and its plate occupies them;
  - every occupied spot is named by its occupant's record.
- `lot_properties.dfy`: lemmas about the lot. They cover first fit, refusing a second park, park and remove preserving `Consistent`, park-then-remove restoring the lot, "full" meaning "a car is refused", and the number of occupied spots equalling the total length of the recorded spot lists.
- `parking_lot.dfy`: class `ParkingLot` with the floors and the index map. Each method's effect on the abstract `State()` is exactly the matching `LotState` function.
- `scenario.dfy`: one floor of three spots, taken step by step through a car, a truck, a refused car, a removal and a second car.

Every public lot operation in the source holds one mutex for its whole run. Each operation is therefore modelled as one sequential step.

## Model

| member | source | states |
|---|---|---|
| Vehicles.Vehicle.RequiredSpots | LLD.cpp:29-34 | A truck needs exactly 2 spots and every other type exactly 1 (both directions). |
| Spots.Spot.AssignVehicle | LLD.cpp:49-55 | Succeeds exactly when the spot is free; the spot is then occupied by the plate; on failure the spot is unchanged; floor and spot numbers never change. |
| Spots.Spot.RemoveVehicle | LLD.cpp:57-63 | Succeeds exactly when the spot is occupied; the spot is then free with no plate; on failure the spot is unchanged. |
| Spots.EmptySpot | LLD.cpp:46-47 | A new spot is free, carries no plate and keeps its floor and spot number. |
| Spots.AssignThenRemove | LLD.cpp:49-63 | Assigning a free spot and then removing succeeds and gives back the original spot. |
| Spots.RemoveThenAssign | LLD.cpp:49-63 | Removing an occupied spot and then re-assigning the same plate succeeds and gives back the original spot. |
| Floors.EmptyFloor | LLD.cpp:75-81 | A new floor has max(numSpots, 0) spots, all free, and spot i is spot number i of that floor. |
| Floors.FirstFreeFrom | LLD.cpp:99-104 | The result is the lowest free spot at or after the start, and every spot skipped is occupied; the end of the row means none. |
| Floors.FirstPairFrom | LLD.cpp:108-114 | The result is the lowest i with spots i and i+1 free, and no skipped position starts a free pair; the end of the row means none. |
| Floors.FindSpots | LLD.cpp:93-117 | One spot: `[i]` for the lowest free i, `[]` exactly when all are occupied. Two spots: `[i, i+1]` for the lowest free adjacent pair, `[]` exactly when there is none. Any other count gives `[]`. |
| Floors.FoundSpotsCanPark | LLD.cpp:93-131 | A candidate found by the search always passes the re-check made before parking. |
| Floors.OccupyEffect | LLD.cpp:126-130 | Parking into a free candidate makes each listed spot held by the plate and leaves every other spot unchanged. |
| Floors.VacateEffect | LLD.cpp:134-143 | Removal frees exactly the spots held by the plate and leaves the rest unchanged; with no such spot the row is unchanged. |
| Floors.NoFreeSpotIffNoSingleCandidate | LLD.cpp:98-105 | A floor's free count is 0 exactly when the one-spot search finds nothing. |
| Floors.OccupyThenVacate | LLD.cpp:120-143 | Parking a new plate into free spots and then removing it gives back the original row. |
| Floors.PairLoopBoundAsWritten | LLD.cpp:108 | The bound `spots.size() - 1` in unsigned `size_t` arithmetic (a 64-bit target assumed) is n-1 for n ≥ 1 and wraps to 2^64-1 for n = 0 (2^32-1 on a 32-bit target). |
| Floors.EmptyFloorTruckProbeOutOfRange | LLD.cpp:108-109 | For an empty row of spots, the two-spot loop as written still runs iteration 0, which reads `spots[0]` (and `spots[1]` if that read sees a free spot); neither 0 nor 1 is an index of the row. |
| Floors.PairGuardAgreesOnNonEmptyFloor | LLD.cpp:108 | On a floor with at least one spot, the written bound and the guard `i + 1 < n` allow the same iterations. |
| Floors.Floor.constructor | LLD.cpp:75-81 | The new floor keeps its number, and its array holds the spots of `EmptyFloor`. |
| Floors.Floor.FindAvailableSpots | LLD.cpp:93-117 | Returns exactly `FindSpots` of the current spots for the vehicle's required count (with the corrected loop guard). |
| Floors.Floor.ParkVehicle | LLD.cpp:120-131 | Succeeds exactly when every listed number is in range and free. On success the array becomes `Occupy` of the old row; on failure the array is unchanged. Spot numbering is kept. |
| Floors.Floor.RemoveVehicle | LLD.cpp:134-143 | Returns whether the plate held some spot, and the array becomes `Vacate` of the old row. |
| Floors.Floor.AvailableSpotsCount | LLD.cpp:146-153 | Returns the number of free spots of the floor. |
| LotSpec.InitialState | LLD.cpp:173-177 | A new lot has max(numFloors, 0) floors; floor f is `EmptyFloor(f, spotsPerFloor)`, i.e. max(spotsPerFloor, 0) free spots numbered from 0; there are no records, and the lot invariant holds. |
| LotSpec.ParkFrom | LLD.cpp:199-216 | The floor loop finds nothing exactly when no floor from f on has a candidate. Otherwise it picks the lowest such floor and that floor's first-fit candidate. |
| LotSpec.ParkFromStep | LLD.cpp:200-215 | One turn of the floor loop: an accepted candidate ends it on this floor, a rejected or empty one passes to the next floor. |
| LotSpec.Park | LLD.cpp:188-221 | Succeeds exactly when the plate is not already parked and some floor has a candidate; a refusal leaves the lot unchanged. |
| LotSpec.Remove | LLD.cpp:224-247 | An unknown plate is refused with no change; a success erases exactly that plate's record; any refusal leaves the lot unchanged. |
| LotSpec.Locate | LLD.cpp:274-289 | Finds a location exactly when the plate is recorded; in a consistent lot the reported spots exist on the reported floor and are held by the plate. |
| LotSpec.FreePerFloor | LLD.cpp:250-259 | One entry per floor, in floor order, each that floor's free count. |
| LotProperties.ParkPlacesFirstFit | LLD.cpp:188-221 | A successful park uses the lowest floor with a candidate and that floor's first-fit candidate. The spots are one, or two adjacent ones on that floor. Only that floor changes, and the plate then locates to exactly that floor and spot list. |
| LotProperties.ParkTwiceRefused | LLD.cpp:193-196 | Parking the same plate again is refused and changes nothing. |
| LotProperties.ParkPreservesConsistent | LLD.cpp:188-221 | Parking preserves the lot invariant. |
| LotProperties.RemoveFreesRecordedSpots | LLD.cpp:224-247 | In a consistent lot, removal succeeds exactly when the plate is recorded. The plate holds exactly its recorded spots, and removal frees them and erases the record. |
| LotProperties.RemovePreservesConsistent | LLD.cpp:224-247 | Removal preserves the lot invariant. |
| LotProperties.ParkThenRemoveRestores | LLD.cpp:188-247 | Removing a vehicle just parked succeeds and gives back the lot as it was before. |
| LotProperties.FullIffOneSpotRefused | LLD.cpp:262-271 | For a car or bike not yet parked, the lot has no free spot exactly when parking it is refused. |
| LotProperties.OccupiedMatchesRecords | LLD.cpp:120-143 | In a consistent lot, the number of occupied spots equals the total length of the recorded spot lists. |
| ParkingLots.ParkingLot.constructor | LLD.cpp:173-177 | The new lot holds fresh floors numbered 0 upward and its abstract state is `InitialState`. |
| ParkingLots.ParkingLot.ParkVehicle | LLD.cpp:188-221 | The result and the new lot are exactly `Park` of the old lot, and the lot invariant holds afterwards. |
| ParkingLots.ParkingLot.PlaceOnFirstFloor | LLD.cpp:199-216 | The floor loop's result equals `ParkFrom` from floor 0. When nothing is placed the spots are unchanged; otherwise only the chosen floor is occupied. |
| ParkingLots.ParkingLot.TryFloor | LLD.cpp:200-202 | Floor f's candidate is its first-fit search result. It is taken exactly when non-empty and free. If taken, only floor f becomes occupied; otherwise nothing changes. |
| ParkingLots.ParkingLot.RemoveVehicle | LLD.cpp:224-247 | The result and the new lot are exactly `Remove` of the old lot, and the lot invariant holds afterwards. |
| ParkingLots.ParkingLot.GetAvailableSpotsPerFloor | LLD.cpp:250-259 | Returns `FreePerFloor` of the current lot. |
| ParkingLots.ParkingLot.IsFull | LLD.cpp:262-271 | Returns true exactly when no floor has a free spot (true with no floors). |
| ParkingLots.ParkingLot.FindVehicle | LLD.cpp:274-289 | Returns `Locate` of the current lot, and a reported location's spots are held by the plate. |
| Scenario.ParkFirstCar | LLD.cpp:188-221 | On a new one-floor lot of three spots, car A is parked in spot 0. |
| Scenario.ParkTruck | LLD.cpp:188-221 | With spot 0 taken, truck B is parked in spots 1 and 2. |
| Scenario.FullLotRefusesCar | LLD.cpp:262-271 | With all three spots taken, the lot is full and car C is refused with no change. |
| Scenario.RemoveFirstCar | LLD.cpp:224-247 | Removing car A frees spot 0 only, erases its record, and the lot is no longer full. |
| Scenario.ParkSecondCar | LLD.cpp:188-221 | Car C then gets spot 0, and locating C reports floor 0, spot 0. |

## Left out

- `main`, the console shell (LLD.cpp:293-391): its prompts, reading of commands and mapping of type names is I/O. The model takes a `VehicleType` directly.
- All console messages of the lot operations: outcomes are return values only.
- The mutex: every public operation holds it for its whole run, so each operation is one atomic step here and nothing concurrent is modelled.
- `vehiclesMap` and the allocation and deletion of vehicles, floors and spots, including the destructors: this is memory management only. Plates are string values; floors and spots are addressed by index.
- ParkingSpot objects behind pointers: a spot is a value stored in its floor's array, and assigning or removing writes a new value into that cell. No two floors share a spot, so no aliasing is lost.
- ParkingLots.ParkingLot.FindVehicle: the source prints the location; the model returns it as an `Option` instead.
- ParkingLots.ParkingLot.PlaceOnFirstFloor and ParkingLots.ParkingLot.TryFloor: not source functions. They are the floor loop of `parkVehicle` (LLD.cpp:199-216) and one turn of it, split out as methods of their own.
- `int` is unbounded in the model, and no `int` arithmetic in the source can wrap: every count and index is bounded by `numFloors` or `spotsPerFloor`, which are themselves `int`s (the loop bounds at LLD.cpp:78 and LLD.cpp:174, the `(int)spots.size()` comparison at LLD.cpp:123, and the `count++` at LLD.cpp:150). The one width that matters, the `size_t` bound of the truck loop, is modelled explicitly.
- The `Vehicle` passed to the lot is a value. The source stores the caller's pointer only for later deletion.

## Findings

| source | as written | input that shows it | evidently intended | confidence | as-written member | corrected member |
|---|---|---|---|---|---|---|
| LLD.cpp:108 | The truck search bounds `i` by `spots.size() - 1`, computed as unsigned `size_t`; on a floor with no spots this wraps to 2^64-1 on a 64-bit target (2^32-1 on a 32-bit one). | A lot built with 1 floor and 0 spots per floor, then parking a truck: iteration 0 reads `spots[0]` of an empty vector (and `spots[1]` if that read sees a free spot). | No iteration when fewer than two spots exist, so the search returns an empty list. | high; not executed | Floors.EmptyFloorTruckProbeOutOfRange | Floors.Floor.FindAvailableSpots |
