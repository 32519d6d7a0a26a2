# Contract-based task matching in a vehicular network

This project models the base station and vehicle applications of a vehicular edge-computing simulation.

- **Vehicles and contracts.** The base station publishes a menu of contracts. Each contract is a resource to share and a reward for it. Every vehicle picks the best-paying contract that fits its capacity.
- **Proposers and providers.** Vehicles without spare capacity become *proposers*: they submit a task and wait. Vehicles that share resource act as *providers*.
- **Matching cycle.** Once enough vehicles are ready, the base station runs a matching cycle. It is a propose/reject auction over a `proposals` array, in rounds:
  - Each waiting proposer proposes to the feasible provider with the best `1/totalTime - taskPrice`, or to itself when none is feasible.
  - A provider that receives several new proposals in one round rejects them all and raises its task price by 0.001. Every 1000th round it keeps one proposer chosen at random.
  - Rounds repeat until nobody waits. The cycle fails once the iteration counter passes 10000.
  - On success each proposer is sent a task assignment: run at the base station for free, or go to the chosen provider at its contract price.

The model is organised as follows:

- `doubles.dfy` (module `Doubles`): the double-precision behaviour the matcher can hit. Division by zero gives infinities or NaN, and every comparison with NaN is false.
- `mobility.dfy` (module `Mobility`): distance, transmission time, and the communication window. The window is the time two vehicles moving in straight lines stay within 400 m of each other. `sqrt`, `log` and `pow` are parameters (`MathLib`). The window proofs assume only `SqrtSound`: `sqrt` is a non-negative square root.
- `messages.dfy` (module `Messages`): the message payloads the handlers read and write.
- `vehicle_app.dfy` (module `VehicleApp`): the vehicle side.
  - `Vehicle` is a class whose `HandleContractList` loop is proved against the specification function `Select`.
- `matching.dfy` (module `Matching`): the matcher as functions over the participant table (`seq<Slot>`). It covers one proposer's choice, one round, the whole cycle (`Rounds`, `MatchCycle`) and dispatch. It also holds the lemmas about them.
- `base_station.dfy` (module `BaseStationNode`): the base station as a class.
  - It holds the participant table as an `array<Slot>`, the address map, and the message handlers.
  - `AssignTasks` is the imperative matching loop. It is proved equal to `MatchCycle` followed by dispatch.
  - The loop is split into a propose phase, a contention phase and dispatch, with the same loops and branches as `assignTasks` in `BaseStation.cc`.

## Model

| member | source | states |
|---|---|---|
| Doubles.Quot | contractbased/src/contractbased/BaseStation.cc:414-417 | A double quotient is the real quotient when the divisor is non-zero. A zero divisor gives NaN for a zero dividend, +infinity for a positive one and -infinity for a negative one. |
| Doubles.GtTotalOrder | contractbased/src/contractbased/BaseStation.cc:330-340 | Among doubles that are not NaN, `>` is irreflexive, asymmetric, total and transitive. |
| Doubles.NaNUnordered | contractbased/src/contractbased/BaseStation.cc:330-340 | NaN is neither greater nor smaller than anything. A NaN time therefore fails no feasibility test, and a NaN preference never beats a current best. |
| Mobility.DistanceSquared | contractbased/src/contractbased/BaseStation.cc:404-412 | The distance is non-negative and its square is the squared Euclidean difference of the two positions. |
| Mobility.TransmissionTime | contractbased/src/contractbased/BaseStation.cc:414-417 | With a non-zero link capacity `3000000*log(1+d^-2*0.1)` the time is finite and equal to the data size over the capacity. Only a zero capacity gives an infinite time. |
| Mobility.WindowOutOfRange | contractbased/src/contractbased/BaseStation.cc:437-441 | A pair at distance 400 or more gets a zero window. |
| Mobility.WindowSameSpeed | contractbased/src/contractbased/BaseStation.cc:445-454 | A pair inside the range with no relative speed gets the 1000000 sentinel. |
| Mobility.WindowDiscriminantNonNegative | contractbased/src/contractbased/BaseStation.cc:445-452 | Inside the range `c < 0` and `a >= 0`, so the discriminant is never negative. With relative motion it exceeds `b*b`. |
| Mobility.WindowIsFirstExit | contractbased/src/contractbased/BaseStation.cc:419-458 | Inside the range with relative motion, the window is positive. At that time the pair is exactly 400 apart. It is strictly closer at every earlier time from 0 and farther at every later time, so the window is the only exit time. |
| Matching.PriceIncrease | contractbased/src/contractbased/BaseStation.cc:460-462 | The congestion increment is positive, so every contended round strictly raises that provider's task price. |
| Matching.Offer | contractbased/src/contractbased/BaseStation.cc:319-339 | An offer exists only from another slot that shares a non-zero resource. |
| Matching.FeasibleIgnoresPrice | contractbased/src/contractbased/BaseStation.cc:319-338 | Whether a provider is feasible for a proposer does not depend on any task price. |
| Matching.ScanFacts | contractbased/src/contractbased/BaseStation.cc:316-344 | The choice scan stays at `i`, with preference 0, exactly when no offer exists among the slots scanned. Otherwise it ends on a slot that has an offer, and carries that offer. |
| Matching.ScanOffersIsScan | contractbased/src/contractbased/BaseStation.cc:318-344 | Scanning the providers one by one, computing each offer on the way, gives the same pick as scanning a row that holds all of proposer `i`'s offers. |
| Matching.ScanMaximal | contractbased/src/contractbased/BaseStation.cc:340-343 | Without NaN preferences the scan's pick is at least every offer and strictly above every earlier one, so ties go to the lowest index. |
| Matching.ChoiceIsBestOffer | contractbased/src/contractbased/BaseStation.cc:316-345 | A proposer picks itself exactly when no provider is feasible. Otherwise it picks a feasible provider. When no feasible offer's preference is NaN, that provider has the largest `1/totalTime - taskPrice`, the lowest index among equals. |
| Matching.ZeroShareNeverChosen | contractbased/src/contractbased/BaseStation.cc:319-321 | A slot that shares zero resource is never chosen by another proposer. |
| Matching.RemainingZero | contractbased/src/contractbased/BaseStation.cc:298-304 | The waiting count is zero exactly when every ready slot holds a proposal. |
| Matching.RemainingUpdate | contractbased/src/contractbased/BaseStation.cc:345-360 | Giving a waiting proposer a proposal lowers the waiting count by one. Withdrawing a ready proposer's proposal raises it by one. |
| Matching.ProposeLeavesNoneWaiting | contractbased/src/contractbased/BaseStation.cc:312-348 | After the propose phase nobody waits. |
| Matching.JoiningMembers | contractbased/src/contractbased/BaseStation.cc:311-346 | A provider's list for the round holds exactly the waiting proposers whose choice it is, once each, in slot order. |
| Matching.JoiningIn | contractbased/src/contractbased/BaseStation.cc:311-346 | A proposer is on a provider's list for the round iff it was waiting and chose that provider. |
| Matching.JoiningSorted | contractbased/src/contractbased/BaseStation.cc:311-346 | A provider's list holds slot indices below the scanned bound, strictly increasing, so each proposer appears once. |
| Matching.JoinerAt | contractbased/src/contractbased/BaseStation.cc:355-360 | The `j`-th joiner of a provider is a waiting slot that chose it and does not occur earlier in the list. |
| Matching.JoinerRejected | contractbased/src/contractbased/BaseStation.cc:351-360 | A joiner of a contended provider is rejected exactly when its position in the list is not the skipped one. |
| Matching.RoundContention | contractbased/src/contractbased/BaseStation.cc:349-364 | For each provider in a round: with more than one new joiner its price rises by exactly the increment, otherwise it is unchanged. A joiner keeps its proposal iff it was alone or is the kept one; the others fall back to -1. Proposals from earlier rounds are untouched and nothing else in the table changes. |
| Matching.NormalRoundRejectsAll | contractbased/src/contractbased/BaseStation.cc:350-361 | Outside the every-1000th rounds a contended provider rejects all of its joiners. |
| Matching.LuckyRoundKeepsOne | contractbased/src/contractbased/BaseStation.cc:351-361 | In a round numbered a positive multiple of 1000, a contended provider keeps exactly the joiner at the random position and rejects the rest. |
| Matching.WithdrawStep | contractbased/src/contractbased/BaseStation.cc:355-361 | The `j`-th joiner of a contended provider is withdrawn exactly when `j` is not the skipped position. Its proposal is then the only one that changes. |
| Matching.WithdrawingNext | contractbased/src/contractbased/BaseStation.cc:349-364 | Moving to the next provider applies that provider's withdrawals exactly when it has more than one joiner. |
| Matching.RepricedBelowNext | contractbased/src/contractbased/BaseStation.cc:358-362 | Handling provider `t` raises its price by the increment when it has more than one joiner. No other slot changes. |
| Matching.HeldProviderTakesLoneJoiner | contractbased/src/contractbased/BaseStation.cc:311-364 | A provider that already holds a proposer from an earlier round still accepts a lone new joiner, without a price change. It then holds both. |
| Matching.RoundConsistent | contractbased/src/contractbased/BaseStation.cc:310-364 | A round keeps the proposals well formed: each is -1 or a slot, only ready slots hold one, and a proposal to another slot names a feasible provider. |
| Matching.RoundReprices | contractbased/src/contractbased/BaseStation.cc:349-364 | A round changes only task prices in the table, and none decreases. |
| Matching.RoundsUnfold | contractbased/src/contractbased/BaseStation.cc:310-374 | A cycle in which someone still waits runs one more round. After that round it stops unresolved if the counter was past 10000, and otherwise continues with the counter plus one. |
| Matching.RoundsConsistent | contractbased/src/contractbased/BaseStation.cc:310-374 | Every round keeps the proposals well formed. A resolved cycle leaves nobody waiting. |
| Matching.RoundsReprice | contractbased/src/contractbased/BaseStation.cc:310-374 | Over a cycle only task prices change, and none decreases. |
| Matching.RoundsInvariant | contractbased/src/contractbased/BaseStation.cc:310-374 | Over the rounds of a cycle the proposals stay well formed, only task prices change, prices never decrease, and a resolved cycle leaves nobody waiting. |
| Matching.CeilingAbandonsCycle | contractbased/src/contractbased/BaseStation.cc:368-372 | A round run with the counter past 10000 ends the cycle unresolved, even when that round left nobody waiting. |
| Matching.MatchCycle | contractbased/src/contractbased/BaseStation.cc:293-374 | The cycle started from no proposals ends well formed, with only prices changed and never lowered. When it is resolved, nobody waits. |
| Matching.AssignmentsComplete | contractbased/src/contractbased/BaseStation.cc:377-401 | Every slot holding a proposal gets its assignment record, and every record belongs to such a slot. |
| Matching.AssignmentSound | contractbased/src/contractbased/BaseStation.cc:381-397 | A self-proposal yields fog node -1, price 0 and the station's address. Any other yields a feasible provider other than the proposer with a non-zero share, its contract `price` (not `taskPrice`) and its address. |
| Matching.LastProposer | contractbased/src/contractbased/BaseStation.cc:377-383 | Finds the last slot whose proposal is `t`, or -1 exactly when there is none. |
| Matching.DispatchedRecordsLastProposer | contractbased/src/contractbased/BaseStation.cc:377-383 | Dispatch only writes `taskAssignedFrom`. Each provider ends with the last slot that proposed to it, or keeps its old value. |
| Matching.DispatchedKeepsSlot | contractbased/src/contractbased/BaseStation.cc:377-383 | Dispatch leaves every field of a slot except `taskAssignedFrom` unchanged. |
| Matching.InitiallyAllReadyWait | contractbased/src/contractbased/BaseStation.cc:297-304 | With all proposals at -1 the waiting count equals the number of ready slots. |
| Matching.RemainingRepricing | contractbased/src/contractbased/BaseStation.cc:362 | Raising task prices does not change the waiting count. |
| Matching.CycleOutcomeSound | contractbased/src/contractbased/BaseStation.cc:368-401 | A resolved cycle gives a proposal to exactly the ready slots, and its records are exactly their assignments. A failed cycle sends no records and writes no `taskAssignedFrom`. |
| Matching.CompletionReturnsToProposer | contractbased/src/contractbased/BaseStation.cc:383 | After dispatch, a provider someone proposed to names a proposer that does hold a proposal to it. |
| BaseStationNode.WithContract | contractbased/src/contractbased/BaseStation.cc:224-238 | Registering a choice records position, speed and sender. A negative type sets share and price to 0. Otherwise they are the chosen contract's resource and reward. No other field changes. |
| BaseStationNode.WithTask | contractbased/src/contractbased/BaseStation.cc:254-259 | Task metadata sets the slot's position, speed, task resource, data size and delay constraint to the message's values and marks the slot ready. Every other field is unchanged. |
| BaseStationNode.NoContractNoProvider | contractbased/src/contractbased/BaseStation.cc:231-233 | A vehicle that chose no contract is never chosen as provider by anyone else. |
| BaseStationNode.StationIsForMeFilters | contractbased/src/contractbased/BaseStation.cc:124-127 | The station accepts exactly messages addressed to itself, so it refuses broadcasts. |
| BaseStationNode.BaseStation.constructor | contractbased/src/contractbased/BaseStation.cc:76-83 | A fresh table of `numVehicles` empty slots, an empty address map and no home tasks. |
| BaseStationNode.BaseStation.GetVehicleId | contractbased/src/contractbased/BaseStation.cc:96-103 | Returns -1 exactly for an unregistered address. Otherwise it returns the registered slot, which is in range. |
| BaseStationNode.BaseStation.SendContractList | contractbased/src/contractbased/BaseStation.cc:200-213 | The menu pairs the `i`-th resource with the `i`-th reward, one contract per resource. |
| BaseStationNode.BaseStation.ChooseContract | contractbased/src/contractbased/BaseStation.cc:220-238 | Maps the sender to the slot its message names. The lookup then always finds it, and only that slot is updated, as `WithContract` states. |
| BaseStationNode.BaseStation.GetReadyVehiclesCount | contractbased/src/contractbased/BaseStation.cc:283-291 | Counts the ready slots. |
| BaseStationNode.BaseStation.HandleTaskMetadata | contractbased/src/contractbased/BaseStation.cc:244-281 | An unknown sender changes nothing. Otherwise the slot is staged with the task, and a cycle runs iff the ready count reaches the threshold; its outcome, table and home-task count are those of `MatchCycle` on the staged table. |
| BaseStationNode.CompletionRoutedToProposer | contractbased/src/contractbased/BaseStation.cc:464-472 | After a resolved cycle, a completion from a provider that someone proposed to is sent to the address of a ready proposer whose final proposal is that provider. |
| BaseStationNode.BaseStation.AssignTasks | contractbased/src/contractbased/BaseStation.cc:293-402 | The in-place cycle has the outcome, final table and home-task count of `MatchCycle` followed by dispatch. The counting loop starts `remainingTasks` at the number of ready slots, which is the waiting count. |
| BaseStationNode.BaseStation.RunRounds | contractbased/src/contractbased/BaseStation.cc:310-374 | The while loop ends with the table, proposals and resolution of `Rounds` from no proposals. It returns unresolved as soon as a round ran with the counter past 10000. |
| BaseStationNode.BaseStation.MatchRound | contractbased/src/contractbased/BaseStation.cc:310-364 | One pass of the loop body leaves the table and proposals of `Round`, with the waiting count in `remainingTasks`. |
| BaseStationNode.BaseStation.ChooseProvider | contractbased/src/contractbased/BaseStation.cc:316-344 | The nested choice loop returns `Choice`, the best feasible provider or the proposer itself. |
| BaseStationNode.BaseStation.ConsiderProvider | contractbased/src/contractbased/BaseStation.cc:319-343 | One step of the inner loop advances the scan by exactly one provider, so the running best equals the specification scan after `j+1` providers. |
| BaseStationNode.BaseStation.ProposePhase | contractbased/src/contractbased/BaseStation.cc:311-348 | Every waiting proposer proposes to its choice and no one else changes. Each provider's list is its joiners in slot order, and the count drops to zero. |
| BaseStationNode.BaseStation.ProposeSlot | contractbased/src/contractbased/BaseStation.cc:313-347 | One proposer proposes iff it waits. Only its own proposal and its provider's list change. |
| BaseStationNode.BaseStation.ContendPhase | contractbased/src/contractbased/BaseStation.cc:349-364 | The contention loop leaves the table and proposals of the round specification, with `remainingTasks` equal to the new waiting count. |
| BaseStationNode.BaseStation.ContendProvider | contractbased/src/contractbased/BaseStation.cc:350-363 | A provider with several joiners withdraws all but the skipped one and raises its price. A provider with at most one changes nothing. |
| BaseStationNode.BaseStation.ResolveContention | contractbased/src/contractbased/BaseStation.cc:351-362 | A contended provider withdraws every joiner but the skipped one. Its price rises by the increment, and no other slot changes. |
| BaseStationNode.BaseStation.WithdrawJoiners | contractbased/src/contractbased/BaseStation.cc:355-361 | The withdrawal loop resets to -1 the proposal of every joiner except the one at `skipIndex`. The count of waiting proposers rises by one for each. |
| BaseStationNode.BaseStation.Dispatch | contractbased/src/contractbased/BaseStation.cc:377-401 | Sends one record per slot holding a proposal, in slot order, writes each provider's `taskAssignedFrom`, and counts self-assignments as the station's tasks. |
| VehicleApp.Select | contractbased/src/contractbased/Vehicle.cc:120-129 | The index is -1 iff no contract fits and pays at least the held reward, and then the held contract is kept. Otherwise it is a fitting contract paying the most among those, the later index winning ties, and never less than what was held. |
| VehicleApp.SelectExample | contractbased/src/contractbased/Vehicle.cc:120-129 | With capacity 4 the menu (1,5), (3,8), (5,2) yields index 1. |
| VehicleApp.ProposersShareNothing | contractbased/src/contractbased/Vehicle.cc:125 | A vehicle with capacity at most 0 can only select a contract sharing at most 0. |
| VehicleApp.Vehicle.constructor | contractbased/src/contractbased/Vehicle.cc:28-33 | Parameters are stored, the base station address is 0 and the selected contract is the empty one. |
| VehicleApp.Vehicle.HandleContractList | contractbased/src/contractbased/Vehicle.cc:114-137 | Remembers the sender as the base station and answers it. The chosen type and the new selected contract are those of `Select` from the contract held on entry, whose reward never decreases. |
| VehicleApp.Vehicle.PrepareTaskMetadata | contractbased/src/contractbased/Vehicle.cc:144-161 | Metadata is produced exactly when the vehicle has no positive capacity. It is addressed from this vehicle to its base station. |
| VehicleApp.IsForMeFilters | contractbased/src/contractbased/Vehicle.cc:69-72 | A vehicle accepts messages for its own address and broadcasts, and refuses messages for any other address. |

## Behaviour worth knowing

- **Window root.** The window is the larger root `(-b+sqrt(disc))/(2a)` of the exit quadratic. It is the one time from 0 on at which the pair leaves the range (`WindowIsFirstExit`).
- **No feasible provider.** A proposer whose best feasible offer has a negative preference still takes that provider. It falls back to itself only when nothing is feasible, because of the `maxPreferenceId == i` test.
- **Ties.** Equal preferences go to the lowest provider index. Equal contract rewards go to the later contract index.
- **NaN preferences.** A NaN preference on the first feasible provider is kept for the rest of the scan, because no later `preference > NaN` holds. The choice is then that provider, whatever the later offers are. The argmax guarantee of `ChoiceIsBestOffer` is stated only for scans without NaN.
- **Failure.** A cycle that fails at the ceiling keeps the task price increases of its rounds.
- **Several proposers per provider.** A provider can end a resolved cycle holding more than one proposer. Contention only sees the joiners of the current round (`HeldProviderTakesLoneJoiner`), so a resolved cycle can leave a provider holding several proposers.
- **Registration.** A vehicle is registered under the slot its own choice message names.
- **Broadcasts.** The station's address filter does not accept broadcasts.

## Left out

- HTTP/JSON fetching of the contract menu (curl and JSON parsing). `SendContractList` takes the resource and reward lists as given.
- OMNeT++/Veins plumbing: message scheduling, `populate`, `sendDown`, MAC address lookup and mobility queries. Addresses, positions and speeds are parameters.
- Task execution timing and the other message handlers (`handleTask`, `offloadTask`, `finishTask`), which are outside the matcher.
- Console output, the per-vehicle `totalTime` buffers (used only as scratch) and their leaked memory.
- `sqrt`, `log` and `pow` are uninterpreted parameters. Only `SqrtSound` is assumed, and only where the window lemmas need it.
- Rounding and signed zero of doubles. Finite values are exact reals. Infinities and NaN are modelled only where a division by zero can produce them.
- `rand()` is the parameter `rnd(iterations, provider)`; the kept position is `rnd(...) % size`.
- Uninitialised fields of the C++ `Vehicle` struct are taken as zero, except `taskAssignedFrom` which starts at -1. `taskPrice` has no initialiser in the source.
- `isTaskAssigned` is never read or written by the matcher and is not modelled.
- `message_m.h` is not part of this model. `ContractChoice` fields that `Vehicle.cc` never sets (index, position, speed) are taken as given by the message.
- BaseStationNode.BaseStation.ChooseContract: requires the slot index to be within the table and the contract type below the menu size. In the source an out-of-range value is undefined behaviour.
- BaseStationNode.BaseStation.SendContractList: requires at least as many rewards as resources. The source indexes the reward list by the resource index.
- BaseStationNode.BaseStation.HandleTaskCompletion: requires the sender to be registered and its `taskAssignedFrom` to be a slot. The source reads out of bounds otherwise.
- VehicleApp.Vehicle.HandleContractList: returns the recipient and the chosen type instead of sending a `ContractChoice` and scheduling metadata preparation.
