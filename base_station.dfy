/**
 * The base station node: the participant registry, the message handlers
 * that fill it, and the matching cycle run over it in place.
 */
module BaseStationNode {
  import opened Doubles
  import opened Mobility
  import opened Messages
  import opened Matching

  /** What handling a task-metadata message led to. */
  datatype MetadataOutcome =
    | UnknownSender
    | Queued(ready: int)
    | Triggered(ready: int, outcome: Outcome)

  /** Slot `s` after the contract choice `choice` against the menu `menu`. */
  function WithContract(s: Slot, choice: ContractChoice, menu: seq<Contract>): (r: Slot)
    requires choice.contractType < |menu|
    ensures r.position == choice.position && r.speed == choice.speed && r.address == choice.sender
    ensures choice.contractType < 0 ==> r.sharedResource == 0.0 && r.price == 0.0
    ensures choice.contractType >= 0 ==>
      r.sharedResource == menu[choice.contractType].resource && r.price == menu[choice.contractType].reward
    ensures r == s.(position := r.position, speed := r.speed, address := r.address,
                    sharedResource := r.sharedResource, price := r.price)
  {
    var placed := s.(position := choice.position, speed := choice.speed, address := choice.sender);
    if choice.contractType < 0 then placed.(sharedResource := 0.0, price := 0.0)
    else placed.(sharedResource := menu[choice.contractType].resource, price := menu[choice.contractType].reward)
  }

  /** Slot `s` after the task metadata `msg`: the task and the motion are recorded and the slot is ready. */
  function WithTask(s: Slot, msg: TaskMetadata): (r: Slot)
    ensures r.isTaskReady && r.position == msg.position && r.speed == msg.speed
    ensures r.taskResource == msg.taskResource && r.taskDataSize == msg.taskDataSize
    ensures r.delayConstraint == msg.delayConstraint
    ensures r == s.(position := r.position, speed := r.speed, taskResource := r.taskResource,
                    taskDataSize := r.taskDataSize, delayConstraint := r.delayConstraint, isTaskReady := r.isTaskReady)
  {
    s.(position := msg.position, speed := msg.speed, taskResource := msg.taskResource,
       taskDataSize := msg.taskDataSize, delayConstraint := msg.delayConstraint, isTaskReady := true)
  }

  /**
   * A slot whose vehicle chose no contract shares nothing, so no other
   * vehicle ever proposes to it.
   */
  lemma NoContractNoProvider(vs: seq<Slot>, j: nat, choice: ContractChoice, menu: seq<Contract>, i: nat, m: MathLib)
    requires j < |vs| && i < |vs| && i != j
    requires choice.contractType < 0 && choice.contractType < |menu|
    ensures Choice(vs[j := WithContract(vs[j], choice, menu)], i, m) != j
  {
    ZeroShareNeverChosen(vs[j := WithContract(vs[j], choice, menu)], i, j, m);
  }

  /**
   * The station handles only messages addressed to itself: unlike a vehicle
   * it refuses a broadcast unless its own address happens to be -1.
   */
  lemma StationIsForMeFilters(bs: BaseStation, recipient: int)
    ensures bs.IsForMe(recipient) <==> recipient == bs.myAddress
    ensures bs.myAddress != Broadcast ==> !bs.IsForMe(Broadcast)
  {
  }

  /**
   * After a resolved cycle, a completion sent by a provider that someone
   * proposed to reaches a proposer that holds a proposal to that provider:
   * the address it goes to is that proposer's registered address.
   */
  lemma CompletionRoutedToProposer(bs: BaseStation, sender: int, start: seq<Slot>, m: MathLib, rnd: (nat, nat) -> nat)
    requires bs.Valid() && sender in bs.vehicleIdMap
    requires MatchCycle(start, m, rnd).resolved && bs.vehicles[..] == CycleTable(start, m, rnd)
    requires exists k :: 0 <= k < |start| && MatchCycle(start, m, rnd).proposals[k] == bs.vehicleIdMap[sender]
    ensures var from := bs.vehicles[bs.vehicleIdMap[sender]].taskAssignedFrom;
      && 0 <= from < |start|
      && MatchCycle(start, m, rnd).proposals[from] == bs.vehicleIdMap[sender]
      && start[from].isTaskReady
      && bs.HandleTaskCompletion(sender) == start[from].address
  {
    var c := MatchCycle(start, m, rnd);
    var t := bs.vehicleIdMap[sender];
    CompletionReturnsToProposer(c.slots, c.proposals, t);
    var from := bs.vehicles[t].taskAssignedFrom;
    assert c.slots[from] == start[from].(taskPrice := c.slots[from].taskPrice);
  }

  class BaseStation {
    const myAddress: int
    const taskAssignmentThreshold: int
    var vehicles: array<Slot>
    var vehicleIdMap: map<int, int>
    var contracts: seq<Contract>
    var baseStationTasks: int

    /** Every registered address maps to a slot. */
    predicate Valid()
      reads this
    {
      forall addr :: addr in vehicleIdMap ==> 0 <= vehicleIdMap[addr] < vehicles.Length
    }

    constructor (numVehicles: nat, taskAssignmentThreshold: int, myAddress: int)
      ensures Valid() && fresh(vehicles)
      ensures this.myAddress == myAddress && this.taskAssignmentThreshold == taskAssignmentThreshold
      ensures vehicles[..] == seq(numVehicles, _ => EmptySlot)
      ensures vehicleIdMap == map[] && contracts == [] && baseStationTasks == 0
    {
      this.myAddress := myAddress;
      this.taskAssignmentThreshold := taskAssignmentThreshold;
      vehicles := new Slot[numVehicles](_ => EmptySlot);
      vehicleIdMap := map[];
      contracts := [];
      baseStationTasks := 0;
    }

    /** Only messages addressed to the station itself are handled; broadcasts are not. */
    predicate IsForMe(recipient: int)
    {
      recipient == myAddress
    }

    /** The slot registered for `addr`, or -1 when the address is unknown. */
    function GetVehicleId(addr: int): (id: int)
      reads this
      ensures Valid() ==> (id == -1 <==> addr !in vehicleIdMap)
      ensures Valid() && id != -1 ==> 0 <= id < vehicles.Length && vehicleIdMap[addr] == id
    {
      if addr in vehicleIdMap then vehicleIdMap[addr] else -1
    }

    /** Publishes the menu pairing the `i`-th resource with the `i`-th reward. */
    method SendContractList(deltas: seq<real>, pies: seq<real>) returns (menu: seq<Contract>)
      requires |deltas| <= |pies|
      modifies this`contracts
      ensures contracts == menu && |menu| == |deltas|
      ensures forall i :: 0 <= i < |deltas| ==> menu[i] == Contract(deltas[i], pies[i])
    {
      menu := [];
      for i := 0 to |deltas|
        invariant |menu| == i
        invariant forall k :: 0 <= k < i ==> menu[k] == Contract(deltas[k], pies[k])
      {
        menu := menu + [Contract(deltas[i], pies[i])];
      }
      contracts := menu;
    }

    /**
     * Registers the sender at the slot its message names, then records its
     * motion, address and the terms of the chosen contract (none for a negative
     * type). The lookup after registering always finds the sender.
     */
    method ChooseContract(choice: ContractChoice) returns (vehicleId: int)
      requires Valid() && 0 <= choice.index < vehicles.Length && choice.contractType < |contracts|
      modifies this`vehicleIdMap, vehicles
      ensures Valid()
      ensures vehicleIdMap == old(vehicleIdMap)[choice.sender := choice.index]
      ensures vehicleId == choice.index && GetVehicleId(choice.sender) == vehicleId
      ensures vehicles[..] == old(vehicles[..])[vehicleId := WithContract(old(vehicles[vehicleId]), choice, contracts)]
    {
      vehicleIdMap := vehicleIdMap[choice.sender := choice.index];
      vehicleId := GetVehicleId(choice.sender);
      vehicles[vehicleId] := WithContract(vehicles[vehicleId], choice, contracts);
    }

    /** Counts the slots whose task is ready. */
    method GetReadyVehiclesCount() returns (count: int)
      ensures count == ReadyCount(vehicles[..], vehicles.Length)
    {
      count := 0;
      for i := 0 to vehicles.Length
        invariant count == ReadyCount(vehicles[..], i)
      {
        if vehicles[i].isTaskReady {
          count := count + 1;
        }
      }
    }

    /**
     * Records a task from a registered sender and runs a matching cycle once
     * enough slots are ready; a message from an unknown sender changes nothing.
     */
    method HandleTaskMetadata(msg: TaskMetadata, m: MathLib, rnd: (nat, nat) -> nat) returns (r: MetadataOutcome)
      requires Valid()
      modifies vehicles, this`baseStationTasks
      ensures Valid()
      ensures msg.sender !in vehicleIdMap ==>
        r == UnknownSender && vehicles[..] == old(vehicles[..]) && baseStationTasks == old(baseStationTasks)
      ensures msg.sender in vehicleIdMap ==>
        var id := vehicleIdMap[msg.sender];
        var staged := old(vehicles[..])[id := WithTask(old(vehicles[id]), msg)];
        var ready := ReadyCount(staged, |staged|);
        && (r.Queued? <==> ready < taskAssignmentThreshold)
        && (r.Triggered? <==> ready >= taskAssignmentThreshold)
        && (r.Queued? ==> r == Queued(ready) && vehicles[..] == staged && baseStationTasks == old(baseStationTasks))
        && (r.Triggered? ==>
              && r == Triggered(ready, CycleOutcome(staged, m, rnd, myAddress))
              && vehicles[..] == CycleTable(staged, m, rnd)
              && baseStationTasks == old(baseStationTasks) + CycleHomeTasks(staged, m, rnd))
    {
      var vehicleId := GetVehicleId(msg.sender);
      if vehicleId == -1 {
        return UnknownSender;
      }
      vehicles[vehicleId] := WithTask(vehicles[vehicleId], msg);
      var readyVehiclesCount := GetReadyVehiclesCount();
      if readyVehiclesCount >= taskAssignmentThreshold {
        var outcome := AssignTasks(m, rnd);
        r := Triggered(readyVehiclesCount, outcome);
      } else {
        r := Queued(readyVehiclesCount);
      }
    }

    /**
     * Routes a completion from provider `sender` to the proposer recorded in
     * its `taskAssignedFrom`.
     */
    function HandleTaskCompletion(sender: int): (recipient: int)
      requires Valid() && sender in vehicleIdMap
      requires 0 <= vehicles[vehicleIdMap[sender]].taskAssignedFrom < vehicles.Length
      reads this, vehicles
      ensures recipient == vehicles[vehicles[GetVehicleId(sender)].taskAssignedFrom].address
    {
      var vehicleId := GetVehicleId(sender);
      var assignedFrom := vehicles[vehicleId].taskAssignedFrom;
      vehicles[assignedFrom].address
    }

    /**
     * Runs a matching cycle over the table: rounds of proposals and contention
     * until nobody waits, or failure past the ceiling; on success every proposal
     * is dispatched.
     */
    method AssignTasks(m: MathLib, rnd: (nat, nat) -> nat) returns (outcome: Outcome)
      modifies vehicles, this`baseStationTasks
      ensures outcome == CycleOutcome(old(vehicles[..]), m, rnd, myAddress)
      ensures vehicles[..] == CycleTable(old(vehicles[..]), m, rnd)
      ensures baseStationTasks == old(baseStationTasks) + CycleHomeTasks(old(vehicles[..]), m, rnd)
    {
      var n := vehicles.Length;
      ghost var start := vehicles[..];
      var proposals := new int[n](_ => NoProposal);
      assert proposals[..] == Unproposed(n);
      var remainingTasks := 0;
      for i := 0 to n
        invariant remainingTasks == ReadyCount(start, i)
      {
        if vehicles[i].isTaskReady {
          remainingTasks := remainingTasks + 1;
        }
      }
      InitiallyAllReadyWait(start, n);
      var resolved := RunRounds(proposals, remainingTasks, m, rnd);
      ghost var cycle := MatchCycle(start, m, rnd);
      assert cycle == Cycle(vehicles[..], proposals[..], resolved);
      if !resolved {
        return Failed;
      }
      var assignments := Dispatch(proposals);
      outcome := Matched(assignments);
    }

    /**
     * The rounds of a cycle, from a table where nobody holds a proposal: they
     * run until nobody waits, or stop unresolved once a round ran with the
     * counter past the ceiling.
     */
    method RunRounds(proposals: array<int>, remainingTasks: int, m: MathLib, rnd: (nat, nat) -> nat)
      returns (resolved: bool)
      requires proposals.Length == vehicles.Length && proposals[..] == Unproposed(vehicles.Length)
      requires remainingTasks == Remaining(vehicles[..], proposals[..], vehicles.Length)
      modifies proposals, vehicles
      ensures Rounds(old(vehicles[..]), Unproposed(vehicles.Length), m, rnd, 0) == Cycle(vehicles[..], proposals[..], resolved)
    {
      ghost var cycle := Rounds(vehicles[..], proposals[..], m, rnd, 0);
      var remaining := remainingTasks;
      var iterations := 0;
      while remaining > 0
        invariant 0 <= iterations <= Ceiling + 1
        invariant remaining == Remaining(vehicles[..], proposals[..], vehicles.Length)
        invariant Rounds(vehicles[..], proposals[..], m, rnd, iterations) == cycle
        decreases Ceiling + 1 - iterations
      {
        ghost var vs, p := vehicles[..], proposals[..];
        remaining := MatchRound(proposals, remaining, iterations, m, rnd);
        RoundsUnfold(vs, p, m, rnd, iterations);
        if iterations > Ceiling {
          return false;
        }
        iterations := iterations + 1;
      }
      resolved := true;
    }

    /** One round of the cycle: the propose phase, then the contention phase. */
    method MatchRound(proposals: array<int>, remainingTasks: int, iterations: nat, m: MathLib, rnd: (nat, nat) -> nat)
      returns (remaining: int)
      requires proposals.Length == vehicles.Length
      requires remainingTasks == Remaining(vehicles[..], proposals[..], vehicles.Length)
      modifies proposals, vehicles
      ensures vehicles[..] == Round(old(vehicles[..]), old(proposals[..]), m, iterations, rnd).slots
      ensures proposals[..] == Round(old(vehicles[..]), old(proposals[..]), m, iterations, rnd).proposals
      ensures remaining == Remaining(vehicles[..], proposals[..], vehicles.Length)
    {
      ghost var vs, p := vehicles[..], proposals[..];
      ghost var cs := Choices(vs, m);
      var assignedIds;
      assignedIds, remaining := ProposePhase(proposals, remainingTasks, m);
      remaining := ContendPhase(proposals, assignedIds, remaining, iterations, rnd, vs, p, cs);
    }

    /** The choice loop of proposer `i`: the provider it proposes to this round. */
    method ChooseProvider(i: nat, m: MathLib) returns (maxPreferenceId: int)
      requires i < vehicles.Length
      ensures maxPreferenceId == Choice(vehicles[..], i, m)
    {
      var maxPreference := Fin(0.0);
      maxPreferenceId := i;
      for j := 0 to vehicles.Length
        invariant Best(maxPreferenceId, maxPreference) == ScanOffers(vehicles[..], i, m, j)
      {
        maxPreferenceId, maxPreference := ConsiderProvider(i, j, m, maxPreferenceId, maxPreference);
      }
    }

    /**
     * One step of the choice loop: provider `j` replaces the best so far when
     * it is feasible and strictly better, or when nothing was taken yet.
     */
    method ConsiderProvider(i: nat, j: nat, m: MathLib, bestId: int, best: Ext) returns (maxPreferenceId: int, maxPreference: Ext)
      requires i < vehicles.Length && j < vehicles.Length
      requires Best(bestId, best) == ScanOffers(vehicles[..], i, m, j)
      ensures Best(maxPreferenceId, maxPreference) == ScanOffers(vehicles[..], i, m, j + 1)
    {
      maxPreferenceId, maxPreference := bestId, best;
      ghost var vs := vehicles[..];
      ghost var offer: Option<Ext> := None;
      assert vs[i] == vehicles[i] && vs[j] == vehicles[j];
      if i != j && vehicles[j].sharedResource != 0.0 {
        var base := vehicles[i].taskResource / vehicles[j].sharedResource;
        var transmissionTime :=
          TransmissionTime(vehicles[i].taskDataSize, Distance(vehicles[i].position, vehicles[j].position, m), m);
        var transmissionConstraint :=
          Window(vehicles[i].position, vehicles[i].speed, vehicles[j].position, vehicles[j].speed, m);
        if !Gt(transmissionTime, Fin(transmissionConstraint)) {
          var totalTime := AddReal(transmissionTime, base);
          if !Gt(DivPos(totalTime, 10.0), Fin(vehicles[i].delayConstraint)) {
            var preference := SubReal(Recip(totalTime), vehicles[j].taskPrice);
            offer := Some(preference);
            if Gt(preference, maxPreference) || maxPreferenceId == i {
              maxPreference := preference;
              maxPreferenceId := j;
            }
          }
        }
      }
      assert offer == Offer(vs, i, j, m);
    }

    /**
     * The propose phase: every waiting proposer proposes to its choice and is
     * listed under that provider; the waiting count drops to zero.
     */
    method ProposePhase(proposals: array<int>, remainingTasks: int, m: MathLib)
      returns (assignedIds: array<seq<int>>, remaining: int)
      requires proposals.Length == vehicles.Length
      requires remainingTasks == Remaining(vehicles[..], proposals[..], vehicles.Length)
      modifies proposals
      ensures fresh(assignedIds) && assignedIds.Length == vehicles.Length
      ensures proposals[..] == Proposed(vehicles[..], old(proposals[..]), Choices(vehicles[..], m))
      ensures forall t :: 0 <= t < vehicles.Length ==>
        assignedIds[t] == Joiners(vehicles[..], old(proposals[..]), Choices(vehicles[..], m), t)
      ensures remaining == Remaining(vehicles[..], proposals[..], vehicles.Length) == 0
    {
      var n := vehicles.Length;
      ghost var vs, p := vehicles[..], proposals[..];
      ghost var cs := Choices(vs, m);
      assignedIds := new seq<int>[n](_ => []);
      assert assignedIds[..] == JoiningLists(vs, p, cs, 0);
      remaining := remainingTasks;
      for i := 0 to n
        invariant forall k :: 0 <= k < n ==> proposals[k] == if k < i then Proposal(vs, p, cs, k) else p[k]
        invariant assignedIds[..] == JoiningLists(vs, p, cs, i)
        invariant remaining == Remaining(vs, proposals[..], n)
      {
        ghost var before := proposals[..];
        assert before[i] == p[i];
        var proposed := ProposeSlot(proposals, assignedIds, i, m, vs, p, cs);
        if proposed {
          RemainingUpdate(vs, before, i, cs[i], n);
          remaining := remaining - 1;
        } else {
          assert proposals[..] == before;
        }
      }
      assert proposals[..] == Proposed(vs, p, cs);
      ProposeLeavesNoneWaiting(vs, p, cs);
      forall t | 0 <= t < n ensures assignedIds[t] == Joiners(vs, p, cs, t) {
        assert assignedIds[t] == assignedIds[..][t];
      }
    }

    /**
     * One step of the propose phase: proposer `i`, if it waits, proposes to
     * its choice and is appended to that provider's list.
     */
    method ProposeSlot(proposals: array<int>, assignedIds: array<seq<int>>, i: nat, m: MathLib,
                       ghost vs: seq<Slot>, ghost p: seq<int>, ghost cs: seq<int>)
      returns (proposed: bool)
      requires proposals.Length == vehicles.Length && assignedIds.Length == vehicles.Length
      requires vehicles[..] == vs && |p| == |vs| && cs == Choices(vs, m) && i < |vs|
      requires proposals[i] == p[i]
      requires assignedIds[..] == JoiningLists(vs, p, cs, i)
      modifies proposals, assignedIds
      ensures proposed == Waiting(vs, p, i)
      ensures proposals[..] == old(proposals[..])[i := Proposal(vs, p, cs, i)]
      ensures assignedIds[..] == JoiningLists(vs, p, cs, i + 1)
    {
      ghost var lists := assignedIds[..];
      assert vehicles[i] == vs[i];
      proposed := proposals[i] == NoProposal && vehicles[i].isTaskReady;
      if proposed {
        var maxPreferenceId := ChooseProvider(i, m);
        ChoicesAt(vs, m, |vs|, i);
        proposals[i] := maxPreferenceId;
        assignedIds[maxPreferenceId] := assignedIds[maxPreferenceId] + [i];
      }
      forall t | 0 <= t < |vs| ensures assignedIds[t] == Joining(vs, p, cs, t, i + 1) {
        assert lists[t] == Joining(vs, p, cs, t, i);
      }
      assert assignedIds[..] == JoiningLists(vs, p, cs, i + 1);
    }

    /**
     * The contention phase: a provider listed by several proposers withdraws
     * all of their proposals but the randomly kept one in a lucky round, and
     * raises its task price.
     */
    method ContendPhase(proposals: array<int>, assignedIds: array<seq<int>>, remainingTasks: int,
                        iterations: nat, rnd: (nat, nat) -> nat, ghost vs: seq<Slot>, ghost p: seq<int>, ghost cs: seq<int>)
      returns (remaining: int)
      requires proposals.Length == vehicles.Length && assignedIds.Length == vehicles.Length
      requires vehicles[..] == vs && |p| == |vs| && |cs| == |vs|
      requires forall k :: 0 <= k < |vs| ==> 0 <= cs[k] < |vs|
      requires proposals[..] == Proposed(vs, p, cs)
      requires forall t :: 0 <= t < vehicles.Length ==> assignedIds[t] == Joiners(vs, p, cs, t)
      requires remainingTasks == Remaining(vs, proposals[..], |vs|)
      modifies proposals, vehicles
      ensures vehicles[..] == RoundWith(vs, p, cs, iterations, rnd).slots
      ensures proposals[..] == RoundWith(vs, p, cs, iterations, rnd).proposals
      ensures remaining == Remaining(vehicles[..], proposals[..], |vs|)
    {
      var n := vehicles.Length;
      remaining := remainingTasks;
      assert proposals[..] == Withdrawing(vs, p, cs, iterations, rnd, 0, []);
      assert vehicles[..] == RepricedBelow(vs, p, cs, 0);
      for t := 0 to n
        invariant vehicles[..] == RepricedBelow(vs, p, cs, t)
        invariant proposals[..] == Withdrawing(vs, p, cs, iterations, rnd, t, [])
        invariant remaining == Remaining(vs, proposals[..], n)
      {
        remaining := ContendProvider(proposals, assignedIds[t], t, remaining, iterations, rnd, vs, p, cs);
      }
      WithdrawingDone(vs, p, cs, iterations, rnd);
      assert vehicles[..] == RoundWith(vs, p, cs, iterations, rnd).slots;
      RoundContention(vs, p, cs, iterations, rnd);
      RemainingRepricing(vs, vehicles[..], proposals[..], n);
    }

    /**
     * Contention at provider `t`, listed by `group`: when several proposers
     * joined it, each of them but the skipped one withdraws its proposal, and
     * the provider's task price rises by its increment.
     */
    method ContendProvider(proposals: array<int>, group: seq<int>, t: nat, remainingTasks: int,
                           iterations: nat, rnd: (nat, nat) -> nat, ghost vs: seq<Slot>, ghost p: seq<int>, ghost cs: seq<int>)
      returns (remaining: int)
      requires proposals.Length == vehicles.Length && |p| == |vs| && |cs| == |vs| && t < |vs|
      requires group == Joiners(vs, p, cs, t)
      requires vehicles[..] == RepricedBelow(vs, p, cs, t)
      requires proposals[..] == Withdrawing(vs, p, cs, iterations, rnd, t, [])
      requires remainingTasks == Remaining(vs, proposals[..], |vs|)
      modifies proposals, vehicles
      ensures vehicles[..] == RepricedBelow(vs, p, cs, t + 1)
      ensures proposals[..] == Withdrawing(vs, p, cs, iterations, rnd, t + 1, [])
      ensures remaining == Remaining(vs, proposals[..], |vs|)
    {
      remaining := remainingTasks;
      WithdrawingNext(vs, p, cs, iterations, rnd, t);
      RepricedBelowNext(vs, p, cs, t);
      if |group| > 1 {
        remaining := ResolveContention(proposals, group, t, remaining, iterations, rnd, vs, p, cs);
      }
    }

    /**
     * A provider joined by several proposers: all but the randomly kept one
     * in a lucky round withdraw, and its task price rises by the increment.
     */
    method ResolveContention(proposals: array<int>, group: seq<int>, t: nat, remainingTasks: int,
                             iterations: nat, rnd: (nat, nat) -> nat, ghost vs: seq<Slot>, ghost p: seq<int>, ghost cs: seq<int>)
      returns (remaining: int)
      requires proposals.Length == vehicles.Length && |p| == |vs| && |cs| == |vs| && t < |vs| == vehicles.Length
      requires group == Joiners(vs, p, cs, t) && |group| > 1 && vehicles[t] == vs[t]
      requires proposals[..] == Withdrawing(vs, p, cs, iterations, rnd, t, [])
      requires remainingTasks == Remaining(vs, proposals[..], |vs|)
      modifies proposals, vehicles
      ensures vehicles[..] == old(vehicles[..])[t := vs[t].(taskPrice := vs[t].taskPrice + PriceIncrease(t))]
      ensures proposals[..] == Withdrawing(vs, p, cs, iterations, rnd, t, group)
      ensures remaining == Remaining(vs, proposals[..], |vs|)
    {
      var skipIndex := -1;
      if iterations >= 1000 && iterations % 1000 == 0 {
        skipIndex := rnd(iterations, t) % |group|;
      }
      remaining := WithdrawJoiners(proposals, group, t, skipIndex, remainingTasks, iterations, rnd, vs, p, cs);
      vehicles[t] := vehicles[t].(taskPrice := vehicles[t].taskPrice + PriceIncrease(t));
    }

    /** Withdraws the proposal of every joiner of provider `t` but the one at `skipIndex`. */
    method WithdrawJoiners(proposals: array<int>, group: seq<int>, t: nat, skipIndex: int, remainingTasks: int,
                           iterations: nat, rnd: (nat, nat) -> nat, ghost vs: seq<Slot>, ghost p: seq<int>, ghost cs: seq<int>)
      returns (remaining: int)
      requires |p| == |vs| && |cs| == |vs| && t < |vs| && proposals.Length == |vs|
      requires group == Joiners(vs, p, cs, t) && |group| > 1
      requires skipIndex == if Lucky(iterations) then rnd(iterations, t) % |group| else -1
      requires proposals[..] == Withdrawing(vs, p, cs, iterations, rnd, t, [])
      requires remainingTasks == Remaining(vs, proposals[..], |vs|)
      modifies proposals
      ensures proposals[..] == Withdrawing(vs, p, cs, iterations, rnd, t, group)
      ensures remaining == Remaining(vs, proposals[..], |vs|)
    {
      var n := proposals.Length;
      remaining := remainingTasks;
      assert group[..0] == [];
      for j := 0 to |group|
        invariant proposals[..] == Withdrawing(vs, p, cs, iterations, rnd, t, group[..j])
        invariant remaining == Remaining(vs, proposals[..], n)
      {
        WithdrawStep(vs, p, cs, iterations, rnd, t, j, skipIndex);
        if j == skipIndex {
          continue;
        }
        var id := group[j];
        RemainingUpdate(vs, proposals[..], id, NoProposal, n);
        proposals[id] := NoProposal;
        remaining := remaining + 1;
      }
      assert group[..|group|] == group;
    }

    /**
     * Dispatch: every proposer holding a proposal gets its assignment in slot
     * order, the provider records the proposer, and tasks kept at home are
     * counted as the station's own.
     */
    method Dispatch(proposals: array<int>) returns (assignments: seq<TaskAssignment>)
      requires proposals.Length == vehicles.Length && InRange(vehicles[..], proposals[..])
      modifies vehicles, this`baseStationTasks
      ensures vehicles[..] == Dispatched(old(vehicles[..]), proposals[..], vehicles.Length)
      ensures assignments == Assignments(old(vehicles[..]), proposals[..], myAddress, vehicles.Length)
      ensures baseStationTasks == old(baseStationTasks) + AtHome(proposals[..], vehicles.Length)
    {
      var n := vehicles.Length;
      ghost var vs, p := vehicles[..], proposals[..];
      assignments := [];
      for i := 0 to n
        invariant vehicles[..] == Dispatched(vs, p, i)
        invariant assignments == Assignments(vs, p, myAddress, i)
        invariant baseStationTasks == old(baseStationTasks) + AtHome(p, i)
      {
        if proposals[i] != NoProposal {
          var nodeId := proposals[i];
          DispatchedKeepsSlot(vs, p, i, i);
          DispatchedKeepsSlot(vs, p, i, nodeId);
          vehicles[nodeId] := vehicles[nodeId].(taskAssignedFrom := i);
          var taskAssignment;
          if nodeId == i {
            taskAssignment := TaskAssignment(vehicles[i].address, -1, 0.0, myAddress);
            baseStationTasks := baseStationTasks + 1;
          } else {
            taskAssignment := TaskAssignment(vehicles[i].address, nodeId, vehicles[nodeId].price, vehicles[nodeId].address);
          }
          assignments := assignments + [taskAssignment];
        }
      }
    }
  }
}
