/**
 * The vehicle side of the protocol: which contract a vehicle picks from the
 * menu, which messages it accepts, and the guard that keeps providers from
 * submitting tasks.
 */
module VehicleApp {
  import opened Mobility
  import opened Messages

  /** The outcome of scanning a menu: the chosen index (-1 for none) and the selected contract. */
  datatype Selection = Selection(index: int, contract: Contract)

  predicate Fits(c: Contract, totalResource: real)
  {
    c.resource <= totalResource
  }

  /** A contract the scan can take: it fits and pays at least what was held on entry. */
  predicate Eligible(c: Contract, totalResource: real, entry: Contract)
  {
    Fits(c, totalResource) && c.reward >= entry.reward
  }

  /**
   * Scanning `menu` in order while holding `entry`: a contract that fits and
   * pays at least the one currently held replaces it. The result is the
   * highest-paying eligible contract, the last one among equals, or nothing.
   */
  function Select(menu: seq<Contract>, totalResource: real, entry: Contract): (s: Selection)
    ensures -1 <= s.index < |menu|
    ensures s.index == -1 <==> forall k :: 0 <= k < |menu| ==> !Eligible(menu[k], totalResource, entry)
    ensures s.index == -1 ==> s.contract == entry
    ensures s.index >= 0 ==> s.contract == menu[s.index] && Fits(menu[s.index], totalResource)
    ensures s.contract.reward >= entry.reward
    ensures forall k :: 0 <= k < |menu| && Eligible(menu[k], totalResource, entry) ==>
      menu[k].reward <= s.contract.reward
    ensures forall k :: s.index < k < |menu| && Fits(menu[k], totalResource) ==>
      menu[k].reward < s.contract.reward
  {
    if menu == [] then Selection(-1, entry)
    else
      var prev := Select(menu[..|menu| - 1], totalResource, entry);
      var last := menu[|menu| - 1];
      if Fits(last, totalResource) && last.reward >= prev.contract.reward then Selection(|menu| - 1, last)
      else prev
  }

  class Vehicle {
    const address: int
    const totalResource: real
    const taskDataSize: real
    const taskResource: real
    const delayConstraint: real
    var baseStationAddress: int
    var selectedContract: Contract

    constructor (address: int, totalResource: real, taskDataSize: real, taskResource: real, delayConstraint: real)
      ensures this.address == address && this.totalResource == totalResource
      ensures this.taskDataSize == taskDataSize && this.taskResource == taskResource
      ensures this.delayConstraint == delayConstraint
      ensures baseStationAddress == 0 && selectedContract == EmptyContract
    {
      this.address := address;
      this.totalResource := totalResource;
      this.taskDataSize := taskDataSize;
      this.taskResource := taskResource;
      this.delayConstraint := delayConstraint;
      baseStationAddress := 0;
      selectedContract := EmptyContract;
    }

    /** A message is for this vehicle when addressed to it or broadcast. */
    predicate IsForMe(recipient: int)
    {
      recipient == address || recipient == Broadcast
    }

    /**
     * Handles the contract menu sent by `sender`: remembers the sender as the
     * base station, scans the menu, and returns the recipient and the chosen
     * type of the ContractChoice it sends back.
     */
    method HandleContractList(menu: seq<Contract>, sender: int) returns (recipient: int, choice: int)
      modifies this
      ensures baseStationAddress == sender && recipient == sender
      ensures choice == Select(menu, totalResource, old(selectedContract)).index
      ensures selectedContract == Select(menu, totalResource, old(selectedContract)).contract
      ensures selectedContract.reward >= old(selectedContract).reward
    {
      baseStationAddress := sender;
      ghost var entry := selectedContract;
      var bestContractIndex := -1;
      for i := 0 to |menu|
        invariant baseStationAddress == sender
        invariant Selection(bestContractIndex, selectedContract) == Select(menu[..i], totalResource, entry)
      {
        assert menu[..i + 1][..i] == menu[..i];
        var contract := menu[i];
        if contract.resource <= totalResource && contract.reward >= selectedContract.reward {
          selectedContract := contract;
          bestContractIndex := i;
        }
      }
      assert menu[..|menu|] == menu;
      recipient, choice := baseStationAddress, bestContractIndex;
    }

    /** The task metadata this vehicle sends when asked to, given its current position and speed. */
    function PrepareTaskMetadata(position: Coord, speed: Coord): (r: Option<TaskMetadata>)
      reads this
      ensures r.Some? <==> totalResource <= 0.0
      ensures r.Some? ==> r.value.sender == address && r.value.recipient == baseStationAddress
    {
      if totalResource > 0.0 then None
      else Some(TaskMetadata(address, baseStationAddress, taskResource, taskDataSize, delayConstraint, position, speed))
    }
  }

  /** A vehicle accepts its own address and broadcasts; a message for another address is refused. */
  lemma IsForMeFilters(v: Vehicle, recipient: int)
    ensures v.IsForMe(v.address) && v.IsForMe(Broadcast)
    ensures recipient != v.address && recipient != Broadcast ==> !v.IsForMe(recipient)
  {
  }

  /**
   * A vehicle that submits tasks holds no more than zero resource, so every
   * contract it can select shares at most zero resource: proposers are never
   * also offering capacity through a positive contract.
   */
  lemma ProposersShareNothing(menu: seq<Contract>, totalResource: real, entry: Contract)
    requires totalResource <= 0.0
    ensures var s := Select(menu, totalResource, entry);
      s.index >= 0 ==> s.contract.resource <= 0.0
  {
  }

  /** A menu example: with capacity 4, the menu [(1,5), (3,8), (5,2)] yields (3,8) at index 1. */
  lemma SelectExample()
    ensures Select([Contract(1.0, 5.0), Contract(3.0, 8.0), Contract(5.0, 2.0)], 4.0, EmptyContract)
      == Selection(1, Contract(3.0, 8.0))
  {
    var menu := [Contract(1.0, 5.0), Contract(3.0, 8.0), Contract(5.0, 2.0)];
    assert menu[..2] == [Contract(1.0, 5.0), Contract(3.0, 8.0)];
    assert menu[..2][..1] == [Contract(1.0, 5.0)];
    assert menu[..2][..1][..0] == [];
  }
}
