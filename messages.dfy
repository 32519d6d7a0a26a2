/**
 * The payloads exchanged between the vehicles and the base station. Only the
 * fields the modelled handlers read or write are kept; addresses are plain
 * integers and -1 is the broadcast address.
 */
module Messages {
  import opened Mobility

  /** An optional value. */
  datatype Option<T> = None | Some(value: T)

  /** The broadcast recipient. */
  const Broadcast: int := -1

  /** One entry of the contract menu: resource to share and the reward paid for it. */
  datatype Contract = Contract(resource: real, reward: real)

  /** A default-constructed contract (resource 0, reward 0). */
  const EmptyContract: Contract := Contract(0.0, 0.0)

  /** A vehicle's answer to the menu: its slot index and the chosen contract type (-1 for none). */
  datatype ContractChoice = ContractChoice(sender: int, index: int, contractType: int, position: Coord, speed: Coord)

  /** A proposer's task demand, sent to the base station. */
  datatype TaskMetadata = TaskMetadata(
    sender: int, recipient: int,
    taskResource: real, taskDataSize: real, delayConstraint: real,
    position: Coord, speed: Coord)

  /** The base station's answer to a proposer: who runs its task, at what price, and where to send it. */
  datatype TaskAssignment = TaskAssignment(recipient: int, fogNodeId: int, price: real, address: int)
}
