/** The three shared atomics of the validator. */
module ValidatorState {
  import opened Words

  datatype ValidatorRole = Cosigner | Idle

  function RoleToByte(role: ValidatorRole): byte {
    match role
    case Cosigner => 1
    case Idle => 2
  }

  predicate ValidRoleByte(b: byte) { b == 1 || b == 2 }

  function ByteToRole(b: byte): (role: ValidatorRole)
    requires ValidRoleByte(b)
    ensures RoleToByte(role) == b
  {
    if b == 1 then Cosigner else Idle
  }

  /** What the atomics mean. */
  datatype Shared = Shared(block: u64, epoch: u64, role: ValidatorRole)

  const INITIAL := Shared(0, 0, Cosigner)

  /** The state handed to every handler and every job. A setter that is given a value outside
      64 bits panics before it stores. */
  class State {
    var currentBlock: u64
    var currentEpoch: u64
    var role: byte

    ghost predicate Valid()
      reads this
    {
      ValidRoleByte(role)
    }

    ghost function View(): Shared
      reads this
      requires Valid()
    {
      Shared(currentBlock, currentEpoch, ByteToRole(role))
    }

    /** `generate_state` */
    constructor ()
      ensures Valid() && View() == INITIAL
    {
      currentBlock, currentEpoch, role := 0, 0, RoleToByte(Cosigner);
    }

    method Role() returns (r: ValidatorRole)
      requires Valid()
      ensures r == View().role
    {
      r := ByteToRole(role);
    }

    method SetRole(r: ValidatorRole)
      requires Valid()
      modifies this`role
      ensures Valid() && View() == old(View()).(role := r)
    {
      role := RoleToByte(r);
    }

    method SetCurrentBlock(block: u128) returns (panicked: bool)
      requires Valid()
      modifies this`currentBlock
      ensures Valid() && panicked == (block >= TWO_TO_THE_64)
      ensures View() == if panicked then old(View()) else old(View()).(block := block)
    {
      panicked := block >= TWO_TO_THE_64;
      if !panicked { currentBlock := block; }
    }

    method SetCurrentEpoch(epoch: u128) returns (panicked: bool)
      requires Valid()
      modifies this`currentEpoch
      ensures Valid() && panicked == (epoch >= TWO_TO_THE_64)
      ensures View() == if panicked then old(View()) else old(View()).(epoch := epoch)
    {
      panicked := epoch >= TWO_TO_THE_64;
      if !panicked { currentEpoch := epoch; }
    }
  }
}
