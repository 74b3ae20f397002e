/** Status bits of the DesignWare mobile storage host controller, and the commands of
    `cmd.rs` with the command-word flags that decide when a transfer is complete.

    A status register is the set of its asserted bits: reading is the set itself, writing ones
    back clears them. */
module SdRegisters {

  datatype RInt =
    | EndBitError | AutoCommandDone | StartBitError | HardwareLockedWrite | FifoUnderOverRun
    | HostTimeout | DataReadTimeout | ResponseTimeout | DataCrcError | ResponseCrcError
    | ReceiveRequest | TransmitRequest | DataTransferOver | CommandDone | ResponseError
    | CardDetect | Sdio

  datatype IdBit = AIS | NIS | CES | DU | FBE | RI | TI

  const RINT_ERRORS: set<RInt> := {
    ResponseTimeout, DataReadTimeout, FifoUnderOverRun, HostTimeout, StartBitError, EndBitError,
    DataCrcError, ResponseCrcError, ResponseError, HardwareLockedWrite}

  const IDSTS_ERRORS: set<IdBit> := {AIS, CES, DU, FBE}

  predicate StatusHasError(r: set<RInt>, i: set<IdBit>) {
    r * RINT_ERRORS != {} || i * IDSTS_ERRORS != {}
  }

  datatype Command =
    | GoIdleState | AllSendCid | SendRelativeAddr | SelectCard(arg: nat) | SendIfCond(arg: nat)
    | SendCsd(arg: nat) | SendStatus(arg: nat)
    | ReadSingleBlock(block: nat, len: nat) | ReadMultipleBlocks(block: nat, len: nat)
    | WriteSingleBlock(block: nat, len: nat) | WriteMultipleBlocks(block: nat, len: nat)
    | SdSendOpCond(arg: nat) | SendScr(len: nat) | AppCmd(arg: nat) | ResetClock

  /** The command word, and the length of the buffer that goes with it. */
  datatype Cmd = Cmd(responseExpect: bool, dataExpected: bool, readWrite: bool, sendAutoStop: bool)

  predicate HasR1(c: Command) {
    || c.SelectCard? || c.SendStatus? || c.ReadSingleBlock? || c.ReadMultipleBlocks?
    || c.WriteSingleBlock? || c.WriteMultipleBlocks? || c.SendScr? || c.AppCmd?
  }

  datatype Option<T> = None | Some(value: T)

  function Build(c: Command): (r: (Cmd, Option<nat>))
    ensures r.0.dataExpected <==> r.1.Some?
    ensures r.0.dataExpected ==> r.0.responseExpect && HasR1(c)
    ensures r.0.responseExpect <==> c != GoIdleState && c != ResetClock
    ensures r.0.readWrite <==> c.WriteSingleBlock? || c.WriteMultipleBlocks?
    ensures r.0.sendAutoStop <==> c.ReadMultipleBlocks? || c.WriteMultipleBlocks?
  {
    match c
    case GoIdleState => (Cmd(false, false, false, false), None)
    case ReadSingleBlock(_, len) => (Cmd(true, true, false, false), Some(len))
    case ReadMultipleBlocks(_, len) => (Cmd(true, true, false, true), Some(len))
    case SendScr(len) => (Cmd(true, true, false, false), Some(len))
    case WriteSingleBlock(_, len) => (Cmd(true, true, true, false), Some(len))
    case WriteMultipleBlocks(_, len) => (Cmd(true, true, true, true), Some(len))
    case ResetClock => (Cmd(false, false, false, false), None)
    case _ => (Cmd(true, false, false, false), None)
  }
}
