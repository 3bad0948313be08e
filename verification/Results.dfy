/** Instruction results and their ok / revert / halt classes. */
module Results {

  datatype InstructionResult =
    | Stop | Return | SelfDestruct | Suspend
    // revert codes
    | Revert | CallTooDeep | OutOfFunds | CreateInitCodeStartingEF00 | InvalidEOFInitCode
    | InvalidExtDelegateCallTarget | TransferFailed
    // error codes
    | OutOfGas | MemoryOOG | MemoryLimitOOG | PrecompileOOG | InvalidOperandOOG | ReentrancySentryOOG
    | OpcodeNotFound | CallNotAllowedInsideStatic | StateChangeDuringStaticCall | InvalidFEOpcode
    | InvalidJump | NotActivated | StackUnderflow | StackOverflow | OutOfOffset | CreateCollision
    | OverflowPayment | PrecompileError | NonceOverflow | CreateContractSizeLimit
    | CreateContractStartingWithEF | CreateInitCodeSizeLimit | FatalExternalError
    | InvalidImmediateEncoding | PrecompileThrow | TronBytecodeExecution
    | TronPrecompileTransferFailure | TronOutOfTime

  predicate IsOk(r: InstructionResult) {
    r.Stop? || r.Return? || r.SelfDestruct? || r.Suspend?
  }

  predicate IsRevert(r: InstructionResult) {
    || r.Revert? || r.CallTooDeep? || r.OutOfFunds? || r.CreateInitCodeStartingEF00?
    || r.InvalidEOFInitCode? || r.InvalidExtDelegateCallTarget? || r.TransferFailed?
  }

  predicate IsOkOrRevert(r: InstructionResult) { IsOk(r) || IsRevert(r) }

  /** The unspent gas of a child that ends like this goes back to its caller. A nested
      TransferFailed is revert-class but forfeits the forwarded budget. */
  predicate ReturnsGas(r: InstructionResult) { IsOkOrRevert(r) && !r.TransferFailed? }

  /** What frame code can end with: never the suspension marker, and never the
      database fault that aborts the transaction outside the frame loop. */
  type EndResult = r: InstructionResult | !r.Suspend? && !r.FatalExternalError? witness Stop
}
