# A verified model of the TRON node's execution core

This project models, in Dafny, the parts of the node that decide what a transaction does and what
it costs, and proves what holds over every run of them:

* **The frame machine** (`Frames`, `Opening`, `Machine`, `Evm`, `Journal`, `FrameStack`): an iterative loop over
  a pooled stack of call and create frames, with the world behind an undo log. `Evm` updates
  everything in place, as the node does. The loop is proved to end with exactly the outcome, world
  and creation nonce of a recursive definition in which a failed child is undone by going back to the
  world its parent had (`Evm.RunExecLoop`, `TurnKeepsMeaning`). `SharedStorage` is the undo log before
  the energy-limit fork, when frames shared storage and a revert kept part of what they wrote.
* **Energy** (`Energy`, `GasMeter`, `Memory`, `Laws`, `Runs`, `Reservoir`, `Metering`, `Stateless`): the
  dynamic-energy charge with one floor per opcode, conservation of energy over the call tree,
  agreement of memory with its price, the EIP-8037 reservoir law, refills included, and state gas that
  always covers the storage a run has added.
* **Failures** (`Failures`): how far a timeout, a precompile's exception and any other failure reach.
* **Billing** (`Settlement`, `Fees`, `Transaction`): a transaction from validation to reward, with
  receipt, refund cap and floor, in the node's word sizes (`Transact`).
* **TRC-10 assets** (`Assets`, `AssetLaws`, `AssetSteps`, `AssetTrx`, `AssetLedger`, `Decimals`): conservation of
  every token's supply and of TRX, and the safety of the ALLOW_SAME_TOKEN_NAME switch, over every run
  of issue, transfer, participate and unfreeze.
* **Accounts and permissions** (`Accounts`, `Permissions`) and **EIP-7702 lists** (`AuthList`).

`Words`, `Sums` and `Results` hold machine words, sums over finite sets, and instruction results.

## How to read the model

A frame's code is an arbitrary finite decision tree (`Frames.Code`): every amount, address and branch
in it is a function of everything the frame can observe, so a theorem about all trees is a theorem
about all terminating contracts with all their callees. `Ledger` is a model-only part of a frame's
state. It records what the caller paid, what was burned or spilled, and `kept`: whether gas has stayed
in the signed 64-bit range and every precompile has accounted for the reservoir it was handed.

Three conditions on code alone do without it. Code is `Tame` for `q` if no opcode refills more than `q`
and every precompile accounts for state gas; `Budget` is what such a tree can refill in all. Code is
`Metered` if each opcode's refills, and the worth of the storage it adds to what the transaction started
from, are paid for by its state charges. Code is `Plain` if it neither charges nor refills state gas, as
no code does while EIP-8037 is off. `Billable` puts them together: it is a condition on a transaction, not
on its run, and implies that its bill is its receipt.

What the world outside supplies is a parameter: precompile bodies are functions from gas, reservoir and
world to a reply and a list of world effects; address derivation, the committed store's part of the
"address taken" test, existence and token balances of a call's target, block data, chain parameters
and the clock are arguments or fields.

Where the code does not do what its documentation says or a reader would expect, the model follows the
code:

* `charged_new_account_state_gas` is documented as refunded when the call fails
  (crates/revm-handler/src/frame.rs:647-649); no code refunds it, and `StateChargeStays` proves that
  the caller's count still holds the charge after the failure has been merged.
* The failure reply of a TRON precompile reports a reservoir of zero
  (crates/tron-tvm/src/evm.rs:582-592), so a caller that had one loses it.
  `PrecompileDrainsReservoir` shows this, `PrecompileHandsBack` says exactly which replies keep it.
* Undoing a code change empties the code, whatever it was; `SetCodeReversible` proves that this is right
  exactly when it was empty, and `TurnKeepsDeploying` that in the frame machine it always is.
* A transfer that overflows its recipient leaves the sender debited without an undo entry
  (`TransferReversible`); `TransferKeepsSupply` proves that a supply that fits 256 bits rules it out.
* A validated TransferAsset may fail to execute: `ExampleTransferFails` is a reachable example,
  `ValidatedTransferFails` the exact condition.
* The `expect` in the caller-fee step can fire when the balance check is disabled:
  `PanicWithoutBalanceCheck` is the exact condition, `PanicExample` an instance.
* The count of state gas may go negative in a child frame, and the comment on the receipt expects it
  not to at the top level (crates/revm-handler/src/post_execution.rs:17-21): `FirstMetered` proves that
  it does not, for all code whose refills undo charges as those of SSTORE do (`SStoreMetered`).
* Before Prague a floor above the gas limit is not refused (crates/revm-handler/src/validation.rs:267-274);
  `BillIsReceipt` and `Execute` say that bill and receipt then differ, and `Billable` asks for a floor
  within the limit.
* With ALLOW_UPDATE_ACCOUNT_NAME on, a rename may break the name index: `RenamedExact` says exactly
  when, `RenameBreaksIndex` and `RenameStealsName` are instances.
* A fee is lost when the payer is the blackhole account that is credited: `PermissionFeeConserved`
  and `BlackholeUpdateLosesFee` for permission updates, `IssueFeeKept`, `TransferFeeKept` and
  `BlackholeIssueLosesFee` for assets.
* A frozen supply's expiry wraps if days times period does not fit 64 bits: `ExpiryExact` and
  `ExpiryWraps`; `ExpiriesExact` proves that the default parameters rule it out.
* An instalment that saturates at u64::MAX can be paid by a balance of u64::MAX although the exact
  charge is larger: `SaturatedInstalmentIsPaid`; every other balance is covered by
  `PayAllMatchesCombined`.

## Model

| member | source | states |
|---|---|---|
| Evms.Evm.RunExecLoop | crates/revm-handler/src/handler.rs:467-498 | the loop ends with the outcome, world and creation nonce of the recursive meaning; no frame is current, every checkpoint is closed, native supply is unchanged, the outcome answers the root's terms, and the transfer-failed flag is set exactly by a pushed root frame that ends so |
| Evms.Evm.Loop | crates/revm-handler/src/handler.rs:478-497 | the loop proper, with the invariant that every state still means the root request, and termination by the code that is left |
| Evms.Evm.Advance | crates/revm-handler/src/handler.rs:478-497 | one iteration on pooled stack and undo log is one turn of the abstract machine |
| Evms.Evm.RunPlain | crates/revm-interpreter/src/interpreter.rs:411-428 | running code in place, with journaled effects, equals the pure interpretation |
| Evms.Evm.RunTop | crates/revm-handler/src/evm.rs:203-221 | a frame halted from outside is not stepped again |
| Evms.Evm.MakeCallFrame | crates/revm-handler/src/frame.rs:146-398 | every branch of opening a call answers or pushes what the pure definition says, and leaves checkpoints and frames paired |
| Evms.Evm.Admit | crates/revm-handler/src/frame.rs:177-311 | a refused call leaves world and checkpoints as they were; an admitted one has moved the value behind an open checkpoint |
| Evms.Evm.MakeCreateFrame | crates/revm-handler/src/frame.rs:402-564 | every branch of opening a CREATE or CREATE2 does what the pure definition says; the creation nonce moves on even when the address is taken |
| Openings.NestedCallMoves | crates/revm-handler/src/frame.rs:146-398 | when a call that a frame makes gets its own frame, or is answered by an account without code, its value has gone from caller to target and no other slot has changed; the child starts on the forwarded gas and the stipend; past depth and guard it lacks funds if and only if the caller does |
| Openings.FirstCallMoves | crates/revm-handler/src/frame.rs:146-398 | the same of the transaction's own call |
| Openings.CallRefused | crates/revm-handler/src/frame.rs:177-311 | the exact conditions, in order, under which a call is refused for depth, for a precompile's sake and for lack of funds; each leaves world, nonce and gas alone |
| Openings.CallEnters | crates/revm-handler/src/frame.rs:297-398 | what contract, codeless account and precompile do with a call that is not refused, and that a precompile keeps the value only if it succeeds |
| Openings.CreateRefusals | crates/revm-handler/src/frame.rs:402-564 | the exact conditions, in order, under which a create is refused, and that only a taken address has moved the nonces |
| Openings.CreateEnters | crates/revm-handler/src/frame.rs:402-564 | a create's frame starts with the creator's nonce moved on and, behind its checkpoint, the new account marked and endowed at the creator's expense |
| Openings.NestedCreateMoves | crates/revm-handler/src/frame.rs:402-564 | the same of the creates a frame makes, and the terms on which init code starts |
| Evms.Evm.ProcessReturn | crates/revm-handler/src/frame.rs:598-680 | a finished frame's checkpoint is closed exactly once: committed, or reverted to the world at its opening |
| Evms.Evm.ReturnCreate | crates/revm-handler/src/frame.rs:1035-1137 | code deposit: the checks in order, then commit and set the code, or go back to the snapshot |
| Evms.Evm.FrameReturnResult | crates/revm-handler/src/evm.rs:232-264 | a finished frame is popped; popping the root ends the run and alone decides the transfer-failed flag; otherwise the outcome is merged into the frame below |
| Evms.Evm.CatchError | crates/revm-handler/src/handler.rs:576-586 | after an error at any point no frame is current and nothing the transaction did survives |
| Evms.TurnKeepsDeploying | crates/revm-handler/src/frame.rs:1128-1136 | in every state, each open create's account is marked and without code, now and in every snapshot, so setting its code can be undone |
| Evms.FirstSane | crates/revm-handler/src/handler.rs:225-246 | the first frame starts with its books in order |
| Machines.TurnKeepsMeaning | crates/revm-handler/src/handler.rs:478-497 | a turn never changes what the machine means and always consumes code |
| Machines.ReturnKeepsMeaning | crates/revm-handler/src/evm.rs:232-264 | handing a finished frame's outcome down is what the recursion does |
| Machines.PushKeepsMeaning | crates/revm-handler/src/evm.rs:176-199 | evaluating a pushed child first is what the recursion does |
| Machines.InlineKeepsMeaning | crates/revm-handler/src/handler.rs:481-491 | merging an answer that needed no frame is what the recursion does |
| Runs.TurnKeepsSane | crates/revm-handler/src/frame.rs:598-981 | every turn keeps: depth k at index k, at most 65 frames, one snapshot a frame, every waiting frame's books, and the top frame's books and memory price |
| Runs.RunKeepsSane | crates/revm-handler/src/handler.rs:467-498 | over every run the invariant holds in every state and the final outcome answers the root's terms |
| Runs.MeaningAnswers | crates/revm-handler/src/handler.rs:467-498 | the outcome a state stands for has its books in order on the root's terms |
| Runs.EnergyConserved | crates/revm-handler/src/frame.rs:782-785 | in every reachable state, gas left in all live frames plus gas burned and spilled is the root's budget, and no frame shows more than its limit |
| Runs.DepthExhausted | crates/revm-context/src/context.rs:678-686 | the depth test answers true exactly when the next child would be refused as too deep |
| Laws.OpcodeSpends | crates/revm-interpreter/src/interpreter.rs:370-390 | an opcode never adds gas, and the balance that wraps on a refused static charge is gone once the frame has halted |
| Laws.ChargesCredit | crates/revm-interpreter/src/instructions/host.rs:314-321 | an opcode credits its refunds in full to the counter, and nothing else does |
| Laws.StaticChargeExact | crates/revm-interpreter/src/interpreter.rs:370-390 | an opcode's static charge is met by the last unit of gas, and refused if and only if it is not covered |
| Laws.InterpKeepsBooks | crates/revm-interpreter/src/interpreter.rs:411-428 | code between two frame actions keeps a frame's books and pays for stipend and return window before it forwards gas |
| Laws.MergeKeepsBooks | crates/revm-handler/src/frame.rs:683-981 | merging any outcome keeps the caller's books; a killed caller has nothing left; the unchecked addition of returned gas cannot overflow |
| Laws.SettleKeepsBooks | crates/revm-handler/src/frame.rs:986-1026 | regular and state gas are settled without overflow for success and failure alike |
| Laws.CloseAnswers | crates/revm-handler/src/frame.rs:598-680 | what a frame hands back balances what it was given |
| Laws.PrecompileAnswers | crates/revm-handler/src/precompile_provider.rs:81-128 | a precompile's reply, however it overspends or fails, becomes an outcome whose books balance |
| Laws.ExpandPays | crates/revm-interpreter/src/interpreter/shared_memory.rs:573-613 | an expansion inside existing memory changes nothing; any other costs exactly the charge for the difference of the two prices, goes through if and only if limit and gas allow, covers the window and leaves buffer and baseline in step |
| Memories.FirstWordsPrice | crates/revm-context-interface/src/cfg/gas_params.rs:634-643 | a frame without memory that expands to w words, in any number of steps, pays the linear price and the floor of w squared over the quadratic divisor |
| Memories.ExpansionsTelescope | crates/revm-interpreter/src/interpreter/shared_memory.rs:573-613 | however an expansion is split up, its steps go through exactly when it would in one, and cost the same in all |
| Memories.PriceSaturates | crates/revm-context-interface/src/cfg/gas_params.rs:634-643 | the price is exact up to 2^32 - 1 words while it fits 64 bits, and what it is beyond |
| Laws.FreeGrowthStaysFree | crates/revm-handler/src/frame.rs:806-876 | memory that a precompile's output got for free is never billed: later expansions inside it cost nothing, those beyond it pay for the words beyond it alone |
| Memories.GrowthIsZero | crates/revm-interpreter/src/interpreter/shared_memory.rs:588-613 | memory that is new after a paid expansion is zero, and the rest is as it was |
| Memories.FreeGrowthIsZero | crates/revm-handler/src/frame.rs:806-876 | the same of memory that a precompile's output got for free, apart from the output |
| Memories.FrameMemory.ResizeMemory | crates/revm-interpreter/src/interpreter/shared_memory.rs:573-587 | expanding in place is the specified expansion, and success leaves meter and buffer in step |
| Memories.FrameMemory.ResizeCold | crates/revm-interpreter/src/interpreter/shared_memory.rs:588-613 | the new baseline is recorded before the charge; while the baseline was in step the difference of prices, unwrapped without a check, exists; a refused charge leaves the buffer alone |
| Laws.WriteFullFits | crates/revm-handler/src/frame.rs:806-876 | free growth leaves buffer and price baseline in step, and the whole output lands in bounds where it was meant to |
| Laws.WriteReturnFits | crates/revm-handler/src/frame.rs:784-882 | the clamped write stays inside memory that was paid for |
| Laws.WriteReturnLands | crates/revm-handler/src/frame.rs:877-881 | the return window gets as much of the output as fits it, and the rest of memory stays as it was |
| Laws.CallChargesCover | crates/revm-interpreter/src/instructions/contract/call_helpers.rs:68-148 | a call pays 9000 more exactly if it brings value, which covers the stipend, and its return window is expanded before the call |
| Journals.Journal.CheckpointRevert | crates/revm-context/src/journal/inner.rs:852-984 | draining the undo log restores the world at the checkpoint exactly, and every outer checkpoint can still be restored |
| Journals.Journal.CheckpointCommit | crates/revm-context/src/journal/inner.rs:832-848 | committing changes nothing but drops the innermost checkpoint |
| Journals.Journal.Record | crates/revm-context/src/journal/inner.rs:649-696 | a journaled change keeps every open checkpoint restorable |
| Journals.Journal.CreateAccountCheckpoint | crates/revm-context/src/journal/inner.rs:728-790 | a failed creation leaves no checkpoint and no change; a successful one leaves one checkpoint and the new account |
| Journals.Journal.DiscardTx | crates/revm-context/src/journal/inner.rs:301-361 | discarding at any point brings back the durable slots of the transaction's start |
| SharedStorage.StorageJournal.CheckpointRevert | crates/revm-context/src/journal/inner.rs:852-984 | before the energy-limit fork: a revert brings back every slot except those of addresses that a shallower frame owns, which keep their value and their undo entries, so that every outer checkpoint can still be restored |
| SharedStorage.StorageJournal.Drain | crates/revm-context/src/journal/inner.rs:922-968 | the reversed drain keeps exactly the changes of foreign storage and what warmed a slot so changed, in order, and undoes the rest |
| SharedStorage.StorageJournal.CheckpointCommit | crates/revm-context/src/journal/inner.rs:832-848 | a commit hands what the frame owned to its parent, and no outer checkpoint is lost |
| SharedStorage.StorageJournal.Touch | crates/revm-context/src/journal/inner.rs:822-828 | the shallowest live frame to touch an address owns its storage |
| SharedStorage.StorageJournal.Store | crates/revm-context/src/journal/inner.rs:1384-1396 | a store changes one slot, journals zero-to-zero writes too, and keeps every checkpoint restorable |
| SharedStorage.StorageJournal.Flush | crates/revm-context/src/journal/inner.rs:940-947 | comparing warm slots with their original values misses no write that survived a revert and adds none |
| SharedStorage.UndoesAlike | crates/revm-context/src/journal/inner.rs:961-968 | undoing what a revert kept, from any earlier mark, leads to the value that undoing everything would have led to |
| SharedStorage.RetainedOf | crates/revm-context/src/journal/inner.rs:927-958 | slot by slot, the journal of a changed foreign slot stays whole and any other is gone, leaving the slot cold if it was warmed in it |
| Journals.TransferMoves | crates/revm-context/src/journal/inner.rs:649-696 | a transfer lacks funds exactly when the balance does, and overflows exactly when the recipient's balance would; otherwise it moves the amount in the right direction and touches nothing else |
| Journals.ApplyDoes | crates/revm-context/src/journal/inner.rs:1384-1396 | what the operations of opcodes and precompiles do: a write sets one slot, a log is appended, a payment moves what is there, and nothing else changes |
| Journals.StoresLogged | crates/revm-context-interface/src/journaled_state/account.rs:228-310 | exactly which writes leave an undo entry, storage writes from zero to zero included, and that it holds the old value |
| Journals.CreateMoves | crates/revm-context/src/journal/inner.rs:728-790 | a creation marks and endows the new account at its creator's expense and touches nothing else |
| Journals.CreateFails | crates/revm-context/src/journal/inner.rs:728-790 | a creation fails if and only if the address has code or a nonce, or its endowment overflows |
| Journals.TransferReversible | crates/revm-context/src/journal/inner.rs:649-696 | a transfer can be undone if and only if it did not overflow the recipient |
| Journals.SetCodeReversible | crates/revm-context/src/journal/inner.rs:549-575 | a code change can be undone if and only if the account had no code |
| Journals.CreateReversible | crates/revm-context/src/journal/inner.rs:728-790 | a creation can be undone if and only if the account was not already marked as created |
| Journals.TransferKeepsSupply | crates/revm-context/src/journal/inner.rs:649-696 | while the supply fits 256 bits no transfer overflows, and every transfer keeps it |
| Journals.CreateKeepsSupply | crates/revm-context/src/journal/inner.rs:728-790 | a creation keeps the supply and fails only by collision |
| FrameStacks.FrameStack.Push | crates/revm-context-interface/src/local.rs:80-95 | the slot above the top becomes the new top; frames below are untouched |
| FrameStacks.FrameStack.GetNext | crates/revm-context-interface/src/local.rs:120-133 | there is a slot above the top, and growing the pool moves no live frame |
| FrameStacks.FrameStack.Pop | crates/revm-context-interface/src/local.rs:104-107 | removes the top; popping the root leaves no current index |
| FrameStacks.FrameStack.Get | crates/revm-context-interface/src/local.rs:110-117 | reads the last frame pushed at this level, which is initialised |
| FrameStacks.FrameStack.EndInit | crates/revm-context-interface/src/local.rs:59-66 | the first frame is the only live frame, whether its slot is new or reused |
| Failures.OutOfTimeIsFatal | crates/revm-handler/src/frame.rs:711-721 | if any frame or precompile in any run ends in TronOutOfTime, the transaction does, with the world back at the root's checkpoint |
| Failures.OutOfTimeUnwinds | crates/revm-handler/src/frame.rs:911-918 | handed down a stack of any height, a timeout comes out at the bottom with no gas left and the world of the root's checkpoint |
| Failures.AncestorsTimeOut | crates/revm-handler/src/frame.rs:711-721 | turn by turn after a timeout, each ancestor in its turn is halted with TronOutOfTime and no gas while those below it wait unchanged, until the transaction has ended so |
| Failures.ThrowContained | crates/revm-handler/src/frame.rs:723-760 | a precompile's exception kills exactly the calling frame: two turns later its parent goes on with zero pushed, its own gas, and the dead frame's checkpoint undone; at the root the transaction ends with it |
| Failures.ChildFailureContained | crates/revm-handler/src/frame.rs:762-785 | a frame's own result halts its caller if and only if it is a timeout; gas comes back only from a child that returned or reverted, never from a nested TransferFailed |
| Failures.GasComesBack | crates/revm-handler/src/frame.rs:762-785 | by name, the results after which unspent gas returns to the caller, and that every other result forfeits it |
| Failures.PrecompileAnswered | crates/revm-handler/src/frame.rs:723-882 | a precompile's answer halts the caller exactly for an exception, a timeout or a refused write of its output; otherwise the caller gets the flag, the whole output as return data and the gas that comes back |
| Failures.FailedCallLeavesNoTrace | crates/revm-handler/src/frame.rs:146-398 | whatever a called account and its descendants did, a failed call leaves the caller's world |
| Failures.FailedCreateLeavesNonce | crates/revm-handler/src/frame.rs:402-564 | a failed creation leaves at most the creator's nonce, bumped once |
| Failures.CreateDeploys | crates/revm-handler/src/frame.rs:1035-1137 | a successful creation has set exactly the code that passed size and prefix checks, or before Homestead the empty code if the deposit was not affordable, has paid deposit, hashing and state gas for it (exactly, without a dynamic factor), and changed nothing else |
| Failures.CreateSucceeds | crates/revm-handler/src/frame.rs:1035-1137 | init code that succeeded leads to a contract if and only if size and prefix are allowed, the deposit is affordable or not yet due, and hashing and state gas are affordable |
| Failures.PrecompileReplies | crates/revm-handler/src/precompile_provider.rs:81-128 | which replies succeed, revert, throw or time out, and when gas and output are passed on |
| Reservoirs.ReservoirLaw | crates/revm-handler/src/frame.rs:986-1026 | for every call tree, refills and negative counts included, that starts far enough inside the signed range for what it may refill: reservoir plus state gas spent is what the root was given plus what was spilled |
| Reservoirs.RunSteady | crates/revm-handler/src/frame.rs:938-955 | the law for every frame of the tree, through charges, refills, failed and successful children and failed creates, with a lower bound on the signed count |
| Reservoirs.FailedChildHandsBack | crates/revm-handler/src/frame.rs:986-1026 | one merge: a failed child that spilled nothing hands back exactly its reservoir, a failed create with its state gas refilled, and the signed addition does not saturate |
| Reservoirs.FailedTreeHandsBack | crates/revm-handler/src/frame.rs:986-1026 | the same of every child in every tame tree, whatever it and its descendants charged and refilled |
| Reservoirs.StateChargeStays | crates/revm-handler/src/frame.rs:647-649 | state gas that a call charged in front of its child is still spent after the child has failed |
| Metering.SStoreMetered | crates/revm-context-interface/src/cfg/gas_params.rs:758-787 | SSTORE charges for exactly the slots that appear and refills for exactly those that go, counted against the storage the transaction started from |
| Metering.RunMetered | crates/revm-handler/src/frame.rs:986-1026 | over every call tree of such code, a frame that succeeds has spent at least what the storage that it and its descendants added is worth, whatever failed on the way |
| Metering.MergeMetered | crates/revm-handler/src/frame.rs:938-955 | a merge adds a successful child's count in full and gives back no more than the price of a failed create |
| Metering.CloseMetered | crates/revm-handler/src/frame.rs:1035-1137 | closing a frame keeps the balance of count and storage: failure adds no storage, code deposit only adds to the count |
| Stateless.RunZero | crates/revm-handler/src/frame.rs:986-1026 | without state charges, refills or EIP-8037, reservoir, state gas and spill stay at zero over every call tree |
| Reservoirs.PrecompileHandsBack | crates/revm-handler/src/precompile_provider.rs:81-128 | a failing precompile keeps the caller's reservoir if and only if its reply adds up to it |
| Reservoirs.PrecompileDrainsReservoir | crates/tron-tvm/src/evm.rs:582-592 | the TRON failure reply leaves the caller without reservoir |
| Energy.ChargeAllIsOneFloor | crates/revm-interpreter/src/gas.rs:139-197 | however an opcode's cost is split, the total deducted is the single floor, base is the raw sum and penalty the exact difference |
| Energy.PayAllMatchesCombined | crates/revm-interpreter/src/gas.rs:422-425 | the split form runs out of gas exactly when the combined charge would, and otherwise leaves the same gas |
| Energy.SplitIrrelevant | crates/revm-interpreter/src/gas.rs:138-148 | after an opcode boundary two ways of splitting a cost cannot be told apart |
| Energy.SaturatedInstalmentIsPaid | crates/revm-interpreter/src/gas.rs:187-196 | the one balance for which a saturated instalment is still paid |
| Energy.ScaledStep | crates/revm-interpreter/src/gas.rs:179-192 | the subtraction of the two floors cannot underflow, and an instalment never costs less than its raw amount |
| GasMeters.GasMeter.TronCharge | crates/revm-interpreter/src/gas.rs:172-197 | as long as the largest product fits 128 bits, no product wraps, no subtraction underflows, and the result is the specified charge |
| Energy.ChargesFit | crates/revm-interpreter/src/gas.rs:172-197 | it fits for every factor while an opcode's raw total fits 64 bits, and always for all but the 9999 largest factors |
| GasMeters.GasMeter.PayOpcode | crates/revm-interpreter/src/interpreter.rs:370-390 | paying an opcode's instalments in place succeeds exactly when the one floor of their sum is covered, and deducts exactly that |
| GasMeters.GasMeter.RecordCostUnsafe | crates/revm-interpreter/src/gas.rs:395-401 | reports out of gas exactly on underflow, and wraps |
| GasMeters.GasMeter.RecordStateCost | crates/revm-context-interface/src/cfg/gas.rs:130-145 | reservoir first, then regular gas, or nothing at all |
| Settlements.InitialGasSplits | crates/revm-context-interface/src/cfg/gas.rs:426-460 | a validated transaction's gas is split into budget and reservoir without underflow or loss |
| Settlements.InitialGasParts | crates/revm-context-interface/src/cfg/gas.rs:426-460 | regular gas never exceeds the cap; what is beyond it pays for state gas and is the reservoir then; when the reservoir is empty |
| Settlements.LastFrameResult | crates/revm-handler/src/handler.rs:385-455 | the meter is rewritten in place to the specified final gas |
| Settlements.RootGasWithinLimit | crates/revm-handler/src/handler.rs:399-452 | a root outcome with its books in order leaves no more gas than the transaction bought if it failed, or if it succeeded with a count that is not negative or negative by no more than the intrinsic gas covers |
| Settlements.PostExecution | crates/revm-handler/src/handler.rs:259-287 | refund, receipt and floor in the order in which the node applies them |
| Settlements.ReceiptSplits | crates/revm-handler/src/post_execution.rs:12-39 | gas on the receipt is intrinsic and burned regular gas and the state gas shown, for success, revert, halt and failed create alike |
| Settlements.RefundIsCapped | crates/revm-handler/src/post_execution.rs:64-70 | five times the refund is at most the gas spent from London on, twice before, and the cap is reached by whoever earns more |
| Settlements.BillIsReceipt | crates/revm-handler/src/post_execution.rs:12-133 | gas the beneficiary is paid for and gas on the receipt are one number if and only if the floor is within the limit; gas not reimbursed is the same number if and only if in addition there is a floor or no more gas is left than the limit |
| Settlements.HaltBillsEverything | crates/revm-handler/src/handler.rs:399-451 | a halted transaction, calls and creates alike, is billed its whole limit if and only if that is the floor, or its reservoir is unwound to nothing and neither create nor authorization gives anything back |
| Settlements.ReturnBillsConsumed | crates/revm-handler/src/handler.rs:399-415 | a transaction that returns or reverts is billed the limit less what is left of regular gas and reservoir, less a capped refund that only success adds to, or else the floor |
| Settlements.TransferFailedBillsConsumed | crates/revm-handler/src/handler.rs:399-411 | a root TransferFailed is billed what it consumed, its reservoir unwound, or else the floor |
| Transactions.Execute | crates/revm-handler/src/handler.rs:225-287 | from first frame to receipt: the recursive outcome, unchanged supply, and a bill that is the receipt for every billable transaction, and for every run if and only if the floor is within the limit and there is one or no more gas is left than the limit |
| Transactions.BillableIsReceipt | crates/revm-handler/src/post_execution.rs:12-133 | for every transaction with a floor, without state gas, or with metered code, whatever its intrinsic gas, gas not reimbursed, gas paid for and gas on the receipt are one number between floor and limit |
| Transactions.RestorationBilled | crates/revm-interpreter/src/instructions/host.rs:291-312 | the bill of a call that sets a slot and clears it again is its receipt, with no floor and no intrinsic gas to cover the refill |
| Transactions.FirstMetered | crates/revm-handler/src/post_execution.rs:17-21 | a successful root frame of metered code never ends with a negative count of state gas |
| Transactions.Transact | crates/revm-handler/src/handler.rs:168-188 | validate, deduct, execute, settle, reimburse, reward: it goes through if and only if price, gas, floor and cap checks and the fee step accept, with the recursive outcome; for every billable transaction the caller loses the price of the gas on the receipt and the blob fee, the beneficiary gains its part, the rest is burned, and nothing else changes after execution |
| Transactions.PrepareDoes | crates/revm-handler/src/pre_execution.rs:166-245 | before the first frame the caller has paid, a call has moved its nonce by one, each authority's nonce has moved once an authorization and its code is its latest designation, and nothing else has changed |
| Transactions.OutOfTimeBillsEverything | crates/revm-handler/src/handler.rs:399-451 | if anything in a transaction times out, in any turn of its run, the transaction does, and its whole limit is billed if and only if that is the floor, or reservoir and spill were nothing and neither a create nor an authorization gives anything back |
| Transactions.OutOfTimeBillsPlain | crates/revm-handler/src/handler.rs:405-411 | so without state gas it is billed its whole limit |
| Fees.PriceCoversBaseFee | crates/revm-handler/src/validation.rs:31-80 | a checked transaction pays at least the base fee; an unchecked Custom one exactly when its maximum fee does |
| Fees.PricesOkMeans | crates/revm-handler/src/validation.rs:31-80 | exactly which prices validation accepts |
| Fees.PriceIsCost | crates/revm-context-interface/src/transaction.rs:146-160 | a unit of gas costs the base fee and a tip, which is the priority fee or what the maximum leaves; from London on the tip alone is the beneficiary's |
| Fees.EffectiveWithinMax | crates/revm-context-interface/src/transaction.rs:165-231 | the effective spending is representable whenever the maximum is, and no larger |
| Fees.CallerFeeExact | crates/revm-handler/src/pre_execution.rs:129-164 | with the balance check on, the fee step accepts exactly when the maximum is covered, takes exactly gas and blob fee, leaves the value covered, and its `expect` cannot fire |
| Fees.DeductionExact | crates/revm-handler/src/pre_execution.rs:129-164 | the fee step accepts exactly what is affordable at the maximum prices, and takes base fee and tip for the whole limit and the blob fee |
| Fees.UncheckedFee | crates/revm-handler/src/pre_execution.rs:129-164 | without the balance check the fee is taken as far as there is balance, and the value is left at the least |
| Fees.PanicWithoutBalanceCheck | crates/revm-handler/src/pre_execution.rs:149-151 | without the balance check the `expect` fires exactly when the effective cost does not fit its words |
| Fees.PanicExample | crates/revm-handler/src/pre_execution.rs:149-151 | an accepted transaction on which it fires |
| Fees.BillSplits | crates/revm-handler/src/post_execution.rs:74-133 | the payment products fit 128 bits, and the caller's loss for gas is the beneficiary's gain plus what is burned, an underpriced Custom transaction included |
| Fees.FeesConserved | crates/revm-handler/src/post_execution.rs:74-133 | around any execution that keeps the supply, deduct, reimburse and reward shrink it by blob fee and burned fee only, even if caller and beneficiary are one |
| Fees.FeesSettle | crates/revm-handler/src/post_execution.rs:74-133 | who has what after the two payments, to the last slot, in terms of base fee, tip and gas used |
| AssetLaws.RunKeepsOk | crates/tron-actuator/src/asset.rs:87-810 | over every run each token's liquid and frozen holdings add up to its supply, the two maps agree until the switch, rows are permanent and ids are never reused |
| AssetLaws.TransferKeepsOk | crates/tron-actuator/src/asset.rs:155-230 | a transfer executes exactly when the authoritative map covers it and the fee can be taken; no credit overflows; the invariant is kept |
| AssetLaws.TransferDelivers | crates/tron-actuator/src/asset.rs:155-230 | the authoritative balance of the owner goes down, that of the recipient up, the owner pays the fee, nobody else's assets change |
| AssetLaws.MoveKeeps | crates/tron-actuator/src/asset.rs:867-937 | a covered debit and its credit both succeed, without overflow, and move exactly the amount in both maps |
| AssetLaws.ValidatedTransferFails | crates/tron-actuator/src/asset.rs:816-823 | a validated transfer fails if and only if the map the flag names does not cover it |
| AssetLaws.ExampleTransferFails | crates/tron-actuator/src/asset.rs:816-823 | a reachable state and a validated transfer that fails |
| AssetLaws.IssueKeepsOk | crates/tron-actuator/src/asset.rs:399-502 | a validated issue never fails halfway, takes a new id and keeps the invariant |
| AssetLaws.IssueSplits | crates/tron-actuator/src/asset.rs:449-464 | liquid and frozen parts are non-negative and make up the supply |
| AssetLaws.ExpiryExact | crates/tron-actuator/src/asset.rs:453-459 | a stored expiry is exact if and only if days times period fits 64 bits |
| AssetLaws.ExpiriesExact | crates/tron-actuator/src/asset.rs:322-379 | every stored expiry is exact if the longest permitted time fits, as the default does |
| AssetLaws.ExpiryWraps | crates/tron-actuator/src/asset.rs:453-459 | a validated list of frozen parts whose stored expiry is not |
| AssetLaws.ParticipateKeepsOk | crates/tron-actuator/src/asset.rs:676-723 | a validated participation executes exactly when the issuer's TRX balance has room, and keeps the invariant |
| AssetLaws.ParticipateDelivers | crates/tron-actuator/src/asset.rs:676-723 | TRX one way, the exchanged amount of the token the other, and no other account changes |
| AssetLaws.ExchangeFloors | crates/tron-actuator/src/asset.rs:646-657 | the exchanged amount is the exact positive floor of the price |
| AssetLaws.ParticipatePricesToken | crates/tron-actuator/src/asset.rs:832-849 | after the switch the row that sets the price is the row of the token that changes hands |
| AssetLaws.UnfreezeKeepsOk | crates/tron-actuator/src/asset.rs:762-810 | a validated unfreeze always executes and keeps the invariant under either flag |
| AssetLaws.UnfreezeDelivers | crates/tron-actuator/src/asset.rs:762-810 | a validated unfreeze raises the issuer's authoritative balance by exactly the sum of what has expired, keeps frozen exactly what has not, and changes nothing else |
| AssetLaws.ThawKeepsUnexpired | crates/tron-actuator/src/asset.rs:774-782 | what stays frozen is exactly what expires after now, as often as it was there |
| AssetLaws.ThawUnlocksExpired | crates/tron-actuator/src/asset.rs:774-782 | what is unlocked is exactly the sum over the positions that have expired |
| AssetLaws.ThawSplits | crates/tron-actuator/src/asset.rs:774-782 | what is unlocked and what stays frozen add up, without saturation |
| AssetLaws.SwitchSafe | crates/tron-actuator/src/asset.rs:855-937 | setting the flag at any moment changes no account's balance of any token and no supply |
| AssetSteps.SendTakesEffect | crates/tron-actuator/src/asset.rs:87-230 | in every state that keeps the invariant, the exact condition under which a transfer validates and executes |
| AssetSteps.IssueTakesEffect | crates/tron-actuator/src/asset.rs:236-502 | the same of an issue |
| AssetSteps.BuyTakesEffect | crates/tron-actuator/src/asset.rs:595-723 | the same of a participation, in terms of price and amount alone |
| AssetSteps.ThawTakesEffect | crates/tron-actuator/src/asset.rs:729-810 | the same of an unfreeze |
| AssetSteps.ExchangeSucceeds | crates/tron-actuator/src/asset.rs:646-657 | an amount buys something if and only if it pays for one unit and the product fits 64 bits |
| AssetSteps.TrxIs | crates/tron-actuator/src/asset.rs:236-260 | which names are reserved after the switch |
| AssetSteps.WrapMulIs | crates/tron-actuator/src/asset.rs:453-459 | the wrapping product differs from the exact one by a multiple of 2^64 |
| AssetTrx.RunKeepsTrx | crates/tron-actuator/src/asset.rs:87-810 | over every run whose fees are burned or go to an account that pays none, no TRX is made or lost and no balance goes below zero or overflows |
| AssetTrx.StepKeepsTrx | crates/tron-actuator/src/asset.rs:87-810 | a step that takes effect keeps all TRX if and only if the burn counter or an account other than the payer can take its fee |
| AssetTrx.TransferFeeKept | crates/tron-actuator/src/asset.rs:155-230 | the same of a transfer, whose accounts are written back from stale copies |
| AssetTrx.IssueFeeKept | crates/tron-actuator/src/asset.rs:399-502 | the same of an issue, which writes back a stale copy of the payer |
| AssetTrx.ParticipateKeepsTrx | crates/tron-actuator/src/asset.rs:676-723 | a participation moves TRX without loss |
| AssetTrx.ParticipationHasRoom | crates/tron-actuator/src/asset.rs:676-723 | while all TRX fits one balance, every validated participation executes |
| AssetTrx.BlackholeIssueLosesFee | crates/tron-actuator/src/asset.rs:399-502 | a validated issue by the blackhole account, whose fee is lost |
| AssetLedgers.AssetLedger.TransferAsset | crates/tron-actuator/src/asset.rs:155-230 | the in-place transfer, fee disposal and stale copies included, is the specified one |
| AssetLedgers.AssetLedger.Issue | crates/tron-actuator/src/asset.rs:399-502 | the in-place issue is the specified one |
| AssetLedgers.AssetLedger.Buy | crates/tron-actuator/src/asset.rs:676-723 | the in-place participation is the specified one |
| AssetLedgers.AssetLedger.UnfreezeAsset | crates/tron-actuator/src/asset.rs:762-810 | the in-place unfreeze is the specified one |
| AssetLedgers.AssetLedger.Retain | crates/tron-actuator/src/asset.rs:774-782 | one pass keeps what has not expired, in order, and sums up the rest |
| AssetLedgers.AssetLedger.BuildFrozen | crates/tron-actuator/src/asset.rs:449-464 | the loop builds all entries, never goes below zero and ends with the liquid part |
| AssetLedgers.CheckFrozen | crates/tron-actuator/src/asset.rs:322-379 | the countdown accepts exactly the lists of positive, timely parts that fit the supply |
| Decimals.DecimalRoundTrip | crates/tron-actuator/src/asset.rs:841-847 | parsing a token id's decimal key gives the id back |
| Accounts.RunKeepsIndexes | crates/tron-actuator/src/account.rs:50-207 | over every run without name updates, both indexes stay the inverse of the accounts' own fields |
| Accounts.StepKeepsIndexes | crates/tron-actuator/src/account.rs:50-207 | every step keeps the id index, and the name index while names cannot be updated |
| Accounts.RenamedExact | crates/tron-actuator/src/account.rs:127-167 | a rename keeps the name index exact if and only if it takes no name away from its index entry |
| Accounts.RenameBreaksIndex | crates/tron-actuator/src/account.rs:127-167 | a validated rename from an exact state that leaves a stale entry |
| Accounts.RenameStealsName | crates/tron-actuator/src/account.rs:127-167 | a validated rename from an exact state after which two accounts have one name |
| Accounts.NoSharedNames | crates/tron-chainbase/src/stores/account_id_index_store.rs:36-50 | no two accounts share a non-empty name, or an id up to the case of its letters |
| Accounts.LowerEqual | crates/tron-chainbase/src/stores/account_id_index_store.rs:36-50 | two ids have one key if and only if they agree byte by byte up to the case of ASCII letters, and no key has a letter in upper case |
| Accounts.SetIdSucceeds | crates/tron-actuator/src/account.rs:173-207 | in an exact state an id can be set if and only if it is well formed, the account has none, and nobody has it in any mixture of cases |
| Accounts.CreateSucceeds | crates/tron-actuator/src/account.rs:50-121 | exactly which accounts can be created at whose expense |
| Accounts.RenameSucceeds | crates/tron-actuator/src/account.rs:127-167 | exactly which renames go through, and that without name updates nobody has the new name |
| Accounts.SetPermissionsSucceeds | crates/tron-actuator/src/account.rs:240-451 | exactly which permission updates go through, a balance below zero included |
| Accounts.RunKeepsPermissions | crates/tron-actuator/src/account.rs:240-482 | over every run under changing parameters, each updated account's permissions are sound under the parameters of its latest update |
| Accounts.UpdatedAccountSound | crates/tron-actuator/src/account.rs:431-482 | a validated update leaves forced ids and only sound permissions |
| Accounts.IdsDistinct | crates/tron-actuator/src/account.rs:452-474 | the permission ids of an updated account are pairwise distinct |
| Accounts.SoundWithinBounds | crates/tron-actuator/src/account.rs:240-380 | the bounds on permissions, keys, names and parents that an updated account is held to |
| Accounts.CreateFeeConserved | crates/tron-actuator/src/account.rs:78-121 | creating an account loses no TRX exactly when its fee can be disposed of |
| Accounts.PermissionFeeConserved | crates/tron-actuator/src/account.rs:431-451 | a permission update loses no TRX exactly when its fee can be disposed of and the payer is not the account credited |
| Accounts.BlackholeUpdateLosesFee | crates/tron-actuator/src/account.rs:431-451 | a validated permission update by the blackhole account that loses exactly its fee |
| Accounts.AccountStores.CreateAccount | crates/tron-actuator/src/account.rs:50-121 | validation and execution in place are the specified step, and success is reported exactly when it takes effect |
| Accounts.AccountStores.UpdateAccount | crates/tron-actuator/src/account.rs:127-167 | validation and execution in place are the specified step, and success is reported exactly when it takes effect |
| Accounts.AccountStores.SetAccountId | crates/tron-actuator/src/account.rs:173-207 | validation and execution in place are the specified step, and success is reported exactly when it takes effect |
| Accounts.AccountStores.UpdatePermissions | crates/tron-actuator/src/account.rs:240-482 | validation and execution in place are the specified step, and success is reported exactly when it takes effect |
| Accounts.CheckUpdate | crates/tron-actuator/src/account.rs:240-309 | accepts exactly the sound updates |
| Permissions.CheckPermission | crates/tron-actuator/src/account.rs:312-415 | accepts exactly the sound permissions |
| Permissions.SignersSuffice | crates/tron-actuator/src/account.rs:355-380 | sound permissions can be used: every key is another signer of positive weight, and all signers together, each counted once, reach the threshold without overflow |
| Permissions.CheckKeys | crates/tron-actuator/src/account.rs:355-380 | the loop accepts exactly distinct valid keys of positive weight whose exact sum reaches the threshold and fits 64 bits |
| Permissions.CheckOperations | crates/tron-actuator/src/account.rs:382-415 | the byte loop accepts exactly bitmaps whose contract types are all available |
| AuthLists.DelegationJournal.ApplyAuthList | crates/revm-handler/src/pre_execution.rs:248-315 | account refunds are accepted entries less the distinct accepted authorities that did not exist; bytecode refunds are the accepted entries that did not turn empty code into a designation; every authority ends with its latest designation |
| AuthLists.NoncesConsecutive | crates/revm-handler/src/pre_execution.rs:289-311 | the accepted nonces of every authority are consecutive from the nonce it had |
| AuthLists.NoReplay | crates/revm-handler/src/pre_execution.rs:289-311 | no authority and nonce are accepted twice |

## Left out

- Code loops without bound: a frame's code is a finite tree, so a contract that never stops is not modelled; gas ends it in the node.
- SELFDESTRUCT, touch marks, read kinds, legacy row keys and written-slot logs of the journal; warm marks of the frame machine.
- Opcode bodies: each is its gas charges, at most one journaled effect, and a choice of what comes next.
- The memory limit is a plain byte limit for each frame; the buffer shared between parent and child is one buffer a frame.
- Database errors inside the loop appear only through `CatchError`; FatalExternalError, which aborts outside the loop, cannot end a frame here.
- Writes outside memory in `Write`: they are undefined in the source; the laws prove that they do not happen.
- Journals.Journal.CheckpointRevert: is about the node after the energy-limit fork; the storage that frames shared before it is modelled apart, in `SharedStorage`, and not joined to the frame machine.
- Evms.Evm.MakeCreateFrame: does not model CreateScheme::Custom, which skips creation nonce and taken test, because nothing in the repository builds such a request.
- Energy.TronCharge, the function, multiplies without a bound: for a factor among the 9999 largest and an opcode whose raw total exceeds 64 bits the node's product wraps, and `GasMeters.GasMeter.TronCharge` promises nothing.
- Transactions.Transact: deducts and pays on the slots before and after the frame machine's journal, so undoing the deduction after a database error is not modelled; which authorizations are accepted is a parameter, and `AuthLists` is about them.
- AssetLaws.ParticipatePricesToken: is about the state after the switch only; before it the store is keyed by the name itself.
- Refund counters are summed in unbounded integers and reduced modulo 2^64 at settlement, as wrap-around would.
- The remaining format checks of an asset issue (precision, abbreviation, url, description, net limits) are one flag; which error a refused validation reports is not modelled.
- Names and ids are byte or character strings that are valid UTF-8; lossy decoding of other byte strings is not modelled.
- Default permissions of a newly created account, and accounts whose assets live in the account-asset store.
- UpdateAsset, deferred transactions, resource and contract-administration actuators: one-step edits.
- Signature recovery, address hashing, precompile bodies, blob price calculation and intrinsic-gas tables are parameters.
- Hardfork gates on transaction types, chain id, nonce and code checks of validation, and the mapping to halt reasons.
