/**
 The journaled world state: an undo log with checkpoints, proved to behave like a
 stack of whole-state snapshots.

 A world is a finite map from slots to positive values (a missing slot reads 0) and
 the list of emitted logs. Touch and warm marks, which only steer gas and pruning,
 are not part of the world.
 */
module Journals {
  import opened Words
  import Sums

  type Address = nat
  type Positive = x: int | x > 0 witness 1

  datatype Slot =
    | Balance(owner: Address)
    | Nonce(owner: Address)
    | CodeOf(owner: Address)
    | Created(owner: Address)
    | Storage(owner: Address, key: nat)
    | Transient(owner: Address, key: nat)

  type Slots = map<Slot, Positive>

  datatype World = World(slots: Slots, logs: seq<nat>)

  function Get(m: Slots, s: Slot): nat { if s in m then m[s] else 0 }

  function Put(m: Slots, s: Slot, v: nat): Slots { if v == 0 then m - {s} else m[s := v] }

  /** `JournalEntry`: what `checkpoint_revert` is given to work with. */
  datatype Entry =
    | BalanceTransfer(from: Address, to: Address, amount: nat)
    | NonceBump(who: Address)
    | AccountCreated(who: Address)
    | StorageChanged(who: Address, key: nat, had: nat)
    | TransientChanged(who: Address, key: nat, had: nat)
    | CodeChange(who: Address)

  /** `JournalEntry::revert`. Three entries do not carry the old value: a transfer is
      run backwards, a creation resets nonce and mark, a code change empties the code. */
  function Undo(e: Entry, m: Slots): Slots {
    match e
    case BalanceTransfer(from, to, amount) =>
      var m1 := Put(m, Balance(from), Get(m, Balance(from)) + amount);
      Put(m1, Balance(to), Max(Get(m1, Balance(to)) - amount, 0))
    case NonceBump(who) => Put(m, Nonce(who), Max(Get(m, Nonce(who)) - 1, 0))
    case AccountCreated(who) => Put(Put(m, Created(who), 0), Nonce(who), 0)
    case StorageChanged(who, key, had) => Put(m, Storage(who, key), had)
    case TransientChanged(who, key, had) => Put(m, Transient(who, key), had)
    case CodeChange(who) => Put(m, CodeOf(who), 0)
  }

  /** Undoes a stretch of the log, newest entry first. */
  function UndoAll(es: seq<Entry>, m: Slots): Slots
    decreases |es|
  {
    if es == [] then m else UndoAll(es[..|es| - 1], Undo(es[|es| - 1], m))
  }

  lemma {:induction false} UndoAllSplit(es: seq<Entry>, fs: seq<Entry>, m: Slots)
    ensures UndoAll(es + fs, m) == UndoAll(es, UndoAll(fs, m))
    decreases |fs|
  {
    if fs == [] {
      assert es + fs == es;
    } else {
      var n := |fs| - 1;
      assert (es + fs)[..|es + fs| - 1] == es + fs[..n];
      UndoAllSplit(es, fs[..n], Undo(fs[n], m));
    }
  }

  /** The entries that `Δ` appended take the new slots back to the old ones. */
  datatype Delta = Delta(slots: Slots, entries: seq<Entry>)

  ghost predicate Reversible(m: Slots, d: Delta) { UndoAll(d.entries, d.slots) == m }

  /** Prefix form: whatever an open checkpoint could restore, it can still restore. */
  lemma ReversibleExtends(es: seq<Entry>, m: Slots, d: Delta)
    requires Reversible(m, d)
    ensures UndoAll(es + d.entries, d.slots) == UndoAll(es, m)
  {
    UndoAllSplit(es, d.entries, d.slots);
  }

  // ---------------------------------------------------------------------------
  // Operations: the new slots, and the entries they append
  // ---------------------------------------------------------------------------

  datatype TransferResult = Moved | OutOfFunds | OverflowPayment

  /** `JournalInner::transfer_loaded`. On overflow the sender stays debited and no
      entry is written, so that outcome alone cannot be undone. */
  function Transfer(m: Slots, from: Address, to: Address, amount: nat): (TransferResult, Delta) {
    var held := Get(m, Balance(from));
    if from == to then (if amount > held then OutOfFunds else Moved, Delta(m, []))
    else if amount == 0 then (Moved, Delta(m, []))
    else if held < amount then (OutOfFunds, Delta(m, []))
    else
      var m1 := Put(m, Balance(from), held - amount);
      var there := Get(m1, Balance(to));
      if there + amount > U256_MAX then (OverflowPayment, Delta(m1, []))
      else (Moved, Delta(Put(m1, Balance(to), there + amount), [BalanceTransfer(from, to, amount)]))
  }

  /** `JournaledAccount::sstore_concrete_error`: a zero-to-zero write is logged too. */
  function SStore(m: Slots, who: Address, key: nat, value: nat): Delta {
    var present := Get(m, Storage(who, key));
    if present != value || (present == 0 && value == 0)
    then Delta(Put(m, Storage(who, key), value), [StorageChanged(who, key, present)])
    else Delta(m, [])
  }

  function TStore(m: Slots, who: Address, key: nat, value: nat): Delta {
    var present := Get(m, Transient(who, key));
    if present != value
    then Delta(Put(m, Transient(who, key), value), [TransientChanged(who, key, present)])
    else Delta(m, [])
  }

  /** `JournaledAccount::bump_nonce`; nothing happens at the maximum nonce. */
  function BumpNonce(m: Slots, who: Address): Delta {
    var nonce := Get(m, Nonce(who));
    if nonce == U64_MAX then Delta(m, [])
    else Delta(Put(m, Nonce(who), nonce + 1), [NonceBump(who)])
  }

  /** `JournalInner::set_code` */
  function SetCode(m: Slots, who: Address, code: nat): Delta {
    Delta(Put(m, CodeOf(who), code), [CodeChange(who)])
  }

  /** The part of `JournalInner::create_account_checkpoint` that follows the checkpoint.
      None is a collision or an overflow, after which the checkpoint has been reverted. */
  function CreateAccount(m: Slots, caller: Address, target: Address, amount: nat, spurious: bool): Option<Delta> {
    if Get(m, CodeOf(target)) != 0 || Get(m, Nonce(target)) != 0 then None
    else
      var m1 := Put(m, Created(target), 1);
      var m2 := if spurious then Put(m1, Nonce(target), 1) else m1;
      if amount == 0 then Some(Delta(m2, [AccountCreated(target)]))
      else if Get(m2, Balance(target)) + amount > U256_MAX then None
      else
        var m3 := Put(m2, Balance(target), Get(m2, Balance(target)) + amount);
        Some(Delta(Put(m3, Balance(caller), Max(Get(m3, Balance(caller)) - amount, 0)),
                   [AccountCreated(target), BalanceTransfer(caller, target, amount)]))
  }

  // ---------------------------------------------------------------------------
  // Each operation can be undone
  // ---------------------------------------------------------------------------

  lemma UndoOne(e: Entry, m: Slots)
    ensures UndoAll([e], m) == Undo(e, m)
  {
    assert [e][..0] == [];
  }

  lemma UndoTwo(e: Entry, f: Entry, m: Slots)
    ensures UndoAll([e, f], m) == Undo(e, Undo(f, m))
  {
    assert [e, f][..1] == [e];
    UndoOne(e, Undo(f, m));
  }

  lemma PutBack(m: Slots, s: Slot, v: nat)
    ensures Put(Put(m, s, v), s, Get(m, s)) == m
  {
  }

  /** What a transfer means: it fails for lack of funds exactly when there is such a lack, for
      overflow exactly when another account's balance would, and otherwise moves the amount from
      one balance to the other and touches nothing else. */
  lemma TransferMoves(m: Slots, from: Address, to: Address, amount: nat)
    ensures var (r, d) := Transfer(m, from, to, amount);
            && (r.OutOfFunds? <==> Get(m, Balance(from)) < amount)
            && (r.OutOfFunds? ==> d.slots == m)
            && (r.OverflowPayment? <==> from != to && 0 < amount <= Get(m, Balance(from))
                                        && Get(m, Balance(to)) + amount > U256_MAX)
            && (r.Moved? && from != to ==>
                  && Get(d.slots, Balance(from)) == Get(m, Balance(from)) - amount
                  && Get(d.slots, Balance(to)) == Get(m, Balance(to)) + amount)
            && (r.Moved? && from == to ==> d.slots == m)
            && forall s | s != Balance(from) && s != Balance(to) :: Get(d.slots, s) == Get(m, s)
  {
  }

  /** When an account can be made: no code, no nonce, and room for the endowment. */
  lemma CreateFails(m: Slots, caller: Address, target: Address, amount: nat, spurious: bool)
    ensures CreateAccount(m, caller, target, amount, spurious).None?
            <==> || Get(m, CodeOf(target)) > 0 || Get(m, Nonce(target)) > 0
                 || (amount > 0 && Get(m, Balance(target)) + amount > U256_MAX)
  {
  }

  /** What a creation means: the new account is marked, endowed by its creator and, from
      SPURIOUS_DRAGON on, starts at nonce 1; nothing else changes. */
  lemma CreateMoves(m: Slots, caller: Address, target: Address, amount: nat, spurious: bool)
    requires CreateAccount(m, caller, target, amount, spurious).Some?
    requires caller != target && amount <= Get(m, Balance(caller))
    ensures var d := CreateAccount(m, caller, target, amount, spurious).value;
            && Get(d.slots, Created(target)) == 1 && Get(d.slots, CodeOf(target)) == 0
            && Get(d.slots, Nonce(target)) == (if spurious then 1 else 0)
            && Get(d.slots, Balance(target)) == Get(m, Balance(target)) + amount
            && Get(d.slots, Balance(caller)) == Get(m, Balance(caller)) - amount
            && forall s | s !in {Created(target), Nonce(target), Balance(target), Balance(caller)} ::
                 Get(d.slots, s) == Get(m, s)
  {
  }

  /** A transfer can be undone exactly when it does not overflow the recipient. */
  lemma TransferReversible(m: Slots, from: Address, to: Address, amount: nat)
    ensures Reversible(m, Transfer(m, from, to, amount).1)
            <==> Transfer(m, from, to, amount).0 != OverflowPayment
  {
    var (r, d) := Transfer(m, from, to, amount);
    if r == Moved && d.entries != [] {
      UndoOne(d.entries[0], d.slots);
      var u1 := Put(d.slots, Balance(from), Get(m, Balance(from)));
      assert u1 == Put(m, Balance(to), Get(m, Balance(to)) + amount);
      PutBack(m, Balance(to), Get(m, Balance(to)) + amount);
    } else if r == OverflowPayment {
      assert Get(d.slots, Balance(from)) != Get(m, Balance(from));
    }
  }

  lemma StoreReversible(m: Slots, who: Address, key: nat, value: nat)
    ensures Reversible(m, SStore(m, who, key, value))
    ensures Reversible(m, TStore(m, who, key, value))
  {
    PutBack(m, Storage(who, key), value);
    PutBack(m, Transient(who, key), value);
  }

  lemma BumpReversible(m: Slots, who: Address)
    ensures Reversible(m, BumpNonce(m, who))
  {
    PutBack(m, Nonce(who), Get(m, Nonce(who)) + 1);
  }

  /** Undoing a code change empties the code, which is right exactly when the account
      had none: a created contract does, a re-delegated account does not. */
  lemma SetCodeReversible(m: Slots, who: Address, code: nat)
    ensures Reversible(m, SetCode(m, who, code)) <==> Get(m, CodeOf(who)) == 0
  {
    var d := SetCode(m, who, code);
    UndoOne(d.entries[0], d.slots);
    if Get(m, CodeOf(who)) != 0 { assert Get(Undo(d.entries[0], d.slots), CodeOf(who)) == 0; }
  }

  function Marked(m: Slots, target: Address, spurious: bool): Slots {
    if spurious then Put(Put(m, Created(target), 1), Nonce(target), 1) else Put(m, Created(target), 1)
  }

  lemma MarkedUndone(m: Slots, target: Address, spurious: bool)
    requires Get(m, Nonce(target)) == 0
    ensures Undo(AccountCreated(target), Marked(m, target, spurious)) == m <==> Get(m, Created(target)) == 0
  {
    var back := Undo(AccountCreated(target), Marked(m, target, spurious));
    if Get(m, Created(target)) != 0 { assert Get(back, Created(target)) == 0; }
  }

  /** A creation can be undone if and only if the account was not already marked as
      created in this transaction; `amount` must be covered, as `make_create_frame` checks. */
  lemma CreateReversible(m: Slots, caller: Address, target: Address, amount: nat, spurious: bool)
    requires CreateAccount(m, caller, target, amount, spurious).Some?
    requires caller != target && amount <= Get(m, Balance(caller))
    ensures Reversible(m, CreateAccount(m, caller, target, amount, spurious).value)
            <==> Get(m, Created(target)) == 0
  {
    var d := CreateAccount(m, caller, target, amount, spurious).value;
    var m2 := Marked(m, target, spurious);
    if amount == 0 {
      UndoOne(d.entries[0], d.slots);
    } else {
      UndoTwo(d.entries[0], d.entries[1], d.slots);
      assert Undo(d.entries[1], d.slots) == m2;
    }
    MarkedUndone(m, target, spurious);
  }

  // ---------------------------------------------------------------------------
  // Supply: transfers and creations only move native value
  // ---------------------------------------------------------------------------

  ghost function BalanceSlots(m: Slots): set<Slot> { set s | s in m && s.Balance? }

  ghost function Supply(m: Slots): int { Sums.Sum(BalanceSlots(m), s => Get(m, s)) }

  /** Summing over more slots than are occupied changes nothing. */
  lemma SupplyOver(m: Slots, keys: set<Slot>)
    requires BalanceSlots(m) <= keys && forall s | s in keys :: s.Balance?
    ensures Supply(m) == Sums.Sum(keys, s => Get(m, s))
  {
    Sums.Widen(BalanceSlots(m), keys, s => Get(m, s));
  }

  lemma SupplyPut(m: Slots, s: Slot, v: nat)
    ensures Supply(Put(m, s, v)) == Supply(m) + (if s.Balance? then v - Get(m, s) else 0)
  {
    var m' := Put(m, s, v);
    var keys := BalanceSlots(m) + if s.Balance? then {s} else {};
    SupplyOver(m, keys);
    SupplyOver(m', keys);
    if s.Balance? {
      Sums.Change(keys, x => Get(m, x), x => Get(m', x), s);
    } else {
      Sums.Same(keys, x => Get(m, x), x => Get(m', x));
    }
  }

  lemma SupplyBounds(m: Slots, a: Address, b: Address)
    requires a != b
    ensures Get(m, Balance(a)) + Get(m, Balance(b)) <= Supply(m)
  {
    var keys := BalanceSlots(m) + {Balance(a), Balance(b)};
    SupplyOver(m, keys);
    Sums.Pair(keys, s => Get(m, s), Balance(a), Balance(b));
  }

  /** While the supply fits a u256 no transfer overflows, and every transfer keeps it. */
  lemma TransferKeepsSupply(m: Slots, from: Address, to: Address, amount: nat)
    requires Supply(m) <= U256_MAX
    ensures Transfer(m, from, to, amount).0 != OverflowPayment
    ensures Supply(Transfer(m, from, to, amount).1.slots) == Supply(m)
  {
    if from != to {
      SupplyBounds(m, from, to);
      var held := Get(m, Balance(from));
      if 0 < amount <= held {
        var m1 := Put(m, Balance(from), held - amount);
        SupplyPut(m, Balance(from), held - amount);
        SupplyPut(m1, Balance(to), Get(m1, Balance(to)) + amount);
      }
    }
  }

  /** A creation that fails does so because of a collision, never of an overflow. */
  lemma CreateKeepsSupply(m: Slots, caller: Address, target: Address, amount: nat, spurious: bool)
    requires Supply(m) <= U256_MAX && caller != target && amount <= Get(m, Balance(caller))
    ensures CreateAccount(m, caller, target, amount, spurious).None?
            <==> Get(m, CodeOf(target)) != 0 || Get(m, Nonce(target)) != 0
    ensures CreateAccount(m, caller, target, amount, spurious).Some? ==>
      Supply(CreateAccount(m, caller, target, amount, spurious).value.slots) == Supply(m)
  {
    SupplyBounds(m, caller, target);
    var m1 := Put(m, Created(target), 1);
    SupplyPut(m, Created(target), 1);
    SupplyPut(m1, Nonce(target), 1);
    var m2 := if spurious then Put(m1, Nonce(target), 1) else m1;
    var m3 := Put(m2, Balance(target), Get(m2, Balance(target)) + amount);
    SupplyPut(m2, Balance(target), Get(m2, Balance(target)) + amount);
    SupplyPut(m3, Balance(caller), Max(Get(m3, Balance(caller)) - amount, 0));
  }

  // ---------------------------------------------------------------------------
  // Operations issued by opcodes and precompiles
  // ---------------------------------------------------------------------------

  datatype Op =
    | Store(who: Address, key: nat, value: nat)
    | StoreTransient(who: Address, key: nat, value: nat)
    | Emit(log: nat)
    | Pay(from: Address, to: Address, amount: nat)

  function OpDelta(op: Op, m: Slots): Delta {
    match op
    case Store(who, key, value) => SStore(m, who, key, value)
    case StoreTransient(who, key, value) => TStore(m, who, key, value)
    case Emit(_) => Delta(m, [])
    case Pay(from, to, amount) => Transfer(m, from, to, amount).1
  }

  function Apply(op: Op, w: World): World {
    World(OpDelta(op, w.slots).slots, if op.Emit? then w.logs + [op.log] else w.logs)
  }

  /** What an operation means: a write sets one slot, a log is appended, a payment moves an amount
      that is there, and nothing else changes. */
  lemma ApplyDoes(op: Op, w: World)
    ensures var w1 := Apply(op, w);
            && (op.Emit? ==> w1 == World(w.slots, w.logs + [op.log]))
            && (!op.Emit? ==> w1.logs == w.logs)
            && (op.Store? ==> forall s :: Get(w1.slots, s) == if s == Storage(op.who, op.key) then op.value else Get(w.slots, s))
            && (op.StoreTransient? ==>
                  forall s :: Get(w1.slots, s) == if s == Transient(op.who, op.key) then op.value else Get(w.slots, s))
            && (op.Pay? && op.from != op.to && op.amount <= Get(w.slots, Balance(op.from))
                && Get(w.slots, Balance(op.to)) + op.amount <= U256_MAX ==>
                  forall s :: Get(w1.slots, s) == Get(w.slots, s) + (if s == Balance(op.to) then op.amount else 0)
                                                  - (if s == Balance(op.from) then op.amount else 0))
            && (op.Pay? && Get(w.slots, Balance(op.from)) < op.amount ==> w1 == w)
  {
    if op.Pay? { TransferMoves(w.slots, op.from, op.to, op.amount); }
  }

  /** Which writes are logged: those that change the value, and of storage, not of transient
      storage, those from zero to zero. */
  lemma StoresLogged(m: Slots, who: Address, key: nat, value: nat)
    ensures |SStore(m, who, key, value).entries| == 0 <==> Get(m, Storage(who, key)) == value > 0
    ensures |TStore(m, who, key, value).entries| == 0 <==> Get(m, Transient(who, key)) == value
    ensures SStore(m, who, key, value).entries <= [StorageChanged(who, key, Get(m, Storage(who, key)))]
    ensures TStore(m, who, key, value).entries <= [TransientChanged(who, key, Get(m, Transient(who, key)))]
  {
  }

  lemma OpSound(op: Op, m: Slots)
    requires Supply(m) <= U256_MAX
    ensures Reversible(m, OpDelta(op, m)) && Supply(OpDelta(op, m).slots) == Supply(m)
  {
    match op
    case Store(who, key, value) =>
      StoreReversible(m, who, key, value);
      SupplyPut(m, Storage(who, key), value);
    case StoreTransient(who, key, value) =>
      StoreReversible(m, who, key, value);
      SupplyPut(m, Transient(who, key), value);
    case Emit(_) =>
    case Pay(from, to, amount) =>
      TransferKeepsSupply(m, from, to, amount);
      TransferReversible(m, from, to, amount);
  }

  function ApplyAll(ops: seq<Op>, w: World): World
    decreases |ops|
  {
    if ops == [] then w else ApplyAll(ops[1..], Apply(ops[0], w))
  }

  // ---------------------------------------------------------------------------
  // The journal
  // ---------------------------------------------------------------------------

  /** `JournalCheckpoint`: lengths of the undo log and of the log list. */
  datatype Mark = Mark(journalI: nat, logI: nat)

  /** `snap` is what reverting to `mark` would bring back. */
  ghost predicate Restores(mark: Mark, snap: World, slots: Slots, logs: seq<nat>, entries: seq<Entry>) {
    && mark.journalI <= |entries| && mark.logI <= |logs|
    && logs[..mark.logI] == snap.logs
    && UndoAll(entries[mark.journalI..], slots) == snap.slots
    && Supply(snap.slots) == Supply(slots)
  }

  lemma RestoresAfter(mark: Mark, snap: World, slots: Slots, logs: seq<nat>, entries: seq<Entry>,
                      d: Delta, more: seq<nat>)
    requires Restores(mark, snap, slots, logs, entries)
    requires Reversible(slots, d) && Supply(d.slots) == Supply(slots)
    ensures Restores(mark, snap, d.slots, logs + more, entries + d.entries)
  {
    ReversibleExtends(entries[mark.journalI..], slots, d);
    assert (entries + d.entries)[mark.journalI..] == entries[mark.journalI..] + d.entries;
    assert (logs + more)[..mark.logI] == logs[..mark.logI];
  }

  /** An outer checkpoint can still be restored after going back to an inner one. */
  lemma RestoresBefore(outer: Mark, snap: World, mark: Mark, inner: World, slots: Slots, logs: seq<nat>, entries: seq<Entry>)
    requires Restores(outer, snap, slots, logs, entries) && Restores(mark, inner, slots, logs, entries)
    requires outer.journalI <= mark.journalI && outer.logI <= mark.logI
    ensures Restores(outer, snap, inner.slots, logs[..mark.logI], entries[..mark.journalI])
  {
    var i, j := outer.journalI, mark.journalI;
    assert entries[i..] == entries[i..j] + entries[j..];
    UndoAllSplit(entries[i..j], entries[j..], slots);
    assert entries[..j][i..] == entries[i..j];
    assert logs[..mark.logI][..outer.logI] == logs[..outer.logI];
  }

  /** Transient storage lasts for one transaction. */
  function Durable(m: Slots): Slots { map s | s in m && !s.Transient? :: m[s] }

  class Journal {
    ghost const base: Slots // what the transaction started from
    var slots: Slots
    var logs: seq<nat>
    var entries: seq<Entry>
    var depth: nat
    var transferFailed: bool
    ghost var snaps: seq<World>      // the world at each open checkpoint, outermost first
    ghost var marks: seq<Mark> // and the checkpoint itself

    ghost predicate Valid()
      reads this
    {
      && depth == |snaps| == |marks|
      && Supply(slots) <= U256_MAX
      && Restores(Mark(0, 0), World(base, []), slots, logs, entries)
      && (forall i {:trigger Restores(marks[i], snaps[i], slots, logs, entries)} | 0 <= i < |marks| ::
            Restores(marks[i], snaps[i], slots, logs, entries))
      && (forall i, j | 0 <= i <= j < |marks| ::
            marks[i].journalI <= marks[j].journalI && marks[i].logI <= marks[j].logI)
    }

    function Now(): World
      reads this
    {
      World(slots, logs)
    }

    constructor (world: World)
      requires Supply(world.slots) <= U256_MAX
      ensures Valid() && Now() == world && base == world.slots && snaps == [] && !transferFailed
    {
      base := world.slots;
      slots, logs, entries, depth, transferFailed := world.slots, world.logs, [], 0, false;
      snaps, marks := [], [];
    }

    method Checkpoint() returns (mark: Mark)
      requires Valid()
      modifies this
      ensures Valid() && Now() == old(Now()) && transferFailed == old(transferFailed)
      ensures snaps == old(snaps) + [old(Now())] && marks == old(marks) + [mark]
    {
      mark := Mark(|entries|, |logs|);
      depth := depth + 1;
      snaps := snaps + [Now()];
      marks := marks + [mark];
      assert entries[|entries|..] == [] && logs[..|logs|] == logs;
      forall i | 0 <= i < depth ensures Restores(marks[i], snaps[i], slots, logs, entries) {
        if i < depth - 1 { assert Restores(old(marks)[i], old(snaps)[i], slots, logs, entries); }
      }
    }

    method CheckpointCommit()
      requires Valid() && depth > 0
      modifies this
      ensures Valid() && Now() == old(Now()) && transferFailed == old(transferFailed)
      ensures snaps == old(snaps)[..old(depth) - 1] && marks == old(marks)[..old(depth) - 1]
    {
      depth := depth - 1;
      snaps := snaps[..depth];
      marks := marks[..depth];
      forall i | 0 <= i < depth ensures Restores(marks[i], snaps[i], slots, logs, entries) {
        assert Restores(old(marks)[i], old(snaps)[i], slots, logs, entries);
      }
    }

    /** Undoes and drops the log's entries down to length `n`. */
    method Drain(n: nat)
      requires n <= |entries|
      modifies this`entries, this`slots
      ensures entries == old(entries)[..n] && slots == UndoAll(old(entries)[n..], old(slots))
    {
      while |entries| > n
        invariant n <= |entries| <= |old(entries)| && entries == old(entries)[..|entries|]
        invariant UndoAll(entries[n..], slots) == UndoAll(old(entries)[n..], old(slots))
      {
        var last := |entries| - 1;
        assert entries[n..][..last - n] == entries[..last][n..];
        slots := Undo(entries[last], slots);
        entries := entries[..last];
      }
      assert entries[n..] == [];
    }

    /** Draining the undo log gives back the snapshot taken at the checkpoint. */
    method CheckpointRevert(mark: Mark)
      requires Valid() && depth > 0 && mark == marks[depth - 1]
      modifies this
      ensures Valid() && Now() == old(snaps[depth - 1]) && transferFailed == old(transferFailed)
      ensures snaps == old(snaps)[..old(depth) - 1] && marks == old(marks)[..old(depth) - 1]
    {
      ghost var entries0, slots0, logs0 := entries, slots, logs;
      ghost var snap := snaps[depth - 1];
      assert Restores(marks[depth - 1], snaps[depth - 1], slots, logs, entries);
      depth := depth - 1;
      logs := logs[..mark.logI];
      Drain(mark.journalI);
      snaps := snaps[..depth];
      marks := marks[..depth];
      RestoresBefore(Mark(0, 0), World(base, []), mark, snap, slots0, logs0, entries0);
      forall i | 0 <= i < depth
        ensures Restores(marks[i], snaps[i], slots, logs, entries)
      {
        assert Restores(old(marks)[i], old(snaps)[i], slots0, logs0, entries0);
        RestoresBefore(marks[i], snaps[i], mark, snap, slots0, logs0, entries0);
      }
    }

    /** Makes a journaled change; every open checkpoint can still be restored. */
    method Record(d: Delta, more: seq<nat>)
      requires Valid() && Reversible(slots, d) && Supply(d.slots) == Supply(slots)
      modifies this
      ensures Valid() && Now() == World(d.slots, old(logs) + more)
      ensures snaps == old(snaps) && marks == old(marks) && transferFailed == old(transferFailed)
    {
      RestoresAfter(Mark(0, 0), World(base, []), slots, logs, entries, d, more);
      forall i | 0 <= i < |marks|
        ensures Restores(marks[i], snaps[i], d.slots, logs + more, entries + d.entries)
      {
        RestoresAfter(marks[i], snaps[i], slots, logs, entries, d, more);
      }
      slots := d.slots;
      entries := entries + d.entries;
      logs := logs + more;
    }

    method Perform(op: Op)
      requires Valid()
      modifies this
      ensures Valid() && Now() == Apply(op, old(Now()))
      ensures snaps == old(snaps) && marks == old(marks) && transferFailed == old(transferFailed)
    {
      OpSound(op, slots);
      Record(OpDelta(op, slots), if op.Emit? then [op.log] else []);
    }

    /** `create_account_checkpoint`: None leaves no checkpoint open. */
    method CreateAccountCheckpoint(caller: Address, target: Address, amount: nat, spurious: bool)
      returns (mark: Option<Mark>)
      requires Valid() && caller != target && amount <= Get(slots, Balance(caller))
      requires Get(slots, Created(target)) == 0
      modifies this
      ensures Valid() && transferFailed == old(transferFailed)
      ensures mark.Some? <==> CreateAccount(old(slots), caller, target, amount, spurious).Some?
      ensures mark.None? ==> Now() == old(Now()) && snaps == old(snaps) && marks == old(marks)
      ensures mark.Some? ==>
        && Now() == World(CreateAccount(old(slots), caller, target, amount, spurious).value.slots, old(logs))
        && snaps == old(snaps) + [old(Now())] && marks == old(marks) + [mark.value]
    {
      var m := Checkpoint();
      var created := CreateAccount(slots, caller, target, amount, spurious);
      if created.None? {
        CheckpointRevert(m);
        mark := None;
      } else {
        CreateReversible(slots, caller, target, amount, spurious);
        CreateKeepsSupply(slots, caller, target, amount, spurious);
        Record(created.value, []);
        mark := Some(m);
      }
    }

    method MarkTransferFailed()
      requires Valid()
      modifies this
      ensures Valid() && transferFailed && Now() == old(Now()) && snaps == old(snaps) && marks == old(marks)
    {
      transferFailed := true;
    }

    /** `discard_tx`, at whatever point: nothing the transaction did is left. */
    method DiscardTx()
      requires Valid()
      modifies this
      ensures slots == Durable(base) && logs == [] && entries == [] && depth == 0
      ensures snaps == [] && marks == [] && transferFailed == old(transferFailed)
    {
      Drain(0);
      slots := Durable(slots);
      logs, depth, snaps, marks := [], 0, [], [];
    }

    method PerformAll(ops: seq<Op>)
      requires Valid()
      modifies this
      ensures Valid() && Now() == ApplyAll(ops, old(Now()))
      ensures snaps == old(snaps) && marks == old(marks) && transferFailed == old(transferFailed)
    {
      var i := 0;
      while i < |ops|
        invariant 0 <= i <= |ops| && Valid()
        invariant ApplyAll(ops[i..], Now()) == ApplyAll(ops, old(Now()))
        invariant snaps == old(snaps) && marks == old(marks) && transferFailed == old(transferFailed)
      {
        assert ops[i..][1..] == ops[i + 1..];
        Perform(ops[i]);
        i := i + 1;
      }
    }
  }
}
