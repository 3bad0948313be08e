/**
 TRX in the asset actuators: who pays, where fees go, and when nothing is lost.
 */
module AssetTrx {
  import opened Words
  import opened Assets
  import opened AssetLaws
  import Sums

  ghost function BalanceOf(s: State): Address -> int { x => if x in s.accounts then s.accounts[x].balance else 0 }

  /** All TRX, burned TRX included. */
  ghost function Trx(s: State): int { Sums.Sum(s.accounts.Keys, BalanceOf(s)) + s.burned }

  function Put(s: State, x: Address, a: Account): State { s.(accounts := s.accounts[x := a]) }

  lemma TrxPut(s: State, x: Address, a: Account)
    ensures Trx(Put(s, x, a)) == Trx(s) - BalanceOf(s)(x) + a.balance
  {
    var t := Put(s, x, a);
    var keys := t.accounts.Keys;
    Sums.Widen(s.accounts.Keys, keys, BalanceOf(s));
    Sums.Change(keys, BalanceOf(s), BalanceOf(t), x);
  }

  lemma TrxSame(s: State, t: State)
    requires s.accounts == t.accounts && s.burned == t.burned
    ensures Trx(s) == Trx(t)
  {
    Sums.Same(s.accounts.Keys, BalanceOf(s), BalanceOf(t));
  }

  // ---------------------------------------------------------------------------
  // Fees
  // ---------------------------------------------------------------------------

  /** The burn counter, or an account other than the payer, can take the fee. */
  predicate FeeKept(s: State, fee: I64, payer: Address, props: Props) {
    || fee == 0
    || (props.burns && I64_MIN <= s.burned + fee <= I64_MAX)
    || (!props.burns && props.blackhole in s.accounts && props.blackhole != payer
        && I64_MIN <= s.accounts[props.blackhole].balance + fee <= I64_MAX)
  }

  /** Disposing of a fee and then writing back a copy of the payer, taken before, loses no TRX
      if and only if somebody else can take the fee. */
  lemma PayerWritten(s: State, fee: I64, payer: Address, a: Account, props: Props)
    requires payer in s.accounts && a.balance == s.accounts[payer].balance - fee
    ensures Trx(Put(Dispose(s, fee, props), payer, a)) == Trx(s) <==> FeeKept(s, fee, payer, props)
  {
    var paid := Dispose(s, fee, props);
    TrxPut(paid, payer, a);
    if fee != 0 && props.burns {
      TrxSame(s, paid.(burned := s.burned));
    } else if fee != 0 && props.blackhole in s.accounts {
      var hole := s.accounts[props.blackhole];
      TrxPut(s, props.blackhole, hole.(balance := WrapAdd(hole.balance, fee)));
    }
  }

  lemma TransferAccounts(s: State, owner: Address, to: Address, key: string, amount: I64, props: Props)
    returns (payer: Account, recipient: Account)
    requires owner in s.accounts && owner != to && Transfer(s, owner, to, key, amount, props).Some?
    ensures payer.balance == s.accounts[owner].balance - TransferFee(s, to, props)
    ensures recipient.balance == BalanceOf(s)(to)
    ensures Transfer(s, owner, to, key, amount, props).value
            == Put(Put(Dispose(s, TransferFee(s, to, props), props), owner, payer), to, recipient)
  {
    var a', b' := Debit(s.accounts[owner], s.reg, key, amount).value, Credit(Recipient(s, to), s.reg, key, amount).value;
    var left := CheckedSub(s.accounts[owner].balance, TransferFee(s, to, props)).value;
    TransferIs(s, owner, to, key, amount, props, a', b', left);
    payer, recipient := a'.(balance := left), b';
  }

  /** A transfer keeps all TRX if and only if the fee for a new recipient does. */
  lemma TransferFeeKept(s: State, owner: Address, to: Address, key: string, amount: I64, props: Props)
    requires owner in s.accounts && owner != to && Transfer(s, owner, to, key, amount, props).Some?
    ensures Trx(Transfer(s, owner, to, key, amount, props).value) == Trx(s)
            <==> FeeKept(s, TransferFee(s, to, props), owner, props)
  {
    var fee := TransferFee(s, to, props);
    var payer, recipient := TransferAccounts(s, owner, to, key, amount, props);
    PayerWritten(s, fee, owner, payer, props);
    var paid := Put(Dispose(s, fee, props), owner, payer);
    TrxPut(paid, to, recipient);
    assert BalanceOf(paid)(to) == BalanceOf(s)(to);
  }

  lemma IssueAccounts(s: State, c: Issue, props: Props) returns (issuer: Account)
    requires c.owner in s.accounts && IssueAsset(s, c, props).Some?
    ensures issuer.balance == s.accounts[c.owner].balance - props.issueFee
    ensures var t, paid := IssueAsset(s, c, props).value, Put(Dispose(s, props.issueFee, props), c.owner, issuer);
            t.accounts == paid.accounts && t.burned == paid.burned
  {
    var left := CheckedSub(s.accounts[c.owner].balance, props.issueFee).value;
    var liquid := c.supply - FrozenTotal(c.frozen);
    IssueIs(s, c, props, left, liquid);
    issuer := Issued(s.accounts[c.owner].(balance := left), c, s.tokenIdNum + 1, liquid, s.reg);
  }

  /** An issue keeps all TRX if and only if the fee does. */
  lemma IssueFeeKept(s: State, c: Issue, props: Props)
    requires c.owner in s.accounts && IssueAsset(s, c, props).Some?
    ensures Trx(IssueAsset(s, c, props).value) == Trx(s) <==> FeeKept(s, props.issueFee, c.owner, props)
  {
    var issuer := IssueAccounts(s, c, props);
    PayerWritten(s, props.issueFee, c.owner, issuer, props);
    TrxSame(IssueAsset(s, c, props).value, Put(Dispose(s, props.issueFee, props), c.owner, issuer));
  }

  lemma ParticipateKeepsTrx(s: State, owner: Address, to: Address, key: string, amount: I64)
    requires owner in s.accounts && to in s.accounts && owner != to
    requires LookupAsset(s, key).Some? && LookupAsset(s, key).value.trxNum > 0
    requires Participate(s, owner, to, key, amount).Some?
    ensures Trx(Participate(s, owner, to, key, amount).value) == Trx(s)
  {
    ParticipateDelivers(s, owner, to, key, amount);
    var t := Participate(s, owner, to, key, amount).value;
    TrxPut(s, owner, t.accounts[owner]);
    TrxPut(Put(s, owner, t.accounts[owner]), to, t.accounts[to]);
    TrxSame(t, Put(Put(s, owner, t.accounts[owner]), to, t.accounts[to]));
  }

  lemma UnfreezeKeepsTrx(s: State, owner: Address, now: I64)
    requires owner in s.accounts && Unfreeze(s, owner, now).Some?
    ensures Trx(Unfreeze(s, owner, now).value) == Trx(s)
  {
    var t := Unfreeze(s, owner, now).value;
    TrxPut(s, owner, t.accounts[owner]);
  }

  // ---------------------------------------------------------------------------
  // Runs
  // ---------------------------------------------------------------------------

  /** The fee of a step, and who pays it. */
  function FeeOf(act: Action, s: State, props: Props): I64 {
    match act
    case SendAsset(_, to, _, _) => TransferFee(s, to, props)
    case NewAsset(_) => props.issueFee
    case _ => 0
  }

  predicate PaidBy(act: Action, x: Address) {
    (act.SendAsset? && act.owner == x) || (act.NewAsset? && act.issue.owner == x)
  }

  /** A step that takes effect keeps all TRX if and only if its fee does. */
  lemma StepKeepsTrx(act: Action, s: State, props: Props, payer: Address)
    requires Validates(act, s, props) && Executes(act, s, props).Some?
    requires act.SendAsset? || act.NewAsset? ==> PaidBy(act, payer)
    ensures Trx(After(act, s, props)) == Trx(s) <==> FeeKept(s, FeeOf(act, s, props), payer, props)
  {
    match act
    case SendAsset(owner, to, key, amount) => TransferFeeKept(s, owner, to, key, amount, props);
    case NewAsset(c) => IssueFeeKept(s, c, props);
    case BuyAsset(owner, to, key, amount) => ParticipateKeepsTrx(s, owner, to, key, amount);
    case ThawAsset(owner) => UnfreezeKeepsTrx(s, owner, props.now);
    case SwitchFlag => TrxSame(s, Switch(s));
  }

  ghost predicate NoDebt(s: State) {
    (forall x | x in s.accounts :: s.accounts[x].balance >= 0) && s.burned >= 0
  }

  /** Nobody is in debt, and all TRX together fits one balance. */
  ghost predicate Solvent(s: State) { NoDebt(s) && Trx(s) <= I64_MAX }

  ghost predicate Keeps(s: State, t: State) { NoDebt(t) && Trx(t) == Trx(s) && s.accounts.Keys <= t.accounts.Keys }

  lemma PutNoDebt(s: State, x: Address, a: Account)
    requires NoDebt(s) && a.balance >= 0
    ensures NoDebt(Put(s, x, a)) && s.accounts.Keys <= Put(s, x, a).accounts.Keys
  {
  }

  lemma OneFits(s: State, x: Address)
    requires Solvent(s) && x in s.accounts
    ensures s.accounts[x].balance + s.burned <= I64_MAX
  {
    Sums.Split(s.accounts.Keys, BalanceOf(s), x);
    Sums.NonNegative(s.accounts.Keys - {x}, BalanceOf(s));
  }

  lemma TwoFit(s: State, x: Address, y: Address)
    requires Solvent(s) && x in s.accounts && y in s.accounts && x != y
    ensures s.accounts[x].balance + s.accounts[y].balance <= I64_MAX
  {
    Sums.Pair(s.accounts.Keys, BalanceOf(s), x, y);
  }

  /** Fees are not negative, and are burned or go to an account that does not pay any. */
  ghost predicate FeesGo(act: Action, s: State, props: Props) {
    && props.issueFee >= 0 && props.createFee >= 0
    && (props.burns || (props.blackhole in s.accounts && !PaidBy(act, props.blackhole)))
  }

  lemma SolventFeeKept(s: State, fee: I64, payer: Address, props: Props)
    requires Solvent(s) && payer in s.accounts && 0 <= fee <= s.accounts[payer].balance
    requires props.burns || (props.blackhole in s.accounts && props.blackhole != payer)
    ensures FeeKept(s, fee, payer, props)
    ensures NoDebt(Dispose(s, fee, props)) && Dispose(s, fee, props).accounts.Keys == s.accounts.Keys
  {
    OneFits(s, payer);
    if !props.burns { TwoFit(s, payer, props.blackhole); }
  }

  lemma SendSolvent(s: State, owner: Address, to: Address, key: string, amount: I64, props: Props)
    requires Solvent(s) && TransferValid(s, owner, to, key, amount, props)
    requires FeesGo(SendAsset(owner, to, key, amount), s, props) && Transfer(s, owner, to, key, amount, props).Some?
    ensures Keeps(s, Transfer(s, owner, to, key, amount, props).value)
  {
    var fee := TransferFee(s, to, props);
    var payer, recipient := TransferAccounts(s, owner, to, key, amount, props);
    SolventFeeKept(s, fee, owner, props);
    PutNoDebt(Dispose(s, fee, props), owner, payer);
    PutNoDebt(Put(Dispose(s, fee, props), owner, payer), to, recipient);
    TransferFeeKept(s, owner, to, key, amount, props);
  }

  lemma IssueSolvent(s: State, c: Issue, props: Props)
    requires Solvent(s) && IssueValid(s, c, props) && FeesGo(NewAsset(c), s, props) && IssueAsset(s, c, props).Some?
    ensures Keeps(s, IssueAsset(s, c, props).value)
  {
    var issuer := IssueAccounts(s, c, props);
    SolventFeeKept(s, props.issueFee, c.owner, props);
    PutNoDebt(Dispose(s, props.issueFee, props), c.owner, issuer);
    IssueFeeKept(s, c, props);
  }

  lemma BuySolvent(s: State, owner: Address, to: Address, key: string, amount: I64, props: Props)
    requires Solvent(s) && LookupAsset(s, key).Some? && LookupAsset(s, key).value.trxNum > 0
    requires ParticipateValid(s, owner, to, key, amount, props) && Participate(s, owner, to, key, amount).Some?
    ensures Keeps(s, Participate(s, owner, to, key, amount).value)
  {
    ParticipateDelivers(s, owner, to, key, amount);
    ParticipateKeepsTrx(s, owner, to, key, amount);
  }

  lemma ThawSolvent(s: State, owner: Address, now: I64)
    requires Solvent(s) && owner in s.accounts && Unfreeze(s, owner, now).Some?
    ensures Keeps(s, Unfreeze(s, owner, now).value)
  {
    UnfreezeKeepsTrx(s, owner, now);
  }

  lemma StepSolvent(act: Action, s: State, props: Props)
    requires Solvent(s) && FeesGo(act, s, props)
    ensures Keeps(s, After(act, s, props))
  {
    if Validates(act, s, props) && Executes(act, s, props).Some? {
      match act
      case SendAsset(owner, to, key, amount) => SendSolvent(s, owner, to, key, amount, props);
      case NewAsset(c) => IssueSolvent(s, c, props);
      case BuyAsset(owner, to, key, amount) => BuySolvent(s, owner, to, key, amount, props);
      case ThawAsset(owner) => ThawSolvent(s, owner, props.now);
      case SwitchFlag => TrxSame(s, Switch(s));
    }
  }

  /** Over every run whose fees are burned or go to an account that pays none, no TRX is made
      or lost and nobody ever owes any. */
  lemma {:induction false} RunKeepsTrx(acts: seq<(Action, Props)>, s: State)
    requires Solvent(s) && forall i | 0 <= i < |acts| :: FeesGo(acts[i].0, s, acts[i].1)
    ensures Solvent(Run(acts, s)) && Trx(Run(acts, s)) == Trx(s)
    decreases |acts|
  {
    if acts != [] {
      assert FeesGo(acts[0].0, s, acts[0].1);
      StepSolvent(acts[0].0, s, acts[0].1);
      var t := After(acts[0].0, s, acts[0].1);
      forall i | 0 <= i < |acts| - 1 ensures FeesGo(acts[1..][i].0, t, acts[1..][i].1) {
        assert FeesGo(acts[i + 1].0, s, acts[i + 1].1);
      }
      RunKeepsTrx(acts[1..], t);
    }
  }

  /** Then a validated participation always executes: its issuer's balance has room. */
  lemma ParticipationHasRoom(s: State, owner: Address, to: Address, key: string, amount: I64, props: Props)
    requires Solvent(s) && Ok(s)
    requires LookupAsset(s, key).Some? && LookupAsset(s, key).value.trxNum > 0
    requires ParticipateValid(s, owner, to, key, amount, props)
    ensures Participate(s, owner, to, key, amount).Some?
  {
    TwoFit(s, owner, to);
    ParticipateKeepsOk(s, owner, to, key, amount, props);
  }

  /** The blackhole account itself issues an asset: its fee of 10 is gone. */
  lemma BlackholeIssueLosesFee(s: State, props: Props)
    requires s == ExampleStart().(accounts := map[1 := NewAccount.(balance := 100)])
    requires props == EXAMPLE_PROPS.(issueFee := 10, burns := false, blackhole := 1)
    ensures IssueValid(s, EXAMPLE_ISSUE, props) && IssueAsset(s, EXAMPLE_ISSUE, props).Some?
    ensures Trx(IssueAsset(s, EXAMPLE_ISSUE, props).value) != Trx(s)
  {
    assert FrozenTotal(EXAMPLE_ISSUE.frozen) == 0;
    IssueFeeKept(s, EXAMPLE_ISSUE, props);
  }
}
