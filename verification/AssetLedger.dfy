/** The asset actuators at work: stores updated in place, each proved against its function. */
module AssetLedgers {
  import opened Words
  import opened Decimals
  import opened Assets

  /** The loop over a contract's frozen supply, which counts down what is left. */
  method CheckFrozen(c: Issue, props: Props) returns (ok: bool)
    requires c.supply > 0
    ensures ok <==> FrozenValid(c, props)
  {
    if |c.frozen| > props.maxFrozen {
      return false;
    }
    var left := c.supply;
    for i := 0 to |c.frozen|
      invariant 0 <= left == c.supply - FrozenTotal(c.frozen[..i])
      invariant forall k | 0 <= k < i ::
        && c.frozen[k].amount > 0
        && props.minFrozenTime <= c.frozen[k].days <= props.maxFrozenTime
        && CheckedAdd(c.start, WrapMul(c.frozen[k].days, FROZEN_PERIOD)).Some?
    {
      var entry := c.frozen[i];
      assert c.frozen[..i + 1][..i] == c.frozen[..i];
      if entry.amount <= 0 {
        return false;
      }
      if entry.amount > left {
        ExceedsSupply(c, props, i + 1);
        return false;
      }
      if entry.days < props.minFrozenTime || entry.days > props.maxFrozenTime {
        return false;
      }
      if CheckedAdd(c.start, WrapMul(entry.days, FROZEN_PERIOD)).None? {
        return false;
      }
      left := left - entry.amount;
    }
    assert c.frozen[..|c.frozen|] == c.frozen;
    ok := true;
  }

  lemma {:induction false} FrozenGrows(frozen: seq<FrozenSupply>, n: nat)
    requires n <= |frozen| && forall i | 0 <= i < |frozen| :: frozen[i].amount > 0
    ensures FrozenTotal(frozen[..n]) <= FrozenTotal(frozen)
    decreases |frozen|
  {
    if n == |frozen| {
      assert frozen[..n] == frozen;
    } else {
      assert frozen[..|frozen| - 1][..n] == frozen[..n];
      FrozenGrows(frozen[..|frozen| - 1], n);
    }
  }

  /** A prefix that exceeds the supply settles it. */
  lemma ExceedsSupply(c: Issue, props: Props, n: nat)
    requires n <= |c.frozen| && FrozenTotal(c.frozen[..n]) > c.supply
    ensures !FrozenValid(c, props)
  {
    if FrozenValid(c, props) { FrozenGrows(c.frozen, n); }
  }

  class AssetLedger {
    var accounts: map<Address, Account>
    var reg: Registry
    var tokenIdNum: nat
    var burned: I64

    function Now(): State
      reads this
    {
      State(accounts, reg, tokenIdNum, burned)
    }

    constructor (accounts: map<Address, Account>)
      ensures Now() == State(accounts, Registry(map[], map[], false, Decimal), 1_000_000, 0)
    {
      this.accounts, reg, tokenIdNum, burned := accounts, Registry(map[], map[], false, Decimal), 1_000_000, 0;
    }

    method DisposeFee(fee: I64, props: Props)
      modifies this
      ensures Now() == Dispose(old(Now()), fee, props)
    {
      if fee == 0 {
        return;
      }
      if props.burns {
        burned := WrapAdd(burned, fee);
      } else if props.blackhole in accounts {
        var hole := accounts[props.blackhole];
        accounts := accounts[props.blackhole := hole.(balance := WrapAdd(hole.balance, fee))];
      }
    }

    /** `execute_transfer_asset` */
    method TransferAsset(owner: Address, to: Address, key: string, amount: I64, props: Props) returns (ok: bool)
      requires owner in accounts
      modifies this
      ensures ok == Transfer(old(Now()), owner, to, key, amount, props).Some?
      ensures Now() == if ok then Transfer(old(Now()), owner, to, key, amount, props).value else old(Now())
    {
      ok := false;
      var sender := accounts[owner];
      var fee, recipient := 0, NewAccount;
      if to in accounts {
        recipient := accounts[to];
      } else {
        fee := props.createFee;
      }
      var debited := Debit(sender, reg, key, amount);
      var credited := Credit(recipient, reg, key, amount);
      if debited.None? || credited.None? {
        return;
      }
      var left := CheckedSub(debited.value.balance, fee);
      if left.None? {
        return;
      }
      DisposeFee(fee, props);
      accounts := accounts[owner := debited.value.(balance := left.value)];
      accounts := accounts[to := credited.value];
      ok := true;
    }

    /** `execute_asset_issue` on a validated contract. */
    method Issue(c: Issue, props: Props)
      requires IssueValid(Now(), c, props) && props.issueFee >= 0
      modifies this
      ensures IssueAsset(old(Now()), c, props) == Some(Now())
    {
      var owner := accounts[c.owner];
      owner := owner.(balance := owner.balance - props.issueFee);
      DisposeFee(props.issueFee, props);
      var id := tokenIdNum + 1;
      tokenIdNum := id;
      var row := Asset(id, c.name, c.owner, c.supply, c.num, c.trxNum, c.start, c.end);
      if !reg.sameName {
        reg := reg.(v1 := reg.v1[c.name := row]);
      }
      reg := reg.(v2 := reg.v2[id := row]);
      var entries, liquid := BuildFrozen(c, props);
      if !reg.sameName {
        owner := owner.(asset := owner.asset[c.name := SatSigned(Amount(owner.asset, c.name), liquid)]);
      }
      var key := reg.render(id);
      owner := owner.(assetV2 := owner.assetV2[key := SatSigned(Amount(owner.assetV2, key), liquid)]);
      owner := owner.(issuedName := c.name, issuedId := key, frozen := owner.frozen + entries);
      accounts := accounts[c.owner := owner];
    }

    /** The loop that builds the frozen entries and counts down the liquid rest. */
    static method BuildFrozen(c: Issue, props: Props) returns (entries: seq<Frozen>, liquid: I64)
      requires c.supply > 0 && FrozenValid(c, props)
      ensures entries == FrozenEntries(c) && liquid == c.supply - FrozenTotal(c.frozen)
    {
      entries, liquid := [], c.supply;
      for i := 0 to |c.frozen|
        invariant entries == FrozenEntries(c)[..i]
        invariant 0 <= liquid == c.supply - FrozenTotal(c.frozen[..i])
      {
        assert c.frozen[..i + 1][..i] == c.frozen[..i];
        FrozenGrows(c.frozen, i + 1);
        entries := entries + [Frozen(c.frozen[i].amount, Expiry(c.start, c.frozen[i].days))];
        liquid := liquid - c.frozen[i].amount;
      }
      assert c.frozen[..|c.frozen|] == c.frozen;
    }

    /** `execute_participate_asset_issue` */
    method Buy(owner: Address, to: Address, key: string, amount: I64) returns (ok: bool)
      requires owner in accounts && to in accounts
      requires LookupAsset(Now(), key).Some? && LookupAsset(Now(), key).value.trxNum > 0
      modifies this
      ensures ok == Participate(old(Now()), owner, to, key, amount).Some?
      ensures Now() == if ok then Participate(old(Now()), owner, to, key, amount).value else old(Now())
    {
      ok := false;
      var asset := LookupAsset(Now(), key).value;
      var exchanged := Exchange(asset, amount);
      if exchanged.None? {
        return;
      }
      var paid, received := CheckedSub(accounts[owner].balance, amount), CheckedAdd(accounts[to].balance, amount);
      if paid.None? || received.None? {
        return;
      }
      var issuer := Debit(accounts[to].(balance := received.value), reg, key, exchanged.value);
      var buyer := Credit(accounts[owner].(balance := paid.value), reg, key, exchanged.value);
      if issuer.None? || buyer.None? {
        return;
      }
      accounts := accounts[owner := buyer.value];
      accounts := accounts[to := issuer.value];
      ok := true;
    }

    /** The `retain` of `execute_unfreeze_asset`: one pass that keeps and sums up. */
    static method Retain(frozen: seq<Frozen>, now: I64) returns (kept: seq<Frozen>, unlocked: I64)
      ensures kept == Remaining(frozen, now) && unlocked == Unlocked(frozen, now)
    {
      kept, unlocked := [], 0;
      for i := 0 to |frozen|
        invariant kept == Remaining(frozen[..i], now) && unlocked == Unlocked(frozen[..i], now)
      {
        assert frozen[..i + 1][..i] == frozen[..i];
        if frozen[i].expires <= now {
          unlocked := SatSigned(unlocked, frozen[i].amount);
        } else {
          kept := kept + [frozen[i]];
        }
      }
      assert frozen[..|frozen|] == frozen;
    }

    /** `execute_unfreeze_asset` */
    method UnfreezeAsset(owner: Address, now: I64) returns (ok: bool)
      requires owner in accounts
      modifies this
      ensures ok == Unfreeze(old(Now()), owner, now).Some?
      ensures Now() == if ok then Unfreeze(old(Now()), owner, now).value else old(Now())
    {
      ok := false;
      var account := accounts[owner];
      var kept, unlocked := Retain(account.frozen, now);
      account := account.(frozen := kept);
      if reg.sameName {
        var credited := Credit(account, reg, account.issuedId, unlocked);
        if credited.None? {
          return;
        }
        account := credited.value;
      } else {
        var id := if account.issuedName in reg.v1 then reg.render(reg.v1[account.issuedName].id) else "";
        var updated := CheckedAdd(Amount(account.asset, account.issuedName), unlocked);
        if updated.None? {
          return;
        }
        account := account.(asset := account.asset[account.issuedName := updated.value]);
        account := account.(assetV2 := account.assetV2[id := updated.value]);
      }
      accounts := accounts[owner := account];
      ok := true;
    }
  }
}
