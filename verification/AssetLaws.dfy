/**
 What every run of asset operations keeps: each token's supply, the agreement of the two
 balance maps before the switch, and the uniqueness of token ids.
 */
module AssetLaws {
  import opened Words
  import opened Assets
  import opened Decimals
  import Sums

  type Accounts = map<Address, Account>

  function FrozenSum(frozen: seq<Frozen>): int {
    if frozen == [] then 0 else FrozenSum(frozen[..|frozen| - 1]) + frozen[|frozen| - 1].amount
  }

  /** All an account holds of the token with this id key: what is liquid, and what its
      issuer has frozen. */
  function Holding(a: Account, key: string): int {
    Amount(a.assetV2, key) + if a.issuedId == key then FrozenSum(a.frozen) else 0
  }

  ghost function HoldingIn(accounts: Accounts, key: string): Address -> int {
    x => if x in accounts then Holding(accounts[x], key) else 0
  }

  ghost function Total(accounts: Accounts, key: string): int {
    Sums.Sum(accounts.Keys, HoldingIn(accounts, key))
  }

  // ---------------------------------------------------------------------------
  // The invariant
  // ---------------------------------------------------------------------------

  ghost predicate Injective(render: nat -> string) {
    forall m: nat, n: nat :: render(m) == render(n) ==> m == n
  }

  /** `key` is the key of an issued token. */
  ghost predicate TokenKey(key: string, r: Registry) { exists id :: id in r.v2 && r.render(id) == key }

  /** `x` has issued a token, and its records agree with the store's row. */
  ghost predicate Issuer(x: Address, a: Account, r: Registry) {
    exists id :: id in r.v2 && r.render(id) == a.issuedId && r.v2[id].name == a.issuedName && r.v2[id].owner == x
  }

  /** The two maps show the same balance of every token. */
  ghost predicate Mirrored(a: Account, r: Registry) {
    && (forall n | n in a.asset :: n in r.v1)
    && (forall n | n in r.v1 :: Amount(a.asset, n) == Amount(a.assetV2, r.render(r.v1[n].id)))
  }

  ghost predicate AccountOk(x: Address, a: Account, r: Registry) {
    && (forall k | k in a.assetV2 :: a.assetV2[k] >= 0 && TokenKey(k, r))
    && (forall i | 0 <= i < |a.frozen| :: a.frozen[i].amount >= 0)
    && (if a.issuedName == "" then a.issuedId == "" && a.frozen == [] else Issuer(x, a, r))
    && (!r.sameName ==> Mirrored(a, r))
  }

  ghost predicate AllOk(accounts: Accounts, r: Registry) {
    forall x {:trigger AccountOk(x, accounts[x], r)} | x in accounts :: AccountOk(x, accounts[x], r)
  }

  /** Ids are below the counter; before the switch names and ids correspond one to one. */
  ghost predicate StoresOk(r: Registry, tokenIdNum: nat) {
    && Injective(r.render)
    && (forall id | id in r.v2 ::
          && r.v2[id].id == id <= tokenIdNum && r.v2[id].name != ""
          && r.v2[id].supply > 0 && r.v2[id].num > 0 && r.v2[id].trxNum > 0)
    && (!r.sameName ==>
          && (forall n | n in r.v1 :: r.v1[n].id in r.v2 && r.v2[r.v1[n].id] == r.v1[n] && r.v1[n].name == n)
          && (forall id | id in r.v2 :: r.v2[id].name in r.v1 && r.v1[r.v2[id].name].id == id))
  }

  ghost predicate Conserved(accounts: Accounts, r: Registry) {
    forall id {:trigger Total(accounts, r.render(id))} | id in r.v2 :: Total(accounts, r.render(id)) == r.v2[id].supply
  }

  ghost predicate Ok(s: State) {
    StoresOk(s.reg, s.tokenIdNum) && Conserved(s.accounts, s.reg) && AllOk(s.accounts, s.reg)
  }

  // ---------------------------------------------------------------------------
  // Sums
  // ---------------------------------------------------------------------------

  lemma TotalPut(accounts: Accounts, x: Address, a: Account, key: string)
    ensures Total(accounts[x := a], key)
            == Total(accounts, key) - (if x in accounts then Holding(accounts[x], key) else 0) + Holding(a, key)
  {
    var after := accounts[x := a];
    var keys := accounts.Keys + {x};
    assert after.Keys == keys;
    Sums.Widen(accounts.Keys, keys, HoldingIn(accounts, key));
    Sums.Change(keys, HoldingIn(accounts, key), HoldingIn(after, key), x);
  }

  lemma {:induction false} FrozenSumNat(frozen: seq<Frozen>)
    requires forall i | 0 <= i < |frozen| :: frozen[i].amount >= 0
    ensures FrozenSum(frozen) >= 0
  {
    if frozen != [] { FrozenSumNat(frozen[..|frozen| - 1]); }
  }

  lemma HoldingNat(x: Address, a: Account, r: Registry, key: string)
    requires AccountOk(x, a, r)
    ensures 0 <= Amount(a.assetV2, key) <= Holding(a, key)
  {
    FrozenSumNat(a.frozen);
  }

  /** Two accounts never hold more than the supply between them. */
  lemma HoldingsBounded(accounts: Accounts, r: Registry, x: Address, y: Address, id: nat)
    requires AllOk(accounts, r) && Conserved(accounts, r) && x != y && x in accounts && id in r.v2
    ensures var key := r.render(id);
            Holding(accounts[x], key) + (if y in accounts then Holding(accounts[y], key) else 0) <= r.v2[id].supply
  {
    var f := HoldingIn(accounts, r.render(id));
    forall z | z in accounts ensures f(z) >= 0 {
      assert AccountOk(z, accounts[z], r);
      HoldingNat(z, accounts[z], r, r.render(id));
    }
    assert Total(accounts, r.render(id)) == r.v2[id].supply;
    if y in accounts {
      Sums.Pair(accounts.Keys, f, x, y);
    } else {
      Sums.Split(accounts.Keys, f, x);
      Sums.NonNegative(accounts.Keys - {x}, f);
    }
  }

  // ---------------------------------------------------------------------------
  // One account
  // ---------------------------------------------------------------------------

  /** `key` names the token `id` under the flag in force. */
  ghost predicate Names(r: Registry, key: string, id: nat) {
    id in r.v2 && if r.sameName then key == r.render(id) else key in r.v1 && r.v1[key].id == id
  }

  /** A key with an entry in an account's authoritative map names a token. */
  lemma HeldKeyNames(x: Address, a: Account, r: Registry, next: nat, key: string) returns (id: nat)
    requires StoresOk(r, next) && AccountOk(x, a, r) && key in Holdings(a, r.sameName)
    ensures Names(r, key, id)
  {
    if r.sameName { id :| id in r.v2 && r.render(id) == key; } else { id := r.v1[key].id; }
  }

  /** Under the invariant the authoritative balance is the id-keyed one. */
  lemma HeldAmount(x: Address, a: Account, r: Registry, key: string, id: nat)
    requires AccountOk(x, a, r) && Names(r, key, id)
    ensures Amount(Holdings(a, r.sameName), key) == Amount(a.assetV2, r.render(id)) >= 0
  {
  }

  lemma StoreMirrors(a: Account, r: Registry, next: nat, key: string, id: nat, updated: I64)
    requires StoresOk(r, next) && !r.sameName && Names(r, key, id) && Mirrored(a, r)
    ensures Mirrored(Store(a, r, key, updated), r)
  {
    var b := Store(a, r, key, updated);
    forall n | n in r.v1 ensures Amount(b.asset, n) == Amount(b.assetV2, r.render(r.v1[n].id)) {
      if r.render(r.v1[n].id) == r.render(id) { assert r.v2[id].name == n == key; }
    }
  }

  lemma StoreKeepsAccount(x: Address, a: Account, r: Registry, next: nat, key: string, id: nat, updated: I64)
    requires StoresOk(r, next) && AccountOk(x, a, r) && Names(r, key, id) && updated >= 0
    ensures AccountOk(x, Store(a, r, key, updated), r)
  {
    var b := Store(a, r, key, updated);
    assert TokenKey(r.render(id), r);
    if !r.sameName { StoreMirrors(a, r, next, key, id, updated); }
    if a.issuedName != "" {
      var i :| i in r.v2 && r.render(i) == a.issuedId && r.v2[i].name == a.issuedName && r.v2[i].owner == x;
      assert Issuer(x, b, r);
    }
  }

  lemma StoreHolding(a: Account, r: Registry, key: string, id: nat, updated: I64, k: string)
    requires Names(r, key, id)
    ensures Holding(Store(a, r, key, updated), k)
            == Holding(a, k) + if k == r.render(id) then updated - Amount(a.assetV2, k) else 0
  {
  }

  // ---------------------------------------------------------------------------
  // Writing accounts back
  // ---------------------------------------------------------------------------

  lemma AllPut(accounts: Accounts, x: Address, a: Account, r: Registry)
    requires AllOk(accounts, r) && AccountOk(x, a, r)
    ensures AllOk(accounts[x := a], r)
  {
  }

  /** Two accounts are written; what one loses the other gains. */
  lemma PairConserved(accounts: Accounts, r: Registry, x: Address, a: Account, y: Address, b: Account)
    requires Conserved(accounts, r) && x != y && x in accounts
    requires forall k :: Holding(a, k) + Holding(b, k)
                         == Holding(accounts[x], k) + if y in accounts then Holding(accounts[y], k) else 0
    ensures Conserved(accounts[x := a][y := b], r)
  {
    forall id | id in r.v2 ensures Total(accounts[x := a][y := b], r.render(id)) == r.v2[id].supply {
      TotalPut(accounts, x, a, r.render(id));
      TotalPut(accounts[x := a], y, b, r.render(id));
    }
  }

  lemma OneConserved(accounts: Accounts, r: Registry, x: Address, a: Account)
    requires Conserved(accounts, r) && x in accounts && forall k :: Holding(a, k) == Holding(accounts[x], k)
    ensures Conserved(accounts[x := a], r)
  {
    forall id | id in r.v2 ensures Total(accounts[x := a], r.render(id)) == r.v2[id].supply {
      TotalPut(accounts, x, a, r.render(id));
    }
  }

  /** The accounts differ in their TRX balance only. */
  ghost predicate SameAssets(a: Account, b: Account) {
    && a.asset == b.asset && a.assetV2 == b.assetV2 && a.issuedName == b.issuedName
    && a.issuedId == b.issuedId && a.frozen == b.frozen
  }

  lemma SameAssetsOk(x: Address, a: Account, b: Account, r: Registry)
    requires SameAssets(a, b) && AccountOk(x, a, r)
    ensures AccountOk(x, b, r)
  {
    if a.issuedName != "" {
      var i :| i in r.v2 && r.render(i) == a.issuedId && r.v2[i].name == a.issuedName && r.v2[i].owner == x;
      assert Issuer(x, b, r);
    }
  }

  lemma BalanceKeeps(accounts: Accounts, r: Registry, x: Address, b: Account)
    requires AllOk(accounts, r) && Conserved(accounts, r) && x in accounts && SameAssets(accounts[x], b)
    ensures AllOk(accounts[x := b], r) && Conserved(accounts[x := b], r)
  {
    SameAssetsOk(x, accounts[x], b, r);
    AllPut(accounts, x, b, r);
    OneConserved(accounts, r, x, b);
  }

  /** `t` is `s` but for TRX. */
  ghost predicate SameButTrx(s: State, t: State) {
    && t.reg == s.reg && t.tokenIdNum == s.tokenIdNum && t.accounts.Keys == s.accounts.Keys
    && forall x {:trigger SameAssets(s.accounts[x], t.accounts[x])} | x in s.accounts ::
         SameAssets(s.accounts[x], t.accounts[x])
  }

  lemma DisposeSame(s: State, fee: I64, props: Props)
    ensures SameButTrx(s, Dispose(s, fee, props))
  {
  }

  /** Disposing of a fee touches no asset. */
  lemma DisposeKeeps(s: State, fee: I64, props: Props)
    requires Ok(s)
    ensures Ok(Dispose(s, fee, props))
  {
    var t := Dispose(s, fee, props);
    if fee != 0 && !props.burns && props.blackhole in s.accounts {
      var hole := s.accounts[props.blackhole];
      var b := hole.(balance := WrapAdd(hole.balance, fee));
      assert t == s.(accounts := s.accounts[props.blackhole := b]);
      BalanceKeeps(s.accounts, s.reg, props.blackhole, b);
    } else {
      assert t.accounts == s.accounts && t.reg == s.reg && t.tokenIdNum == s.tokenIdNum;
    }
  }

  lemma NewAccountOk(x: Address, r: Registry)
    ensures AccountOk(x, NewAccount, r)
  {
  }

  // ---------------------------------------------------------------------------
  // Moving a balance
  // ---------------------------------------------------------------------------

  /** The token behind a key that is held, and room for its balance at the recipient. */
  lemma MoveBounds(accounts: Accounts, r: Registry, next: nat, from: Address, to: Address,
                   recipient: Account, key: string, amount: I64) returns (id: nat)
    requires StoresOk(r, next) && AllOk(accounts, r) && Conserved(accounts, r)
    requires from != to && from in accounts && recipient == (if to in accounts then accounts[to] else NewAccount)
    requires 0 < amount <= Amount(Holdings(accounts[from], r.sameName), key)
    ensures Names(r, key, id) && AccountOk(from, accounts[from], r) && AccountOk(to, recipient, r)
    ensures Amount(Holdings(accounts[from], r.sameName), key) == Amount(accounts[from].assetV2, r.render(id))
    ensures Amount(Holdings(recipient, r.sameName), key) == Amount(recipient.assetV2, r.render(id)) >= 0
    ensures Amount(accounts[from].assetV2, r.render(id)) + Amount(recipient.assetV2, r.render(id)) <= I64_MAX
  {
    id := HeldKeyNames(from, accounts[from], r, next, key);
    NewAccountOk(to, r);
    HeldAmount(from, accounts[from], r, key, id);
    HeldAmount(to, recipient, r, key, id);
    HoldingsBounded(accounts, r, from, to, id);
    HoldingNat(from, accounts[from], r, r.render(id));
    HoldingNat(to, recipient, r, r.render(id));
  }

  /** Both balances after a move. */
  lemma MovedAmounts(a: Account, b: Account, r: Registry, key: string, id: nat, amount: I64) returns (less: I64, more: I64)
    requires 0 < amount <= Amount(Holdings(a, r.sameName), key) == Amount(a.assetV2, r.render(id))
    requires Amount(Holdings(b, r.sameName), key) == Amount(b.assetV2, r.render(id)) >= 0
    requires Amount(a.assetV2, r.render(id)) + Amount(b.assetV2, r.render(id)) <= I64_MAX
    ensures 0 <= less == Amount(Holdings(a, r.sameName), key) - amount
    ensures 0 <= more == Amount(Holdings(b, r.sameName), key) + amount
    ensures less + more == Amount(a.assetV2, r.render(id)) + Amount(b.assetV2, r.render(id))
  {
    less := Amount(Holdings(a, r.sameName), key) - amount;
    more := Amount(Holdings(b, r.sameName), key) + amount;
  }

  lemma DebitIs(a: Account, r: Registry, key: string, amount: I64, less: I64)
    requires 0 < amount && 0 <= less == Amount(Holdings(a, r.sameName), key) - amount
    ensures Debit(a, r, key, amount) == Some(Store(a, r, key, less))
  {
  }

  lemma CreditIs(b: Account, r: Registry, key: string, amount: I64, more: I64)
    requires more == Amount(Holdings(b, r.sameName), key) + amount
    ensures Credit(b, r, key, amount) == Some(Store(b, r, key, more))
  {
  }

  /** `a'` and `b'` may replace `a` and `b`. */
  ghost predicate Replaces(x: Address, a: Account, a': Account, y: Address, b: Account, b': Account, r: Registry) {
    && AccountOk(x, a', r) && AccountOk(y, b', r)
    && forall k :: Holding(a', k) + Holding(b', k) == Holding(a, k) + Holding(b, k)
  }

  lemma StoresReplace(x: Address, a: Account, y: Address, b: Account, r: Registry,
                      next: nat, key: string, id: nat, less: I64, more: I64)
    requires StoresOk(r, next) && Names(r, key, id) && AccountOk(x, a, r) && AccountOk(y, b, r)
    requires 0 <= less && 0 <= more
    requires less + more == Amount(a.assetV2, r.render(id)) + Amount(b.assetV2, r.render(id))
    ensures Replaces(x, a, Store(a, r, key, less), y, b, Store(b, r, key, more), r)
  {
    StoreKeepsAccount(x, a, r, next, key, id, less);
    StoreKeepsAccount(y, b, r, next, key, id, more);
    forall k
      ensures Holding(Store(a, r, key, less), k) + Holding(Store(b, r, key, more), k) == Holding(a, k) + Holding(b, k)
    {
      StoreHolding(a, r, key, id, less, k);
      StoreHolding(b, r, key, id, more, k);
    }
  }

  /** The debit and the credit succeed, and their results may replace the two accounts. */
  ghost predicate Moves(x: Address, a: Account, a': Account, y: Address, b: Account, b': Account, r: Registry,
                        key: string, amount: I64)
  {
    Debit(a, r, key, amount) == Some(a') && Credit(b, r, key, amount) == Some(b') && Replaces(x, a, a', y, b, b', r)
  }

  lemma MovePair(x: Address, a: Account, y: Address, b: Account, r: Registry, next: nat, key: string, id: nat,
                 amount: I64, less: I64, more: I64)
    requires StoresOk(r, next) && Names(r, key, id) && AccountOk(x, a, r) && AccountOk(y, b, r)
    requires 0 <= less && 0 <= more
    requires less + more == Amount(a.assetV2, r.render(id)) + Amount(b.assetV2, r.render(id))
    requires Debit(a, r, key, amount) == Some(Store(a, r, key, less))
    requires Credit(b, r, key, amount) == Some(Store(b, r, key, more))
    ensures Moves(x, a, Store(a, r, key, less), y, b, Store(b, r, key, more), r, key, amount)
  {
    StoresReplace(x, a, y, b, r, next, key, id, less, more);
  }

  /** A debit and a credit of the same amount, which the sender's authoritative map covers:
      neither fails, the credit does not overflow, and every token's holdings add up. */
  lemma MoveKeeps(accounts: Accounts, r: Registry, next: nat, from: Address, to: Address,
                  recipient: Account, key: string, amount: I64) returns (a': Account, b': Account)
    requires StoresOk(r, next) && AllOk(accounts, r) && Conserved(accounts, r)
    requires from != to && from in accounts && recipient == (if to in accounts then accounts[to] else NewAccount)
    requires 0 < amount <= Amount(Holdings(accounts[from], r.sameName), key)
    ensures Moves(from, accounts[from], a', to, recipient, b', r, key, amount)
  {
    var a := accounts[from];
    var id := MoveBounds(accounts, r, next, from, to, recipient, key, amount);
    var less, more := MovedAmounts(a, recipient, r, key, id, amount);
    DebitIs(a, r, key, amount, less);
    CreditIs(recipient, r, key, amount, more);
    a', b' := Store(a, r, key, less), Store(recipient, r, key, more);
    MovePair(from, a, to, recipient, r, next, key, id, amount, less, more);
  }

  // ---------------------------------------------------------------------------
  // Each operation keeps the invariant
  // ---------------------------------------------------------------------------

  /** Two accounts, computed from `s`, are written into `t`, where only TRX has changed. */
  lemma PairWritten(s: State, t: State, x: Address, a: Account, a': Account, y: Address, b: Account, b': Account)
    requires Ok(t) && SameButTrx(s, t) && x != y && x in s.accounts && a == s.accounts[x]
    requires b == if y in s.accounts then s.accounts[y] else NewAccount
    requires Replaces(x, a, a', y, b, b', s.reg)
    ensures Ok(t.(accounts := t.accounts[x := a'][y := b']))
  {
    assert SameAssets(a, t.accounts[x]);
    forall k
      ensures Holding(a', k) + Holding(b', k)
              == Holding(t.accounts[x], k) + if y in t.accounts then Holding(t.accounts[y], k) else 0
    {
      assert Holding(a', k) + Holding(b', k) == Holding(a, k) + Holding(b, k);
      if y in t.accounts { assert SameAssets(b, t.accounts[y]); }
    }
    PairConserved(t.accounts, t.reg, x, a', y, b');
    AllPut(t.accounts, x, a', t.reg);
    AllPut(t.accounts[x := a'], y, b', t.reg);
  }

  lemma ReplacesWithTrx(x: Address, a: Account, a': Account, a'': Account, y: Address, b: Account, b': Account, r: Registry)
    requires Replaces(x, a, a', y, b, b', r) && SameAssets(a', a'')
    ensures Replaces(x, a, a'', y, b, b', r)
  {
    SameAssetsOk(x, a', a'', r);
    forall k ensures Holding(a'', k) + Holding(b', k) == Holding(a, k) + Holding(b, k) {
      assert Holding(a', k) + Holding(b', k) == Holding(a, k) + Holding(b, k);
    }
  }

  function TransferFee(s: State, to: Address, props: Props): I64 { if to in s.accounts then 0 else props.createFee }

  function Recipient(s: State, to: Address): Account { if to in s.accounts then s.accounts[to] else NewAccount }

  lemma TransferIs(s: State, owner: Address, to: Address, key: string, amount: I64, props: Props,
                   a': Account, b': Account, left: I64)
    requires owner in s.accounts && Debit(s.accounts[owner], s.reg, key, amount) == Some(a')
    requires Credit(Recipient(s, to), s.reg, key, amount) == Some(b')
    requires CheckedSub(s.accounts[owner].balance, TransferFee(s, to, props)) == Some(left)
    ensures var paid := Dispose(s, TransferFee(s, to, props), props);
            Transfer(s, owner, to, key, amount, props)
            == Some(paid.(accounts := paid.accounts[owner := a'.(balance := left)][to := b']))
  {
  }

  /** A transfer that is paid for and covered keeps the invariant. */
  lemma CoveredTransfer(s: State, owner: Address, to: Address, key: string, amount: I64, props: Props, left: I64)
    requires Ok(s) && owner in s.accounts && owner != to
    requires 0 < amount <= Amount(Holdings(s.accounts[owner], s.reg.sameName), key)
    requires CheckedSub(s.accounts[owner].balance, TransferFee(s, to, props)) == Some(left)
    ensures var t := Transfer(s, owner, to, key, amount, props);
            t.Some? && Ok(t.value) && t.value.reg == s.reg && t.value.tokenIdNum == s.tokenIdNum
  {
    var sender, recipient, fee := s.accounts[owner], Recipient(s, to), TransferFee(s, to, props);
    var a', b' := MoveKeeps(s.accounts, s.reg, s.tokenIdNum, owner, to, recipient, key, amount);
    var a'' := a'.(balance := left);
    ReplacesWithTrx(owner, sender, a', a'', to, recipient, b', s.reg);
    DisposeKeeps(s, fee, props);
    DisposeSame(s, fee, props);
    PairWritten(s, Dispose(s, fee, props), owner, sender, a'', to, recipient, b');
    TransferIs(s, owner, to, key, amount, props, a', b', left);
  }

  /** A transfer executes exactly when the authoritative map covers it and the fee can be
      taken, and then it keeps the invariant. */
  lemma TransferKeepsOk(s: State, owner: Address, to: Address, key: string, amount: I64, props: Props)
    requires Ok(s) && owner in s.accounts && owner != to && amount > 0
    ensures var t := Transfer(s, owner, to, key, amount, props);
            && (t.Some? <==>
                  && Amount(Holdings(s.accounts[owner], s.reg.sameName), key) >= amount
                  && CheckedSub(s.accounts[owner].balance, TransferFee(s, to, props)).Some?)
            && (t.Some? ==> Ok(t.value) && t.value.reg == s.reg && t.value.tokenIdNum == s.tokenIdNum)
  {
    if Amount(Holdings(s.accounts[owner], s.reg.sameName), key) >= amount {
      match CheckedSub(s.accounts[owner].balance, TransferFee(s, to, props))
      case Some(left) => CoveredTransfer(s, owner, to, key, amount, props, left);
      case None =>
    }
  }

  /** What a transfer means: the owner's authoritative balance goes down by the amount, the
      recipient's goes up, no other account's assets change, and the owner pays the fee. */
  lemma TransferDelivers(s: State, owner: Address, to: Address, key: string, amount: I64, props: Props)
    requires owner in s.accounts && owner != to && Transfer(s, owner, to, key, amount, props).Some?
    ensures var t := Transfer(s, owner, to, key, amount, props).value;
            && owner in t.accounts && to in t.accounts
            && Amount(Holdings(t.accounts[owner], s.reg.sameName), key)
               == Amount(Holdings(s.accounts[owner], s.reg.sameName), key) - amount
            && Amount(Holdings(t.accounts[to], s.reg.sameName), key)
               == Amount(Holdings(Recipient(s, to), s.reg.sameName), key) + amount
            && t.accounts[owner].balance == s.accounts[owner].balance - TransferFee(s, to, props)
            && t.accounts[to].balance == Recipient(s, to).balance
            && forall x | x in s.accounts && x != owner && x != to ::
                 x in t.accounts && SameAssets(s.accounts[x], t.accounts[x])
  {
    DisposeSame(s, TransferFee(s, to, props), props);
    var paid := Dispose(s, TransferFee(s, to, props), props);
    forall x | x in s.accounts ensures x in paid.accounts && SameAssets(s.accounts[x], paid.accounts[x]) {
    }
  }

  // ---------------------------------------------------------------------------
  // Participation
  // ---------------------------------------------------------------------------

  lemma DebitTrx(a: Account, r: Registry, key: string, amount: I64, balance: I64, a': Account)
    requires Debit(a, r, key, amount) == Some(a')
    ensures Debit(a.(balance := balance), r, key, amount) == Some(a'.(balance := balance))
  {
  }

  lemma CreditTrx(b: Account, r: Registry, key: string, amount: I64, balance: I64, b': Account)
    requires Credit(b, r, key, amount) == Some(b')
    ensures Credit(b.(balance := balance), r, key, amount) == Some(b'.(balance := balance))
  {
  }

  /** The exchanged amount is the exact floor of the price. */
  lemma ExchangeFloors(asset: Asset, amount: I64)
    requires asset.trxNum > 0 && Exchange(asset, amount).Some?
    ensures var e := Exchange(asset, amount).value;
            0 < e && e * asset.trxNum <= amount * asset.num < (e + 1) * asset.trxNum
  {
    var product := amount * asset.num;
    assert product == asset.trxNum * (product / asset.trxNum) + product % asset.trxNum;
  }

  lemma ParticipateIs(s: State, owner: Address, to: Address, key: string, amount: I64, exchanged: I64,
                      paid: I64, received: I64, issuer: Account, buyer: Account)
    requires owner in s.accounts && to in s.accounts
    requires LookupAsset(s, key).Some? && LookupAsset(s, key).value.trxNum > 0
    requires Exchange(LookupAsset(s, key).value, amount) == Some(exchanged)
    requires CheckedSub(s.accounts[owner].balance, amount) == Some(paid)
    requires CheckedAdd(s.accounts[to].balance, amount) == Some(received)
    requires Debit(s.accounts[to], s.reg, key, exchanged) == Some(issuer)
    requires Credit(s.accounts[owner], s.reg, key, exchanged) == Some(buyer)
    ensures Participate(s, owner, to, key, amount)
            == Some(s.(accounts := s.accounts[owner := buyer.(balance := paid)][to := issuer.(balance := received)]))
  {
    DebitTrx(s.accounts[to], s.reg, key, exchanged, received, issuer);
    CreditTrx(s.accounts[owner], s.reg, key, exchanged, paid, buyer);
  }

  lemma SameButTrxSelf(s: State)
    ensures SameButTrx(s, s)
  {
  }

  lemma ReplacesBothTrx(x: Address, a: Account, a': Account, p: I64, y: Address, b: Account, b': Account, q: I64, r: Registry)
    requires Replaces(x, a, a', y, b, b', r)
    ensures Replaces(x, a, a'.(balance := p), y, b, b'.(balance := q), r)
  {
    SameAssetsOk(x, a', a'.(balance := p), r);
    SameAssetsOk(y, b', b'.(balance := q), r);
    forall k ensures Holding(a'.(balance := p), k) + Holding(b'.(balance := q), k) == Holding(a, k) + Holding(b, k) {
      assert Holding(a', k) + Holding(b', k) == Holding(a, k) + Holding(b, k);
    }
  }

  lemma ExchangeWritten(s: State, to: Address, issuer: Account, owner: Address, buyer: Account)
    requires Ok(s) && owner in s.accounts && to in s.accounts && owner != to
    requires Replaces(to, s.accounts[to], issuer, owner, s.accounts[owner], buyer, s.reg)
    ensures Ok(s.(accounts := s.accounts[owner := buyer][to := issuer]))
  {
    SameButTrxSelf(s);
    PairWritten(s, s, to, s.accounts[to], issuer, owner, s.accounts[owner], buyer);
    assert s.accounts[owner := buyer][to := issuer] == s.accounts[to := issuer][owner := buyer];
  }

  lemma CoveredParticipation(s: State, owner: Address, to: Address, key: string, amount: I64, exchanged: I64,
                             paid: I64, received: I64)
    requires Ok(s) && owner in s.accounts && to in s.accounts && owner != to
    requires LookupAsset(s, key).Some? && LookupAsset(s, key).value.trxNum > 0
    requires Exchange(LookupAsset(s, key).value, amount) == Some(exchanged)
    requires CheckedSub(s.accounts[owner].balance, amount) == Some(paid)
    requires CheckedAdd(s.accounts[to].balance, amount) == Some(received)
    requires 0 < exchanged <= Amount(Holdings(s.accounts[to], s.reg.sameName), key)
    ensures var t := Participate(s, owner, to, key, amount);
            t.Some? && Ok(t.value) && t.value.reg == s.reg && t.value.tokenIdNum == s.tokenIdNum
  {
    var issuer, buyer := MoveKeeps(s.accounts, s.reg, s.tokenIdNum, to, owner, s.accounts[owner], key, exchanged);
    ParticipateIs(s, owner, to, key, amount, exchanged, paid, received, issuer, buyer);
    ReplacesBothTrx(to, s.accounts[to], issuer, received, owner, s.accounts[owner], buyer, paid, s.reg);
    ExchangeWritten(s, to, issuer.(balance := received), owner, buyer.(balance := paid));
  }

  /** A validated participation executes exactly when the issuer's TRX balance has room for
      the payment, and then keeps the invariant. */
  lemma ParticipateKeepsOk(s: State, owner: Address, to: Address, key: string, amount: I64, props: Props)
    requires Ok(s)
    requires LookupAsset(s, key).Some? && LookupAsset(s, key).value.trxNum > 0
    requires ParticipateValid(s, owner, to, key, amount, props)
    ensures var t := Participate(s, owner, to, key, amount);
            && (t.Some? <==> s.accounts[to].balance + amount <= I64_MAX)
            && (t.Some? ==> Ok(t.value) && t.value.reg == s.reg && t.value.tokenIdNum == s.tokenIdNum)
  {
    var exchanged := Exchange(LookupAsset(s, key).value, amount).value;
    match CheckedAdd(s.accounts[to].balance, amount)
    case None =>
    case Some(received) =>
      match CheckedSub(s.accounts[owner].balance, amount)
      case None =>
      case Some(paid) => CoveredParticipation(s, owner, to, key, amount, exchanged, paid, received);
  }

  /** What a participation means: TRX one way, the exchanged amount of the token the other. */
  lemma ParticipateDelivers(s: State, owner: Address, to: Address, key: string, amount: I64)
    requires owner in s.accounts && to in s.accounts && owner != to
    requires LookupAsset(s, key).Some? && LookupAsset(s, key).value.trxNum > 0
    requires Participate(s, owner, to, key, amount).Some?
    ensures var t := Participate(s, owner, to, key, amount).value;
            var exchanged := Exchange(LookupAsset(s, key).value, amount);
            && exchanged.Some? && t.accounts.Keys == s.accounts.Keys
            && t.accounts[owner].balance == s.accounts[owner].balance - amount
            && t.accounts[to].balance == s.accounts[to].balance + amount
            && Amount(Holdings(t.accounts[owner], s.reg.sameName), key)
               == Amount(Holdings(s.accounts[owner], s.reg.sameName), key) + exchanged.value
            && Amount(Holdings(t.accounts[to], s.reg.sameName), key)
               == Amount(Holdings(s.accounts[to], s.reg.sameName), key) - exchanged.value
            && forall x | x in s.accounts && x != owner && x != to :: t.accounts[x] == s.accounts[x]
  {
  }

  /** After the switch the row that sets the price is found by parsing the key: it is the
      row of the token that changes hands. */
  lemma ParticipatePricesToken(s: State, to: Address, key: string)
    requires Ok(s) && s.reg.sameName && to in s.accounts && key in s.accounts[to].assetV2
    requires forall id | id in s.reg.v2 :: id <= I64_MAX && s.reg.render(id) == Decimal(id)
    ensures LookupAsset(s, key).Some? && Names(s.reg, key, LookupAsset(s, key).value.id)
  {
    assert AccountOk(to, s.accounts[to], s.reg);
    var id :| id in s.reg.v2 && s.reg.render(id) == key;
    DecimalRoundTrip(id);
  }

  // ---------------------------------------------------------------------------
  // Unfreezing
  // ---------------------------------------------------------------------------

  /** What is unlocked and what stays frozen add up, without saturation. */
  lemma {:induction false} ThawSplits(frozen: seq<Frozen>, now: I64)
    requires forall i | 0 <= i < |frozen| :: frozen[i].amount >= 0
    requires FrozenSum(frozen) <= I64_MAX
    ensures 0 <= Unlocked(frozen, now) == FrozenSum(frozen) - FrozenSum(Remaining(frozen, now))
    ensures forall i | 0 <= i < |Remaining(frozen, now)| :: Remaining(frozen, now)[i].amount >= 0
    decreases |frozen|
  {
    if frozen != [] {
      var n := |frozen| - 1;
      FrozenSumNat(frozen[..n]);
      ThawSplits(frozen[..n], now);
      var kept := Remaining(frozen[..n], now);
      FrozenSumNat(kept);
      assert kept + [] == kept;
      assert (kept + [frozen[n]])[..|kept|] == kept;
    }
  }

  /** What stays frozen is exactly what expires after `now`, as often as it was there. */
  lemma {:induction false} ThawKeepsUnexpired(frozen: seq<Frozen>, now: I64, e: Frozen)
    ensures multiset(Remaining(frozen, now))[e] == if e.expires > now then multiset(frozen)[e] else 0
    decreases |frozen|
  {
    if frozen != [] {
      var n := |frozen| - 1;
      ThawKeepsUnexpired(frozen[..n], now, e);
      assert frozen == frozen[..n] + [frozen[n]];
    }
  }

  /** The positions of what has expired by `now`, and the amounts there. */
  ghost function ExpiredAt(frozen: seq<Frozen>, now: I64): set<int> {
    set i | 0 <= i < |frozen| && frozen[i].expires <= now
  }

  ghost function AmountAt(frozen: seq<Frozen>): int -> int { i => if 0 <= i < |frozen| then frozen[i].amount else 0 }

  ghost function ExpiredSum(frozen: seq<Frozen>, now: I64): int { Sums.Sum(ExpiredAt(frozen, now), AmountAt(frozen)) }

  lemma ExpiredGrows(frozen: seq<Frozen>, now: I64)
    requires frozen != []
    ensures var n := |frozen| - 1;
            ExpiredSum(frozen, now)
            == ExpiredSum(frozen[..n], now) + if frozen[n].expires <= now then frozen[n].amount else 0
  {
    var n := |frozen| - 1;
    var before, after := ExpiredAt(frozen[..n], now), ExpiredAt(frozen, now);
    Sums.Same(before, AmountAt(frozen[..n]), AmountAt(frozen));
    if frozen[n].expires <= now {
      assert after - {n} == before;
      Sums.Split(after, AmountAt(frozen), n);
    } else {
      assert after == before;
    }
  }

  /** What is unlocked is exactly the sum of what has expired. */
  lemma {:induction false} ThawUnlocksExpired(frozen: seq<Frozen>, now: I64)
    requires forall i | 0 <= i < |frozen| :: frozen[i].amount >= 0
    requires FrozenSum(frozen) <= I64_MAX
    ensures Unlocked(frozen, now) == ExpiredSum(frozen, now)
    decreases |frozen|
  {
    if frozen != [] {
      var n := |frozen| - 1;
      FrozenSumNat(frozen[..n]);
      ThawUnlocksExpired(frozen[..n], now);
      ThawSplits(frozen, now);
      ThawSplits(frozen[..n], now);
      FrozenSumNat(Remaining(frozen[..n], now));
      ExpiredGrows(frozen, now);
    } else {
      assert ExpiredAt(frozen, now) == {};
    }
  }

  /** The issuer's token, and its key under the flag in force. */
  lemma IssuedToken(x: Address, a: Account, r: Registry, next: nat) returns (id: nat, key: string)
    requires StoresOk(r, next) && AccountOk(x, a, r) && a.issuedName != ""
    ensures Names(r, key, id) && r.render(id) == a.issuedId
    ensures key == if r.sameName then a.issuedId else a.issuedName
  {
    id :| id in r.v2 && r.render(id) == a.issuedId && r.v2[id].name == a.issuedName && r.v2[id].owner == x;
    key := if r.sameName then a.issuedId else a.issuedName;
  }

  lemma ThawedOk(x: Address, a: Account, r: Registry, now: I64)
    requires AccountOk(x, a, r) && FrozenSum(a.frozen) <= I64_MAX && a.issuedName != ""
    ensures AccountOk(x, a.(frozen := Remaining(a.frozen, now)), r)
  {
    ThawSplits(a.frozen, now);
    var b := a.(frozen := Remaining(a.frozen, now));
    var i :| i in r.v2 && r.render(i) == a.issuedId && r.v2[i].name == a.issuedName && r.v2[i].owner == x;
    assert Issuer(x, b, r);
  }

  lemma UnfreezeIs(s: State, owner: Address, now: I64, id: nat, key: string, thawed: Account, updated: I64)
    requires owner in s.accounts && Names(s.reg, key, id) && s.reg.render(id) == s.accounts[owner].issuedId
    requires key == if s.reg.sameName then s.accounts[owner].issuedId else s.accounts[owner].issuedName
    requires thawed == s.accounts[owner].(frozen := Remaining(s.accounts[owner].frozen, now))
    requires updated == Amount(Holdings(s.accounts[owner], s.reg.sameName), key) + Unlocked(s.accounts[owner].frozen, now)
    ensures Unfreeze(s, owner, now) == Some(s.(accounts := s.accounts[owner := Store(thawed, s.reg, key, updated)]))
  {
  }

  lemma ThawHolds(a: Account, r: Registry, key: string, id: nat, thawed: Account, updated: I64, unlocked: I64)
    requires Names(r, key, id) && r.render(id) == a.issuedId
    requires thawed == a.(frozen := thawed.frozen) && unlocked == FrozenSum(a.frozen) - FrozenSum(thawed.frozen)
    requires updated == Amount(a.assetV2, r.render(id)) + unlocked
    ensures forall k :: Holding(Store(thawed, r, key, updated), k) == Holding(a, k)
  {
    forall k ensures Holding(Store(thawed, r, key, updated), k) == Holding(a, k) {
      StoreHolding(thawed, r, key, id, updated, k);
    }
  }

  /** The issuer can hold no more than the supply, so nothing it thaws overflows. */
  lemma IssuerBounded(s: State, owner: Address, id: nat)
    requires Ok(s) && owner in s.accounts && id in s.reg.v2 && s.reg.render(id) == s.accounts[owner].issuedId
    ensures 0 <= FrozenSum(s.accounts[owner].frozen)
    ensures 0 <= Amount(s.accounts[owner].assetV2, s.reg.render(id))
    ensures Amount(s.accounts[owner].assetV2, s.reg.render(id)) + FrozenSum(s.accounts[owner].frozen) <= I64_MAX
  {
    assert AccountOk(owner, s.accounts[owner], s.reg);
    HoldingsBounded(s.accounts, s.reg, owner, owner + 1, id);
    HoldingNat(owner, s.accounts[owner], s.reg, s.reg.render(id));
    FrozenSumNat(s.accounts[owner].frozen);
    if owner + 1 in s.accounts {
      assert AccountOk(owner + 1, s.accounts[owner + 1], s.reg);
      HoldingNat(owner + 1, s.accounts[owner + 1], s.reg, s.reg.render(id));
    }
  }

  lemma AccountWritten(s: State, x: Address, a: Account)
    requires Ok(s) && x in s.accounts && AccountOk(x, a, s.reg) && forall k :: Holding(a, k) == Holding(s.accounts[x], k)
    ensures Ok(s.(accounts := s.accounts[x := a]))
  {
    AllPut(s.accounts, x, a, s.reg);
    OneConserved(s.accounts, s.reg, x, a);
  }

  lemma ThawedAmount(s: State, owner: Address, key: string, id: nat, now: I64) returns (updated: I64)
    requires Ok(s) && owner in s.accounts && Names(s.reg, key, id) && s.reg.render(id) == s.accounts[owner].issuedId
    ensures FrozenSum(s.accounts[owner].frozen) <= I64_MAX
    ensures 0 <= updated == Amount(Holdings(s.accounts[owner], s.reg.sameName), key) + Unlocked(s.accounts[owner].frozen, now)
    ensures updated == Amount(s.accounts[owner].assetV2, s.reg.render(id)) + Unlocked(s.accounts[owner].frozen, now)
  {
    var a := s.accounts[owner];
    assert AccountOk(owner, a, s.reg);
    IssuerBounded(s, owner, id);
    ThawSplits(a.frozen, now);
    FrozenSumNat(Remaining(a.frozen, now));
    HeldAmount(owner, a, s.reg, key, id);
    updated := Amount(Holdings(a, s.reg.sameName), key) + Unlocked(a.frozen, now);
  }

  /** A validated unfreeze always executes and keeps the invariant. */
  lemma UnfreezeKeepsOk(s: State, owner: Address, now: I64)
    requires Ok(s) && UnfreezeValid(s, owner, now)
    ensures var t := Unfreeze(s, owner, now);
            t.Some? && Ok(t.value) && t.value.reg == s.reg && t.value.tokenIdNum == s.tokenIdNum
  {
    var a := s.accounts[owner];
    assert AccountOk(owner, a, s.reg);
    var id, key := IssuedToken(owner, a, s.reg, s.tokenIdNum);
    var updated := ThawedAmount(s, owner, key, id, now);
    var thawed := a.(frozen := Remaining(a.frozen, now));
    ThawedOk(owner, a, s.reg, now);
    ThawSplits(a.frozen, now);
    ThawHolds(a, s.reg, key, id, thawed, updated, Unlocked(a.frozen, now));
    StoreKeepsAccount(owner, thawed, s.reg, s.tokenIdNum, key, id, updated);
    UnfreezeIs(s, owner, now, id, key, thawed, updated);
    AccountWritten(s, owner, Store(thawed, s.reg, key, updated));
  }

  /** What a validated unfreeze means: the issuer's authoritative balance of its own token goes up
      by exactly the sum of what has expired, what has not stays frozen, and nobody's TRX and no
      other account changes. */
  lemma UnfreezeDelivers(s: State, owner: Address, now: I64)
    requires Ok(s) && UnfreezeValid(s, owner, now) && Unfreeze(s, owner, now).Some?
    ensures var a, t := s.accounts[owner], Unfreeze(s, owner, now).value;
            && t == s.(accounts := t.accounts) && t.accounts.Keys == s.accounts.Keys
            && (forall x | x in s.accounts && x != owner :: t.accounts[x] == s.accounts[x])
            && (var b, key := t.accounts[owner], if s.reg.sameName then a.issuedId else a.issuedName;
                && b == a.(asset := b.asset, assetV2 := b.assetV2, frozen := b.frozen)
                && Amount(Holdings(b, s.reg.sameName), key)
                   == Amount(Holdings(a, s.reg.sameName), key) + ExpiredSum(a.frozen, now)
                && forall e :: multiset(b.frozen)[e] == if e.expires > now then multiset(a.frozen)[e] else 0)
  {
    var a := s.accounts[owner];
    assert AccountOk(owner, a, s.reg);
    var id, key := IssuedToken(owner, a, s.reg, s.tokenIdNum);
    var updated := ThawedAmount(s, owner, key, id, now);
    ThawUnlocksExpired(a.frozen, now);
    UnfreezeIs(s, owner, now, id, key, a.(frozen := Remaining(a.frozen, now)), updated);
    forall e ensures multiset(Remaining(a.frozen, now))[e] == if e.expires > now then multiset(a.frozen)[e] else 0 {
      ThawKeepsUnexpired(a.frozen, now, e);
    }
  }

  // ---------------------------------------------------------------------------
  // Issuing
  // ---------------------------------------------------------------------------

  lemma {:induction false} EntriesSum(c: Issue, n: nat)
    requires n <= |c.frozen|
    ensures FrozenSum(FrozenEntries(c)[..n]) == FrozenTotal(c.frozen[..n])
  {
    if n > 0 {
      EntriesSum(c, n - 1);
      assert FrozenEntries(c)[..n][..n - 1] == FrozenEntries(c)[..n - 1];
      assert c.frozen[..n][..n - 1] == c.frozen[..n - 1];
    }
  }

  lemma {:induction false} FrozenTotalNat(frozen: seq<FrozenSupply>)
    requires forall i | 0 <= i < |frozen| :: frozen[i].amount > 0
    ensures FrozenTotal(frozen) >= 0
  {
    if frozen != [] { FrozenTotalNat(frozen[..|frozen| - 1]); }
  }

  /** What stays liquid and what is frozen make up the supply. */
  lemma IssueSplits(c: Issue, props: Props) returns (liquid: I64)
    requires c.supply > 0 && FrozenValid(c, props)
    ensures 0 <= liquid == c.supply - FrozenTotal(c.frozen)
    ensures liquid + FrozenSum(FrozenEntries(c)) == c.supply
    ensures forall i | 0 <= i < |c.frozen| :: FrozenEntries(c)[i].amount > 0
  {
    FrozenTotalNat(c.frozen);
    EntriesSum(c, |c.frozen|);
    assert FrozenEntries(c)[..|c.frozen|] == FrozenEntries(c) && c.frozen[..|c.frozen|] == c.frozen;
    liquid := c.supply - FrozenTotal(c.frozen);
  }

  /** Expiry times are stored exactly if and only if the product of days and period fits. */
  lemma ExpiryExact(c: Issue, props: Props, i: nat)
    requires FrozenValid(c, props) && i < |c.frozen|
    ensures FrozenEntries(c)[i].expires == c.start + c.frozen[i].days * FROZEN_PERIOD
            <==> I64_MIN <= c.frozen[i].days * FROZEN_PERIOD <= I64_MAX
  {
    var product := c.frozen[i].days * FROZEN_PERIOD;
    var m := U64_MAX + 1;
    assert product == m * (product / m) + product % m;
    if I64_MIN <= product <= I64_MAX {
      assert product / m == if product < 0 then -1 else 0;
    }
  }

  /** Under chain parameters of which the longest time fits, as the default of 3652 days does,
      every stored expiry is exact. */
  lemma ExpiriesExact(c: Issue, props: Props)
    requires FrozenValid(c, props) && 0 <= props.minFrozenTime && props.maxFrozenTime * FROZEN_PERIOD <= I64_MAX
    ensures forall i | 0 <= i < |c.frozen| ::
              FrozenEntries(c)[i].expires == c.start + c.frozen[i].days * FROZEN_PERIOD
  {
    forall i | 0 <= i < |c.frozen|
      ensures FrozenEntries(c)[i].expires == c.start + c.frozen[i].days * FROZEN_PERIOD
    {
      ExpiryExact(c, props, i);
    }
  }

  /** Otherwise a validated supply frozen for 584 million years may thaw ten hours after the start. */
  lemma ExpiryWraps(c: Issue, props: Props)
    requires c == EXAMPLE_ISSUE.(frozen := [FrozenSupply(5, 213_503_982_335)])
    requires props == EXAMPLE_PROPS.(maxFrozenTime := I64_MAX)
    ensures FrozenValid(c, props) && FrozenEntries(c)[0].expires == c.start + 34_448_384
  {
    assert 213_503_982_335 * FROZEN_PERIOD == U64_MAX + 1 + 34_448_384;
    assert c.frozen[..0] == [];
  }

  /** A token id and its key that nobody has seen. */
  lemma FreshKey(x: Address, a: Account, r: Registry, next: nat, id: nat)
    requires StoresOk(r, next) && AccountOk(x, a, r) && id > next
    ensures id !in r.v2 && r.render(id) !in a.assetV2 && Amount(a.assetV2, r.render(id)) == 0
    ensures Holding(a, r.render(id)) == 0
  {
  }

  lemma TokenKeyGrows(r: Registry, r': Registry, key: string)
    requires TokenKey(key, r) && r'.render == r.render && forall j | j in r.v2 :: j in r'.v2
    ensures TokenKey(key, r')
  {
    var j :| j in r.v2 && r.render(j) == key;
    assert j in r'.v2 && r'.render(j) == key;
  }

  lemma RegisteredMirrors(a: Account, r: Registry, row: Asset)
    requires Mirrored(a, r) && !r.sameName && row.name !in r.v1 && Amount(a.assetV2, r.render(row.id)) == 0
    ensures Mirrored(a, Registered(r, row))
  {
    var r' := Registered(r, row);
    forall n | n in r'.v1 ensures Amount(a.asset, n) == Amount(a.assetV2, r'.render(r'.v1[n].id)) {
      if n == row.name { assert n !in a.asset; }
    }
  }

  /** An account that did not issue the new token is as good under the new registry. */
  lemma RegisteredKeepsAccount(x: Address, a: Account, r: Registry, next: nat, row: Asset)
    requires StoresOk(r, next) && AccountOk(x, a, r) && row.id > next && (!r.sameName ==> row.name !in r.v1)
    ensures AccountOk(x, a, Registered(r, row))
  {
    var r' := Registered(r, row);
    FreshKey(x, a, r, next, row.id);
    forall k | k in a.assetV2 ensures TokenKey(k, r') { TokenKeyGrows(r, r', k); }
    if a.issuedName != "" {
      var j :| j in r.v2 && r.render(j) == a.issuedId && r.v2[j].name == a.issuedName && r.v2[j].owner == x;
      assert j in r'.v2 && r'.render(j) == a.issuedId && r'.v2[j] == r.v2[j];
      assert Issuer(x, a, r');
    }
    if !r.sameName { RegisteredMirrors(a, r, row); }
  }

  lemma RegisteredStoresOk(r: Registry, next: nat, row: Asset)
    requires StoresOk(r, next) && row.id > next && row.name != "" && row.supply > 0 && row.num > 0 && row.trxNum > 0
    requires !r.sameName ==> row.name !in r.v1
    ensures StoresOk(Registered(r, row), row.id)
  {
    var r' := Registered(r, row);
    if !r.sameName {
      forall id | id in r'.v2 ensures r'.v2[id].name in r'.v1 && r'.v1[r'.v2[id].name].id == id {
        if id != row.id { assert r.v2[id].name in r.v1; }
      }
    }
  }

  lemma IssuedHolding(x: Address, a: Account, r: Registry, next: nat, c: Issue, id: nat, liquid: I64, k: string)
    requires StoresOk(r, next) && AccountOk(x, a, r) && a.issuedName == "" && id > next && liquid >= 0
    ensures Holding(Issued(a, c, id, liquid, r), k)
            == if k == r.render(id) then liquid + FrozenSum(FrozenEntries(c)) else Holding(a, k)
  {
    FreshKey(x, a, r, next, id);
    assert [] + FrozenEntries(c) == FrozenEntries(c);
  }

  lemma IssuedMirrors(a: Account, r: Registry, next: nat, c: Issue, row: Asset, liquid: I64)
    requires StoresOk(r, next) && Mirrored(a, r) && !r.sameName && c.name !in r.v1 && row.name == c.name
    requires row.id > next && Amount(a.assetV2, r.render(row.id)) == 0
    ensures Mirrored(Issued(a, c, row.id, liquid, r), Registered(r, row))
  {
    var b, r' := Issued(a, c, row.id, liquid, r), Registered(r, row);
    forall n | n in r'.v1 ensures Amount(b.asset, n) == Amount(b.assetV2, r'.render(r'.v1[n].id)) {
      if n == c.name { assert n !in a.asset; } else { assert r.v1[n].id in r.v2; }
    }
  }

  lemma IssuedOk(x: Address, a: Account, r: Registry, next: nat, c: Issue, row: Asset, liquid: I64)
    requires StoresOk(r, next) && AccountOk(x, a, r) && a.issuedName == "" && liquid >= 0
    requires row.id > next && row.name == c.name && row.owner == x && c.name != "" && (!r.sameName ==> c.name !in r.v1)
    requires forall i | 0 <= i < |c.frozen| :: c.frozen[i].amount > 0
    ensures AccountOk(x, Issued(a, c, row.id, liquid, r), Registered(r, row))
  {
    var b, r' := Issued(a, c, row.id, liquid, r), Registered(r, row);
    FreshKey(x, a, r, next, row.id);
    assert row.id in r'.v2 && r'.render(row.id) == b.issuedId && r'.v2[row.id] == row;
    assert TokenKey(r.render(row.id), r') && Issuer(x, b, r');
    forall k | k in a.assetV2 ensures TokenKey(k, r') { TokenKeyGrows(r, r', k); }
    if !r.sameName { IssuedMirrors(a, r, next, c, row, liquid); }
  }

  /** Nobody holds a token that has not been issued. */
  lemma NobodyHolds(accounts: Accounts, r: Registry, next: nat, id: nat)
    requires StoresOk(r, next) && AllOk(accounts, r) && id > next
    ensures Total(accounts, r.render(id)) == 0
  {
    forall x | x in accounts ensures HoldingIn(accounts, r.render(id))(x) == 0 {
      assert AccountOk(x, accounts[x], r);
      FreshKey(x, accounts[x], r, next, id);
    }
    Sums.Widen({}, accounts.Keys, HoldingIn(accounts, r.render(id)));
  }

  lemma IssueConserved(accounts: Accounts, r: Registry, next: nat, x: Address, a: Account, row: Asset)
    requires StoresOk(r, next) && AllOk(accounts, r) && Conserved(accounts, r) && x in accounts && row.id > next
    requires forall k :: Holding(a, k) == if k == r.render(row.id) then row.supply else Holding(accounts[x], k)
    ensures Conserved(accounts[x := a], Registered(r, row))
  {
    var r' := Registered(r, row);
    assert AccountOk(x, accounts[x], r);
    FreshKey(x, accounts[x], r, next, row.id);
    NobodyHolds(accounts, r, next, row.id);
    forall id | id in r'.v2 ensures Total(accounts[x := a], r'.render(id)) == r'.v2[id].supply {
      TotalPut(accounts, x, a, r.render(id));
      if id != row.id { assert Total(accounts, r.render(id)) == r.v2[id].supply; }
    }
  }

  lemma IssueAllOk(accounts: Accounts, r: Registry, next: nat, x: Address, a: Account, row: Asset)
    requires StoresOk(r, next) && AllOk(accounts, r) && row.id > next && (!r.sameName ==> row.name !in r.v1)
    requires AccountOk(x, a, Registered(r, row))
    ensures AllOk(accounts[x := a], Registered(r, row))
  {
    var after := accounts[x := a];
    forall y | y in after ensures AccountOk(y, after[y], Registered(r, row)) {
      if y != x {
        assert AccountOk(y, accounts[y], r);
        RegisteredKeepsAccount(y, accounts[y], r, next, row);
      }
    }
  }

  function IssueRow(s: State, c: Issue): Asset {
    Asset(s.tokenIdNum + 1, c.name, c.owner, c.supply, c.num, c.trxNum, c.start, c.end)
  }

  lemma IssueIs(s: State, c: Issue, props: Props, left: I64, liquid: I64)
    requires c.owner in s.accounts && CheckedSub(s.accounts[c.owner].balance, props.issueFee) == Some(left)
    requires liquid == c.supply - FrozenTotal(c.frozen)
    ensures var paid := Dispose(s, props.issueFee, props);
            var issuer := Issued(s.accounts[c.owner].(balance := left), c, s.tokenIdNum + 1, liquid, s.reg);
            IssueAsset(s, c, props)
            == Some(State(paid.accounts[c.owner := issuer], Registered(s.reg, IssueRow(s, c)), s.tokenIdNum + 1, paid.burned))
  {
    DisposeSame(s, props.issueFee, props);
  }

  /** Writing the issuer into a state in which only TRX has changed. */
  lemma IssueWritten(s: State, t: State, c: Issue, row: Asset, payer: Account, liquid: I64)
    requires Ok(t) && SameButTrx(s, t) && c.owner in s.accounts && SameAssets(s.accounts[c.owner], payer)
    requires payer.issuedName == "" && c.name != "" && (!s.reg.sameName ==> c.name !in s.reg.v1)
    requires row == IssueRow(s, c) && c.supply > 0 && c.num > 0 && c.trxNum > 0
    requires liquid >= 0 && liquid + FrozenSum(FrozenEntries(c)) == c.supply
    requires forall i | 0 <= i < |c.frozen| :: c.frozen[i].amount > 0
    ensures var issuer := Issued(payer, c, row.id, liquid, s.reg);
            Ok(State(t.accounts[c.owner := issuer], Registered(s.reg, row), row.id, t.burned))
  {
    var x, r, next := c.owner, s.reg, s.tokenIdNum;
    var issuer := Issued(payer, c, row.id, liquid, r);
    assert SameAssets(s.accounts[x], t.accounts[x]);
    assert AccountOk(x, t.accounts[x], r);
    SameAssetsOk(x, t.accounts[x], payer, r);
    forall k ensures Holding(issuer, k) == if k == r.render(row.id) then row.supply else Holding(t.accounts[x], k) {
      IssuedHolding(x, payer, r, next, c, row.id, liquid, k);
    }
    IssuedOk(x, payer, r, next, c, row, liquid);
    IssueConserved(t.accounts, r, next, x, issuer, row);
    IssueAllOk(t.accounts, r, next, x, issuer, row);
    RegisteredStoresOk(r, next, row);
  }

  lemma IssueFee(s: State, c: Issue, props: Props) returns (left: I64)
    requires IssueValid(s, c, props) && props.issueFee >= 0
    ensures CheckedSub(s.accounts[c.owner].balance, props.issueFee) == Some(left)
  {
    left := s.accounts[c.owner].balance - props.issueFee;
  }

  /** A validated issue never fails halfway, its id is new, and every supply adds up. */
  lemma IssueKeepsOk(s: State, c: Issue, props: Props)
    requires Ok(s) && IssueValid(s, c, props) && props.issueFee >= 0
    ensures var t := IssueAsset(s, c, props);
            && t.Some? && Ok(t.value) && t.value.tokenIdNum == s.tokenIdNum + 1
            && t.value.reg == Registered(s.reg, IssueRow(s, c)) && s.tokenIdNum + 1 !in s.reg.v2
  {
    var liquid := IssueSplits(c, props);
    var left := IssueFee(s, c, props);
    IssueIs(s, c, props, left, liquid);
    DisposeKeeps(s, props.issueFee, props);
    DisposeSame(s, props.issueFee, props);
    IssueWritten(s, Dispose(s, props.issueFee, props), c, IssueRow(s, c), s.accounts[c.owner].(balance := left), liquid);
  }

  // ---------------------------------------------------------------------------
  // The switch
  // ---------------------------------------------------------------------------

  /** Setting ALLOW_SAME_TOKEN_NAME. */
  function Switch(s: State): State { s.(reg := s.reg.(sameName := true)) }

  /** What an account shows of token `id` under the flag in force. */
  function Shown(a: Account, r: Registry, id: nat): I64
    requires id in r.v2
  {
    if r.sameName then Amount(a.assetV2, r.render(id)) else Amount(a.asset, r.v2[id].name)
  }

  lemma SwitchedAccountOk(x: Address, a: Account, r: Registry)
    requires AccountOk(x, a, r)
    ensures AccountOk(x, a, r.(sameName := true))
  {
    var r' := r.(sameName := true);
    forall k | k in a.assetV2 ensures TokenKey(k, r') { TokenKeyGrows(r, r', k); }
    if a.issuedName != "" {
      var j :| j in r.v2 && r.render(j) == a.issuedId && r.v2[j].name == a.issuedName && r.v2[j].owner == x;
      assert j in r'.v2 && r'.render(j) == a.issuedId;
      assert Issuer(x, a, r');
    }
  }

  /** At any moment, the switch changes no balance of any token, and no supply. */
  lemma SwitchSafe(s: State)
    requires Ok(s)
    ensures Ok(Switch(s))
    ensures forall x, id | x in s.accounts && id in s.reg.v2 ::
              Shown(s.accounts[x], s.reg, id) == Shown(Switch(s).accounts[x], Switch(s).reg, id)
  {
    var t := Switch(s);
    forall x | x in t.accounts ensures AccountOk(x, t.accounts[x], t.reg) {
      assert AccountOk(x, s.accounts[x], s.reg);
      SwitchedAccountOk(x, s.accounts[x], s.reg);
    }
    forall id | id in t.reg.v2 ensures Total(t.accounts, t.reg.render(id)) == t.reg.v2[id].supply {
      assert Total(s.accounts, s.reg.render(id)) == s.reg.v2[id].supply;
    }
    forall x, id | x in s.accounts && id in s.reg.v2
      ensures Shown(s.accounts[x], s.reg, id) == Shown(t.accounts[x], t.reg, id)
    {
      assert AccountOk(x, s.accounts[x], s.reg);
      assert s.reg.sameName || s.reg.v1[s.reg.v2[id].name].id == id;
    }
  }

  // ---------------------------------------------------------------------------
  // Runs
  // ---------------------------------------------------------------------------

  datatype Action =
    | SendAsset(owner: Address, to: Address, key: string, amount: I64)
    | NewAsset(issue: Issue)
    | BuyAsset(owner: Address, to: Address, key: string, amount: I64)
    | ThawAsset(owner: Address)
    | SwitchFlag

  ghost predicate Validates(act: Action, s: State, props: Props) {
    match act
    case SendAsset(owner, to, key, amount) => TransferValid(s, owner, to, key, amount, props)
    case NewAsset(c) => IssueValid(s, c, props)
    case BuyAsset(owner, to, key, amount) =>
      && LookupAsset(s, key).Some? && LookupAsset(s, key).value.trxNum > 0
      && ParticipateValid(s, owner, to, key, amount, props)
    case ThawAsset(owner) => UnfreezeValid(s, owner, props.now)
    case SwitchFlag => true
  }

  ghost function Executes(act: Action, s: State, props: Props): Option<State>
    requires Validates(act, s, props)
  {
    match act
    case SendAsset(owner, to, key, amount) => Transfer(s, owner, to, key, amount, props)
    case NewAsset(c) => IssueAsset(s, c, props)
    case BuyAsset(owner, to, key, amount) => Participate(s, owner, to, key, amount)
    case ThawAsset(owner) => Unfreeze(s, owner, props.now)
    case SwitchFlag => Some(Switch(s))
  }

  /** A step that does not validate or does not execute changes nothing. */
  ghost function After(act: Action, s: State, props: Props): State {
    if Validates(act, s, props) && Executes(act, s, props).Some? then Executes(act, s, props).value else s
  }

  /** Rows stay as they were issued, and the id counter only goes up. */
  ghost predicate Extends(s: State, t: State) {
    && s.tokenIdNum <= t.tokenIdNum
    && (forall id | id in s.reg.v2 :: id in t.reg.v2 && t.reg.v2[id] == s.reg.v2[id])
    && (forall id | id in t.reg.v2 && id !in s.reg.v2 :: id > s.tokenIdNum)
  }

  lemma StepKeepsOk(act: Action, s: State, props: Props)
    requires Ok(s) && props.issueFee >= 0
    ensures Ok(After(act, s, props)) && Extends(s, After(act, s, props))
  {
    if Validates(act, s, props) {
      match act
      case SendAsset(owner, to, key, amount) => TransferKeepsOk(s, owner, to, key, amount, props);
      case NewAsset(c) => IssueKeepsOk(s, c, props);
      case BuyAsset(owner, to, key, amount) => ParticipateKeepsOk(s, owner, to, key, amount, props);
      case ThawAsset(owner) => UnfreezeKeepsOk(s, owner, props.now);
      case SwitchFlag => SwitchSafe(s);
    }
  }

  ghost function Run(acts: seq<(Action, Props)>, s: State): State
    decreases |acts|
  {
    if acts == [] then s else Run(acts[1..], After(acts[0].0, s, acts[0].1))
  }

  /** Over every run: each token's holdings add up to the supply it was issued with, the two
      maps agree until the switch, and no id is issued twice. */
  lemma {:induction false} RunKeepsOk(acts: seq<(Action, Props)>, s: State)
    requires Ok(s) && forall i | 0 <= i < |acts| :: acts[i].1.issueFee >= 0
    ensures Ok(Run(acts, s)) && Extends(s, Run(acts, s))
    decreases |acts|
  {
    if acts != [] {
      assert acts[0].1.issueFee >= 0;
      StepKeepsOk(acts[0].0, s, acts[0].1);
      RunKeepsOk(acts[1..], After(acts[0].0, s, acts[0].1));
    }
  }

  // ---------------------------------------------------------------------------
  // Validated is not executed
  // ---------------------------------------------------------------------------

  /** A validated transfer fails if and only if the map that the flag says is authoritative
      does not cover it. */
  lemma ValidatedTransferFails(s: State, owner: Address, to: Address, key: string, amount: I64, props: Props)
    requires Ok(s) && TransferValid(s, owner, to, key, amount, props) && props.createFee >= 0
    ensures Transfer(s, owner, to, key, amount, props).None?
            <==> Amount(Holdings(s.accounts[owner], s.reg.sameName), key) < amount
  {
    TransferKeepsOk(s, owner, to, key, amount, props);
  }

  const EXAMPLE_PROPS := Props(0, 0, 0, false, true, 0, 10, 1, 3652)

  const EXAMPLE_ISSUE := Issue(1, "A", 5, 1, 1, 1, 2, [], true)

  /** Account 1 issues five of token A before the switch. */
  function ExampleStart(): State {
    State(map[1 := NewAccount, 2 := NewAccount], Registry(map[], map[], false, Decimal), 1_000_000, 0)
  }

  lemma ExampleOk()
    ensures Ok(ExampleStart()) && IssueValid(ExampleStart(), EXAMPLE_ISSUE, EXAMPLE_PROPS)
  {
    var s := ExampleStart();
    assert Injective(s.reg.render) by {
      forall m: nat, n: nat | s.reg.render(m) == s.reg.render(n) ensures m == n { DecimalInjective(m, n); }
    }
    NewAccountOk(1, s.reg);
    NewAccountOk(2, s.reg);
    assert FrozenTotal(EXAMPLE_ISSUE.frozen) == 0;
  }

  /** Then a transfer of five "1000001" from account 1, naming the token by its id, passes
      validation, which looks into the id-keyed map, and fails to execute. */
  lemma ExampleTransferFails()
    ensures var s := IssueAsset(ExampleStart(), EXAMPLE_ISSUE, EXAMPLE_PROPS);
            && s.Some? && Ok(s.value)
            && TransferValid(s.value, 1, 2, Decimal(1_000_001), 5, EXAMPLE_PROPS)
            && Transfer(s.value, 1, 2, Decimal(1_000_001), 5, EXAMPLE_PROPS).None?
  {
    ExampleOk();
    IssueKeepsOk(ExampleStart(), EXAMPLE_ISSUE, EXAMPLE_PROPS);
    var s := IssueAsset(ExampleStart(), EXAMPLE_ISSUE, EXAMPLE_PROPS).value;
    DigitsRoundTrip(1_000_001);
    DecimalWidth();
    assert Decimal(1_000_001) != "A" by { assert "A"[0] == 'A'; }
    assert s.accounts[1].assetV2 == map[Decimal(1_000_001) := 5] && s.accounts[1].asset == map["A" := 5];
  }

  lemma DecimalWidth()
    ensures |Decimal(1_000_001)| == 7
  {
    assert |Decimal(10)| == 2 && |Decimal(100)| == 3;
    assert |Decimal(1_000)| == 4 && |Decimal(10_000)| == 5;
    assert |Decimal(100_000)| == 6;
  }
}
