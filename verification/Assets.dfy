/**
 TRC-10 assets: issue, transfer, participate, unfreeze. Balances live in a map keyed by
 token name until the one-way flag ALLOW_SAME_TOKEN_NAME is set, and in a map keyed by
 token id from then on; before the switch every write goes to both.
 */
module Assets {
  import opened Words
  import opened Decimals

  type Address = nat

  const MAX_ASSET_NAME := 32
  /** Milliseconds per frozen day. */
  const FROZEN_PERIOD: I64 := 86_400_000

  datatype Frozen = Frozen(amount: I64, expires: I64)

  datatype Account = Account(
    balance: I64, isContract: bool, asset: map<string, I64>, assetV2: map<string, I64>,
    issuedName: string, issuedId: string, frozen: seq<Frozen>)

  const NewAccount := Account(0, false, map[], map[], "", "", [])

  /** A row of an asset store. */
  datatype Asset = Asset(id: nat, name: string, owner: Address, supply: I64, num: I64, trxNum: I64, start: I64, end: I64)

  /** The two asset stores, the flag, and how a token id is written as a map key
      (`Decimal` in the node; the laws only need it to be injective). */
  datatype Registry = Registry(v1: map<string, Asset>, v2: map<nat, Asset>, sameName: bool, render: nat -> string)

  datatype State = State(accounts: map<Address, Account>, reg: Registry, tokenIdNum: nat, burned: I64)

  /** Chain parameters and the head block's time. */
  datatype Props = Props(
    now: I64, issueFee: I64, createFee: I64, forbidContracts: bool, burns: bool, blackhole: Address,
    maxFrozen: I64, minFrozenTime: I64, maxFrozenTime: I64)

  function Amount(m: map<string, I64>, key: string): I64 { if key in m then m[key] else 0 }

  function CheckedAdd(a: I64, b: I64): Option<I64> { if I64_MIN <= a + b <= I64_MAX then Some(a + b) else None }

  function CheckedSub(a: I64, b: I64): Option<I64> { if I64_MIN <= a - b <= I64_MAX then Some(a - b) else None }

  function WrapMul(a: I64, b: I64): I64 {
    var r := (a * b) % (U64_MAX + 1);
    if r > I64_MAX then r - U64_MAX - 1 else r
  }

  /** `dispose_fee_to_blackhole` */
  function Dispose(s: State, fee: I64, props: Props): State {
    if fee == 0 then s
    else if props.burns then s.(burned := WrapAdd(s.burned, fee))
    else if props.blackhole in s.accounts then
      var hole := s.accounts[props.blackhole];
      s.(accounts := s.accounts[props.blackhole := hole.(balance := WrapAdd(hole.balance, fee))])
    else s
  }

  // ---------------------------------------------------------------------------
  // Balances
  // ---------------------------------------------------------------------------

  /** The map that the flag says is authoritative. */
  function Holdings(a: Account, sameName: bool): map<string, I64> { if sameName then a.assetV2 else a.asset }

  /** Writes a balance; before the switch the id-keyed map gets the same total, if the name
      resolves to a token. */
  function Store(a: Account, reg: Registry, key: string, updated: I64): Account {
    if reg.sameName then a.(assetV2 := a.assetV2[key := updated])
    else
      var b := a.(asset := a.asset[key := updated]);
      if key in reg.v1 then b.(assetV2 := b.assetV2[reg.render(reg.v1[key].id) := updated]) else b
  }

  /** `debit_asset` */
  function Debit(a: Account, reg: Registry, key: string, amount: I64): Option<Account> {
    var held := Holdings(a, reg.sameName);
    if amount < 0 || key !in held || held[key] < amount then None
    else Some(Store(a, reg, key, held[key] - amount))
  }

  /** `credit_asset` */
  function Credit(a: Account, reg: Registry, key: string, amount: I64): Option<Account> {
    match CheckedAdd(Amount(Holdings(a, reg.sameName), key), amount)
    case None => None
    case Some(updated) => Some(Store(a, reg, key, updated))
  }

  // ---------------------------------------------------------------------------
  // Transfer
  // ---------------------------------------------------------------------------

  /** `lookup_asset_balance`: the id-keyed map first, whatever the flag. */
  function LookupBalance(a: Account, key: string): I64 {
    if key in a.assetV2 then a.assetV2[key] else Amount(a.asset, key)
  }

  /** `validate_transfer_asset` */
  predicate TransferValid(s: State, owner: Address, to: Address, key: string, amount: I64, props: Props) {
    && amount > 0 && owner != to && 0 < |key| <= MAX_ASSET_NAME && owner in s.accounts
    && LookupBalance(s.accounts[owner], key) >= amount
    && (if to in s.accounts then !(props.forbidContracts && s.accounts[to].isContract)
        else s.accounts[owner].balance >= props.createFee)
  }

  /** `execute_transfer_asset`. Both accounts are written back from copies taken before the
      fee was disposed of. */
  function Transfer(s: State, owner: Address, to: Address, key: string, amount: I64, props: Props): Option<State>
    requires owner in s.accounts
  {
    var fee := if to in s.accounts then 0 else props.createFee;
    var recipient := if to in s.accounts then s.accounts[to] else NewAccount;
    match Debit(s.accounts[owner], s.reg, key, amount)
    case None => None
    case Some(debited) =>
      match Credit(recipient, s.reg, key, amount)
      case None => None
      case Some(credited) =>
        match CheckedSub(debited.balance, fee)
        case None => None
        case Some(left) =>
          var paid := Dispose(s, fee, props);
          Some(paid.(accounts := paid.accounts[owner := debited.(balance := left)][to := credited]))
  }

  // ---------------------------------------------------------------------------
  // Issue
  // ---------------------------------------------------------------------------

  datatype FrozenSupply = FrozenSupply(amount: I64, days: I64)

  /** `detailsOk` stands for the checks of precision, abbreviation, url, description and net
      limits, which nothing else depends on. */
  datatype Issue = Issue(
    owner: Address, name: string, supply: I64, trxNum: I64, num: I64, start: I64, end: I64,
    frozen: seq<FrozenSupply>, detailsOk: bool)

  predicate NameValid(name: string) {
    0 < |name| <= MAX_ASSET_NAME && forall i | 0 <= i < |name| :: '!' <= name[i] <= '~'
  }

  function LowerChar(c: char): char { if 'A' <= c <= 'Z' then (c as int + 32) as char else c }

  predicate IsTrx(name: string) {
    |name| == 3 && LowerChar(name[0]) == 't' && LowerChar(name[1]) == 'r' && LowerChar(name[2]) == 'x'
  }

  function FrozenTotal(frozen: seq<FrozenSupply>): int {
    if frozen == [] then 0 else FrozenTotal(frozen[..|frozen| - 1]) + frozen[|frozen| - 1].amount
  }

  /** Every frozen part is positive, within the time bounds and expires in range, and
      together they do not exceed the supply. */
  ghost predicate FrozenValid(c: Issue, props: Props) {
    && |c.frozen| <= props.maxFrozen
    && FrozenTotal(c.frozen) <= c.supply
    && (forall i | 0 <= i < |c.frozen| ::
          && c.frozen[i].amount > 0
          && props.minFrozenTime <= c.frozen[i].days <= props.maxFrozenTime
          && CheckedAdd(c.start, WrapMul(c.frozen[i].days, FROZEN_PERIOD)).Some?)
  }

  /** `validate_asset_issue` */
  ghost predicate IssueValid(s: State, c: Issue, props: Props) {
    && NameValid(c.name) && (s.reg.sameName ==> !IsTrx(c.name)) && c.detailsOk
    && c.start != 0 && c.end != 0 && c.start < c.end && props.now < c.start
    && (!s.reg.sameName ==> c.name !in s.reg.v1)
    && c.supply > 0 && c.trxNum > 0 && c.num > 0
    && FrozenValid(c, props)
    && c.owner in s.accounts && s.accounts[c.owner].issuedName == ""
    && s.accounts[c.owner].balance >= props.issueFee
  }

  /** Expiry as stored: saturating on top of a wrapped product. */
  function Expiry(start: I64, days: I64): I64 {
    SatSigned(start, WrapMul(days, FROZEN_PERIOD))
  }

  function FrozenEntries(c: Issue): seq<Frozen> {
    seq(|c.frozen|, i requires 0 <= i < |c.frozen| => Frozen(c.frozen[i].amount, Expiry(c.start, c.frozen[i].days)))
  }

  function Issued(a: Account, c: Issue, id: nat, liquid: I64, reg: Registry): Account {
    var key := reg.render(id);
    a.(asset := if reg.sameName then a.asset else a.asset[c.name := SatSigned(Amount(a.asset, c.name), liquid)],
       assetV2 := a.assetV2[key := SatSigned(Amount(a.assetV2, key), liquid)],
       issuedName := c.name, issuedId := key, frozen := a.frozen + FrozenEntries(c))
  }

  /** Before the switch the row goes to both stores. */
  function Registered(reg: Registry, row: Asset): Registry {
    reg.(v1 := if reg.sameName then reg.v1 else reg.v1[row.name := row], v2 := reg.v2[row.id := row])
  }

  /** `execute_asset_issue`. None is an arithmetic failure halfway through. */
  function IssueAsset(s: State, c: Issue, props: Props): Option<State>
    requires c.owner in s.accounts
  {
    match CheckedSub(s.accounts[c.owner].balance, props.issueFee)
    case None => None
    case Some(left) =>
      var liquid := c.supply - FrozenTotal(c.frozen);
      if liquid < I64_MIN || liquid > I64_MAX then None
      else
        var id := s.tokenIdNum + 1;
        var row := Asset(id, c.name, c.owner, c.supply, c.num, c.trxNum, c.start, c.end);
        var paid := Dispose(s, props.issueFee, props);
        var issuer := Issued(s.accounts[c.owner].(balance := left), c, id, liquid, s.reg);
        Some(paid.(tokenIdNum := id, reg := Registered(s.reg, row), accounts := paid.accounts[c.owner := issuer]))
  }

  // ---------------------------------------------------------------------------
  // Participate
  // ---------------------------------------------------------------------------

  /** `lookup_asset_final` */
  function LookupAsset(s: State, key: string): Option<Asset> {
    if !s.reg.sameName then (if key in s.reg.v1 then Some(s.reg.v1[key]) else None)
    else match Parse(key)
      case None => None
      case Some(id) => if id >= 0 && id in s.reg.v2 then Some(s.reg.v2[id]) else None
  }

  /** The exchanged amount, by flooring division; None is an error. */
  function Exchange(asset: Asset, amount: I64): Option<I64>
    requires asset.trxNum > 0
  {
    var product := amount * asset.num;
    if product > I64_MAX || product < I64_MIN then None
    else
      var exchanged := product / asset.trxNum;
      if exchanged <= 0 || exchanged > I64_MAX then None else Some(exchanged)
  }

  /** `validate_participate_asset_issue`; `trxNum` is positive in every stored row. */
  predicate ParticipateValid(s: State, owner: Address, to: Address, key: string, amount: I64, props: Props)
    requires LookupAsset(s, key).Some? ==> LookupAsset(s, key).value.trxNum > 0
  {
    && amount > 0 && owner != to && owner in s.accounts && s.accounts[owner].balance >= amount
    && LookupAsset(s, key).Some?
    && (var asset := LookupAsset(s, key).value;
        && asset.owner == to && asset.start <= props.now < asset.end
        && Exchange(asset, amount).Some? && to in s.accounts
        && Amount(Holdings(s.accounts[to], s.reg.sameName), key) >= Exchange(asset, amount).value)
  }

  /** `execute_participate_asset_issue` */
  function Participate(s: State, owner: Address, to: Address, key: string, amount: I64): Option<State>
    requires owner in s.accounts && to in s.accounts
    requires LookupAsset(s, key).Some? && LookupAsset(s, key).value.trxNum > 0
  {
    match Exchange(LookupAsset(s, key).value, amount)
    case None => None
    case Some(exchanged) =>
      var paid, received := CheckedSub(s.accounts[owner].balance, amount), CheckedAdd(s.accounts[to].balance, amount);
      if paid.None? || received.None? then None
      else match Debit(s.accounts[to].(balance := received.value), s.reg, key, exchanged)
        case None => None
        case Some(issuer) =>
          match Credit(s.accounts[owner].(balance := paid.value), s.reg, key, exchanged)
          case None => None
          case Some(buyer) => Some(s.(accounts := s.accounts[owner := buyer][to := issuer]))
  }

  // ---------------------------------------------------------------------------
  // Unfreeze
  // ---------------------------------------------------------------------------

  /** `validate_unfreeze_asset` */
  predicate UnfreezeValid(s: State, owner: Address, now: I64) {
    && owner in s.accounts
    && (var a := s.accounts[owner];
        && (if s.reg.sameName then a.issuedId != "" else a.issuedName != "")
        && exists i | 0 <= i < |a.frozen| :: a.frozen[i].expires <= now)
  }

  /** The entries that stay frozen, in order. */
  function Remaining(frozen: seq<Frozen>, now: I64): seq<Frozen> {
    if frozen == [] then []
    else
      var n := |frozen| - 1;
      Remaining(frozen[..n], now) + if frozen[n].expires <= now then [] else [frozen[n]]
  }

  /** What the others release, saturating. */
  function Unlocked(frozen: seq<Frozen>, now: I64): I64 {
    if frozen == [] then 0
    else
      var n := |frozen| - 1;
      var before := Unlocked(frozen[..n], now);
      if frozen[n].expires <= now then SatSigned(before, frozen[n].amount) else before
  }

  /** `execute_unfreeze_asset` */
  function Unfreeze(s: State, owner: Address, now: I64): Option<State>
    requires owner in s.accounts
  {
    var a := s.accounts[owner];
    var thawed := a.(frozen := Remaining(a.frozen, now));
    var unlocked := Unlocked(a.frozen, now);
    if s.reg.sameName then
      match Credit(thawed, s.reg, a.issuedId, unlocked)
      case None => None
      case Some(b) => Some(s.(accounts := s.accounts[owner := b]))
    else
      var id := if a.issuedName in s.reg.v1 then s.reg.render(s.reg.v1[a.issuedName].id) else "";
      match CheckedAdd(Amount(a.asset, a.issuedName), unlocked)
      case None => None
      case Some(updated) =>
        var b := thawed.(asset := a.asset[a.issuedName := updated], assetV2 := a.assetV2[id := updated]);
        Some(s.(accounts := s.accounts[owner := b]))
  }
}
