/**
 Account creation, names, ids and permission updates: a store of accounts with two
 secondary indexes that must stay their inverse.
 */
module Accounts {
  import opened Words
  import opened Permissions
  import Sums

  const MAX_NAME_BYTES := 200
  const MIN_ID_BYTES := 8
  const MAX_ID_BYTES := 32

  datatype Account = Account(
    balance: I64, name: Bytes, id: Bytes, isWitness: bool,
    ownerPermission: Option<Permission>, witnessPermission: Option<Permission>, actives: seq<Permission>)

  /** The stores. `updated` is model-only: the limits under which an account's permissions
      were last updated. */
  datatype Book = Book(
    accounts: map<Bytes, Account>, names: map<Bytes, Bytes>, ids: map<Bytes, Bytes>, burned: I64,
    updated: map<Bytes, Limits>)

  /** Chain parameters. `burns` is ALLOW_BLACKHOLE_OPTIMIZATION. */
  datatype Props = Props(
    createFee: I64, permissionFee: I64, allowUpdateName: bool, multiSign: bool, burns: bool, blackhole: Bytes,
    limits: Limits)

  datatype Update = Update(owner: Option<Permission>, witnessSlot: Option<Permission>, actives: seq<Permission>)

  datatype Step =
    | Create(owner: Bytes, target: Bytes)
    | Rename(owner: Bytes, name: Bytes)
    | SetId(owner: Bytes, id: Bytes)
    | SetPermissions(owner: Bytes, update: Update)

  predicate NameValid(name: Bytes) { |name| <= MAX_NAME_BYTES }

  predicate IdValid(id: Bytes) {
    MIN_ID_BYTES <= |id| <= MAX_ID_BYTES && forall i | 0 <= i < |id| :: 0x21 <= id[i] <= 0x7E
  }

  function LowerByte(b: bv8): bv8 { if 0x41 <= b <= 0x5A then b | 0x20 else b }

  /** The id index stores and looks up ids in lower case. */
  function Lower(id: Bytes): (r: Bytes)
    ensures |r| == |id|
  {
    if id == [] then [] else [LowerByte(id[0])] + Lower(id[1..])
  }

  /** Two bytes are the same up to case: equal, or the two cases of an ASCII letter. */
  predicate SameUpToCase(x: bv8, y: bv8) {
    x == y || (0x41 <= x <= 0x5A && y == x + 0x20) || (0x41 <= y <= 0x5A && x == y + 0x20)
  }

  predicate SameIdUpToCase(x: Bytes, y: Bytes) {
    |x| == |y| && forall i | 0 <= i < |x| :: SameUpToCase(x[i], y[i])
  }

  lemma LowerByteIs(b: bv8)
    ensures LowerByte(b) == if 0x41 <= b <= 0x5A then b + 0x20 else b
  {
  }

  lemma LowerByteEqual(x: bv8, y: bv8)
    ensures LowerByte(x) == LowerByte(y) <==> SameUpToCase(x, y)
    ensures !(0x41 <= LowerByte(x) <= 0x5A)
  {
    LowerByteIs(x);
    LowerByteIs(y);
  }

  lemma {:induction false} LowerAt(id: Bytes, i: nat)
    requires i < |id|
    ensures Lower(id)[i] == LowerByte(id[i])
  {
    if i > 0 { LowerAt(id[1..], i - 1); }
  }

  /** Two ids have the same key if and only if they are the same up to the case of letters, and no
      key has a letter in upper case. */
  lemma LowerEqual(x: Bytes, y: Bytes)
    ensures Lower(x) == Lower(y) <==> SameIdUpToCase(x, y)
    ensures forall i | 0 <= i < |x| :: !(0x41 <= Lower(x)[i] <= 0x5A)
  {
    forall i | 0 <= i < |x| ensures Lower(x)[i] == LowerByte(x[i]) && !(0x41 <= Lower(x)[i] <= 0x5A) {
      LowerAt(x, i);
      LowerByteEqual(x[i], x[i]);
    }
    forall i | 0 <= i < |y| ensures Lower(y)[i] == LowerByte(y[i]) { LowerAt(y, i); }
    forall i | 0 <= i < |x| && i < |y| ensures LowerByte(x[i]) == LowerByte(y[i]) <==> SameUpToCase(x[i], y[i]) {
      LowerByteEqual(x[i], y[i]);
    }
    if Lower(x) == Lower(y) {
      forall i | 0 <= i < |x| ensures SameUpToCase(x[i], y[i]) { assert Lower(x)[i] == Lower(y)[i]; }
    }
  }

  /** The owner address is well formed and has an account. */
  predicate Known(owner: Bytes, b: Book) { AddressValid(owner) && owner in b.accounts }

  ghost predicate UpdateSound(u: Update, account: Account, limits: Limits) {
    && u.owner.Some? && u.owner.value.kind.Owner? && PermissionSound(u.owner.value, limits)
    && u.witnessSlot.Some? == account.isWitness
    && (u.witnessSlot.Some? ==> u.witnessSlot.value.kind.Witness? && PermissionSound(u.witnessSlot.value, limits))
    && 0 < |u.actives| <= MAX_ACTIVES
    && (forall i | 0 <= i < |u.actives| :: u.actives[i].kind.Active? && PermissionSound(u.actives[i], limits))
  }

  /** The four `validate_*` functions. */
  ghost predicate Validates(s: Step, b: Book, props: Props) {
    && Known(s.owner, b)
    && (var account := b.accounts[s.owner];
        match s
        case Create(_, target) =>
          account.balance >= props.createFee && AddressValid(target) && target !in b.accounts
        case Rename(_, name) =>
          NameValid(name) && (props.allowUpdateName || (account.name == [] && name !in b.names))
        case SetId(_, id) => IdValid(id) && account.id == [] && Lower(id) !in b.ids
        case SetPermissions(_, update) => props.multiSign && UpdateSound(update, account, props.limits))
  }

  /** `dispose_fee_to_blackhole` */
  function Dispose(b: Book, fee: I64, props: Props): Book {
    if fee == 0 then b
    else if props.burns then b.(burned := WrapAdd(b.burned, fee))
    else if props.blackhole in b.accounts then
      var hole := b.accounts[props.blackhole];
      b.(accounts := b.accounts[props.blackhole := hole.(balance := WrapAdd(hole.balance, fee))])
    else b
  }

  const NewAccount := Account(0, [], [], false, None, None, [])

  /** Ids are forced: 0, 1 and 2 + i, whatever the contract says. */
  function Numbered(actives: seq<Permission>): seq<Permission> {
    seq(|actives|, i requires 0 <= i < |actives| => actives[i].(id := 2 + i))
  }

  function WithPermissions(account: Account, u: Update): Account
    requires u.owner.Some?
  {
    account.(ownerPermission := Some(u.owner.value.(id := 0)),
             witnessPermission := if !account.isWitness then account.witnessPermission
                                  else if u.witnessSlot.None? then None else Some(u.witnessSlot.value.(id := 1)),
             actives := Numbered(u.actives))
  }

  function Paid(b: Book, owner: Bytes, left: I64, fee: I64, props: Props): Book
    requires owner in b.accounts
  {
    Dispose(b.(accounts := b.accounts[owner := b.accounts[owner].(balance := left)]), fee, props)
  }

  function Created(b: Book, target: Bytes): Book { b.(accounts := b.accounts[target := NewAccount]) }

  function Renamed(b: Book, owner: Bytes, name: Bytes): Book
    requires owner in b.accounts
  {
    b.(accounts := b.accounts[owner := b.accounts[owner].(name := name)], names := b.names[name := owner])
  }

  function Identified(b: Book, owner: Bytes, id: Bytes): Book
    requires owner in b.accounts
  {
    b.(accounts := b.accounts[owner := b.accounts[owner].(id := id)], ids := b.ids[Lower(id) := owner])
  }

  /** The permission update writes back a copy it took before the fee was disposed of. */
  function Permitted(b: Book, owner: Bytes, left: I64, update: Update, props: Props): Book
    requires owner in b.accounts && update.owner.Some?
  {
    var account := b.accounts[owner].(balance := left);
    var paid := Dispose(b, props.permissionFee, props);
    paid.(accounts := paid.accounts[owner := WithPermissions(account, update)],
          updated := b.updated[owner := props.limits])
  }

  /** The four `execute_*` functions on a validated step; None is a balance out of range. */
  function Execute(s: Step, b: Book, props: Props): Option<Book>
    requires s.owner in b.accounts && (s.SetPermissions? ==> s.update.owner.Some?)
  {
    var balance := b.accounts[s.owner].balance;
    match s
    case Create(owner, target) =>
      var left := balance - props.createFee;
      if left < I64_MIN || left > I64_MAX then None
      else Some(Created(Paid(b, owner, left, props.createFee, props), target))
    case Rename(owner, name) => Some(Renamed(b, owner, name))
    case SetId(owner, id) => Some(Identified(b, owner, id))
    case SetPermissions(owner, update) =>
      var left := balance - props.permissionFee;
      if left < I64_MIN || left > I64_MAX then None else Some(Permitted(b, owner, left, update, props))
  }

  ghost predicate Succeeds(s: Step, b: Book, props: Props) { Validates(s, b, props) && Execute(s, b, props).Some? }

  /** A transaction that does not validate or does not execute changes nothing. */
  ghost function After(s: Step, b: Book, props: Props): Book {
    if Succeeds(s, b, props) then Execute(s, b, props).value else b
  }

  // ---------------------------------------------------------------------------
  // Indexes
  // ---------------------------------------------------------------------------

  /** The id index is the inverse of the accounts' ids, up to case. */
  ghost predicate IdsExact(b: Book) {
    && (forall a | a in b.accounts && b.accounts[a].id != [] ::
          Lower(b.accounts[a].id) in b.ids && b.ids[Lower(b.accounts[a].id)] == a)
    && (forall k | k in b.ids ::
          b.ids[k] in b.accounts && b.accounts[b.ids[k]].id != [] && Lower(b.accounts[b.ids[k]].id) == k)
  }

  /** The name index, apart from its empty name, is the inverse of the accounts' names. */
  ghost predicate NamesExact(b: Book) {
    && (forall a | a in b.accounts && b.accounts[a].name != [] ::
          b.accounts[a].name in b.names && b.names[b.accounts[a].name] == a)
    && (forall n | n in b.names && n != [] :: b.names[n] in b.accounts && b.accounts[b.names[n]].name == n)
  }

  /** `c` has the accounts of `b`, with the same ids (names) and id (name) index. */
  ghost predicate SameIds(b: Book, c: Book) {
    && c.accounts.Keys == b.accounts.Keys && c.ids == b.ids
    && forall a | a in b.accounts :: c.accounts[a].id == b.accounts[a].id
  }

  ghost predicate SameNames(b: Book, c: Book) {
    && c.accounts.Keys == b.accounts.Keys && c.names == b.names
    && forall a | a in b.accounts :: c.accounts[a].name == b.accounts[a].name
  }

  lemma SameExact(b: Book, c: Book)
    ensures SameIds(b, c) && IdsExact(b) ==> IdsExact(c)
    ensures SameNames(b, c) && NamesExact(b) ==> NamesExact(c)
  {
  }

  lemma CreatedExact(b: Book, target: Bytes)
    requires target !in b.accounts
    ensures IdsExact(b) ==> IdsExact(Created(b, target))
    ensures NamesExact(b) ==> NamesExact(Created(b, target))
  {
  }

  lemma PaidSame(b: Book, owner: Bytes, left: I64, fee: I64, props: Props)
    requires owner in b.accounts
    ensures SameIds(b, Paid(b, owner, left, fee, props)) && SameNames(b, Paid(b, owner, left, fee, props))
  {
  }

  lemma PermittedSame(b: Book, owner: Bytes, left: I64, update: Update, props: Props)
    requires owner in b.accounts && update.owner.Some?
    ensures SameIds(b, Permitted(b, owner, left, update, props))
    ensures SameNames(b, Permitted(b, owner, left, update, props))
  {
  }

  lemma IdentifiedExact(b: Book, owner: Bytes, id: Bytes)
    requires owner in b.accounts && id != [] && b.accounts[owner].id == [] && Lower(id) !in b.ids
    ensures IdsExact(b) ==> IdsExact(Identified(b, owner, id))
    ensures SameNames(b, Identified(b, owner, id))
  {
  }

  /** A rename keeps the name index exact if and only if it takes no name away from its
      index entry: the account had no name or keeps it, and the new name is empty, free or
      its own already. With ALLOW_UPDATE_ACCOUNT_NAME off, validation demands as much. */
  lemma RenamedExact(b: Book, owner: Bytes, name: Bytes)
    requires owner in b.accounts && NamesExact(b)
    ensures NamesExact(Renamed(b, owner, name))
            <==> (b.accounts[owner].name == [] || b.accounts[owner].name == name)
                 && (name == [] || name !in b.names || b.names[name] == owner)
  {
    var had := b.accounts[owner].name;
    var c := Renamed(b, owner, name);
    if had != [] && had != name {
      assert had in c.names && c.names[had] == owner;
    } else if name != [] && name in b.names && b.names[name] != owner {
      assert c.accounts[b.names[name]].name == name && c.names[name] == owner;
    }
  }

  /** An address of an example. */
  function Sample(n: bv8): (a: Bytes)
    ensures AddressValid(a) && a[1] == n
  {
    [MAINNET_PREFIX, n] + seq(19, _ => 0)
  }

  /** With ALLOW_UPDATE_ACCOUNT_NAME on, a validated rename from an exact state leaves an
      entry for a name that nobody has any more. */
  lemma RenameBreaksIndex(b: Book, props: Props, x: Bytes)
    requires x == Sample(1) && props.allowUpdateName
    requires b == Book(map[x := NewAccount.(name := [1])], map[[1] := x], map[], 0, map[])
    ensures IdsExact(b) && NamesExact(b) && Succeeds(Rename(x, [2]), b, props)
    ensures !NamesExact(After(Rename(x, [2]), b, props))
  {
    RenamedExact(b, x, [2]);
  }

  /** Another takes a name away from an account that still has it. */
  lemma RenameStealsName(b: Book, props: Props, x: Bytes, y: Bytes)
    requires x == Sample(1) && y == Sample(2) && props.allowUpdateName
    requires b == Book(map[x := NewAccount.(name := [1]), y := NewAccount], map[[1] := x], map[], 0, map[])
    ensures IdsExact(b) && NamesExact(b) && Succeeds(Rename(y, [1]), b, props)
    ensures var c := After(Rename(y, [1]), b, props);
            c.accounts[x].name == c.accounts[y].name == [1] && c.names[[1]] == y
  {
  }

  /** `c` is as exact as `b` was. */
  ghost predicate KeepsExact(b: Book, c: Book) {
    (IdsExact(b) ==> IdsExact(c)) && (NamesExact(b) ==> NamesExact(c))
  }

  lemma CreateKeepsIndexes(b: Book, owner: Bytes, target: Bytes, left: I64, fee: I64, props: Props)
    requires owner in b.accounts && target !in b.accounts
    ensures KeepsExact(b, Created(Paid(b, owner, left, fee, props), target))
  {
    PaidSame(b, owner, left, fee, props);
    SameExact(b, Paid(b, owner, left, fee, props));
    CreatedExact(Paid(b, owner, left, fee, props), target);
  }

  lemma RenameKeepsIds(b: Book, owner: Bytes, name: Bytes)
    requires owner in b.accounts
    ensures IdsExact(b) ==> IdsExact(Renamed(b, owner, name))
  {
    SameExact(b, Renamed(b, owner, name));
  }

  lemma RenameKeepsIndexes(b: Book, owner: Bytes, name: Bytes)
    requires owner in b.accounts && b.accounts[owner].name == [] && name !in b.names
    ensures KeepsExact(b, Renamed(b, owner, name))
  {
    RenameKeepsIds(b, owner, name);
    if NamesExact(b) { RenamedExact(b, owner, name); }
  }

  lemma SetIdKeepsIndexes(b: Book, owner: Bytes, id: Bytes)
    requires owner in b.accounts && id != [] && b.accounts[owner].id == [] && Lower(id) !in b.ids
    ensures KeepsExact(b, Identified(b, owner, id))
  {
    IdentifiedExact(b, owner, id);
    SameExact(b, Identified(b, owner, id));
  }

  lemma PermitKeepsIndexes(b: Book, owner: Bytes, left: I64, update: Update, props: Props)
    requires owner in b.accounts && update.owner.Some?
    ensures KeepsExact(b, Permitted(b, owner, left, update, props))
  {
    PermittedSame(b, owner, left, update, props);
    SameExact(b, Permitted(b, owner, left, update, props));
  }

  lemma ExecuteKeepsIndexes(s: Step, b: Book, props: Props)
    requires Validates(s, b, props) && Execute(s, b, props).Some?
    ensures IdsExact(b) ==> IdsExact(Execute(s, b, props).value)
    ensures !props.allowUpdateName ==> KeepsExact(b, Execute(s, b, props).value)
  {
    var balance := b.accounts[s.owner].balance;
    match s
    case Create(owner, target) =>
      var left := balance - props.createFee;
      assert Execute(s, b, props) == Some(Created(Paid(b, owner, left, props.createFee, props), target));
      CreateKeepsIndexes(b, owner, target, left, props.createFee, props);
    case Rename(owner, name) =>
      RenameKeepsIds(b, owner, name);
      if !props.allowUpdateName { RenameKeepsIndexes(b, owner, name); }
    case SetId(owner, id) => SetIdKeepsIndexes(b, owner, id);
    case SetPermissions(owner, update) =>
      var left := balance - props.permissionFee;
      assert Execute(s, b, props) == Some(Permitted(b, owner, left, update, props));
      PermitKeepsIndexes(b, owner, left, update, props);
  }

  /** Every step keeps the id index, and the name index while names cannot be updated. */
  lemma StepKeepsIndexes(s: Step, b: Book, props: Props)
    ensures IdsExact(b) ==> IdsExact(After(s, b, props))
    ensures NamesExact(b) && !props.allowUpdateName ==> NamesExact(After(s, b, props))
  {
    if Validates(s, b, props) && Execute(s, b, props).Some? { ExecuteKeepsIndexes(s, b, props); }
  }

  ghost function Run(steps: seq<(Step, Props)>, b: Book): Book
    decreases |steps|
  {
    if steps == [] then b else Run(steps[1..], After(steps[0].0, b, steps[0].1))
  }

  /** Over every run: while names cannot be updated, both indexes stay exact. */
  lemma {:induction false} RunKeepsIndexes(steps: seq<(Step, Props)>, b: Book)
    requires IdsExact(b) && NamesExact(b)
    requires forall i | 0 <= i < |steps| :: !steps[i].1.allowUpdateName
    ensures IdsExact(Run(steps, b)) && NamesExact(Run(steps, b))
    decreases |steps|
  {
    if steps != [] {
      assert !steps[0].1.allowUpdateName;
      StepKeepsIndexes(steps[0].0, b, steps[0].1);
      RunKeepsIndexes(steps[1..], After(steps[0].0, b, steps[0].1));
    }
  }

  /** So no two accounts share a name, or an id up to case, letter by letter. */
  lemma NoSharedNames(b: Book, x: Bytes, y: Bytes)
    requires IdsExact(b) && NamesExact(b) && x in b.accounts && y in b.accounts && x != y
    ensures b.accounts[x].name != [] ==> b.accounts[x].name != b.accounts[y].name
    ensures b.accounts[x].id != [] ==> !SameIdUpToCase(b.accounts[x].id, b.accounts[y].id)
  {
    LowerEqual(b.accounts[x].id, b.accounts[y].id);
  }

  /** An id can be set if and only if it is well formed, the account has none yet, and nobody has
      it in any mixture of cases. */
  lemma SetIdSucceeds(b: Book, owner: Bytes, id: Bytes, props: Props)
    requires IdsExact(b)
    ensures Succeeds(SetId(owner, id), b, props)
            <==> && AddressValid(owner) && owner in b.accounts && b.accounts[owner].id == []
                 && 8 <= |id| <= 32 && (forall i | 0 <= i < |id| :: 0x20 < id[i] < 0x7F)
                 && (forall x | x in b.accounts :: !SameIdUpToCase(id, b.accounts[x].id))
  {
    forall x | x in b.accounts ensures Lower(id) == Lower(b.accounts[x].id) <==> SameIdUpToCase(id, b.accounts[x].id) {
      LowerEqual(id, b.accounts[x].id);
    }
    if Lower(id) in b.ids {
      var x := b.ids[Lower(id)];
      assert SameIdUpToCase(id, b.accounts[x].id);
    }
  }

  /** Exactly which accounts can be created, at whose expense: the fee is covered, and what is left
      fits, as it does for every fee that is not negative. */
  lemma CreateSucceeds(b: Book, owner: Bytes, target: Bytes, props: Props)
    ensures Succeeds(Create(owner, target), b, props)
            <==> && AddressValid(owner) && owner in b.accounts && AddressValid(target) && target !in b.accounts
                 && 0 <= b.accounts[owner].balance - props.createFee <= 0x7FFF_FFFF_FFFF_FFFF
  {
  }

  /** Exactly which renames go through: up to 200 bytes, and without ALLOW_UPDATE_ACCOUNT_NAME a
      first name that nobody has. */
  lemma RenameSucceeds(b: Book, owner: Bytes, name: Bytes, props: Props)
    requires NamesExact(b)
    ensures Succeeds(Rename(owner, name), b, props)
            <==> && AddressValid(owner) && owner in b.accounts && !(|name| > 200)
                 && (props.allowUpdateName || (b.accounts[owner].name == [] && name !in b.names))
    ensures !props.allowUpdateName && name != [] && Succeeds(Rename(owner, name), b, props) ==>
              forall x | x in b.accounts :: b.accounts[x].name != name
  {
  }

  /** A permission update goes through if and only if multi-signatures are on, the update is sound
      and what is left of the balance fits; it may be negative. */
  lemma SetPermissionsSucceeds(b: Book, owner: Bytes, update: Update, props: Props)
    ensures Succeeds(SetPermissions(owner, update), b, props)
            <==> && props.multiSign && AddressValid(owner) && owner in b.accounts
                 && UpdateSound(update, b.accounts[owner], props.limits)
                 && -0x8000_0000_0000_0000 <= b.accounts[owner].balance - props.permissionFee <= 0x7FFF_FFFF_FFFF_FFFF
  {
  }

  // ---------------------------------------------------------------------------
  // Permissions
  // ---------------------------------------------------------------------------

  /** What an update leaves behind: forced ids, and only sound permissions. */
  ghost predicate AccountSound(account: Account, limits: Limits) {
    && account.ownerPermission.Some?
    && (var p := account.ownerPermission.value; p.id == 0 && p.kind.Owner? && PermissionSound(p, limits))
    && account.witnessPermission.Some? == account.isWitness
    && (account.witnessPermission.Some? ==>
          (var p := account.witnessPermission.value; p.id == 1 && p.kind.Witness? && PermissionSound(p, limits)))
    && 0 < |account.actives| <= MAX_ACTIVES
    && (forall i | 0 <= i < |account.actives| ::
          var p := account.actives[i]; p.id == 2 + i && p.kind.Active? && PermissionSound(p, limits))
  }

  ghost predicate PermissionsSound(b: Book) {
    && (forall a | a in b.accounts && b.accounts[a].witnessPermission.Some? :: b.accounts[a].isWitness)
    && (forall a | a in b.updated :: a in b.accounts && AccountSound(b.accounts[a], b.updated[a]))
  }

  /** All permission ids of an account. */
  function PermissionIds(account: Account): seq<int> {
    (if account.ownerPermission.Some? then [account.ownerPermission.value.id] else [])
    + (if account.witnessPermission.Some? then [account.witnessPermission.value.id] else [])
    + seq(|account.actives|, i requires 0 <= i < |account.actives| => account.actives[i].id)
  }

  lemma IdsDistinct(account: Account, limits: Limits)
    requires AccountSound(account, limits)
    ensures var ids := PermissionIds(account); forall i, j | 0 <= i < j < |ids| :: ids[i] < ids[j]
  {
  }

  /** The bounds an account is held to after an update: up to eight active permissions, a witness
      permission with a single key, and everywhere a short name, no parent, and as many keys as
      the chain allows but at least one. */
  lemma SoundWithinBounds(account: Account, limits: Limits)
    requires AccountSound(account, limits)
    ensures 1 <= |account.actives| <= 8
    ensures account.witnessPermission.Some? ==> |account.witnessPermission.value.keys| == 1
    ensures forall p | account.ownerPermission == Some(p) || account.witnessPermission == Some(p) || p in account.actives ::
              |p.keys| != 0 && !(|p.keys| > limits.totalSignNum) && !(p.nameUnits > 32) && p.parent == 0 && p.threshold >= 1
  {
  }

  lemma SoundWhateverId(p: Permission, id: int, limits: Limits)
    requires PermissionSound(p, limits)
    ensures PermissionSound(p.(id := id), limits)
  {
  }

  lemma UpdatedAccountSound(account: Account, u: Update, limits: Limits)
    requires UpdateSound(u, account, limits) && (account.witnessPermission.Some? ==> account.isWitness)
    ensures AccountSound(WithPermissions(account, u), limits)
  {
    SoundWhateverId(u.owner.value, 0, limits);
    if u.witnessSlot.Some? { SoundWhateverId(u.witnessSlot.value, 1, limits); }
    forall i | 0 <= i < |u.actives| ensures PermissionSound(u.actives[i].(id := 2 + i), limits) {
      SoundWhateverId(u.actives[i], 2 + i, limits);
    }
  }

  /** The two accounts agree on everything but balance, name and id. */
  ghost predicate SamePermissions(x: Account, y: Account) {
    && x.isWitness == y.isWitness && x.ownerPermission == y.ownerPermission
    && x.witnessPermission == y.witnessPermission && x.actives == y.actives
  }

  lemma UntouchedPermissions(b: Book, c: Book)
    requires PermissionsSound(b) && c.updated == b.updated && b.accounts.Keys <= c.accounts.Keys
    requires forall a | a in b.accounts :: SamePermissions(b.accounts[a], c.accounts[a])
    requires forall a | a in c.accounts && a !in b.accounts :: c.accounts[a] == NewAccount
    ensures PermissionsSound(c)
  {
    forall a | a in c.updated ensures AccountSound(c.accounts[a], c.updated[a]) {
      assert SamePermissions(b.accounts[a], c.accounts[a]);
    }
  }

  lemma SoundAccountWritten(b: Book, owner: Bytes, account: Account, limits: Limits)
    requires PermissionsSound(b) && AccountSound(account, limits)
    ensures PermissionsSound(b.(accounts := b.accounts[owner := account], updated := b.updated[owner := limits]))
  {
  }

  lemma DisposeKeepsSound(b: Book, fee: I64, props: Props)
    requires PermissionsSound(b)
    ensures PermissionsSound(Dispose(b, fee, props)) && Dispose(b, fee, props).updated == b.updated
  {
    UntouchedPermissions(b, Dispose(b, fee, props));
  }

  lemma PermittedKeepsSound(b: Book, owner: Bytes, left: I64, update: Update, props: Props)
    requires PermissionsSound(b) && owner in b.accounts && UpdateSound(update, b.accounts[owner], props.limits)
    ensures PermissionsSound(Permitted(b, owner, left, update, props))
  {
    var account := b.accounts[owner].(balance := left);
    UpdatedAccountSound(account, update, props.limits);
    DisposeKeepsSound(b, props.permissionFee, props);
    SoundAccountWritten(Dispose(b, props.permissionFee, props), owner, WithPermissions(account, update), props.limits);
  }

  lemma CreatedKeepsSound(b: Book, owner: Bytes, left: I64, target: Bytes, props: Props)
    requires PermissionsSound(b) && owner in b.accounts && target !in b.accounts
    ensures PermissionsSound(Created(Paid(b, owner, left, props.createFee, props), target))
  {
    var debited := b.(accounts := b.accounts[owner := b.accounts[owner].(balance := left)]);
    UntouchedPermissions(b, debited);
    DisposeKeepsSound(debited, props.createFee, props);
    var paid := Dispose(debited, props.createFee, props);
    UntouchedPermissions(paid, Created(paid, target));
  }

  lemma StepKeepsPermissions(s: Step, b: Book, props: Props)
    requires PermissionsSound(b)
    ensures PermissionsSound(After(s, b, props))
  {
    if Validates(s, b, props) && Execute(s, b, props).Some? {
      var c := Execute(s, b, props).value;
      match s
      case Create(owner, target) =>
        var left := b.accounts[owner].balance - props.createFee;
        assert c == Created(Paid(b, owner, left, props.createFee, props), target);
        CreatedKeepsSound(b, owner, left, target, props);
      case Rename(owner, name) =>
        assert c == Renamed(b, owner, name);
        UntouchedPermissions(b, c);
      case SetId(owner, id) =>
        assert c == Identified(b, owner, id);
        UntouchedPermissions(b, c);
      case SetPermissions(owner, update) =>
        var left := b.accounts[owner].balance - props.permissionFee;
        assert c == Permitted(b, owner, left, update, props);
        PermittedKeepsSound(b, owner, left, update, props);
    }
  }

  /** Over every run of steps under changing parameters, the permissions of every updated
      account are sound under the parameters of its latest update. */
  lemma {:induction false} RunKeepsPermissions(steps: seq<(Step, Props)>, b: Book)
    requires PermissionsSound(b)
    ensures PermissionsSound(Run(steps, b))
    decreases |steps|
  {
    if steps != [] {
      StepKeepsPermissions(steps[0].0, b, steps[0].1);
      RunKeepsPermissions(steps[1..], After(steps[0].0, b, steps[0].1));
    }
  }

  // ---------------------------------------------------------------------------
  // Fees
  // ---------------------------------------------------------------------------

  ghost function BalanceOf(b: Book): Bytes -> int { a => if a in b.accounts then b.accounts[a].balance else 0 }

  /** All TRX, burned TRX included. */
  ghost function Trx(b: Book): int { Sums.Sum(b.accounts.Keys, BalanceOf(b)) + b.burned }

  lemma TrxSet(b: Book, who: Bytes, account: Account)
    requires who in b.accounts
    ensures Trx(b.(accounts := b.accounts[who := account])) == Trx(b) - b.accounts[who].balance + account.balance
  {
    var c := b.(accounts := b.accounts[who := account]);
    assert c.accounts.Keys == b.accounts.Keys;
    Sums.Change(b.accounts.Keys, BalanceOf(b), BalanceOf(c), who);
  }

  /** Somebody, or the burn counter, can take the fee. */
  predicate Disposable(b: Book, fee: I64, props: Props) {
    || fee == 0
    || (props.burns && I64_MIN <= b.burned + fee <= I64_MAX)
    || (!props.burns && props.blackhole in b.accounts
        && I64_MIN <= b.accounts[props.blackhole].balance + fee <= I64_MAX)
  }

  /** What arrives. */
  function Received(b: Book, fee: I64, props: Props): int {
    if fee == 0 then 0
    else if props.burns then WrapAdd(b.burned, fee) - b.burned
    else if props.blackhole in b.accounts then
      WrapAdd(b.accounts[props.blackhole].balance, fee) - b.accounts[props.blackhole].balance
    else 0
  }

  lemma DisposeAdds(b: Book, fee: I64, props: Props)
    ensures Trx(Dispose(b, fee, props)) == Trx(b) + Received(b, fee, props)
    ensures Received(b, fee, props) == fee <==> Disposable(b, fee, props)
  {
    if fee != 0 && !props.burns && props.blackhole in b.accounts {
      var hole := b.accounts[props.blackhole];
      TrxSet(b, props.blackhole, hole.(balance := WrapAdd(hole.balance, fee)));
    }
  }

  lemma CreatedTrx(b: Book, target: Bytes)
    requires target !in b.accounts
    ensures Trx(Created(b, target)) == Trx(b)
  {
    var c := Created(b, target);
    assert c.accounts.Keys == b.accounts.Keys + {target};
    Sums.Widen(b.accounts.Keys, c.accounts.Keys, BalanceOf(c));
    Sums.Same(b.accounts.Keys, BalanceOf(b), BalanceOf(c));
  }

  function Debited(b: Book, owner: Bytes, left: I64): Book
    requires owner in b.accounts
  {
    b.(accounts := b.accounts[owner := b.accounts[owner].(balance := left)])
  }

  /** Creating an account moves its fee without loss exactly when the fee can be disposed of. */
  lemma CreateFeeConserved(b: Book, owner: Bytes, left: I64, target: Bytes, props: Props)
    requires owner in b.accounts && target !in b.accounts
    requires left == b.accounts[owner].balance - props.createFee
    ensures Trx(Created(Paid(b, owner, left, props.createFee, props), target)) == Trx(b)
            <==> Disposable(Debited(b, owner, left), props.createFee, props)
  {
    TrxSet(b, owner, b.accounts[owner].(balance := left));
    DisposeAdds(Debited(b, owner, left), props.createFee, props);
    CreatedTrx(Paid(b, owner, left, props.createFee, props), target);
  }

  lemma PermittedTrx(b: Book, owner: Bytes, left: I64, update: Update, props: Props)
    requires owner in b.accounts && update.owner.Some?
    ensures var paid := Dispose(b, props.permissionFee, props);
            Trx(Permitted(b, owner, left, update, props)) == Trx(paid) - paid.accounts[owner].balance + left
  {
    var paid := Dispose(b, props.permissionFee, props);
    TrxSet(paid, owner, WithPermissions(b.accounts[owner].(balance := left), update));
    assert BalanceOf(Permitted(b, owner, left, update, props))
        == BalanceOf(paid.(accounts := Permitted(b, owner, left, update, props).accounts));
  }

  /** A permission update, which writes back a copy of the payer, does so exactly when in
      addition the payer is not the blackhole account that is being credited. */
  lemma PermissionFeeConserved(b: Book, owner: Bytes, left: I64, update: Update, props: Props)
    requires owner in b.accounts && update.owner.Some?
    requires left == b.accounts[owner].balance - props.permissionFee
    ensures Trx(Permitted(b, owner, left, update, props)) == Trx(b)
            <==> Disposable(b, props.permissionFee, props)
                 && (props.permissionFee == 0 || props.burns || owner != props.blackhole)
  {
    DisposeAdds(b, props.permissionFee, props);
    PermittedTrx(b, owner, left, update, props);
  }

  /** The permissions of an example: one key for everything. */
  function SampleUpdate(x: Bytes): Update {
    var owner := Permission(Owner, 0, 0, 1, 0, [], [Key(x, 1)]);
    Update(Some(owner), None, [owner.(kind := Active, operations := seq(OPERATIONS_BYTES, _ => 0))])
  }

  lemma SampleSound(x: Bytes, limits: Limits)
    requires AddressValid(x) && limits.totalSignNum >= 1 && |limits.available| == OPERATIONS_BYTES
    ensures UpdateSound(SampleUpdate(x), NewAccount, limits)
  {
    var u := SampleUpdate(x);
    assert u.owner.value.keys[..0] == [] && WeightSum(u.owner.value.keys) == 1;
    var ops := u.actives[0].operations;
    assert forall i | 0 <= i < |ops| :: ops[i] == 0;
    assert Types(ops) == {};
  }

  /** A validated permission update by the blackhole account, which is credited with the fee
      and then overwritten: 10 TRX are gone. */
  lemma BlackholeUpdateLosesFee(b: Book, props: Props, x: Bytes)
    requires x == Sample(1) && b == Book(map[x := NewAccount.(balance := 100)], map[], map[], 0, map[])
    requires props == Props(0, 10, false, true, false, x, Limits(5, seq(OPERATIONS_BYTES, _ => 0)))
    ensures Succeeds(SetPermissions(x, SampleUpdate(x)), b, props)
    ensures Trx(After(SetPermissions(x, SampleUpdate(x)), b, props)) == Trx(b) - 10
  {
    SampleSound(x, props.limits);
    var paid := Dispose(b, 10, props);
    DisposeAdds(b, 10, props);
    PermittedTrx(b, x, 90, SampleUpdate(x), props);
  }

  // ---------------------------------------------------------------------------
  // The stores
  // ---------------------------------------------------------------------------

  /** The structural half of `validate_account_permission_update` and its checks of every
      permission in turn. */
  method CheckUpdate(u: Update, account: Account, limits: Limits) returns (ok: bool)
    ensures ok <==> UpdateSound(u, account, limits)
  {
    if u.owner.None? || u.witnessSlot.Some? != account.isWitness {
      return false;
    }
    if u.actives == [] || |u.actives| > MAX_ACTIVES || !u.owner.value.kind.Owner? {
      return false;
    }
    ok := CheckPermission(u.owner.value, limits);
    if !ok {
      return;
    }
    if account.isWitness {
      if !u.witnessSlot.value.kind.Witness? {
        return false;
      }
      ok := CheckPermission(u.witnessSlot.value, limits);
      if !ok {
        return;
      }
    }
    for i := 0 to |u.actives|
      invariant forall k | 0 <= k < i :: u.actives[k].kind.Active? && PermissionSound(u.actives[k], limits)
    {
      if !u.actives[i].kind.Active? {
        return false;
      }
      ok := CheckPermission(u.actives[i], limits);
      if !ok {
        return;
      }
    }
    ok := true;
  }

  /** The enumeration that renumbers the active permissions. */
  method Renumber(actives: seq<Permission>) returns (r: seq<Permission>)
    ensures r == Numbered(actives)
  {
    r := [];
    for i := 0 to |actives|
      invariant r == Numbered(actives)[..i]
    {
      r := r + [actives[i].(id := 2 + i)];
    }
  }

  class AccountStores {
    var accounts: map<Bytes, Account>
    var names: map<Bytes, Bytes>
    var ids: map<Bytes, Bytes>
    var burned: I64
    ghost var updated: map<Bytes, Limits>

    ghost function State(): Book
      reads this
    {
      Book(accounts, names, ids, burned, updated)
    }

    constructor ()
      ensures State() == Book(map[], map[], map[], 0, map[])
    {
      accounts, names, ids, burned, updated := map[], map[], map[], 0, map[];
    }

    method DisposeFee(fee: I64, props: Props)
      modifies this
      ensures State() == Dispose(old(State()), fee, props)
    {
      if fee == 0 {
        return;
      }
      if props.burns {
        burned := WrapAdd(burned, fee);
      } else if props.blackhole in accounts {
        var hole := accounts[props.blackhole];
        accounts := accounts[props.blackhole := hole.(balance := WrapAdd(hole.balance, fee))];
      }
    }

    method CreateAccount(owner: Bytes, target: Bytes, props: Props) returns (ok: bool)
      modifies this
      ensures State() == After(Create(owner, target), old(State()), props)
      ensures ok <==> Succeeds(Create(owner, target), old(State()), props)
    {
      ok := false;
      if !AddressValid(owner) || owner !in accounts || accounts[owner].balance < props.createFee {
        return;
      }
      if !AddressValid(target) || target in accounts {
        return;
      }
      var left := accounts[owner].balance - props.createFee;
      if left > I64_MAX {
        return;
      }
      accounts := accounts[owner := accounts[owner].(balance := left)];
      DisposeFee(props.createFee, props);
      accounts := accounts[target := NewAccount];
      ok := true;
    }

    method UpdateAccount(owner: Bytes, name: Bytes, props: Props) returns (ok: bool)
      modifies this
      ensures State() == After(Rename(owner, name), old(State()), props)
      ensures ok <==> Succeeds(Rename(owner, name), old(State()), props)
    {
      ok := false;
      if !NameValid(name) || !AddressValid(owner) || owner !in accounts {
        return;
      }
      if !props.allowUpdateName && (accounts[owner].name != [] || name in names) {
        return;
      }
      accounts := accounts[owner := accounts[owner].(name := name)];
      names := names[name := owner];
      ok := true;
    }

    method SetAccountId(owner: Bytes, id: Bytes, props: Props) returns (ok: bool)
      modifies this
      ensures State() == After(SetId(owner, id), old(State()), props)
      ensures ok <==> Succeeds(SetId(owner, id), old(State()), props)
    {
      ok := false;
      if !IdValid(id) || !AddressValid(owner) || owner !in accounts {
        return;
      }
      if accounts[owner].id != [] || Lower(id) in ids {
        return;
      }
      accounts := accounts[owner := accounts[owner].(id := id)];
      ids := ids[Lower(id) := owner];
      ok := true;
    }

    method UpdatePermissions(owner: Bytes, update: Update, props: Props) returns (ok: bool)
      modifies this
      ensures State() == After(SetPermissions(owner, update), old(State()), props)
      ensures ok <==> Succeeds(SetPermissions(owner, update), old(State()), props)
    {
      ok := false;
      if !props.multiSign || !AddressValid(owner) || owner !in accounts {
        return;
      }
      var account := accounts[owner];
      var sound := CheckUpdate(update, account, props.limits);
      if !sound {
        return;
      }
      var left := account.balance - props.permissionFee;
      if left < I64_MIN || left > I64_MAX {
        return;
      }
      DisposeFee(props.permissionFee, props);
      account := account.(balance := left, ownerPermission := Some(update.owner.value.(id := 0)));
      if account.isWitness {
        account := account.(witnessPermission := Some(update.witnessSlot.value.(id := 1)));
      }
      var actives := Renumber(update.actives);
      account := account.(actives := actives);
      accounts := accounts[owner := account];
      updated := updated[owner := props.limits];
      ok := true;
    }
  }
}
