/** EIP-7702 authorization lists. */
module AuthLists {
  import opened Words

  type Address = nat

  /** Code of an account: none, a delegation designation, or anything else. */
  datatype Code = Empty | Delegation(to: Address) | Contract

  /** `existing` is the opposite of "loaded as not existing and not touched". */
  datatype Account = Account(nonce: U64, code: Code, funded: bool, existing: bool)

  const Nobody := Account(0, Empty, false, false)

  /** `authority` is None when the signature does not recover. */
  datatype Authorization = Authorization(chainId: nat, nonce: U64, authority: Option<Address>, address: Address)

  type Accounts = map<Address, Account>

  function Load(m: Accounts, a: Address): Account { if a in m then m[a] else Nobody }

  /** `AccountInfo::is_empty` */
  predicate IsEmpty(a: Account) { a.code.Empty? && a.nonce == 0 && !a.funded }

  /** In the trie, or already brought to life by this transaction. */
  predicate Exists(a: Account) { !IsEmpty(a) || a.existing }

  /** `JournaledAccount::delegate` */
  function Delegate(a: Account, to: Address): Account
    requires a.nonce < U64_MAX
  {
    a.(nonce := a.nonce + 1, code := if to == 0 then Empty else Delegation(to), existing := true)
  }

  /** Steps 1 to 6 of the list's processing. */
  predicate Accepts(chainId: U64, auth: Authorization, m: Accounts) {
    && (auth.chainId == 0 || auth.chainId == chainId)
    && auth.nonce != U64_MAX
    && auth.authority.Some?
    && !Load(m, auth.authority.value).code.Contract?
    && auth.nonce == Load(m, auth.authority.value).nonce
  }

  /** What is left of the list after it has been processed: the accounts, and the entries
      that were accepted, in order. */
  function Process(chainId: U64, auths: seq<Authorization>, m: Accounts): (Accounts, seq<Authorization>)
    decreases |auths|
  {
    if auths == [] then (m, [])
    else if !Accepts(chainId, auths[0], m) then Process(chainId, auths[1..], m)
    else
      var a := auths[0].authority.value;
      var (m', rest) := Process(chainId, auths[1..], m[a := Delegate(Load(m, a), auths[0].address)]);
      (m', [auths[0]] + rest)
  }

  /** How many of the accepted entries are by authority `a`. */
  function Count(accepted: seq<Authorization>, a: Address): nat {
    if accepted == [] then 0
    else (if accepted[0].authority == Some(a) then 1 else 0) + Count(accepted[1..], a)
  }

  /** The accepted nonces of every authority are consecutive from the nonce it had, and its
      final nonce is the next one. */
  lemma {:induction false} NoncesConsecutive(chainId: U64, auths: seq<Authorization>, m: Accounts, a: Address)
    ensures var (m', accepted) := Process(chainId, auths, m);
            && Load(m', a).nonce == Load(m, a).nonce + Count(accepted, a)
            && (forall i | 0 <= i < |accepted| && accepted[i].authority == Some(a) ::
                  accepted[i].nonce == Load(m, a).nonce + Count(accepted[..i], a))
            && (forall i | 0 <= i < |accepted| :: accepted[i].authority.Some?)
    decreases |auths|
  {
    if auths != [] {
      if !Accepts(chainId, auths[0], m) {
        NoncesConsecutive(chainId, auths[1..], m, a);
      } else {
        var b := auths[0].authority.value;
        var m1 := m[b := Delegate(Load(m, b), auths[0].address)];
        NoncesConsecutive(chainId, auths[1..], m1, a);
        var rest := Process(chainId, auths[1..], m1).1;
        var accepted := [auths[0]] + rest;
        forall i | 0 <= i < |accepted| && accepted[i].authority == Some(a)
          ensures accepted[i].nonce == Load(m, a).nonce + Count(accepted[..i], a)
        {
          if i > 0 {
            assert accepted[..i][1..] == rest[..i - 1];
            assert accepted[i] == rest[i - 1];
          }
        }
      }
    }
  }

  lemma {:induction false} CountGrows(accepted: seq<Authorization>, i: nat, j: nat, a: Address)
    requires i < j <= |accepted| && accepted[i].authority == Some(a)
    ensures Count(accepted[..i], a) < Count(accepted[..j], a)
    decreases i
  {
    assert accepted[..j][1..] == accepted[1..][..j - 1];
    if i == 0 {
    } else {
      assert accepted[..i][1..] == accepted[1..][..i - 1];
      CountGrows(accepted[1..], i - 1, j - 1, a);
    }
  }

  /** No authorization is applied twice. */
  lemma NoReplay(chainId: U64, auths: seq<Authorization>, m: Accounts, i: nat, j: nat)
    requires i < j < |Process(chainId, auths, m).1|
    ensures var accepted := Process(chainId, auths, m).1;
            (accepted[i].authority, accepted[i].nonce) != (accepted[j].authority, accepted[j].nonce)
  {
    var accepted := Process(chainId, auths, m).1;
    NoncesConsecutive(chainId, auths, m, if accepted[i].authority.Some? then accepted[i].authority.value else 0);
    if accepted[i].authority == accepted[j].authority {
      CountGrows(accepted, i, j, accepted[i].authority.value);
    }
  }

  // ---------------------------------------------------------------------------
  // Refunds
  // ---------------------------------------------------------------------------

  ghost predicate Accepted(accepted: seq<Authorization>, a: Address) {
    exists k | 0 <= k < |accepted| :: accepted[k].authority == Some(a)
  }

  /** Accepted authorities that did not exist when the list began. */
  ghost function Newcomers(accepted: seq<Authorization>, m: Accounts): set<Address> {
    set k | 0 <= k < |accepted| && accepted[k].authority.Some? && !Exists(Load(m, accepted[k].authority.value))
      :: accepted[k].authority.value
  }

  /** The code an authority has after the accepted entries: the latest designation wins. */
  function CodeAfter(accepted: seq<Authorization>, m: Accounts, a: Address): Code {
    if accepted == [] then Load(m, a).code
    else
      var last := accepted[|accepted| - 1];
      if last.authority != Some(a) then CodeAfter(accepted[..|accepted| - 1], m, a)
      else if last.address == 0 then Empty else Delegation(last.address)
  }

  /** Accepted entries that replaced or cleared a designation, or wrote none. */
  function Rewrites(accepted: seq<Authorization>, m: Accounts): nat {
    if accepted == [] then 0
    else
      var n := |accepted| - 1;
      var last := accepted[n];
      Rewrites(accepted[..n], m)
      + if last.address == 0 || (last.authority.Some? && !CodeAfter(accepted[..n], m, last.authority.value).Empty?)
        then 1 else 0
  }

  /** `now` is what the accepted entries have made of `m`. */
  ghost predicate Tracks(accepted: seq<Authorization>, now: Accounts, m: Accounts) {
    forall a: Address ::
      && Load(now, a).code == CodeAfter(accepted, m, a)
      && (if Accepted(accepted, a) then Exists(Load(now, a)) else Load(now, a) == Load(m, a))
  }

  lemma NewcomersAfter(accepted: seq<Authorization>, auth: Authorization, now: Accounts, m: Accounts)
    requires auth.authority.Some? && Tracks(accepted, now, m)
    ensures |Newcomers(accepted + [auth], m)|
            == |Newcomers(accepted, m)| + if Exists(Load(now, auth.authority.value)) then 0 else 1
  {
    var a := auth.authority.value;
    var before, after := Newcomers(accepted, m), Newcomers(accepted + [auth], m);
    forall x: Address ensures x in after <==> x in before || (x == a && !Exists(Load(m, a))) {
      if x in before {
        var k :| 0 <= k < |accepted| && accepted[k].authority == Some(x) && !Exists(Load(m, x));
        assert (accepted + [auth])[k].authority == Some(x);
      }
      assert (accepted + [auth])[|accepted|] == auth;
    }
    assert a in before ==> Accepted(accepted, a);
    assert after == if Exists(Load(m, a)) then before else before + {a};
  }

  lemma TracksAfter(accepted: seq<Authorization>, auth: Authorization, now: Accounts, m: Accounts)
    requires auth.authority.Some? && Tracks(accepted, now, m) && Load(now, auth.authority.value).nonce < U64_MAX
    ensures var a := auth.authority.value;
            Tracks(accepted + [auth], now[a := Delegate(Load(now, a), auth.address)], m)
  {
    var b := auth.authority.value;
    var now' := now[b := Delegate(Load(now, b), auth.address)];
    assert (accepted + [auth])[..|accepted|] == accepted;
    assert (accepted + [auth])[|accepted|] == auth;
    forall a: Address ensures Accepted(accepted + [auth], a) <==> Accepted(accepted, a) || a == b {
      if Accepted(accepted, a) {
        var k :| 0 <= k < |accepted| && accepted[k].authority == Some(a);
        assert (accepted + [auth])[k].authority == Some(a);
      }
    }
    forall a: Address
      ensures Load(now', a).code == CodeAfter(accepted + [auth], m, a)
      ensures if Accepted(accepted + [auth], a) then Exists(Load(now', a)) else Load(now', a) == Load(m, a)
    {
      assert Load(now, a).code == CodeAfter(accepted, m, a);
    }
  }

  /** The list is done up to `rest`: `now` and `accepted` so far lead to what the whole list gives. */
  ghost predicate Progress(chainId: U64, auths: seq<Authorization>, m: Accounts,
                           rest: seq<Authorization>, now: Accounts, accepted: seq<Authorization>)
  {
    Process(chainId, auths, m) == (Process(chainId, rest, now).0, accepted + Process(chainId, rest, now).1)
  }

  lemma ProgressSkips(chainId: U64, auths: seq<Authorization>, m: Accounts, rest: seq<Authorization>, now: Accounts,
                      accepted: seq<Authorization>)
    requires Progress(chainId, auths, m, rest, now, accepted) && rest != [] && !Accepts(chainId, rest[0], now)
    ensures Progress(chainId, auths, m, rest[1..], now, accepted)
  {
  }

  lemma ProgressApplies(chainId: U64, auths: seq<Authorization>, m: Accounts, rest: seq<Authorization>, now: Accounts,
                        accepted: seq<Authorization>)
    requires Progress(chainId, auths, m, rest, now, accepted) && rest != [] && Accepts(chainId, rest[0], now)
    ensures var a := rest[0].authority.value;
            Progress(chainId, auths, m, rest[1..], now[a := Delegate(Load(now, a), rest[0].address)], accepted + [rest[0]])
  {
    var a := rest[0].authority.value;
    var later := Process(chainId, rest[1..], now[a := Delegate(Load(now, a), rest[0].address)]).1;
    assert accepted + ([rest[0]] + later) == (accepted + [rest[0]]) + later;
  }

  class DelegationJournal {
    var accounts: Accounts

    constructor (m: Accounts)
      ensures accounts == m
    {
      accounts := m;
    }

    /** One entry of the list; skipped unless every check passes. */
    method ApplyOne(chainId: U64, auth: Authorization) returns (applied: bool, account: Account)
      modifies this
      ensures applied == Accepts(chainId, auth, old(accounts))
      ensures applied ==>
        && account == Load(old(accounts), auth.authority.value)
        && accounts == old(accounts)[auth.authority.value := Delegate(account, auth.address)]
      ensures !applied ==> accounts == old(accounts)
    {
      applied, account := false, Nobody;
      if auth.chainId != 0 && auth.chainId != chainId {
        return;
      }
      if auth.nonce == U64_MAX {
        return;
      }
      if auth.authority.None? {
        return;
      }
      account := Load(accounts, auth.authority.value);
      if account.code.Contract? {
        return;
      }
      if auth.nonce != account.nonce {
        return;
      }
      accounts := accounts[auth.authority.value := Delegate(account, auth.address)];
      applied := true;
    }

    /** `apply_auth_list`: an account refund for every accepted entry but the first of an
        authority that did not exist before the list, a bytecode refund for every accepted
        entry that did not turn an empty code into a designation. */
    method ApplyAuthList(chainId: U64, auths: seq<Authorization>)
      returns (refundedAccounts: nat, refundedBytecodes: nat, ghost accepted: seq<Authorization>)
      modifies this
      ensures (accounts, accepted) == Process(chainId, auths, old(accounts))
      ensures refundedAccounts == |accepted| - |Newcomers(accepted, old(accounts))|
      ensures refundedBytecodes == Rewrites(accepted, old(accounts))
      ensures Tracks(accepted, accounts, old(accounts))
    {
      refundedAccounts, refundedBytecodes, accepted := 0, 0, [];
      var i := 0;
      assert auths[0..] == auths && [] + Process(chainId, auths, accounts).1 == Process(chainId, auths, accounts).1;
      while i < |auths|
        invariant 0 <= i <= |auths|
        invariant Progress(chainId, auths, old(accounts), auths[i..], accounts, accepted)
        invariant Tracks(accepted, accounts, old(accounts))
        invariant refundedAccounts == |accepted| - |Newcomers(accepted, old(accounts))|
        invariant refundedBytecodes == Rewrites(accepted, old(accounts))
      {
        ghost var before := accounts;
        assert auths[i..][1..] == auths[i + 1..] && auths[i..][0] == auths[i];
        var applied, account := ApplyOne(chainId, auths[i]);
        if applied {
          if !(IsEmpty(account) && !account.existing) {
            refundedAccounts := refundedAccounts + 1;
          }
          if !account.code.Empty? || auths[i].address == 0 {
            refundedBytecodes := refundedBytecodes + 1;
          }
          ProgressApplies(chainId, auths, old(accounts), auths[i..], before, accepted);
          NewcomersAfter(accepted, auths[i], before, old(accounts));
          TracksAfter(accepted, auths[i], before, old(accounts));
          assert (accepted + [auths[i]])[..|accepted|] == accepted;
          accepted := accepted + [auths[i]];
        } else {
          ProgressSkips(chainId, auths, old(accounts), auths[i..], before, accepted);
        }
        i := i + 1;
      }
      assert auths[i..] == [] && accepted + [] == accepted;
    }
  }
}
