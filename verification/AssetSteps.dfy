/**
 When an asset contract takes effect: validation and execution together, as one exact condition
 for each of the four contracts in any state that keeps the invariant.
 */
module AssetSteps {
  import opened Words
  import opened Decimals
  import opened Assets
  import opened AssetLaws

  ghost predicate TakesEffect(act: Action, s: State, props: Props) {
    Validates(act, s, props) && Executes(act, s, props).Some?
  }

  // ---------------------------------------------------------------------------
  // The parts
  // ---------------------------------------------------------------------------

  /** `i64::wrapping_mul`: the result is the product up to a multiple of 2^64. */
  lemma WrapMulIs(a: I64, b: I64) returns (k: int)
    ensures a * b == WrapMul(a, b) + 0x1_0000_0000_0000_0000 * k
  {
    var m, p := 0x1_0000_0000_0000_0000, a * b;
    k := if p % m > I64_MAX then p / m + 1 else p / m;
  }

  /** The name that is reserved once names may repeat, in any mixture of cases. */
  lemma TrxIs(name: string)
    ensures IsTrx(name) <==> name in {"trx", "trX", "tRx", "tRX", "Trx", "TrX", "TRx", "TRX"}
  {
    if |name| == 3 {
      assert name == [name[0], name[1], name[2]];
      LowerIs(name[0], 't', 'T');
      LowerIs(name[1], 'r', 'R');
      LowerIs(name[2], 'x', 'X');
    }
  }

  lemma LowerIs(c: char, lower: char, upper: char)
    requires 'a' <= lower <= 'z' && upper as int == lower as int - 32
    ensures LowerChar(c) == lower <==> c == lower || c == upper
  {
  }

  /** A name is one to thirty-two visible ASCII characters. */
  lemma NameIs(name: string)
    ensures NameValid(name) <==> |name| != 0 && !(|name| > 32) && !exists c :: c in name && (c <= ' ' || c > '~')
  {
    if c :| c in name && (c <= ' ' || c > '~') {
      var i :| 0 <= i < |name| && name[i] == c;
    } else {
      forall i | 0 <= i < |name| ensures '!' <= name[i] <= '~' { assert name[i] in name; }
    }
  }

  lemma QuotientSign(d: int, q: int, r: int)
    requires 0 <= r < d
    ensures d <= d * q + r <==> q >= 1
    ensures q >= 1 ==> q <= d * q + r
  {
    if q >= 1 { MulMono(1, q, d); MulMono(1, d, q); }
    else { MulMono(0, -q, d); assert d * q == -(d * -q); }
  }

  /** An amount of TRX buys something if and only if it pays for one unit and the product fits. */
  lemma ExchangeSucceeds(asset: Asset, amount: I64)
    requires asset.trxNum > 0
    ensures Exchange(asset, amount).Some? <==> asset.trxNum <= amount * asset.num <= 0x7FFF_FFFF_FFFF_FFFF
    ensures Exchange(asset, amount).Some? ==> Exchange(asset, amount).value == amount * asset.num / asset.trxNum
  {
    var product := amount * asset.num;
    assert product == asset.trxNum * (product / asset.trxNum) + product % asset.trxNum;
    QuotientSign(asset.trxNum, product / asset.trxNum, product % asset.trxNum);
  }

  /** Before the switch a row is found by name; after it by a key that reads as the id of a token. */
  lemma LookupFinds(s: State, key: string, row: Asset)
    ensures LookupAsset(s, key) == Some(row)
            <==> if s.reg.sameName then Parse(key).Some? && Parse(key).value in s.reg.v2.Keys && s.reg.v2[Parse(key).value] == row
                 else key in s.reg.v1 && s.reg.v1[key] == row
  {
  }

  /** A debit goes through if and only if the authoritative map has the key and covers the amount. */
  lemma DebitTakes(a: Account, reg: Registry, key: string, amount: I64)
    ensures var held, d := if reg.sameName then a.assetV2 else a.asset, Debit(a, reg, key, amount);
            && (d.Some? <==> key in held && 0 <= amount <= held[key])
            && (d.Some? ==> Amount(Holdings(d.value, reg.sameName), key) == held[key] - amount
                            && d.value == a.(asset := d.value.asset, assetV2 := d.value.assetV2))
  {
  }

  // ---------------------------------------------------------------------------
  // The four contracts
  // ---------------------------------------------------------------------------

  /** A transfer takes effect if and only if the authoritative map covers a positive amount, and so
      does the id-keyed map if it has the key; an existing recipient is no contract where that is
      forbidden, and the fee for a new one is covered, with what is left in range. */
  lemma SendTakesEffect(s: State, owner: Address, to: Address, key: string, amount: I64, props: Props)
    requires Ok(s)
    ensures TakesEffect(SendAsset(owner, to, key, amount), s, props)
            <==> && owner in s.accounts && owner != to && 1 <= |key| < 33
                 && (var a := s.accounts[owner];
                     && 1 <= amount <= Amount(if s.reg.sameName then a.assetV2 else a.asset, key)
                     && (key in a.assetV2 ==> amount <= a.assetV2[key])
                     && (if to in s.accounts then s.accounts[to].isContract ==> !props.forbidContracts
                         else 0 <= a.balance - props.createFee <= 0x7FFF_FFFF_FFFF_FFFF))
  {
    if owner in s.accounts && owner != to && amount > 0 { TransferKeepsOk(s, owner, to, key, amount, props); }
  }

  /** A participation takes effect if and only if the row of the key is the recipient's and on sale,
      the amount pays for at least one unit without overflow, the buyer has it, the issuer has room
      for it and holds what it buys. */
  lemma BuyTakesEffect(s: State, owner: Address, to: Address, key: string, amount: I64, props: Props)
    requires Ok(s)
    ensures TakesEffect(BuyAsset(owner, to, key, amount), s, props)
            <==> && owner in s.accounts && to in s.accounts && owner != to
                 && 1 <= amount <= s.accounts[owner].balance
                 && s.accounts[to].balance + amount <= 0x7FFF_FFFF_FFFF_FFFF
                 && LookupAsset(s, key).Some?
                 && (var row := LookupAsset(s, key).value;
                     && row.owner == to && !(props.now < row.start) && !(row.end <= props.now)
                     && row.trxNum > 0 && row.trxNum <= amount * row.num <= 0x7FFF_FFFF_FFFF_FFFF
                     && amount * row.num / row.trxNum
                        <= Amount(if s.reg.sameName then s.accounts[to].assetV2 else s.accounts[to].asset, key))
  {
    if LookupAsset(s, key).Some? && LookupAsset(s, key).value.trxNum > 0 {
      ExchangeSucceeds(LookupAsset(s, key).value, amount);
      if ParticipateValid(s, owner, to, key, amount, props) { ParticipateKeepsOk(s, owner, to, key, amount, props); }
    }
  }

  /** An unfreeze takes effect if and only if the account has issued a token and something of it has
      expired. */
  lemma ThawTakesEffect(s: State, owner: Address, props: Props)
    requires Ok(s)
    ensures TakesEffect(ThawAsset(owner), s, props)
            <==> && owner in s.accounts && s.accounts[owner].issuedName != ""
                 && (s.reg.sameName ==> s.accounts[owner].issuedId != "")
                 && ExpiredAt(s.accounts[owner].frozen, props.now) != {}
  {
    if owner in s.accounts {
      assert AccountOk(owner, s.accounts[owner], s.reg);
      var frozen := s.accounts[owner].frozen;
      if i :| 0 <= i < |frozen| && frozen[i].expires <= props.now { assert i in ExpiredAt(frozen, props.now); }
      if UnfreezeValid(s, owner, props.now) { UnfreezeKeepsOk(s, owner, props.now); }
    }
  }

  /** One frozen part of an issue is acceptable. */
  ghost predicate PartOk(c: Issue, part: FrozenSupply, props: Props) {
    && part.amount >= 1 && !(part.days < props.minFrozenTime) && !(part.days > props.maxFrozenTime)
    && -0x8000_0000_0000_0000 <= c.start + WrapMul(part.days, 86_400_000) <= 0x7FFF_FFFF_FFFF_FFFF
  }

  /** An issue takes effect if and only if its name is allowed and, before the switch, free; it is
      for sale in the future, for a positive price; its frozen parts are acceptable and fit the
      supply; and the owner, who has issued nothing yet, has the fee. */
  lemma IssueTakesEffect(s: State, c: Issue, props: Props)
    requires Ok(s) && props.issueFee >= 0
    ensures TakesEffect(NewAsset(c), s, props)
            <==> && NameValid(c.name) && c.detailsOk && (if s.reg.sameName then !IsTrx(c.name) else c.name !in s.reg.v1)
                 && c.start != 0 && c.end != 0 && props.now < c.start < c.end
                 && c.supply >= 1 && c.trxNum >= 1 && c.num >= 1
                 && !(|c.frozen| > props.maxFrozen) && !(FrozenTotal(c.frozen) > c.supply)
                 && (forall part | part in c.frozen :: PartOk(c, part, props))
                 && c.owner in s.accounts && s.accounts[c.owner].issuedName == ""
                 && !(s.accounts[c.owner].balance < props.issueFee)
  {
    if forall part | part in c.frozen :: PartOk(c, part, props) {
      forall i | 0 <= i < |c.frozen| ensures PartOk(c, c.frozen[i], props) { assert c.frozen[i] in c.frozen; }
    }
    if IssueValid(s, c, props) { IssueKeepsOk(s, c, props); }
  }
}
