/** Account permissions: what one must satisfy, and the loop that checks it. */
module Permissions {
  import opened Words
  import Sums

  type Bytes = seq<bv8>

  datatype PermissionType = Owner | Witness | Active

  datatype Key = Key(address: Bytes, weight: I64)

  /** `nameUnits` is the length of the name in UTF-16 code units. */
  datatype Permission = Permission(
    kind: PermissionType, id: int, nameUnits: nat, threshold: I64, parent: int, operations: Bytes, keys: seq<Key>)

  /** The chain parameters a check reads; `available` is AVAILABLE_CONTRACT_TYPE. */
  datatype Limits = Limits(totalSignNum: I64, available: Bytes)

  const OPERATIONS_BYTES := 32
  const MAX_NAME := 32
  const MAX_ACTIVES := 8
  const MAINNET_PREFIX: bv8 := 0x41

  predicate AddressValid(a: Bytes) { |a| == 21 && a[0] == MAINNET_PREFIX }

  function WeightSum(keys: seq<Key>): int {
    if keys == [] then 0 else WeightSum(keys[..|keys| - 1]) + keys[|keys| - 1].weight
  }

  function Mask(k: nat): bv8
    requires k < 8
  {
    if k == 0 then 1 else if k == 1 then 2 else if k == 2 then 4 else if k == 3 then 8
    else if k == 4 then 16 else if k == 5 then 32 else if k == 6 then 64 else 128
  }

  predicate Bit(b: bv8, k: nat)
    requires k < 8
  {
    b & Mask(k) != 0
  }

  /** The contract types a bitmap permits. */
  function Types(bits: Bytes): set<nat> {
    set n: nat | n < 8 * |bits| && Bit(bits[n / 8], n % 8)
  }

  /** Distinct valid keys of positive weight whose exact sum reaches a positive threshold. */
  ghost predicate KeysSound(p: Permission) {
    && 0 < p.threshold <= WeightSum(p.keys) <= I64_MAX
    && (forall i | 0 <= i < |p.keys| :: AddressValid(p.keys[i].address) && p.keys[i].weight > 0)
    && (forall i, j | 0 <= i < j < |p.keys| :: p.keys[i].address != p.keys[j].address)
  }

  /** An active permission permits available contract types only; others carry no bitmap. */
  ghost predicate OperationsSound(p: Permission, limits: Limits) {
    if p.kind.Active?
    then |p.operations| == |limits.available| == OPERATIONS_BYTES && Types(p.operations) <= Types(limits.available)
    else p.operations == []
  }

  ghost predicate PermissionSound(p: Permission, limits: Limits) {
    && 0 < |p.keys| <= limits.totalSignNum
    && (p.kind.Witness? ==> |p.keys| == 1)
    && p.nameUnits <= MAX_NAME && p.parent == 0
    && KeysSound(p) && OperationsSound(p, limits)
  }

  /** The addresses of a permission's keys, and the weight an address signs with. */
  ghost function Signers(keys: seq<Key>): set<Bytes> { set i | 0 <= i < |keys| :: keys[i].address }

  ghost function WeightOf(keys: seq<Key>): Bytes -> int {
    a => if exists i :: 0 <= i < |keys| && keys[i].address == a
         then var i :| 0 <= i < |keys| && keys[i].address == a; keys[i].weight else 0
  }

  lemma WeightIs(keys: seq<Key>, i: nat)
    requires i < |keys| && forall j, k | 0 <= j < k < |keys| :: keys[j].address != keys[k].address
    ensures WeightOf(keys)(keys[i].address) == keys[i].weight
  {
    var j :| 0 <= j < |keys| && keys[j].address == keys[i].address
             && WeightOf(keys)(keys[i].address) == keys[j].weight;
  }

  lemma SignersGrow(keys: seq<Key>, n: nat)
    requires n == |keys| - 1
    ensures Signers(keys) == Signers(keys[..n]) + {keys[n].address}
  {
    forall a | a in Signers(keys) ensures a in Signers(keys[..n]) + {keys[n].address} {
      var i :| 0 <= i < |keys| && keys[i].address == a;
      if i < n { assert keys[..n][i].address == a; }
    }
    forall a | a in Signers(keys[..n]) ensures a in Signers(keys) {
      var i :| 0 <= i < n && keys[..n][i].address == a;
      assert keys[i].address == a;
    }
  }

  lemma LastIsNew(keys: seq<Key>, n: nat)
    requires n == |keys| - 1 && forall i | 0 <= i < n :: keys[i].address != keys[n].address
    ensures keys[n].address !in Signers(keys[..n])
  {
  }

  lemma {:induction false} SignersSum(keys: seq<Key>, f: Bytes -> int)
    requires forall j, k | 0 <= j < k < |keys| :: keys[j].address != keys[k].address
    requires forall i | 0 <= i < |keys| :: f(keys[i].address) == keys[i].weight
    ensures |Signers(keys)| == |keys| && Sums.Sum(Signers(keys), f) == WeightSum(keys)
    decreases |keys|
  {
    if keys == [] {
      assert Signers(keys) == {};
    } else {
      var n := |keys| - 1;
      SignersSum(keys[..n], f);
      SignersGrow(keys, n);
      LastIsNew(keys, n);
      Sums.Split(Signers(keys), f, keys[n].address);
      assert Signers(keys) - {keys[n].address} == Signers(keys[..n]);
    }
  }

  /** Sound permissions can be used: each key is another signer, every signer counts for something,
      and all of them together, each counted once, reach the threshold. */
  lemma SignersSuffice(p: Permission)
    requires KeysSound(p)
    ensures |Signers(p.keys)| == |p.keys| && 1 <= p.threshold <= Sums.Sum(Signers(p.keys), WeightOf(p.keys))
    ensures Sums.Sum(Signers(p.keys), WeightOf(p.keys)) <= 0x7FFF_FFFF_FFFF_FFFF
    ensures forall a | a in Signers(p.keys) :: AddressValid(a) && WeightOf(p.keys)(a) >= 1
  {
    forall i | 0 <= i < |p.keys| ensures WeightOf(p.keys)(p.keys[i].address) == p.keys[i].weight { WeightIs(p.keys, i); }
    SignersSum(p.keys, WeightOf(p.keys));
  }

  lemma MaskBits(b: bv8, mask: bv8)
    ensures b & !mask == 0 <==>
              && (b & 1 != 0 ==> mask & 1 != 0) && (b & 2 != 0 ==> mask & 2 != 0)
              && (b & 4 != 0 ==> mask & 4 != 0) && (b & 8 != 0 ==> mask & 8 != 0)
              && (b & 16 != 0 ==> mask & 16 != 0) && (b & 32 != 0 ==> mask & 32 != 0)
              && (b & 64 != 0 ==> mask & 64 != 0) && (b & 128 != 0 ==> mask & 128 != 0)
  {
  }

  /** Masking with the complement tests for a subset of bits. */
  lemma MaskIsSubset(b: bv8, mask: bv8)
    ensures b & !mask == 0 <==> forall k: nat | k < 8 && Bit(b, k) :: Bit(mask, k)
  {
    MaskBits(b, mask);
    if forall k: nat | k < 8 && Bit(b, k) :: Bit(mask, k) {
      assert Bit(b, 0) ==> Bit(mask, 0);
      assert Bit(b, 1) ==> Bit(mask, 1);
      assert Bit(b, 2) ==> Bit(mask, 2);
      assert Bit(b, 3) ==> Bit(mask, 3);
      assert Bit(b, 4) ==> Bit(mask, 4);
      assert Bit(b, 5) ==> Bit(mask, 5);
      assert Bit(b, 6) ==> Bit(mask, 6);
      assert Bit(b, 7) ==> Bit(mask, 7);
    }
  }

  lemma BytesAreSubset(x: Bytes, y: Bytes)
    requires |x| == |y|
    ensures (forall i | 0 <= i < |x| :: x[i] & !y[i] == 0) <==> Types(x) <= Types(y)
  {
    forall i | 0 <= i < |x|
      ensures x[i] & !y[i] == 0 <==> forall k: nat | k < 8 && Bit(x[i], k) :: Bit(y[i], k)
    {
      MaskIsSubset(x[i], y[i]);
    }
    if forall i | 0 <= i < |x| :: x[i] & !y[i] == 0 {
      forall n | n in Types(x) ensures n in Types(y) {
        assert x[n / 8] & !y[n / 8] == 0;
      }
    }
    if Types(x) <= Types(y) {
      forall i | 0 <= i < |x| ensures x[i] & !y[i] == 0 {
        forall k: nat | k < 8 && Bit(x[i], k) ensures Bit(y[i], k) {
          var n := 8 * i + k;
          assert n / 8 == i && n % 8 == k;
          assert n in Types(x);
        }
      }
    }
  }

  lemma {:induction false} WeightsGrow(keys: seq<Key>, n: nat)
    requires n <= |keys| && forall i | 0 <= i < |keys| :: keys[i].weight > 0
    ensures WeightSum(keys[..n]) <= WeightSum(keys)
    decreases |keys|
  {
    if n == |keys| {
      assert keys[..n] == keys;
    } else {
      assert keys[..|keys| - 1][..n] == keys[..n];
      WeightsGrow(keys[..|keys| - 1], n);
    }
  }

  lemma OverflowIsUnsound(p: Permission, n: nat)
    requires n <= |p.keys| && WeightSum(p.keys[..n]) > I64_MAX
    ensures !KeysSound(p)
  {
    if KeysSound(p) { WeightsGrow(p.keys, n); }
  }

  /** The loop over the keys, with its set of addresses and its checked running sum. */
  method CheckKeys(p: Permission) returns (ok: bool)
    requires p.threshold > 0
    ensures ok <==> KeysSound(p)
  {
    var seen: set<Bytes> := {};
    var sum: int := 0;
    var i := 0;
    while i < |p.keys|
      invariant 0 <= i <= |p.keys|
      invariant sum == WeightSum(p.keys[..i]) && 0 <= sum <= I64_MAX
      invariant forall a :: a in seen <==> exists k | 0 <= k < i :: p.keys[k].address == a
      invariant forall k | 0 <= k < i :: AddressValid(p.keys[k].address) && p.keys[k].weight > 0
      invariant forall k, l | 0 <= k < l < i :: p.keys[k].address != p.keys[l].address
    {
      var key := p.keys[i];
      if key.address in seen {
        return false;
      }
      if !AddressValid(key.address) || key.weight <= 0 {
        return false;
      }
      assert p.keys[..i + 1][..i] == p.keys[..i];
      if sum + key.weight > I64_MAX {
        OverflowIsUnsound(p, i + 1);
        return false;
      }
      sum := sum + key.weight;
      seen := seen + {key.address};
      i := i + 1;
    }
    assert p.keys[..i] == p.keys;
    ok := sum >= p.threshold;
  }

  /** The bitmap check, byte by byte. */
  method CheckOperations(p: Permission, limits: Limits) returns (ok: bool)
    ensures ok <==> OperationsSound(p, limits)
  {
    if !p.kind.Active? {
      return p.operations == [];
    }
    if |p.operations| != OPERATIONS_BYTES || |limits.available| != OPERATIONS_BYTES {
      return false;
    }
    BytesAreSubset(p.operations, limits.available);
    for i := 0 to OPERATIONS_BYTES
      invariant forall k | 0 <= k < i :: p.operations[k] & !limits.available[k] == 0
    {
      if p.operations[i] & !limits.available[i] != 0 {
        return false;
      }
    }
    ok := true;
  }

  /** `check_permission` accepts exactly the sound permissions. */
  method CheckPermission(p: Permission, limits: Limits) returns (ok: bool)
    ensures ok <==> PermissionSound(p, limits)
  {
    if |p.keys| > limits.totalSignNum || p.keys == [] {
      return false;
    }
    if p.kind.Witness? && |p.keys| != 1 {
      return false;
    }
    if p.threshold <= 0 || p.nameUnits > MAX_NAME || p.parent != 0 {
      return false;
    }
    var sound := CheckKeys(p);
    if !sound {
      return false;
    }
    ok := CheckOperations(p, limits);
  }
}
