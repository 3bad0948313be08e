/**
 Contract storage before the energy-limit fork, when a child frame shares the storage of
 every address that an ancestor has touched: a revert keeps writes to such addresses and
 undoes the others. After the fork nothing is shared and a revert undoes everything.
 */
module SharedStorage {

  type Address = nat

  datatype Slot = Slot(address: Address, key: nat)

  datatype Entry = Warmed(slot: Slot) | Changed(slot: Slot, had: nat)

  function Get(m: map<Slot, nat>, s: Slot): nat { if s in m then m[s] else 0 }

  /** The storage of `a` belongs to a frame shallower than `depth`. */
  predicate Foreign(a: Address, owner: map<Address, nat>, depth: nat) { a in owner && owner[a] < depth }

  // ---------------------------------------------------------------------------
  // The journal of one slot
  // ---------------------------------------------------------------------------

  /** The entries about `s`, in order. */
  function Of(s: Slot, es: seq<Entry>): (p: seq<Entry>)
    ensures forall i | 0 <= i < |p| :: p[i].slot == s
  {
    if es == [] then [] else (if es[0].slot == s then [es[0]] else []) + Of(s, es[1..])
  }

  /** What undoing the entries `p` of a slot makes of its value. */
  function Undone(p: seq<Entry>, now: nat): nat {
    if p == [] then now else if p[0].Changed? then p[0].had else Undone(p[1..], now)
  }

  /** A slot is warmed once, before it is changed. */
  predicate Ordered(p: seq<Entry>) { forall i | 0 < i < |p| :: p[i].Changed? }

  lemma {:induction false} OfConcat(s: Slot, es: seq<Entry>, fs: seq<Entry>)
    ensures Of(s, es + fs) == Of(s, es) + Of(s, fs)
    decreases |es|
  {
    if es == [] { assert es + fs == fs; }
    else {
      assert (es + fs)[1..] == es[1..] + fs;
      OfConcat(s, es[1..], fs);
    }
  }

  lemma {:induction false} UndoneConcat(p: seq<Entry>, q: seq<Entry>, now: nat)
    ensures Undone(p + q, now) == Undone(p, Undone(q, now))
    decreases |p|
  {
    if p == [] { assert p + q == q; }
    else {
      assert (p + q)[1..] == p[1..] + q;
      UndoneConcat(p[1..], q, now);
    }
  }

  lemma OfSplit(s: Slot, es: seq<Entry>, i: nat)
    requires i <= |es|
    ensures Of(s, es) == Of(s, es[..i]) + Of(s, es[i..])
  {
    assert es == es[..i] + es[i..];
    OfConcat(s, es[..i], es[i..]);
  }

  // ---------------------------------------------------------------------------
  // What a revert keeps
  // ---------------------------------------------------------------------------

  predicate Stays(e: Entry, owner: map<Address, nat>, depth: nat) { e.Changed? && Foreign(e.slot.address, owner, depth) }

  /** Slots with a change that stays. */
  function StayingSlots(es: seq<Entry>, owner: map<Address, nat>, depth: nat): set<Slot> {
    if es == [] then {}
    else (if Stays(es[0], owner, depth) then {es[0].slot} else {}) + StayingSlots(es[1..], owner, depth)
  }

  /** The entries that stay: changes of foreign storage, and what warmed a slot so changed. */
  function Retained(es: seq<Entry>, owner: map<Address, nat>, depth: nat): seq<Entry> {
    if es == [] then []
    else
      var stays := Stays(es[0], owner, depth) || (es[0].Warmed? && es[0].slot in StayingSlots(es[1..], owner, depth));
      (if stays then [es[0]] else []) + Retained(es[1..], owner, depth)
  }

  /** The slots that are cold again. */
  function Cooled(es: seq<Entry>, owner: map<Address, nat>, depth: nat): set<Slot> {
    if es == [] then {}
    else
      var cools := es[0].Warmed? && es[0].slot !in StayingSlots(es[1..], owner, depth);
      (if cools then {es[0].slot} else {}) + Cooled(es[1..], owner, depth)
  }

  /** The journal `p` of `s` has a change that stays. */
  predicate Survives(s: Slot, p: seq<Entry>, owner: map<Address, nat>, depth: nat) {
    Foreign(s.address, owner, depth) && p != [] && p[|p| - 1].Changed?
  }

  /** What `RetainedOf` says of a list of entries, once it is known of the list without its first. */
  ghost predicate RetainsOf(s: Slot, es: seq<Entry>, owner: map<Address, nat>, depth: nat) {
    var p := Of(s, es);
    && (s in StayingSlots(es, owner, depth) <==> Survives(s, p, owner, depth))
    && Of(s, Retained(es, owner, depth)) == (if Survives(s, p, owner, depth) then p else [])
    && (s in Cooled(es, owner, depth) <==> p != [] && p[0].Warmed? && !Survives(s, p, owner, depth))
  }

  lemma OfSkips(s: Slot, e: Entry, es: seq<Entry>)
    requires e.slot != s
    ensures Of(s, [e] + es) == Of(s, es)
  {
    assert ([e] + es)[1..] == es;
  }

  lemma RetainedSkips(s: Slot, es: seq<Entry>, owner: map<Address, nat>, depth: nat)
    requires es != [] && es[0].slot != s
    ensures Of(s, Retained(es, owner, depth)) == Of(s, Retained(es[1..], owner, depth))
  {
    var more := Retained(es[1..], owner, depth);
    OfSkips(s, es[0], more);
    assert Retained(es, owner, depth) == [es[0]] + more || Retained(es, owner, depth) == [] + more == more;
  }

  lemma RetainsOther(s: Slot, es: seq<Entry>, owner: map<Address, nat>, depth: nat)
    requires es != [] && es[0].slot != s && RetainsOf(s, es[1..], owner, depth)
    ensures RetainsOf(s, es, owner, depth)
  {
    assert Of(s, es) == Of(s, es[1..]);
    RetainedSkips(s, es, owner, depth);
  }

  lemma RetainsFirst(s: Slot, es: seq<Entry>, owner: map<Address, nat>, depth: nat)
    requires es != [] && es[0].slot == s && RetainsOf(s, es[1..], owner, depth)
    requires forall i | 0 <= i < |Of(s, es[1..])| :: Of(s, es[1..])[i].Changed?
    ensures RetainsOf(s, es, owner, depth)
  {
    var p, rest := Of(s, es), Of(s, es[1..]);
    assert p == [es[0]] + rest && p[|p| - 1] == (if rest == [] then es[0] else rest[|rest| - 1]);
    var kept, more := Retained(es, owner, depth), Retained(es[1..], owner, depth);
    if Survives(s, p, owner, depth) {
      assert kept == [es[0]] + more && kept[1..] == more;
    } else {
      assert kept == more;
    }
  }

  /** Slot by slot: the journal of a foreign slot that was changed stays as it is, any other
      is gone and leaves the slot cold if it was warmed in it. */
  lemma {:induction false} RetainedOf(s: Slot, es: seq<Entry>, owner: map<Address, nat>, depth: nat)
    requires Ordered(Of(s, es))
    ensures RetainsOf(s, es, owner, depth)
    decreases |es|
  {
    if es != [] {
      var p, rest := Of(s, es), Of(s, es[1..]);
      if es[0].slot == s {
        assert p == [es[0]] + rest;
        assert forall i | 0 <= i < |rest| :: rest[i] == p[i + 1];
        RetainedOf(s, es[1..], owner, depth);
        RetainsFirst(s, es, owner, depth);
      } else {
        assert p == rest;
        RetainedOf(s, es[1..], owner, depth);
        RetainsOther(s, es, owner, depth);
      }
    }
  }

  // ---------------------------------------------------------------------------
  // The journal
  // ---------------------------------------------------------------------------

  /** A slot's journal leads back to the stored value, and the slot is warm while it has one. */
  ghost predicate Sound(p: seq<Entry>, warm: bool, now: nat, stored: nat) {
    Ordered(p) && (p != [] ==> p[0].Warmed?) && (warm <==> p != []) && Undone(p, now) == stored
  }

  lemma EntryAdded(es: seq<Entry>, e: Entry, s: Slot, now: nat, later: nat)
    requires now == if e.Changed? && e.slot == s then e.had else later
    ensures Of(s, es + [e]) == if e.slot == s then Of(s, es) + [e] else Of(s, es)
    ensures Undone(Of(s, es + [e]), later) == Undone(Of(s, es), now)
  {
    OfConcat(s, es, [e]);
    assert [e][1..] == [];
    UndoneConcat(Of(s, es), Of(s, [e]), later);
  }

  lemma SoundAdded(es: seq<Entry>, e: Entry, s: Slot, warm: bool, now: nat, later: nat, stored: nat)
    requires Sound(Of(s, es), warm, now, stored) && (e.slot == s ==> e.Changed? == warm)
    requires now == if e.Changed? && e.slot == s then e.had else later
    ensures Sound(Of(s, es + [e]), warm || e.slot == s, later, stored)
  {
    EntryAdded(es, e, s, now, later);
  }

  /** The value a revert of entries `es` at `depth` leaves a slot with. */
  function ValueAfter(s: Slot, es: seq<Entry>, now: nat, owner: map<Address, nat>, depth: nat): nat {
    if Foreign(s.address, owner, depth) then now else Undone(Of(s, es), now)
  }

  lemma ValueStep(s: Slot, es: seq<Entry>, now: nat, owner: map<Address, nat>, depth: nat)
    requires es != []
    ensures ValueAfter(s, es, now, owner, depth)
            == if es[0].Changed? && es[0].slot == s && !Foreign(s.address, owner, depth) then es[0].had
               else ValueAfter(s, es[1..], now, owner, depth)
  {
    if es[0].slot == s { assert Of(s, es)[1..] == Of(s, es[1..]); }
    else { assert Of(s, es) == Of(s, es[1..]); }
  }

  /** What stays of a slot's journal leads back to where all of it did. */
  lemma RetainedUndoes(s: Slot, es: seq<Entry>, now: nat, owner: map<Address, nat>, depth: nat)
    requires Ordered(Of(s, es))
    ensures Undone(Of(s, Retained(es, owner, depth)), ValueAfter(s, es, now, owner, depth)) == Undone(Of(s, es), now)
  {
    RetainedOf(s, es, owner, depth);
    var p := Of(s, es);
    if Foreign(s.address, owner, depth) && !Survives(s, p, owner, depth) && p != [] {
      assert |p| == 1;
      assert p[1..] == [];
    }
  }

  lemma OrderedSuffix(s: Slot, es: seq<Entry>, i: nat)
    requires i <= |es| && Ordered(Of(s, es))
    ensures Ordered(Of(s, es[i..]))
  {
    OfSplit(s, es, i);
    var p, q := Of(s, es[..i]), Of(s, es[i..]);
    assert forall k | 0 < k < |q| :: q[k] == (p + q)[|p| + k];
  }

  lemma UndoesAlike(s: Slot, es: seq<Entry>, m: nat, i: nat, now: nat, owner: map<Address, nat>, depth: nat)
    requires m <= i <= |es| && Ordered(Of(s, es))
    ensures var kept := es[..i] + Retained(es[i..], owner, depth);
            Undone(Of(s, kept[m..]), ValueAfter(s, es[i..], now, owner, depth)) == Undone(Of(s, es[m..]), now)
  {
    var rest, after := Retained(es[i..], owner, depth), ValueAfter(s, es[i..], now, owner, depth);
    OrderedSuffix(s, es, i);
    RetainedUndoes(s, es[i..], now, owner, depth);
    assert (es[..i] + rest)[m..] == es[m..i] + rest && es[m..] == es[m..i] + es[i..];
    OfConcat(s, es[m..i], rest);
    OfConcat(s, es[m..i], es[i..]);
    UndoneConcat(Of(s, es[m..i]), Of(s, rest), after);
    UndoneConcat(Of(s, es[m..i]), Of(s, es[i..]), now);
  }

  function Disowned(owner: map<Address, nat>, depth: nat): map<Address, nat> {
    map a | a in owner && owner[a] != depth :: owner[a]
  }

  /** A slot that an outer checkpoint could bring back, it still can. */
  lemma RestoresReverted(s: Slot, es: seq<Entry>, m: nat, i: nat, now: nat, was: nat, owner: map<Address, nat>, depth: nat,
                         outer: nat)
    requires m <= i <= |es| && Ordered(Of(s, es)) && outer < depth
    requires Foreign(s.address, owner, outer) || Undone(Of(s, es[m..]), now) == was
    ensures var kept := es[..i] + Retained(es[i..], owner, depth);
            || Foreign(s.address, Disowned(owner, depth), outer)
            || Undone(Of(s, kept[m..]), ValueAfter(s, es[i..], now, owner, depth)) == was
  {
    UndoesAlike(s, es, m, i, now, owner, depth);
  }

  lemma SoundReverted(s: Slot, es: seq<Entry>, i: nat, warm: bool, now: nat, stored: nat, owner: map<Address, nat>, depth: nat)
    requires i <= |es| && Sound(Of(s, es), warm, now, stored)
    ensures Sound(Of(s, es[..i] + Retained(es[i..], owner, depth)), warm && s !in Cooled(es[i..], owner, depth),
                  ValueAfter(s, es[i..], now, owner, depth), stored)
  {
    var rest := Retained(es[i..], owner, depth);
    UndoesAlike(s, es, 0, i, now, owner, depth);
    assert es[0..] == es && (es[..i] + rest)[0..] == es[..i] + rest;
    OrderedSuffix(s, es, i);
    RetainedOf(s, es[i..], owner, depth);
    OfSplit(s, es, i);
    OfConcat(s, es[..i], rest);
    var p, q := Of(s, es[..i]), Of(s, es[i..]);
    assert forall k | 0 <= k < |p| :: p[k] == (p + q)[k];
    assert q != [] ==> q[0] == (p + q)[|p|];
  }

  class StorageJournal {
    const shared: bool
    var present: map<Slot, nat>
    var original: map<Slot, nat>
    var warm: set<Slot>
    var entries: seq<Entry>
    var owner: map<Address, nat> // the depth of the shallowest live frame to have touched an address
    var depth: nat
    ghost const store: map<Slot, nat>
    ghost var snaps: seq<map<Slot, nat>>
    ghost var marks: seq<nat>

    ghost predicate SlotOk(s: Slot)
      reads this
    {
      && Sound(Of(s, entries), s in warm, Get(present, s), Get(store, s))
      && (s in warm ==> s in original && original[s] == Get(store, s))
    }

    /** Undoing to checkpoint `j` would bring back the slot's value, unless it is foreign there. */
    ghost predicate Restores(j: nat, s: Slot)
      requires j < |marks| == |snaps| && marks[j] <= |entries|
      reads this
    {
      Foreign(s.address, owner, j + 1) || Undone(Of(s, entries[marks[j]..]), Get(present, s)) == Get(snaps[j], s)
    }

    ghost predicate Valid()
      reads this
    {
      && depth == |snaps| == |marks|
      && (!shared ==> owner == map[])
      && (forall j | 0 <= j < |marks| :: marks[j] <= |entries|)
      && (forall i, j | 0 <= i <= j < |marks| :: marks[i] <= marks[j])
      && (forall s :: SlotOk(s))
      && (forall j, s | 0 <= j < |marks| :: Restores(j, s))
    }

    constructor (shared: bool, store: map<Slot, nat>)
      ensures Valid() && this.shared == shared && this.store == store && present == store && depth == 0
    {
      this.shared, this.store, present, original, warm := shared, store, store, map[], {};
      entries, owner, depth, snaps, marks := [], map[], 0, [], [];
    }

    /** `tron_note_storage_touch` */
    method Touch(a: Address)
      requires Valid()
      modifies this`owner
      ensures Valid()
      ensures owner == if shared && a !in old(owner) then old(owner)[a := depth] else old(owner)
    {
      if shared && a !in owner {
        owner := owner[a := depth];
      }
      assert forall s :: old(SlotOk(s)) ==> SlotOk(s);
      forall j, s | 0 <= j < |marks| ensures Restores(j, s) {
        assert old(Restores(j, s));
      }
    }

    /** Appends `e`, whose slot now has the value `value`. */
    method Record(e: Entry, value: nat)
      requires Valid() && (e.Changed? ==> e.slot in warm && e.had == Get(present, e.slot))
      requires e.Warmed? ==> e.slot !in warm && value == Get(present, e.slot)
      modifies this`entries, this`present, this`warm, this`original
      ensures Valid() && entries == old(entries) + [e] && present == old(present)[e.slot := value]
      ensures warm == old(warm) + {e.slot}
    {
      ghost var es := entries;
      if e.Warmed? {
        original := original[e.slot := value];
        warm := warm + {e.slot};
      }
      entries := entries + [e];
      present := present[e.slot := value];
      forall s ensures SlotOk(s) {
        assert old(SlotOk(s));
        SoundAdded(es, e, s, old(s in warm), old(Get(present, s)), Get(present, s), Get(store, s));
      }
      forall j, s | 0 <= j < |marks| ensures Restores(j, s) {
        assert old(Restores(j, s));
        assert entries[marks[j]..] == es[marks[j]..] + [e];
        EntryAdded(es[marks[j]..], e, s, old(Get(present, s)), Get(present, s));
      }
    }

    /** `sload`: a cold slot becomes warm, with its present value as the original one. */
    method Load(s: Slot) returns (value: nat)
      requires Valid()
      modifies this`owner, this`entries, this`present, this`warm, this`original
      ensures Valid() && value == old(Get(present, s)) && s in warm
      ensures forall t :: Get(present, t) == old(Get(present, t))
      ensures shared ==> s.address in owner
    {
      Touch(s.address);
      value := Get(present, s);
      if s !in warm {
        Record(Warmed(s), value);
      }
    }

    /** `sstore`: a zero-to-zero write is journaled too. */
    method Store(s: Slot, value: nat)
      requires Valid()
      modifies this`owner, this`entries, this`present, this`warm, this`original
      ensures Valid() && s in warm && forall t :: Get(present, t) == if t == s then value else old(Get(present, t))
      ensures shared ==> s.address in owner
      ensures old(Get(present, s)) != value || value == 0 ==>
        entries != [] && entries[|entries| - 1] == Changed(s, old(Get(present, s)))
    {
      var had := Load(s);
      if had != value || (had == 0 && value == 0) {
        Record(Changed(s, had), value);
      }
    }

    method Checkpoint() returns (mark: nat)
      requires Valid()
      modifies this`depth, this`snaps, this`marks
      ensures Valid() && snaps == old(snaps) + [present] && marks == old(marks) + [mark]
    {
      mark := |entries|;
      depth := depth + 1;
      snaps, marks := snaps + [present], marks + [mark];
      forall s ensures SlotOk(s) { assert old(SlotOk(s)); }
      forall j, s | 0 <= j < |marks| ensures Restores(j, s) {
        if j < |marks| - 1 { assert old(Restores(j, s)); } else { assert entries[mark..] == []; }
      }
    }

    /** `checkpoint_commit`: what the frame owned is its parent's from now on. */
    method CheckpointCommit()
      requires Valid() && depth > 0
      modifies this`depth, this`snaps, this`marks, this`owner
      ensures Valid() && snaps == old(snaps)[..old(depth) - 1] && marks == old(marks)[..old(depth) - 1]
      ensures owner == map a | a in old(owner) :: if old(owner)[a] == old(depth) then old(depth) - 1 else old(owner)[a]
    {
      owner := map a | a in owner :: if owner[a] == depth then depth - 1 else owner[a];
      depth := depth - 1;
      snaps, marks := snaps[..depth], marks[..depth];
      forall s ensures SlotOk(s) { assert old(SlotOk(s)); }
      forall j, s | 0 <= j < |marks| ensures Restores(j, s) {
        assert old(Restores(j, s));
      }
    }

    /** The drain of `checkpoint_revert`, last entry first. */
    method Drain(i: nat) returns (retained: seq<Entry>)
      requires i <= |entries| && (!shared ==> owner == map[])
      modifies this`present, this`warm
      ensures retained == Retained(entries[i..], owner, depth)
      ensures forall s :: Get(present, s) == ValueAfter(s, entries[i..], old(Get(present, s)), owner, depth)
      ensures warm == old(warm) - Cooled(entries[i..], owner, depth)
    {
      retained := [];
      var slots: set<Slot> := {};
      var n := |entries|;
      assert entries[n..] == [];
      while n > i
        invariant i <= n <= |entries|
        invariant slots == StayingSlots(entries[n..], owner, depth) && (!shared ==> slots == {})
        invariant retained == Retained(entries[n..], owner, depth)
        invariant forall s :: Get(present, s) == ValueAfter(s, entries[n..], old(Get(present, s)), owner, depth)
        invariant warm == old(warm) - Cooled(entries[n..], owner, depth)
      {
        n := n - 1;
        var e := entries[n];
        assert entries[n..][1..] == entries[n + 1..];
        ghost var before, warmBefore := present, warm;
        if shared && e.Changed? && e.slot.address in owner && owner[e.slot.address] < depth {
          slots := slots + {e.slot};
          retained := [e] + retained;
        } else if shared && e.Warmed? && e.slot in slots {
          retained := [e] + retained;
        } else if e.Changed? {
          present := present[e.slot := e.had];
        } else {
          warm := warm - {e.slot};
        }
        forall s ensures Get(present, s) == ValueAfter(s, entries[n..], old(Get(present, s)), owner, depth) {
          ValueStep(s, entries[n..], old(Get(present, s)), owner, depth);
          assert Get(before, s) == ValueAfter(s, entries[n + 1..], old(Get(present, s)), owner, depth);
        }
        assert warm == warmBefore - if e.Warmed? && e.slot !in slots then {e.slot} else {};
      }
    }

    /** `checkpoint_revert`: every slot is back at the checkpoint, except those of addresses
        that a shallower frame owns, which stay as they are and will go with their owner. */
    method CheckpointRevert(mark: nat)
      requires Valid() && depth > 0 && mark == marks[depth - 1]
      modifies this
      ensures Valid() && snaps == old(snaps)[..old(depth) - 1] && marks == old(marks)[..old(depth) - 1]
      ensures forall s :: Get(present, s)
                          == if s.address in old(owner) && old(owner)[s.address] < old(depth) then old(Get(present, s))
                             else Get(old(snaps)[old(depth) - 1], s)
      ensures owner == Disowned(old(owner), old(depth))
    {
      ghost var es := entries;
      var retained := Drain(mark);
      forall s
        ensures Get(present, s)
                == if Foreign(s.address, owner, depth) then old(Get(present, s)) else Get(snaps[depth - 1], s)
      {
        assert old(Restores(depth - 1, s));
      }
      entries := entries[..mark] + retained;
      owner := Disowned(owner, depth);
      depth := depth - 1;
      snaps, marks := snaps[..depth], marks[..depth];
      forall s ensures SlotOk(s) {
        assert old(SlotOk(s));
        SoundReverted(s, es, mark, old(s in warm), old(Get(present, s)), Get(store, s), old(owner), old(depth));
      }
      forall j, s | 0 <= j < |marks| ensures Restores(j, s) {
        assert old(Restores(j, s)) && old(SlotOk(s));
        RestoresReverted(s, es, marks[j], mark, old(Get(present, s)), Get(snaps[j], s), old(owner), old(depth), j + 1);
      }
    }

    /** What is written to the store at the end: warm slots whose value is not the original.
        No write that survived is missed, and nothing else is written. */
    method Flush() returns (writes: map<Slot, nat>)
      requires Valid()
      ensures forall s :: Get(present, s) == if s in writes then writes[s] else Get(store, s)
      ensures forall s | s in writes :: writes[s] != Get(store, s)
    {
      writes := map s | s in warm && s in original && Get(present, s) != original[s] :: Get(present, s);
      forall s ensures Get(present, s) == if s in writes then writes[s] else Get(store, s) {
        assert SlotOk(s);
      }
      forall s | s in writes ensures writes[s] != Get(store, s) {
        assert SlotOk(s);
      }
    }
  }
}
