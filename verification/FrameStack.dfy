/**
 The pooled frame stack: a vector whose slots are kept and reused after a pop, some of
 them not initialised yet, proved to behave like a plain stack of frames.
 */
module FrameStacks {
  import opened Words

  /** `OutFrame`: a slot about to be filled, and whether it already holds a frame. */
  datatype OutFrame = OutFrame(at: nat, init: bool)

  function Values<T>(s: seq<Option<T>>): seq<T>
    requires forall i | 0 <= i < |s| :: s[i].Some?
  {
    seq(|s|, i requires 0 <= i < |s| => s[i].value)
  }

  class FrameStack<T> {
    var slots: seq<Option<T>>  // one per unit of capacity; None is uninitialised memory
    var len: nat
    var index: Option<nat>

    ghost predicate Valid()
      reads this
    {
      && len <= |slots|
      && (forall i | 0 <= i < len :: slots[i].Some?)
      && (index.Some? ==> index.value < len)
    }

    /** The live frames, outermost first. */
    ghost function Contents(): (fs: seq<T>)
      requires Valid()
      reads this
      ensures |fs| == if index.None? then 0 else index.value + 1
    {
      if index.None? then [] else Values(slots[..index.value + 1])
    }

    constructor ()
      ensures Valid() && index.None? && Contents() == []
    {
      slots := seq(8, _ => None);
      len, index := 0, None;
    }

    /** `Vec::reserve(8)`: room for at least eight more than `len`. */
    method Reserve()
      requires Valid()
      modifies this`slots
      ensures Valid() && Contents() == old(Contents())
      ensures |slots| >= len + 8 && old(slots) <= slots
    {
      if |slots| < len + 8 {
        slots := slots + seq(len + 8 - |slots|, _ => None);
      }
    }

    method StartInit() returns (out: OutFrame)
      requires Valid()
      modifies this
      ensures Valid() && index.None? && len == old(len) && Contents() == []
      ensures out.at == 0 < |slots| && (out.init ==> slots[0].Some?)
    {
      index := None;
      if len == 0 {
        Reserve();
      }
      out := OutFrame(0, 0 < len);
    }

    /** The slot above the top exists, and growing the pool moves no live frame. */
    method GetNext() returns (out: OutFrame)
      requires Valid() && index.Some?
      modifies this`slots
      ensures Valid() && Contents() == old(Contents())
      ensures out.at == index.value + 1 < |slots| && (out.init ==> slots[out.at].Some?)
    {
      if index.value + 1 == |slots| {
        Reserve();
      }
      out := OutFrame(index.value + 1, index.value + 1 < len);
    }

    /** `OutFrame::get` followed by `clear`: the slot holds `frame` whatever it held before. */
    method Fill(out: OutFrame, frame: T) returns (token: bool)
      requires Valid() && out.at == |Contents()| < |slots|
      modifies this`slots
      ensures Valid() && Contents() == old(Contents())
      ensures token && out.at < |slots| && slots[out.at] == Some(frame)
    {
      slots := slots[out.at := Some(frame)];
      token := true;
    }

    method EndInit(token: bool)
      requires Valid() && token && index.None? && 0 < |slots| && slots[0].Some?
      modifies this
      ensures Valid() && Contents() == [old(slots[0].value)]
    {
      if len == 0 {
        len := 1;
      }
      index := Some(0);
    }

    method Push(token: bool)
      requires Valid() && token && index.Some? && index.value + 1 < |slots| && slots[index.value + 1].Some?
      modifies this
      ensures Valid() && Contents() == old(Contents()) + [old(slots[index.value + 1].value)]
    {
      index := Some(index.value + 1);
      if index.value == len {
        len := len + 1;
      }
    }

    /** Popping the root leaves no current index. */
    method Pop()
      requires Valid() && index.Some?
      modifies this`index
      ensures Valid() && Contents() == old(Contents())[..old(|Contents()|) - 1]
      ensures index.None? <==> old(|Contents()|) == 1
    {
      index := if index.value == 0 then None else Some(index.value - 1);
    }

    method Clear()
      requires Valid()
      modifies this`index
      ensures Valid() && index.None? && Contents() == []
    {
      index := None;
    }

    method Get() returns (frame: T)
      requires Valid() && index.Some?
      ensures frame == Contents()[|Contents()| - 1]
    {
      frame := slots[index.value].value;
    }

    /** A write through the reference that `get` hands out; frames below are untouched. */
    method Set(frame: T)
      requires Valid() && index.Some?
      modifies this`slots
      ensures Valid() && index == old(index)
      ensures Contents() == old(Contents())[..old(|Contents()|) - 1] + [frame]
    {
      slots := slots[index.value := Some(frame)];
    }
  }
}
