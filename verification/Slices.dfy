/** Growable slices over a reused backing array, with the operations the gateway performs on them. */
module Slices {
  import opened Samples

  /** The first len cells of buf are the elements; the rest is spare capacity. */
  class Slice<T(0)> {
    var buf: array<T>
    var len: nat

    ghost predicate Valid()
      reads this
    {
      len <= buf.Length
    }

    ghost function Contents(): (s: seq<T>)
      requires Valid()
      reads this, buf
      ensures |s| == len
    {
      buf[..len]
    }

    constructor (capacity: nat)
      ensures Valid() && fresh(buf) && buf.Length == capacity
      ensures Contents() == []
    {
      buf := new T[capacity];
      len := 0;
    }

    /** append: in place while there is room, else into a larger array of unspecified capacity. */
    method Append(xs: seq<T>)
      requires Valid()
      modifies this, buf
      ensures Valid() && Contents() == old(Contents()) + xs
      ensures if old(len) + |xs| <= old(buf.Length) then buf == old(buf) else fresh(buf)
    {
      if len + |xs| > buf.Length {
        var capacity: nat :| capacity >= len + |xs|;
        var larger := new T[capacity];
        forall i | 0 <= i < len {
          larger[i] := buf[i];
        }
        buf := larger;
      }
      forall i | 0 <= i < |xs| {
        buf[len + i] := xs[i];
      }
      len := len + |xs|;
    }

    /** Shift the elements after the first trim ones to the front, in place, and cut the tail. */
    method DropFront(trim: nat)
      requires Valid() && trim <= len
      modifies this`len, buf
      ensures Valid()
      ensures Contents() == old(Contents())[trim..]
    {
      for i := 0 to len - trim
        invariant len == old(len)
        invariant forall j :: 0 <= j < i ==> buf[j] == old(buf[j + trim])
        invariant forall j :: i <= j < buf.Length ==> buf[j] == old(buf[j])
      {
        buf[i] := buf[i + trim];
      }
      len := len - trim;
    }

    /** Append, then trim the oldest elements in place down to the bound. */
    method AppendBounded(xs: seq<T>, bound: nat)
      requires Valid()
      modifies this, buf
      ensures Valid() && Contents() == Suffix(old(Contents()) + xs, bound)
      ensures buf == old(buf) || fresh(buf)
    {
      Append(xs);
      if len > bound {
        DropFront(len - bound);
      }
    }

    /** Forget the elements but keep the array for reuse. */
    method Clear()
      requires Valid()
      modifies this`len
      ensures Valid() && Contents() == []
    {
      len := 0;
    }
  }
}
