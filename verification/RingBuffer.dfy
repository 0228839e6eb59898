/** A growable ring buffer (internal/congestion/bbr/ringbuffer.go). */
module RingBuffer {

  /** The elements a ring holds, front first. */
  function Unrolled<T>(ring: seq<T>, head: nat, tail: nat, full: bool): (s: seq<T>)
    requires head <= |ring| && tail <= |ring|
  {
    if full || tail < head then ring[head..] + ring[..tail] else ring[head..tail]
  }

  class RingBuffer<T> {
    var ring: array<T>
    var headPos: nat
    var tailPos: nat
    var full: bool
    const zero: T

    ghost predicate Valid()
      reads this
    {
      && headPos <= ring.Length && tailPos <= ring.Length
      && (ring.Length > 0 ==> headPos < ring.Length && tailPos < ring.Length)
      && (full ==> headPos == tailPos && ring.Length > 0)
    }

    /** The contents, front first. */
    ghost function View(): (s: seq<T>)
      reads this, ring
      requires Valid()
    {
      Unrolled(ring[..], headPos, tailPos, full)
    }

    constructor (size: nat, zero: T)
      ensures Valid() && fresh(ring)
      ensures View() == [] && this.zero == zero
    {
      ring := new T[size](_ => zero);
      headPos, tailPos, full := 0, 0, false;
      this.zero := zero;
    }

    function Len(): (n: nat)
      reads this, ring
      requires Valid()
      ensures n == |View()|
    {
      if full then ring.Length
      else if tailPos >= headPos then tailPos - headPos
      else tailPos + ring.Length - headPos
    }

    predicate Empty()
      reads this, ring
      requires Valid()
      ensures Empty() <==> View() == []
    {
      !full && headPos == tailPos
    }

    /** Doubles the capacity and moves the elements to the front of the new array. */
    method Grow()
      requires Valid() && (full || ring.Length == 0)
      modifies this
      ensures Valid() && View() == old(View())
      ensures !full && tailPos < ring.Length && fresh(ring)
    {
      var oldRing := ring;
      var n := oldRing.Length;
      var newSize := if n == 0 then 1 else n * 2;
      var r := new T[newSize](_ => zero);
      var headLen := n - headPos;
      forall i | 0 <= i < headLen { r[i] := oldRing[headPos + i]; }
      forall i | 0 <= i < headPos { r[headLen + i] := oldRing[i]; }
      assert r[..n] == oldRing[headPos..] + oldRing[..headPos];
      ring := r;
      headPos, tailPos, full := 0, n, false;
    }

    method PushBack(t: T)
      requires Valid()
      modifies this, ring
      ensures Valid() && (ring == old(ring) || fresh(ring))
      ensures View() == old(View()) + [t]
    {
      if full || ring.Length == 0 {
        Grow();
      }
      ghost var before, head, tail := ring[..], headPos, tailPos;
      ring[tailPos] := t;
      tailPos := tailPos + 1;
      if tailPos == ring.Length {
        tailPos := 0;
      }
      if tailPos == headPos {
        full := true;
      }
      PushedBack(before, head, tail, t);
      assert ring[..] == before[tail := t];
    }

    method PopFront() returns (t: T)
      requires Valid() && View() != []
      modifies this, ring
      ensures Valid() && ring == old(ring)
      ensures [t] + View() == old(View())
    {
      ghost var before, head, tail, wasFull := ring[..], headPos, tailPos, full;
      full := false;
      t := ring[headPos];
      ring[headPos] := zero;
      headPos := headPos + 1;
      if headPos == ring.Length {
        headPos := 0;
      }
      PoppedFront(before, head, tail, wasFull, zero);
      assert ring[..] == before[head := zero];
    }

    /** Offset, read: the element at an index counted from the front. */
    function At(index: nat): (t: T)
      reads this, ring
      requires Valid() && index < |View()|
      ensures t == View()[index]
    {
      UnrolledAt(ring[..], headPos, tailPos, full, index);
      ring[Wrap(headPos + index, ring.Length)]
    }

    /** Offset, written through: replaces the element at an index. */
    method Set(index: nat, t: T)
      requires Valid() && index < |View()|
      modifies ring
      ensures Valid() && View() == old(View())[index := t]
    {
      ghost var before := ring[..];
      UnrolledSet(before, headPos, tailPos, full, index, t);
      ring[Wrap(headPos + index, ring.Length)] := t;
      assert ring[..] == before[Wrap(headPos + index, ring.Length) := t];
    }

    function Front(): (t: T)
      reads this, ring
      requires Valid() && View() != []
      ensures t == View()[0]
    {
      ring[headPos]
    }

    function Back(): (t: T)
      reads this, ring
      requires Valid() && View() != []
      ensures t == View()[|View()| - 1]
    {
      At(Len() - 1)
    }

    method Clear()
      requires Valid()
      modifies this, ring
      ensures Valid() && ring == old(ring) && View() == []
    {
      forall i | 0 <= i < ring.Length { ring[i] := zero; }
      headPos, tailPos, full := 0, 0, false;
    }
  }

  /** x mod n for positions at most once around. */
  function Wrap(x: nat, n: nat): (r: nat)
    requires 0 < n && x < 2 * n
    ensures r == if x < n then x else x - n
  {
    x % n
  }

  lemma PushedBack<T>(ring: seq<T>, head: nat, tail: nat, t: T)
    requires head < |ring| && tail < |ring|
    ensures var tail' := if tail + 1 == |ring| then 0 else tail + 1;
            Unrolled(ring[tail := t], head, tail', tail' == head) == Unrolled(ring, head, tail, false) + [t]
  {
    var r, tail' := ring[tail := t], if tail + 1 == |ring| then 0 else tail + 1;
    assert r[..tail + 1] == ring[..tail] + [t];
    if tail < head {
      assert r[head..] == ring[head..];
    } else {
      assert r[head..tail + 1] == ring[head..tail] + [t];
      if tail + 1 == |ring| { assert r[head..] == r[head..tail + 1]; }
    }
  }

  lemma PoppedFront<T>(ring: seq<T>, head: nat, tail: nat, full: bool, z: T)
    requires head < |ring| && tail < |ring| && (full ==> head == tail) && (!full ==> head != tail)
    ensures var head' := if head + 1 == |ring| then 0 else head + 1;
            [ring[head]] + Unrolled(ring[head := z], head', tail, false) == Unrolled(ring, head, tail, full)
  {
    var r, head' := ring[head := z], if head + 1 == |ring| then 0 else head + 1;
    if full || tail < head {
      assert ring[head..] == [ring[head]] + ring[head + 1..];
      assert r[..tail] == ring[..tail];
      if head + 1 < |ring| {
        assert r[head + 1..] == ring[head + 1..];
        if full { assert tail < head'; }
      } else {
        assert r[0..tail] == r[..tail];
      }
    } else {
      assert r[head + 1..tail] == ring[head + 1..tail];
    }
  }

  lemma UnrolledAt<T>(ring: seq<T>, head: nat, tail: nat, full: bool, i: nat)
    requires head < |ring| && tail < |ring| && (full ==> head == tail)
    requires i < |Unrolled(ring, head, tail, full)|
    ensures head + i < 2 * |ring|
    ensures Unrolled(ring, head, tail, full)[i] == ring[Wrap(head + i, |ring|)]
  {
  }

  lemma UnrolledSet<T>(ring: seq<T>, head: nat, tail: nat, full: bool, i: nat, t: T)
    requires head < |ring| && tail < |ring| && (full ==> head == tail)
    requires i < |Unrolled(ring, head, tail, full)|
    ensures head + i < 2 * |ring|
    ensures Unrolled(ring[Wrap(head + i, |ring|) := t], head, tail, full)
         == Unrolled(ring, head, tail, full)[i := t]
  {
    var u, r := Unrolled(ring, head, tail, full), ring[Wrap(head + i, |ring|) := t];
    forall j | 0 <= j < |u| ensures Unrolled(r, head, tail, full)[j] == u[i := t][j] {
      UnrolledAt(ring, head, tail, full, j);
      UnrolledAt(r, head, tail, full, j);
    }
  }
}
