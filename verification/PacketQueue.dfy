/** A queue of entries indexed by packet number
    (internal/congestion/bbr/packet_number_indexed_queue.go). */
module PacketQueue {
  import opened Wrappers
  import opened RingBuffer

  const INVALID_PACKET_NUMBER := -1

  datatype Entry<T> = Entry(present: bool, entry: T)

  // ----- The queue as a value: its slots and the number of the first one

  datatype Queue<T> = Queue(slots: seq<Entry<T>>, first: int) {
    /** The front slot is occupied, and an empty queue has no first packet. */
    ghost predicate Valid() {
      && (slots == [] ==> first == INVALID_PACKET_NUMBER)
      && (slots != [] ==> first >= 0 && slots[0].present)
    }

    function Last(): int {
      if slots == [] then INVALID_PACKET_NUMBER else first + |slots| - 1
    }

    predicate Has(n: int) {
      first <= n < first + |slots| && slots[n - first].present
    }

    /** The queue as a map from packet numbers to entries. */
    ghost function AsMap(): (m: map<int, T>) {
      map n | first <= n < first + |slots| && Has(n) :: slots[n - first].entry
    }
  }

  function PresentCount<T>(slots: seq<Entry<T>>): (n: nat)
    ensures n <= |slots|
  {
    if slots == [] then 0 else (if slots[0].present then 1 else 0) + PresentCount(slots[1..])
  }

  function Blanks<T>(n: nat, zero: T): (s: seq<Entry<T>>)
    ensures |s| == n && forall i :: 0 <= i < n ==> s[i] == Entry(false, zero)
  {
    seq(n, _ => Entry(false, zero))
  }

  /** clearup: drop empty slots from the front. */
  function Cleared<T>(q: Queue<T>): (r: Queue<T>)
    requires q.slots == [] || q.first >= 0
    ensures r.Valid()
    decreases |q.slots|
  {
    if q.slots == [] then Queue([], INVALID_PACKET_NUMBER)
    else if q.slots[0].present then q
    else Cleared(Queue(q.slots[1..], q.first + 1))
  }

  function Emplaced<T>(q: Queue<T>, n: int, e: T, zero: T): (r: Queue<T>)
    requires q.Valid() && n > q.Last()
  {
    if q.slots == [] then Queue([Entry(true, e)], n)
    else Queue(q.slots + Blanks(n - q.Last() - 1, zero) + [Entry(true, e)], q.first)
  }

  function Removed<T>(q: Queue<T>, n: int): (r: Queue<T>)
    requires q.Valid() && q.Has(n)
    ensures r.Valid()
  {
    Cleared(Queue(q.slots[n - q.first := q.slots[n - q.first].(present := false)], q.first))
  }

  function RemovedUpTo<T>(q: Queue<T>, n: int): (r: Queue<T>)
    requires q.slots == [] || q.first >= 0
    ensures r.Valid()
    decreases |q.slots|
  {
    if q.slots != [] && q.first < n then RemovedUpTo(Queue(q.slots[1..], q.first + 1), n)
    else Cleared(q)
  }

  // ----- The queue behaves as a map

  lemma {:induction false} ClearUpKeepsMap<T>(q: Queue<T>)
    requires q.slots == [] || q.first >= 0
    ensures Cleared(q).AsMap() == q.AsMap()
    ensures Cleared(q).slots == [] || (Cleared(q).Last() == q.Last() && Cleared(q).first >= q.first)
    decreases |q.slots|
  {
    if q.slots != [] && !q.slots[0].present {
      var q' := Queue(q.slots[1..], q.first + 1);
      forall k ensures q'.Has(k) <==> q.Has(k) {}
      assert q'.AsMap() == q.AsMap();
      ClearUpKeepsMap(q');
    }
  }

  /** Adding a number past the end adds that entry and nothing else. */
  lemma EmplaceAddsEntry<T>(q: Queue<T>, n: int, e: T, zero: T)
    requires q.Valid() && n > q.Last() && n >= 0
    ensures Emplaced(q, n, e, zero).Valid()
    ensures Emplaced(q, n, e, zero).AsMap() == q.AsMap()[n := e]
    ensures Emplaced(q, n, e, zero).Last() == n
  {
    var r := Emplaced(q, n, e, zero);
    forall k ensures r.Has(k) <==> q.Has(k) || k == n {}
    assert r.AsMap().Keys == q.AsMap().Keys + {n};
  }

  lemma RemoveDropsEntry<T>(q: Queue<T>, n: int)
    requires q.Valid() && q.Has(n)
    ensures Removed(q, n).AsMap() == q.AsMap() - {n}
  {
    hide Cleared;
    var m := Queue(q.slots[n - q.first := q.slots[n - q.first].(present := false)], q.first);
    ClearUpKeepsMap(m);
    forall k ensures m.Has(k) <==> q.Has(k) && k != n {}
    assert m.AsMap().Keys == q.AsMap().Keys - {n};
  }

  ghost function Restrict<T>(m: map<int, T>, n: int): map<int, T> {
    map k | k in m && n <= k :: m[k]
  }

  lemma DropFrontRestricts<T>(q: Queue<T>)
    requires q.slots != []
    ensures Queue(q.slots[1..], q.first + 1).AsMap() == Restrict(q.AsMap(), q.first + 1)
  {
    var r := Queue(q.slots[1..], q.first + 1);
    forall k ensures r.Has(k) <==> q.Has(k) && q.first + 1 <= k {}
  }

  /** Removing up to n is restriction to the numbers from n on. */
  lemma {:induction false} RemoveUpToRestricts<T>(q: Queue<T>, n: int)
    requires q.slots == [] || q.first >= 0
    ensures RemovedUpTo(q, n).AsMap() == Restrict(q.AsMap(), n)
    decreases |q.slots|
  {
    if q.slots != [] && q.first < n {
      RemoveUpToRestricts(Queue(q.slots[1..], q.first + 1), n);
      DropFrontRestricts(q);
    } else {
      ClearUpKeepsMap(q);
    }
  }

  /** The first packet is the least one present, and the slots run from it to the last
      number ever added. */
  lemma FirstIsLeast<T>(q: Queue<T>)
    requires q.Valid() && q.slots != []
    ensures q.first in q.AsMap() && forall n :: n in q.AsMap() ==> q.first <= n <= q.Last()
    ensures |q.slots| == q.Last() - q.first + 1
  {
    assert q.Has(q.first);
  }

  lemma {:induction false} CountIsMapSize<T>(q: Queue<T>)
    ensures |q.AsMap()| == PresentCount(q.slots)
    decreases |q.slots|
  {
    if q.slots == [] {
      assert q.AsMap() == map[];
    } else {
      CountIsMapSize(Queue(q.slots[1..], q.first + 1));
      FrontEntry(q);
    }
  }

  lemma FrontEntry<T>(q: Queue<T>)
    requires q.slots != []
    ensures var rest := Queue(q.slots[1..], q.first + 1).AsMap();
            q.first !in rest &&
            q.AsMap() == if q.slots[0].present then rest[q.first := q.slots[0].entry] else rest
  {
    var r := Queue(q.slots[1..], q.first + 1);
    forall k ensures q.Has(k) <==> r.Has(k) || (k == q.first && q.slots[0].present) {}
  }

  // ----- Counting present slots

  lemma {:induction false} CountConcat<T>(a: seq<Entry<T>>, b: seq<Entry<T>>)
    ensures PresentCount(a + b) == PresentCount(a) + PresentCount(b)
  {
    if a == [] {
      assert a + b == b;
    } else {
      assert (a + b)[1..] == a[1..] + b;
      CountConcat(a[1..], b);
    }
  }

  lemma CountClear<T>(slots: seq<Entry<T>>, i: nat)
    requires i < |slots| && slots[i].present
    ensures PresentCount(slots[i := slots[i].(present := false)]) == PresentCount(slots) - 1
  {
    var off := slots[i].(present := false);
    assert slots == slots[..i] + [slots[i]] + slots[i + 1..];
    assert slots[i := off] == slots[..i] + [off] + slots[i + 1..];
    CountConcat(slots[..i], [slots[i]]);
    CountConcat(slots[..i] + [slots[i]], slots[i + 1..]);
    CountConcat(slots[..i], [off]);
    CountConcat(slots[..i] + [off], slots[i + 1..]);
  }

  lemma {:induction false} CountBlanks<T>(n: nat, zero: T)
    ensures PresentCount(Blanks(n, zero)) == 0
  {
    if n > 0 {
      assert Blanks(n, zero)[1..] == Blanks(n - 1, zero);
      CountBlanks(n - 1, zero);
    }
  }

  // ----- The class

  class PacketNumberIndexedQueue<T> {
    const entries: RingBuffer<Entry<T>>
    var numberOfPresentEntries: int
    var firstPacket: int

    ghost predicate Consistent()
      reads this, entries, entries.ring
    {
      && entries.Valid() && !entries.zero.present
      && numberOfPresentEntries == PresentCount(entries.View())
    }

    ghost predicate Valid()
      reads this, entries, entries.ring
    {
      Consistent() && View().Valid()
    }

    ghost function View(): (q: Queue<T>)
      reads this, entries, entries.ring
      requires entries.Valid()
    {
      Queue(entries.View(), firstPacket)
    }

    constructor (size: nat, zero: T)
      ensures Valid() && fresh(entries) && fresh(entries.ring)
      ensures View() == Queue([], INVALID_PACKET_NUMBER) && entries.zero.entry == zero
    {
      entries := new RingBuffer<Entry<T>>(size, Entry(false, zero));
      numberOfPresentEntries := 0;
      firstPacket := INVALID_PACKET_NUMBER;
    }

    predicate IsEmpty()
      reads this, entries, entries.ring
      requires Valid()
      ensures IsEmpty() <==> View().slots == []
    {
      assert View().slots != [] ==> PresentCount(View().slots) > 0;
      numberOfPresentEntries == 0
    }

    function LastPacket(): (n: int)
      reads this, entries, entries.ring
      requires Valid()
      ensures n == View().Last()
    {
      if IsEmpty() then INVALID_PACKET_NUMBER else firstPacket + entries.Len() - 1
    }

    /** Emplace: adds an entry past the last one; false if out of order. */
    method Emplace(packetNumber: int, entry: T) returns (ok: bool)
      requires Valid() && packetNumber >= INVALID_PACKET_NUMBER
      modifies this, entries, entries.ring
      ensures Valid() && (entries.ring == old(entries.ring) || fresh(entries.ring))
      ensures ok == (packetNumber > old(View()).Last())
      ensures View() == if ok then Emplaced(old(View()), packetNumber, entry, entries.zero.entry) else old(View())
    {
      hide Unrolled, Queue.AsMap, Queue.Has;
      if packetNumber == INVALID_PACKET_NUMBER {
        return false;
      }
      if IsEmpty() {
        entries.PushBack(Entry(true, entry));
        numberOfPresentEntries := 1;
        firstPacket := packetNumber;
        assert entries.View() == [Entry(true, entry)];
        return true;
      }
      if packetNumber <= LastPacket() {
        return false;
      }
      ghost var q, zero := View(), entries.zero.entry;
      var offset := packetNumber - firstPacket;
      var gap := offset - entries.Len();
      var i := 0;
      assert q.slots + Blanks(0, zero) == q.slots;
      while i < gap
        invariant 0 <= i <= gap
        invariant entries.Valid() && (entries.ring == old(entries.ring) || fresh(entries.ring))
        invariant entries.View() == q.slots + Blanks(i, zero)
        invariant firstPacket == q.first && numberOfPresentEntries == old(numberOfPresentEntries)
      {
        assert Blanks(i + 1, zero) == Blanks(i, zero) + [Entry(false, zero)];
        entries.PushBack(entries.zero);
        i := i + 1;
      }
      CountConcat(q.slots, Blanks(gap, zero));
      CountBlanks(gap, zero);
      CountConcat(q.slots + Blanks(gap, zero), [Entry(true, entry)]);
      entries.PushBack(Entry(true, entry));
      numberOfPresentEntries := numberOfPresentEntries + 1;
      return true;
    }

    /** GetEntry: the entry of a packet number, if there is one. */
    function GetEntry(packetNumber: int): (r: Option<T>)
      reads this, entries, entries.ring
      requires Valid()
      ensures r == if packetNumber in View().AsMap() then Some(View().AsMap()[packetNumber]) else None
    {
      if packetNumber == INVALID_PACKET_NUMBER || IsEmpty() || packetNumber < firstPacket then None
      else if packetNumber - firstPacket >= entries.Len() then None
      else
        var ew := entries.At(packetNumber - firstPacket);
        if !ew.present then None else Some(ew.entry)
    }

    method ClearUp()
      requires Consistent() && (entries.View() == [] || firstPacket >= 0)
      modifies this, entries, entries.ring
      ensures Valid() && entries.ring == old(entries.ring)
      ensures View() == Cleared(old(View()))
    {
      hide Unrolled, Queue.AsMap, Queue.Has;
      while !entries.Empty() && !entries.Front().present
        invariant Consistent() && (entries.View() == [] || firstPacket >= 0)
        invariant entries.ring == old(entries.ring)
        invariant Cleared(View()) == Cleared(old(View()))
        decreases |entries.View()|
      {
        ghost var slots := entries.View();
        var dropped := entries.PopFront();
        firstPacket := firstPacket + 1;
        assert slots[1..] == entries.View();
      }
      if entries.Empty() {
        firstPacket := INVALID_PACKET_NUMBER;
      }
    }

    /** Remove: false if the entry is not there. */
    method Remove(packetNumber: int) returns (removed: Option<T>)
      requires Valid()
      modifies this, entries, entries.ring
      ensures Valid() && entries.ring == old(entries.ring)
      ensures removed == if packetNumber in old(View()).AsMap() then Some(old(View()).AsMap()[packetNumber]) else None
      ensures View() == if removed.Some? then Removed(old(View()), packetNumber) else old(View())
    {
      removed := GetEntry(packetNumber);
      if removed.None? {
        return;
      }
      var offset := packetNumber - firstPacket;
      ghost var q := View();
      CountClear(q.slots, offset);
      entries.Set(offset, entries.At(offset).(present := false));
      numberOfPresentEntries := numberOfPresentEntries - 1;
      if packetNumber == firstPacket {
        ClearUp();
      }
    }

    /** RemoveUpTo: drops the entries below a packet number. */
    method RemoveUpTo(packetNumber: int)
      requires Valid()
      modifies this, entries, entries.ring
      ensures Valid() && entries.ring == old(entries.ring)
      ensures View() == RemovedUpTo(old(View()), packetNumber)
    {
      hide Unrolled, Queue.AsMap, Queue.Has;
      while !entries.Empty() && firstPacket != INVALID_PACKET_NUMBER && firstPacket < packetNumber
        invariant Consistent() && entries.ring == old(entries.ring)
        invariant entries.View() == [] || firstPacket >= 0
        invariant RemovedUpTo(View(), packetNumber) == RemovedUpTo(old(View()), packetNumber)
        decreases |entries.View()|
      {
        ghost var slots := entries.View();
        if entries.Front().present {
          numberOfPresentEntries := numberOfPresentEntries - 1;
        }
        var dropped := entries.PopFront();
        firstPacket := firstPacket + 1;
        assert slots[1..] == entries.View();
      }
      ClearUp();
    }
  }
}
