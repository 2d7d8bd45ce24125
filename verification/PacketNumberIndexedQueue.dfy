/** A queue of entries indexed by packet number: a deque with a slot for every number from the first
    present one to the last inserted, some of them empty. */
module PacketNumberIndexedQueue {
  import opened Wrappers

  datatype Slot<+T> = Absent | Present(value: T)

  /** The slot for a packet number, when slot zero is for the number first. */
  function SlotFor<T>(slots: seq<Slot<T>>, first: nat, n: nat): Slot<T> {
    if first <= n < first + |slots| then slots[n - first] else Absent
  }

  /** The entries as a map from packet numbers. */
  ghost function AsMap<T>(slots: seq<Slot<T>>, first: nat): map<nat, T> {
    map n: nat | n < first + |slots| && SlotFor(slots, first, n).Present? :: SlotFor(slots, first, n).value
  }

  function Empties<T>(n: nat): (s: seq<Slot<T>>)
    ensures |s| == n && forall i :: 0 <= i < n ==> s[i].Absent?
  {
    if n == 0 then [] else Empties(n - 1) + [Absent]
  }

  lemma AppendMap<T>(slots: seq<Slot<T>>, first: nat, gap: nat, value: T)
    ensures AsMap(slots + Empties<T>(gap) + [Present(value)], first) == AsMap(slots, first)[first + |slots| + gap := value]
  {
  }

  lemma SingleMap<T>(n: nat, value: T)
    ensures AsMap([Present(value)], n) == map[n := value]
  {
    assert SlotFor([Present(value)], n, n) == Present(value);
  }

  lemma RemoveMap<T>(slots: seq<Slot<T>>, first: nat, i: nat)
    requires i < |slots|
    ensures AsMap(slots[i := Absent], first) == AsMap(slots, first) - {first + i}
  {
  }

  lemma TrimMap<T>(slots: seq<Slot<T>>, first: nat)
    requires slots != [] && slots[0].Absent?
    ensures AsMap(slots[1..], first + 1) == AsMap(slots, first)
  {
    forall n: nat ensures SlotFor(slots[1..], first + 1, n) == SlotFor(slots, first, n) {
    }
  }

  class PacketNumberIndexedQueue<T> {
    var entries: seq<Slot<T>>
    var numberOfPresentEntries: nat
    var firstPacket: Option<nat>
    /** The last number inserted since the queue was last empty. */
    ghost var lastInserted: nat

    ghost function Contents(): map<nat, T>
      reads this
    {
      if firstPacket.None? then map[] else AsMap(entries, firstPacket.value)
    }

    /** The first slot is in use; there is a slot for each number up to the last inserted; the count of
        entries is exact; and an empty queue is in its initial state. */
    ghost predicate Valid()
      reads this
    {
      && (firstPacket.None? <==> entries == [])
      && (entries != [] ==> entries[0].Present? && lastInserted == firstPacket.value + |entries| - 1)
      && numberOfPresentEntries == |Contents()|
    }

    constructor ()
      ensures Valid() && Contents() == map[]
    {
      entries, numberOfPresentEntries, firstPacket := [], 0, None;
    }

    lemma FirstIsLeast()
      requires Valid()
      ensures firstPacket.None? <==> Contents() == map[]
      ensures firstPacket.Some? ==> firstPacket.value in Contents() && forall n :: n in Contents() ==> firstPacket.value <= n <= lastInserted
      ensures |entries| == if Contents() == map[] then 0 else lastInserted - firstPacket.value + 1
      ensures numberOfPresentEntries == 0 <==> Contents() == map[]
    {
      if firstPacket.Some? {
        assert firstPacket.value in Contents();
      }
    }

    method LastPacket() returns (last: Option<nat>)
      requires Valid()
      ensures last == if Contents() == map[] then None else Some(lastInserted)
    {
      FirstIsLeast();
      if numberOfPresentEntries == 0 {
        return None;
      }
      return Some(firstPacket.value + |entries| - 1);
    }

    method GetEntry(packetNumber: Option<nat>) returns (entry: Option<T>)
      requires Valid()
      ensures entry == if packetNumber.Some? && packetNumber.value in Contents() then Some(Contents()[packetNumber.value]) else None
    {
      FirstIsLeast();
      if packetNumber.None? || numberOfPresentEntries == 0 || packetNumber.value < firstPacket.value {
        return None;
      }
      var offset := packetNumber.value - firstPacket.value;
      if offset >= |entries| || entries[offset].Absent? {
        return None;
      }
      return Some(entries[offset].value);
    }

    method Emplace(packetNumber: Option<nat>, value: T) returns (ok: bool)
      requires Valid()
      modifies this
      ensures Valid()
      ensures ok <==> packetNumber.Some? && (old(Contents()) == map[] || packetNumber.value > old(lastInserted))
      ensures ok ==> packetNumber.value !in old(Contents()) && Contents() == old(Contents())[packetNumber.value := value] && lastInserted == packetNumber.value
      ensures !ok ==> Contents() == old(Contents()) && lastInserted == old(lastInserted)
    {
      hide AsMap;
      FirstIsLeast();
      if packetNumber.None? {
        return false;
      }
      var n := packetNumber.value;
      if numberOfPresentEntries == 0 {
        entries := entries + [Present(value)];
        numberOfPresentEntries := 1;
        firstPacket := Some(n);
        lastInserted := n;
        assert entries == [Present(value)];
        SingleMap(n, value);
        return true;
      }
      var last := LastPacket();
      if n <= last.value {
        return false;
      }
      var offset := n - firstPacket.value;
      AppendMap(entries, firstPacket.value, offset - |entries|, value);
      if offset > |entries| {
        entries := entries + Empties(offset - |entries|);
      } else {
        assert entries + Empties<T>(0) == entries;
      }
      numberOfPresentEntries := numberOfPresentEntries + 1;
      entries := entries + [Present(value)];
      lastInserted := n;
      return true;
    }

    /** Returns the entry that was removed. */
    method Remove(packetNumber: Option<nat>) returns (removed: Option<T>)
      requires Valid()
      modifies this
      ensures Valid() && lastInserted == old(lastInserted)
      ensures removed == if packetNumber.Some? && packetNumber.value in old(Contents()) then Some(old(Contents())[packetNumber.value]) else None
      ensures Contents() == if removed.Some? then old(Contents()) - {packetNumber.value} else old(Contents())
    {
      removed := GetEntry(packetNumber);
      if removed.None? {
        return;
      }
      var n := packetNumber.value;
      FirstIsLeast();
      var offset := n - firstPacket.value;
      RemoveMap(entries, firstPacket.value, offset);
      entries := entries[offset := Absent];
      numberOfPresentEntries := numberOfPresentEntries - 1;
      assert Contents().Keys == old(Contents()).Keys - {n};
      if n == firstPacket.value {
        Cleanup();
      }
    }

    /** Gives back the unused slots in front. */
    method Cleanup()
      requires firstPacket.Some? && (entries != [] ==> lastInserted == firstPacket.value + |entries| - 1)
      requires numberOfPresentEntries == |Contents()|
      modifies `entries, `firstPacket
      ensures Valid() && Contents() == old(Contents())
    {
      while entries != [] && entries[0].Absent?
        invariant firstPacket.Some? && (entries != [] ==> lastInserted == firstPacket.value + |entries| - 1)
        invariant Contents() == old(Contents())
        decreases |entries|
      {
        TrimMap(entries, firstPacket.value);
        entries := entries[1..];
        firstPacket := Some(firstPacket.value + 1);
      }
      if entries == [] {
        firstPacket := None;
      }
    }
  }
}
