/** Packets that arrive before their connection can be made, kept for a while and within limits. */
module QuicBufferedPacketStore {
  import opened Wrappers
  import opened SimpleLinkedHashMap
  import opened QuicPacketQueues

  /** An alarm; a deadline of zero means that it is not set. */
  class QuicAlarm {
    var deadline: int

    constructor ()
      ensures deadline == 0
    {
      deadline := 0;
    }

    predicate IsSet()
      reads this
    {
      deadline != 0
    }

    method Set(newDeadline: int)
      requires !IsSet() && newDeadline != 0
      modifies this
      ensures deadline == newDeadline
    {
      deadline := newDeadline;
    }
  }

  datatype EnqueuePacketResult = Success | TooManyPackets | TooManyConnections

  class QuicBufferedPacketStore {
    const undecryptablePackets: SimpleLinkedHashMap<int, PacketList>
    const connectionsWithChlo: SimpleLinkedHashMap<int, bool>
    const expirationAlarm: QuicAlarm
    /** Queues handed to the visitor because they expired. */
    var expired: Queues
    /** The latest time seen, the packets accepted and those no longer held, and how many times the
        alarm has gone off since each queue was created. */
    ghost var now: int
    ghost var accepted: multiset<BufferedPacket>
    ghost var released: multiset<BufferedPacket>
    ghost var lived: map<int, nat>
    /** The packets accepted for each connection since it last had no queue. */
    ghost var arrivals: map<int, seq<Arrival>>

    ghost function Queued(): Queues
      reads undecryptablePackets
    {
      undecryptablePackets.Contents()
    }

    ghost function WithChlo(): Chlos
      reads connectionsWithChlo
    {
      connectionsWithChlo.Contents()
    }

    /** Valid but for the alarm. */
    ghost predicate Sound()
      reads this, undecryptablePackets, connectionsWithChlo
    {
      && undecryptablePackets.Valid() && connectionsWithChlo.Valid()
      && Good(Queued(), WithChlo())
      && now >= 0
      && accepted == Held(Queued()) + released
      && Chronicled(Queued(), arrivals)
    }

    ghost predicate Valid()
      reads this, undecryptablePackets, connectionsWithChlo, expirationAlarm
    {
      && Sound()
      && AlarmInTime(Queued(), expirationAlarm.deadline, now)
      && LivedThroughOne(Queued(), lived, expirationAlarm.deadline)
    }

    constructor (now: int)
      requires now >= 0
      ensures Valid() && Queued() == [] && WithChlo() == [] && this.now == now
      ensures fresh(undecryptablePackets) && fresh(connectionsWithChlo) && fresh(expirationAlarm)
    {
      undecryptablePackets := new SimpleLinkedHashMap<int, PacketList>();
      connectionsWithChlo := new SimpleLinkedHashMap<int, bool>();
      expirationAlarm := new QuicAlarm();
      expired := [];
      this.now := now;
      accepted, released, lived, arrivals := multiset{}, multiset{}, map[], map[];
    }

    method ShouldBufferPacket(isChlo: bool) returns (full: bool)
      requires Sound()
      ensures full == Full(Queued(), WithChlo(), isChlo)
    {
      var size := undecryptablePackets.Size();
      var isStoreFull := size >= MAX_CONNECTIONS;
      if isChlo {
        return isStoreFull;
      }
      var withChlo := connectionsWithChlo.Size();
      var reachNonChloLimit := size - withChlo >= MAX_CONNECTIONS_WITHOUT_CHLO;
      return isStoreFull || reachNonChloLimit;
    }

    method MaybeSetExpirationAlarm(now: int)
      requires now >= 0
      modifies expirationAlarm
      ensures expirationAlarm.deadline == if old(expirationAlarm.deadline) != 0 then old(expirationAlarm.deadline) else now + 5_000_000
    {
      if !expirationAlarm.IsSet() {
        expirationAlarm.Set(now + LIFE_SPAN);
      }
    }

    method EnqueuePacket(k: int, ietfQuic: bool, packet: BufferedPacket, alpn: string, version: int, now: int)
      returns (result: EnqueuePacketResult)
      requires Valid() && now >= this.now
      requires packet.isChlo ==> !HasKey(WithChlo(), k)
      modifies this, undecryptablePackets, connectionsWithChlo, expirationAlarm
      ensures Valid() && this.now == now && expired == old(expired) && released == old(released)
      ensures result == TooManyConnections <==> !old(HasKey(Queued(), k)) && old(Full(Queued(), WithChlo(), packet.isChlo))
      ensures result == TooManyPackets <==> !old(Room(Queued(), WithChlo(), k, packet.isChlo))
      ensures result == Success ==>
        Queued() == Enqueued(old(Queued()), k, Added(ListBefore(old(Queued()), k, ietfQuic, version, now), packet, alpn, version))
      ensures result == Success ==> WithChlo() == EnqueuedChlo(old(WithChlo()), k, packet.isChlo) && accepted == old(accepted) + multiset{packet}
      ensures result == Success ==> lived == if Place(old(Queued()), k) < |old(Queued())| then old(lived) else old(lived)[k := 0]
      ensures result != Success ==>
        Queued() == old(Queued()) && WithChlo() == old(WithChlo()) && accepted == old(accepted) && lived == old(lived) && arrivals == old(arrivals)
      ensures result == Success ==> arrivals == Arrived(old(Queued()), old(arrivals), k, Arrival(packet, alpn, version, ietfQuic, now))
      ensures var q, c, was := old(Queued()), old(WithChlo()), Taken(old(Queued()), k);
        && (result == TooManyConnections <==> !HasKey(q, k) && (|q| >= 100 || (!packet.isChlo && |q| - |c| >= 50)))
        && (result == TooManyPackets <==> HasKey(q, k) && !packet.isChlo && |was.packets| - (if HasKey(c, k) then 1 else 0) >= 10)
        && (result == Success ==> WithChlo() == if packet.isChlo then c + [(k, false)] else c)
        && (result == Success ==> Taken(Queued(), k).packets == if packet.isChlo then [packet] + was.packets else was.packets + [packet])
        && (result == Success ==> Taken(Queued(), k).creationTime == if HasKey(q, k) then was.creationTime else now)
    {
      hide SimpleLinkedHashMap.Valid, SimpleLinkedHashMap.Contents;
      hide Good, Held, Chronicled, Collected, AlarmInTime, LivedThroughOne, HasKey, Enqueued, Room, Full, EnqueuedChlo, Added, ListBefore, Place;
      AlarmLater(Queued(), expirationAlarm.deadline, this.now, now);
      RoomForNew(Queued(), WithChlo(), k, packet.isChlo);
      LimitsAre(Queued(), WithChlo(), k, packet.isChlo);
      NoneEmpty(Queued(), WithChlo());
      EnqueuedIs(Queued(), k, packet, ietfQuic, alpn, version, now);
      this.now := now;
      var found := undecryptablePackets.Find(k);
      if found.None? {
        var full := ShouldBufferPacket(packet.isChlo);
        if full {
          return TooManyConnections;
        }
      }
      var room := HasRoom(k, packet.isChlo);
      if !room {
        return TooManyPackets;
      }
      Admit(k, ietfQuic, packet, alpn, version, now);
      return Success;
    }

    /** Accepts a packet for which there is room. */
    method Admit(k: int, ietfQuic: bool, packet: BufferedPacket, alpn: string, version: int, now: int)
      requires Valid() && now == this.now
      requires packet.isChlo ==> !HasKey(WithChlo(), k)
      requires (!HasKey(Queued(), k) ==> !Full(Queued(), WithChlo(), packet.isChlo)) && Room(Queued(), WithChlo(), k, packet.isChlo)
      modifies `accepted, `lived, `arrivals, undecryptablePackets, connectionsWithChlo, expirationAlarm
      ensures Valid()
      ensures Queued() == Enqueued(old(Queued()), k, Added(ListBefore(old(Queued()), k, ietfQuic, version, now), packet, alpn, version))
      ensures WithChlo() == EnqueuedChlo(old(WithChlo()), k, packet.isChlo) && accepted == old(accepted) + multiset{packet}
      ensures lived == if Place(old(Queued()), k) < |old(Queued())| then old(lived) else old(lived)[k := 0]
      ensures arrivals == Arrived(old(Queued()), old(arrivals), k, Arrival(packet, alpn, version, ietfQuic, now))
    {
      hide SimpleLinkedHashMap.Valid, SimpleLinkedHashMap.Contents;
      hide Good, Held, Chronicled, Collected, AlarmInTime, LivedThroughOne, HasKey, Enqueued, Room, Full, EnqueuedChlo, Added, ListBefore, Place;
      ghost var q, c, deadline, lived0 := Queued(), WithChlo(), expirationAlarm.deadline, lived;
      Young(q, deadline, now);
      NoneEmpty(q, c);
      EnqueueKeeps(q, c, k, packet, ietfQuic, alpn, version, now);
      ghost var l := Added(ListBefore(q, k, ietfQuic, version, now), packet, alpn, version);
      Put(k, ietfQuic, packet, alpn, version, now);
      MaybeSetExpirationAlarm(now);
      ChronicledEnqueue(q, arrivals, k, packet, ietfQuic, alpn, version, now);
      arrivals := Arrived(q, arrivals, k, Arrival(packet, alpn, version, ietfQuic, now));
      AddOne(accepted, Held(q), released, packet);
      accepted := accepted + multiset{packet};
      AddedCreation(q, k, packet, ietfQuic, alpn, version, now);
      lived := if Place(q, k) < |q| then lived else lived[k := 0];
      AlarmAfterEnqueue(q, k, l, deadline, expirationAlarm.deadline, now, now, lived0, lived);
    }

    /** Packets other than the client hello are counted, and limited, for each connection. */
    method HasRoom(k: int, isChlo: bool) returns (room: bool)
      requires undecryptablePackets.Valid() && connectionsWithChlo.Valid()
      ensures room == Room(Queued(), WithChlo(), k, isChlo)
    {
      var found := undecryptablePackets.Find(k);
      if !isChlo && found.Some? {
        var hasChlo := connectionsWithChlo.Find(k);
        var numNonChloPackets := if hasChlo.Some? then |found.value.packets| - 1 else |found.value.packets|;
        return numNonChloPackets < MAX_UNDECRYPTABLE_PACKETS;
      }
      return true;
    }

    /** Adds the packet to the queue of its connection, making one if there is none. */
    method Put(k: int, ietfQuic: bool, packet: BufferedPacket, alpn: string, version: int, now: int)
      requires undecryptablePackets.Valid() && connectionsWithChlo.Valid()
      requires packet.isChlo ==> !HasKey(WithChlo(), k)
      requires forall i :: 0 <= i < |Queued()| ==> Queued()[i].1.packets != []
      modifies undecryptablePackets, connectionsWithChlo
      ensures undecryptablePackets.Valid() && connectionsWithChlo.Valid()
      ensures Queued() == Enqueued(old(Queued()), k, Added(ListBefore(old(Queued()), k, ietfQuic, version, now), packet, alpn, version))
      ensures WithChlo() == EnqueuedChlo(old(WithChlo()), k, packet.isChlo)
    {
      hide Enqueued, HasKey, Place;
      ghost var q, empty := Queued(), PacketList([], 0, "", ietfQuic, version);
      var inserted := undecryptablePackets.Emplace(k, PacketList([], 0, "", ietfQuic, version));
      EmplacedThenAssigned(q, k, empty);
      var found := undecryptablePackets.Find(k);
      var queue := found.value;
      if queue.packets == [] {
        queue := queue.(creationTime := now);
      }
      ghost var before := queue;
      assert before == ListBefore(q, k, ietfQuic, version, now);
      if packet.isChlo {
        queue := queue.(packets := [packet] + queue.packets, alpn := alpn);
        var added := connectionsWithChlo.Emplace(k, false);
        queue := queue.(version := version);
      } else {
        queue := queue.(packets := queue.packets + [packet]);
      }
      undecryptablePackets.Assign(k, queue);
    }

    /** Takes out the queue of a connection, if it has one. What is left is valid exactly when its client
        hello had not come. */
    method DeliverPackets(k: int) returns (l: PacketList)
      requires undecryptablePackets.Valid()
      modifies `released, undecryptablePackets
      ensures undecryptablePackets.Valid() && l == Taken(old(Queued()), k) && Queued() == Without(old(Queued()), k)
      ensures released == old(released) + multiset(l.packets)
      ensures old(Valid()) ==> (Valid() <==> !old(HasKey(WithChlo(), k)))
      ensures old(Valid() && HasKey(Queued(), k)) ==> k in arrivals && arrivals[k] != [] && l == Collected(arrivals[k])
    {
      hide SimpleLinkedHashMap.Valid, SimpleLinkedHashMap.Contents;
      hide Good, Held, Chronicled, Collected, AlarmInTime, LivedThroughOne, HasKey, Without, Place;
      ghost var q, c, was, all := Queued(), WithChlo(), Valid(), Held(Queued());
      l := PacketList([], 0, "", false, 0);
      PlaceHas(q, k);
      var found := undecryptablePackets.Find(k);
      if found.Some? {
        l := found.value;
        var count := undecryptablePackets.Erase(k);
      } else {
        WithoutNone(q, k);
      }
      released := released + multiset(l.packets);
      if was {
        HeldWithout(q, k);
        ChronicledWithout(q, arrivals, k);
        if HasKey(q, k) {
          ChronicledTaken(q, arrivals, k);
        }
        ReleaseSome(accepted, all, old(released), Held(Queued()), multiset(l.packets));
        AlarmAfterRemoval(q, k, expirationAlarm.deadline, now, lived);
        if HasKey(c, k) {
          LeftBehind(q, c, k);
          NotGood(Queued(), c);
        } else {
          RemovedGood(q, c, k);
          WithoutChlo(c, k);
        }
      }
    }

    method DiscardPackets(k: int)
      requires Valid()
      modifies `released, undecryptablePackets, connectionsWithChlo
      ensures Valid() && Queued() == Without(old(Queued()), k) && WithChlo() == Without(old(WithChlo()), k)
      ensures released == old(released) + multiset(Taken(old(Queued()), k).packets)
    {
      hide SimpleLinkedHashMap.Valid, SimpleLinkedHashMap.Contents;
      hide Good, Held, Chronicled, Collected, AlarmInTime, LivedThroughOne, HasKey, Without, Place;
      ghost var q, c := Queued(), WithChlo();
      HeldWithout(q, k);
      ChronicledWithout(q, arrivals, k);
      RemovedGood(q, c, k);
      AlarmAfterRemoval(q, k, expirationAlarm.deadline, now, lived);
      var count := undecryptablePackets.Erase(k);
      count := connectionsWithChlo.Erase(k);
      ReleaseSome(accepted, Held(q), released, Held(Queued()), multiset(Taken(q, k).packets));
      released := released + multiset(Taken(q, k).packets);
    }

    /** Hands out the queue of the connection whose client hello came first. */
    method DeliverPacketsForNextConnection() returns (k: int, l: PacketList)
      requires Valid()
      modifies `released, undecryptablePackets, connectionsWithChlo
      ensures Valid()
      ensures old(WithChlo()) == [] ==> l.packets == [] && Queued() == old(Queued()) && WithChlo() == [] && released == old(released)
      ensures old(WithChlo()) != [] ==>
        && k == old(WithChlo())[0].0 && WithChlo() == old(WithChlo())[1..]
        && l == Taken(old(Queued()), k) && Queued() == Without(old(Queued()), k)
        && l.packets != [] && l.packets[0].isChlo && NoChlo(l.packets[1..])
        && released == old(released) + multiset(l.packets)
        && k in arrivals && arrivals[k] != [] && l == Collected(arrivals[k])
    {
      hide SimpleLinkedHashMap.Valid, SimpleLinkedHashMap.Contents;
      hide Good, Held, Chronicled, Collected, AlarmInTime, LivedThroughOne, HasKey, Without, Place;
      ghost var q, c := Queued(), WithChlo();
      var first := connectionsWithChlo.Front();
      if first.None? {
        return 0, PacketList([], 0, "", false, 0);
      }
      k := first.value.0;
      NextHasQueue(q, c, k);
      HeldWithout(q, k);
      ChronicledWithout(q, arrivals, k);
      ChronicledTaken(q, arrivals, k);
      RemovedGood(q, c, k);
      WithoutChlo(c, k);
      AlarmAfterRemoval(q, k, expirationAlarm.deadline, now, lived);
      connectionsWithChlo.PopFront();
      l := DeliverPackets(k);
      ReleaseSome(accepted, Held(q), old(released), Held(Queued()), multiset(l.packets));
    }

    /** Hands the oldest queue to the visitor and forgets it. */
    method ExpireFront(first: (int, PacketList))
      requires Sound() && Queued() != [] && first == Queued()[0]
      modifies `expired, `released, undecryptablePackets, connectionsWithChlo
      ensures Sound() && Queued() == old(Queued())[1..] && WithChlo() == Without(old(WithChlo()), first.0)
      ensures expired == old(expired) + [first]
    {
      hide SimpleLinkedHashMap.Valid, SimpleLinkedHashMap.Contents;
      hide Good, Held, Chronicled, Collected, Without;
      ExpireOne(Queued(), WithChlo());
      ChronicledRest(Queued(), arrivals);
      ReleaseSome(accepted, Held(Queued()), released, Held(Queued()[1..]), multiset(first.1.packets));
      expired := expired + [first];
      released := released + multiset(first.1.packets);
      undecryptablePackets.PopFront();
      var count := connectionsWithChlo.Erase(first.0);
    }

    /** Hands every expired queue to the visitor, oldest first, stopping at the first young one, and
        sets the alarm again if any queue is left. */
    method OnExpirationTimeout(now: int) returns (ghost n: nat)
      requires Sound() && now >= 0 && expirationAlarm.deadline == 0
      modifies `expired, `released, undecryptablePackets, connectionsWithChlo, expirationAlarm
      ensures Sound() && n <= |old(Queued())| && ExpiredFirst(old(Queued()), n, now) && arrivals == old(arrivals)
      ensures forall i :: 0 <= i < |old(Queued())| ==> (old(Queued())[i].1.creationTime <= now - 5_000_000 <==> i < n)
      ensures Queued() == old(Queued())[n..] && expired == old(expired) + old(Queued())[..n]
      ensures WithChlo() == WithoutAll(old(WithChlo()), old(Queued())[..n])
      ensures expirationAlarm.deadline == if Queued() == [] then 0 else now + LIFE_SPAN
    {
      hide SimpleLinkedHashMap.Valid, SimpleLinkedHashMap.Contents;
      hide Good, Held, Chronicled, Collected, Without, ExpiredFirst, WithoutAll;
      var expirationTime := now - LIFE_SPAN;
      ghost var q, c := Queued(), WithChlo();
      n := 0;
      NoneOut(c);
      var first := undecryptablePackets.Front();
      while first.Some?
        invariant Sound() && n <= |q| && Queued() == q[n..] && expired == old(expired) + q[..n]
        invariant WithChlo() == WithoutAll(c, q[..n]) && q[..0] == []
        invariant forall i :: 0 <= i < n ==> q[i].1.creationTime <= expirationTime
        invariant first == (if Queued() == [] then None else Some(Queued()[0])) && expirationAlarm.deadline == 0
        decreases |q| - n
      {
        if first.value.1.creationTime > expirationTime {
          break;
        }
        WithoutAllMore(c, q, n);
        ExpireFront(first.value);
        n := n + 1;
        first := undecryptablePackets.Front();
      }
      FirstYoung(q, c, n, now);
      var size := undecryptablePackets.Size();
      if size != 0 {
        MaybeSetExpirationAlarm(now);
      }
    }

    /** The alarm goes off, at its deadline or later. No queue is left that was there the last time it
        went off. */
    method Fire(now: int) returns (ghost n: nat)
      requires Valid() && now >= this.now && now >= expirationAlarm.deadline
      modifies this, undecryptablePackets, connectionsWithChlo, expirationAlarm
      ensures Valid() && this.now == now && accepted == old(accepted)
      ensures n <= |old(Queued())| && Queued() == old(Queued())[n..] && expired == old(expired) + old(Queued())[..n]
      ensures old(expirationAlarm.deadline) != 0 ==> ExpiredFirst(old(Queued()), n, now)
      ensures old(expirationAlarm.deadline) != 0 ==> WithChlo() == WithoutAll(old(WithChlo()), old(Queued())[..n])
      ensures old(expirationAlarm.deadline) == 0 ==> old(Queued()) == []
      ensures lived == if old(expirationAlarm.deadline) == 0 then old(lived) else map k | k in old(lived) :: old(lived)[k] + 1
    {
      hide SimpleLinkedHashMap.Valid, SimpleLinkedHashMap.Contents;
      hide Good, Held, Chronicled, Collected, Without, ExpiredFirst, AlarmInTime, LivedThroughOne, WithoutAll;
      ghost var q, deadline := Queued(), expirationAlarm.deadline;
      if !expirationAlarm.IsSet() {
        AlarmLater(q, deadline, this.now, now);
        UnsetWhenEmpty(q, deadline, now);
        this.now := now;
        return 0;
      }
      expirationAlarm.deadline := 0;
      n := OnExpirationTimeout(now);
      assert n <= |q|;
      AlarmAfterFiring(q, n, deadline, this.now, now, lived);
      this.now := now;
      lived := map k | k in lived :: lived[k] + 1;
    }
  }

  lemma ChronicledRest(q: Queues, arrivals: map<int, seq<Arrival>>)
    requires q != [] && Chronicled(q, arrivals)
    ensures Chronicled(q[1..], arrivals)
  {
    hide Collected;
  }

  /** The limits, in numbers. */
  lemma LimitsAre(q: Queues, c: Chlos, k: int, isChlo: bool)
    ensures Full(q, c, isChlo) <==> |q| >= 100 || (!isChlo && |q| - |c| >= 50)
    ensures Room(q, c, k, isChlo) <==> !HasKey(q, k) || isChlo || |Taken(q, k).packets| - (if HasKey(c, k) then 1 else 0) < 10
    ensures EnqueuedChlo(c, k, isChlo) == if isChlo then c + [(k, false)] else c
  {
  }

  lemma NoneOut(c: Chlos)
    ensures WithoutAll(c, []) == c
  {
  }

  lemma UnsetWhenEmpty(q: Queues, deadline: int, now: int)
    requires AlarmInTime(q, deadline, now) && deadline == 0
    ensures q == []
  {
  }

  lemma PlaceHas(q: Queues, k: int)
    ensures HasKey(q, k) <==> Place(q, k) < |q|
  {
  }

  lemma WithoutNone(q: Queues, k: int)
    requires !HasKey(q, k)
    ensures Without(q, k) == q
  {
  }

  lemma NotGood(q: Queues, c: Chlos)
    requires !Covered(q, c)
    ensures !Good(q, c)
  {
  }

  /** The connection whose client hello came first has a queue, with the client hello in front. */
  lemma NextHasQueue(q: Queues, c: Chlos, k: int)
    requires Good(q, c) && c != [] && c[0].0 == k
    ensures DistinctKeys(c) && Taken(q, k).packets != [] && Taken(q, k).packets[0].isChlo && NoChlo(Taken(q, k).packets[1..])
  {
    assert HasKey(c, k);
    PlaceHas(q, k);
    assert GoodQueue(q[Place(q, k)].1.packets, HasKey(c, q[Place(q, k)].0));
  }

  /** Making an entry if there is none, and then writing to it. */
  lemma EmplacedThenAssigned(q: Queues, k: int, empty: PacketList)
    ensures var q' := if HasKey(q, k) then q else q + [(k, empty)];
      && HasKey(q', k) && Place(q', k) == Place(q, k)
      && q'[Place(q', k)].1 == (if HasKey(q, k) then q[Place(q, k)].1 else empty)
      && forall l {:trigger Enqueued(q, k, l)} :: q'[Place(q', k) := (k, l)] == Enqueued(q, k, l)
    ensures HasKey(q, k) <==> Place(q, k) < |q|
  {
    PlaceAppended(q, k, empty);
  }

  lemma PlaceAppended(q: Queues, k: int, l: PacketList)
    ensures !HasKey(q, k) ==> Place(q + [(k, l)], k) == |q| && HasKey(q + [(k, l)], k)
  {
    AppendHas(q, k, l);
    var t := q + [(k, l)];
    if !HasKey(q, k) {
      assert forall i :: 0 <= i < |q| ==> t[i] == q[i];
    }
  }
}
