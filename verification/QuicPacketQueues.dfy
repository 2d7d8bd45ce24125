/** What the store of early packets holds: a queue for each connection, in order of arrival, and the
    connections whose client hello has come, in order of that. */
module QuicPacketQueues {
  import opened Wrappers
  import opened SimpleLinkedHashMap

  const MAX_CONNECTIONS: nat := 100
  const MAX_CONNECTIONS_WITHOUT_CHLO: nat := 50
  const MAX_UNDECRYPTABLE_PACKETS: nat := 10
  /** Five seconds, in microseconds. */
  const LIFE_SPAN: int := 5_000_000

  datatype BufferedPacket = BufferedPacket(data: int, selfAddress: int, peerAddress: int, isChlo: bool)

  datatype PacketList = PacketList(packets: seq<BufferedPacket>, creationTime: int, alpn: string, ietfQuic: bool, version: int)

  type Queues = seq<(int, PacketList)>
  type Chlos = seq<(int, bool)>

  predicate NoChlo(packets: seq<BufferedPacket>) {
    forall i :: 0 <= i < |packets| ==> !packets[i].isChlo
  }

  /** A queue is never empty; its client hello, if it has come, is first; and the others are few. */
  predicate GoodQueue(packets: seq<BufferedPacket>, hasChlo: bool) {
    if hasChlo then
      packets != [] && packets[0].isChlo && NoChlo(packets[1..]) && |packets| <= MAX_UNDECRYPTABLE_PACKETS + 1
    else
      packets != [] && NoChlo(packets) && |packets| <= MAX_UNDECRYPTABLE_PACKETS
  }

  predicate ByAge(q: Queues) {
    forall i, j :: 0 <= i < j < |q| ==> q[i].1.creationTime <= q[j].1.creationTime
  }

  ghost predicate GoodQueues(q: Queues, c: Chlos) {
    forall i :: 0 <= i < |q| ==> GoodQueue(q[i].1.packets, HasKey(c, q[i].0))
  }

  /** Every connection whose client hello has come has a queue. */
  ghost predicate Covered(q: Queues, c: Chlos) {
    forall k :: HasKey(c, k) ==> HasKey(q, k)
  }

  ghost predicate Limits(q: Queues, c: Chlos) {
    |q| <= MAX_CONNECTIONS && |q| - |c| <= MAX_CONNECTIONS_WITHOUT_CHLO
  }

  ghost predicate Good(q: Queues, c: Chlos) {
    DistinctKeys(q) && DistinctKeys(c) && ByAge(q) && GoodQueues(q, c) && Covered(q, c) && Limits(q, c)
  }

  predicate Full(q: Queues, c: Chlos, isChlo: bool) {
    |q| >= MAX_CONNECTIONS || (!isChlo && |q| - |c| >= MAX_CONNECTIONS_WITHOUT_CHLO)
  }

  /** A queue after one more packet: a client hello goes to the front and brings its settings. */
  function Added(l: PacketList, p: BufferedPacket, alpn: string, version: int): PacketList {
    if p.isChlo then l.(packets := [p] + l.packets, alpn := alpn, version := version)
    else l.(packets := l.packets + [p])
  }

  lemma AddedGood(l: PacketList, p: BufferedPacket, alpn: string, version: int, hasChlo: bool)
    requires l.packets == [] ==> !hasChlo
    requires l.packets != [] ==> GoodQueue(l.packets, hasChlo)
    requires if p.isChlo then !hasChlo else |l.packets| - (if hasChlo then 1 else 0) < MAX_UNDECRYPTABLE_PACKETS
    ensures GoodQueue(Added(l, p, alpn, version).packets, hasChlo || p.isChlo)
  {
    if !p.isChlo && hasChlo {
      assert (l.packets + [p])[1..] == l.packets[1..] + [p];
    } else if p.isChlo {
      assert ([p] + l.packets)[1..] == l.packets;
    }
  }

  lemma AppendHas<V>(s: seq<(int, V)>, key: int, value: V)
    ensures forall k :: HasKey(s + [(key, value)], k) <==> HasKey(s, k) || k == key
  {
    var t := s + [(key, value)];
    assert t[|s|].0 == key;
    forall k | HasKey(s, k) ensures HasKey(t, k) {
      var i :| 0 <= i < |s| && s[i].0 == k;
      assert t[i].0 == k;
    }
  }

  lemma AssignHas<V>(s: seq<(int, V)>, i: nat, value: V)
    requires i < |s|
    ensures forall k :: HasKey(s[i := (s[i].0, value)], k) <==> HasKey(s, k)
  {
    var t := s[i := (s[i].0, value)];
    assert forall j :: 0 <= j < |s| ==> t[j].0 == s[j].0;
    forall k ensures HasKey(t, k) <==> HasKey(s, k) {
      if j :| 0 <= j < |s| && s[j].0 == k {
        assert t[j].0 == k;
      }
      if j :| 0 <= j < |s| && t[j].0 == k {
        assert s[j].0 == k;
      }
    }
  }

  lemma CutHas<V>(s: seq<(int, V)>, p: nat)
    requires p < |s| && DistinctKeys(s)
    ensures forall k :: HasKey(Cut(s, p), k) <==> HasKey(s, k) && k != s[p].0
    ensures DistinctKeys(Cut(s, p))
  {
    hide Cut;
    CutAt(s, p);
    var t := Cut(s, p);
    forall k ensures HasKey(t, k) <==> HasKey(s, k) && k != s[p].0 {
      if j :| 0 <= j < |s| && s[j].0 == k && j != p {
        assert t[if j < p then j else j - 1].0 == k;
      }
      if j :| 0 <= j < |t| && t[j].0 == k {
        assert s[if j < p then j else j + 1].0 == k;
      }
    }
  }

  /** The queues after a packet was accepted for connection k. */
  function Enqueued(q: Queues, k: int, l: PacketList): Queues {
    if Place(q, k) < |q| then q[Place(q, k) := (k, l)] else q + [(k, l)]
  }

  function EnqueuedChlo(c: Chlos, k: int, isChlo: bool): Chlos {
    if isChlo then c + [(k, false)] else c
  }

  lemma EnqueuedHas(q: Queues, k: int, l: PacketList)
    ensures forall x :: HasKey(Enqueued(q, k, l), x) <==> HasKey(q, x) || x == k
  {
    var p := Place(q, k);
    if p < |q| {
      AssignHas(q, p, l);
    } else {
      AppendHas(q, k, l);
    }
  }

  lemma EnqueuedChloHas(c: Chlos, k: int, isChlo: bool)
    requires DistinctKeys(c) && (isChlo ==> !HasKey(c, k))
    ensures DistinctKeys(EnqueuedChlo(c, k, isChlo))
    ensures forall x :: HasKey(EnqueuedChlo(c, k, isChlo), x) <==> HasKey(c, x) || (isChlo && x == k)
  {
    AppendHas(c, k, false);
  }

  lemma AssignedQueues(q: Queues, c: Chlos, c': Chlos, p: nat, l: PacketList)
    requires p < |q| && DistinctKeys(q) && ByAge(q) && GoodQueues(q, c) && l.creationTime == q[p].1.creationTime
    requires forall i :: 0 <= i < |q| && i != p ==> (HasKey(c', q[i].0) <==> HasKey(c, q[i].0))
    requires GoodQueue(l.packets, HasKey(c', q[p].0))
    ensures var q' := q[p := (q[p].0, l)]; DistinctKeys(q') && ByAge(q') && GoodQueues(q', c')
  {
    hide HasKey, GoodQueue;
    var q' := q[p := (q[p].0, l)];
    assert forall i :: 0 <= i < |q| ==> q'[i].0 == q[i].0 && q'[i].1.creationTime == q[i].1.creationTime;
  }

  lemma AppendedQueues(q: Queues, c: Chlos, c': Chlos, k: int, l: PacketList)
    requires DistinctKeys(q) && ByAge(q) && GoodQueues(q, c)
    requires forall i :: 0 <= i < |q| ==> q[i].0 != k && q[i].1.creationTime <= l.creationTime
    requires forall i :: 0 <= i < |q| ==> (HasKey(c', q[i].0) <==> HasKey(c, q[i].0))
    requires GoodQueue(l.packets, HasKey(c', k))
    ensures var q' := q + [(k, l)]; DistinctKeys(q') && ByAge(q') && GoodQueues(q', c')
  {
    hide HasKey, GoodQueue;
    var q' := q + [(k, l)];
    assert forall i :: 0 <= i < |q| ==> q'[i] == q[i];
    assert q'[|q|] == (k, l);
  }

  /** Accepting a packet keeps the store good. */
  lemma EnqueuedGood(q: Queues, c: Chlos, k: int, l: PacketList, isChlo: bool)
    requires Good(q, c) && (isChlo ==> !HasKey(c, k)) && (!HasKey(q, k) ==> !Full(q, c, isChlo))
    requires GoodQueue(l.packets, HasKey(c, k) || isChlo)
    requires HasKey(q, k) ==> l.creationTime == q[Place(q, k)].1.creationTime
    requires !HasKey(q, k) ==> forall i :: 0 <= i < |q| ==> q[i].1.creationTime <= l.creationTime
    ensures Good(Enqueued(q, k, l), EnqueuedChlo(c, k, isChlo))
  {
    hide GoodQueue, DistinctKeys, ByAge, GoodQueues;
    var q', c' := Enqueued(q, k, l), EnqueuedChlo(c, k, isChlo);
    EnqueuedChloHas(c, k, isChlo);
    EnqueuedHas(q, k, l);
    var p := Place(q, k);
    if p < |q| {
      DistinctAt(q, p);
      AssignedQueues(q, c, c', p, l);
    } else {
      AppendedQueues(q, c, c', k, l);
    }
  }

  lemma DistinctAt<V>(s: seq<(int, V)>, p: nat)
    requires DistinctKeys(s) && p < |s|
    ensures forall i :: 0 <= i < |s| && i != p ==> s[i].0 != s[p].0
  {
  }

  lemma WithoutHas<V>(s: seq<(int, V)>, k: int)
    requires DistinctKeys(s)
    ensures DistinctKeys(Without(s, k)) && forall x :: HasKey(Without(s, k), x) <==> HasKey(s, x) && x != k
    ensures |Without(s, k)| == if HasKey(s, k) then |s| - 1 else |s|
  {
    hide Cut;
    if Place(s, k) < |s| {
      CutHas(s, Place(s, k));
      CutAt(s, Place(s, k));
    }
  }

  lemma WithoutQueues(q: Queues, c: Chlos, c': Chlos, k: int)
    requires DistinctKeys(q) && ByAge(q) && GoodQueues(q, c)
    requires forall x :: x != k ==> (HasKey(c', x) <==> HasKey(c, x))
    ensures ByAge(Without(q, k)) && GoodQueues(Without(q, k), c')
  {
    var p := Place(q, k);
    WithoutHas(q, k);
    if p < |q| {
      CutQueues(q, c, p);
    }
    var q' := Without(q, k);
    forall i | 0 <= i < |q'| ensures GoodQueue(q'[i].1.packets, HasKey(c', q'[i].0)) {
      assert HasKey(q', q'[i].0);
    }
  }

  /** Taking connection k out of both keeps the store good. */
  lemma RemovedGood(q: Queues, c: Chlos, k: int)
    requires Good(q, c)
    ensures Good(Without(q, k), Without(c, k))
  {
    hide GoodQueue, Without, HasKey, ByAge, GoodQueues, DistinctKeys;
    WithoutHas(q, k);
    WithoutHas(c, k);
    WithoutQueues(q, c, Without(c, k), k);
  }

  lemma CutQueues(q: Queues, c: Chlos, p: nat)
    requires p < |q| && ByAge(q) && GoodQueues(q, c)
    ensures ByAge(Cut(q, p)) && GoodQueues(Cut(q, p), c)
  {
    hide Cut, GoodQueue, HasKey;
    CutAt(q, p);
  }

  /** All packets held. */
  function Held(q: Queues): multiset<BufferedPacket> {
    if q == [] then multiset{} else Held(q[..|q| - 1]) + multiset(q[|q| - 1].1.packets)
  }

  lemma Exchange<T>(a: multiset<T>, x: multiset<T>, b: multiset<T>, y: multiset<T>, c: multiset<T>)
    requires a + x == b + y
    ensures a + c + x == b + c + y
  {
    assert a + c + x == a + x + c && b + c + y == b + y + c;
  }

  lemma {:induction false} HeldAssign(q: Queues, p: nat, l: PacketList)
    requires p < |q|
    ensures Held(q[p := (q[p].0, l)]) + multiset(q[p].1.packets) == Held(q) + multiset(l.packets)
  {
    var n := |q| - 1;
    var q' := q[p := (q[p].0, l)];
    if p == n {
      assert q'[..n] == q[..n];
    } else {
      assert q'[..n] == q[..n][p := (q[p].0, l)];
      HeldAssign(q[..n], p, l);
      Exchange(Held(q'[..n]), multiset(q[p].1.packets), Held(q[..n]), multiset(l.packets), multiset(q[n].1.packets));
    }
  }

  lemma {:induction false} HeldCut(q: Queues, p: nat)
    requires p < |q|
    ensures Held(Cut(q, p)) + multiset(q[p].1.packets) == Held(q)
  {
    var n := |q| - 1;
    if p == n {
      assert Cut(q, p) == q[..n];
    } else {
      assert Cut(q, p)[..n - 1] == Cut(q[..n], p);
      assert Cut(q, p)[n - 1] == q[n];
      HeldCut(q[..n], p);
    }
  }

  lemma HeldAppend(q: Queues, k: int, l: PacketList)
    ensures Held(q + [(k, l)]) == Held(q) + multiset(l.packets)
  {
    assert (q + [(k, l)])[..|q|] == q;
  }

  /** Accepting a packet adds just that packet. */
  lemma HeldEnqueued(q: Queues, k: int, l: PacketList, before: seq<BufferedPacket>, p: BufferedPacket)
    requires multiset(l.packets) == multiset(before) + multiset{p}
    requires if HasKey(q, k) then q[Place(q, k)].1.packets == before else before == []
    ensures Held(Enqueued(q, k, l)) == Held(q) + multiset{p}
  {
    hide Held, HasKey;
    var i := Place(q, k);
    if i < |q| {
      HeldAssign(q, i, l);
      Cancel(Held(Enqueued(q, k, l)), multiset(before), Held(q), multiset{p});
    } else {
      HeldAppend(q, k, l);
      assert multiset(before) + multiset{p} == multiset{p};
    }
  }

  lemma Cancel<T>(a: multiset<T>, x: multiset<T>, b: multiset<T>, y: multiset<T>)
    requires a + x == b + (x + y)
    ensures a == b + y
  {
    assert a == a + x - x && b + y == b + (x + y) - x;
  }

  lemma AddedPackets(l: PacketList, p: BufferedPacket, alpn: string, version: int)
    ensures multiset(Added(l, p, alpn, version).packets) == multiset(l.packets) + multiset{p}
  {
  }

  /** The connections in q taken out of c one after another. */
  function WithoutAll(c: Chlos, q: Queues): Chlos {
    if q == [] then c else Without(WithoutAll(c, q[..|q| - 1]), q[|q| - 1].0)
  }

  /** The alarm goes off in time for every queue: within two life spans of its creation. */
  predicate AlarmInTime(q: Queues, deadline: int, now: int) {
    && (deadline != 0 ==> deadline <= now + LIFE_SPAN)
    && (q != [] ==> deadline != 0)
    && (forall i :: 0 <= i < |q| ==> q[i].1.creationTime <= now && deadline <= q[i].1.creationTime + 2 * LIFE_SPAN)
  }

  /** How many times the alarm has gone off since each queue was created: never more than once, and the
      alarm is then set for a time when the queue will have expired. */
  predicate LivedThroughOne(q: Queues, lived: map<int, nat>, deadline: int) {
    forall i :: 0 <= i < |q| ==>
      q[i].0 in lived && (lived[q[i].0] == 0 || (lived[q[i].0] == 1 && q[i].1.creationTime + LIFE_SPAN <= deadline))
  }

  /** What is queued for a connection before a packet is added to it. */
  function ListBefore(q: Queues, k: int, ietfQuic: bool, version: int, now: int): PacketList {
    if Place(q, k) < |q| then q[Place(q, k)].1 else PacketList([], now, "", ietfQuic, version)
  }

  /** Whether the queue of a connection has room for the packet. */
  predicate Room(q: Queues, c: Chlos, k: int, isChlo: bool) {
    isChlo || Place(q, k) == |q| || |q[Place(q, k)].1.packets| - (if HasKey(c, k) then 1 else 0) < MAX_UNDECRYPTABLE_PACKETS
  }

  lemma AddedCreation(q: Queues, k: int, p: BufferedPacket, ietfQuic: bool, alpn: string, version: int, now: int)
    ensures Added(ListBefore(q, k, ietfQuic, version, now), p, alpn, version).creationTime
      == if Place(q, k) < |q| then q[Place(q, k)].1.creationTime else now
  {
  }

  lemma AddOne<T>(all: multiset<T>, held: multiset<T>, released: multiset<T>, p: T)
    requires all == held + released
    ensures all + multiset{p} == held + multiset{p} + released
  {
    assert held + released + multiset{p} == held + multiset{p} + released;
  }

  lemma RoomForNew(q: Queues, c: Chlos, k: int, isChlo: bool)
    ensures !HasKey(q, k) ==> Room(q, c, k, isChlo)
  {
  }

  lemma EnqueueKeeps(q: Queues, c: Chlos, k: int, p: BufferedPacket, ietfQuic: bool, alpn: string, version: int, now: int)
    requires Good(q, c) && (p.isChlo ==> !HasKey(c, k))
    requires (!HasKey(q, k) ==> !Full(q, c, p.isChlo)) && Room(q, c, k, p.isChlo)
    requires forall i :: 0 <= i < |q| ==> q[i].1.creationTime <= now
    ensures var l := Added(ListBefore(q, k, ietfQuic, version, now), p, alpn, version);
      Good(Enqueued(q, k, l), EnqueuedChlo(c, k, p.isChlo)) && Held(Enqueued(q, k, l)) == Held(q) + multiset{p}
  {
    hide Held, GoodQueue, DistinctKeys, ByAge, HasKey;
    var before := ListBefore(q, k, ietfQuic, version, now);
    var l := Added(before, p, alpn, version);
    if Place(q, k) == |q| {
      assert !HasKey(c, k);
    } else {
      NeverEmpty(q, c, Place(q, k));
    }
    AddedGood(before, p, alpn, version, HasKey(c, k));
    EnqueuedGood(q, c, k, l, p.isChlo);
    AddedPackets(before, p, alpn, version);
    HeldEnqueued(q, k, l, before.packets, p);
  }

  lemma NeverEmpty(q: Queues, c: Chlos, i: nat)
    requires GoodQueues(q, c) && i < |q|
    ensures q[i].1.packets != [] && GoodQueue(q[i].1.packets, HasKey(c, q[i].0))
  {
  }

  lemma AlarmAfterEnqueue(q: Queues, k: int, l: PacketList, deadline: int, deadline': int, before: int, now: int, lived: map<int, nat>, lived': map<int, nat>)
    requires AlarmInTime(q, deadline, before) && LivedThroughOne(q, lived, deadline) && 0 <= before <= now && DistinctKeys(q)
    requires l.creationTime == if Place(q, k) < |q| then q[Place(q, k)].1.creationTime else now
    requires deadline' == if deadline != 0 then deadline else now + LIFE_SPAN
    requires lived' == if Place(q, k) < |q| then lived else lived[k := 0]
    ensures AlarmInTime(Enqueued(q, k, l), deadline', now) && LivedThroughOne(Enqueued(q, k, l), lived', deadline')
  {
  }

  lemma Young(q: Queues, deadline: int, now: int)
    requires AlarmInTime(q, deadline, now)
    ensures forall i :: 0 <= i < |q| ==> q[i].1.creationTime <= now
  {
  }

  lemma NoneEmpty(q: Queues, c: Chlos)
    requires Good(q, c)
    ensures forall i :: 0 <= i < |q| ==> q[i].1.packets != []
    ensures DistinctKeys(q) && DistinctKeys(c)
  {
  }

  lemma AlarmLater(q: Queues, deadline: int, before: int, now: int)
    requires AlarmInTime(q, deadline, before) && before <= now
    ensures AlarmInTime(q, deadline, now)
  {
  }

  /** The alarm stays in time for the queues that are left when one is taken out. */
  lemma AlarmAfterRemoval(q: Queues, k: int, deadline: int, now: int, lived: map<int, nat>)
    requires AlarmInTime(q, deadline, now) && LivedThroughOne(q, lived, deadline)
    ensures AlarmInTime(Without(q, k), deadline, now) && LivedThroughOne(Without(q, k), lived, deadline)
  {
    hide Cut;
    if Place(q, k) < |q| {
      CutAt(q, Place(q, k));
    }
  }

  lemma HeldWithout(q: Queues, k: int)
    ensures Held(Without(q, k)) + multiset(Taken(q, k).packets) == Held(q)
  {
    if Place(q, k) < |q| {
      HeldCut(q, Place(q, k));
    }
  }

  /** What is handed out for connection k: its queue, or an empty list. */
  function Taken(q: Queues, k: int): PacketList {
    if Place(q, k) < |q| then q[Place(q, k)].1 else PacketList([], 0, "", false, 0)
  }

  lemma ReleaseSome<T>(all: multiset<T>, held: multiset<T>, released: multiset<T>, kept: multiset<T>, out: multiset<T>)
    requires all == held + released && kept + out == held
    ensures all == kept + (released + out)
  {
    assert kept + out + released == kept + (released + out);
  }

  lemma WithoutChlo(c: Chlos, k: int)
    ensures !HasKey(c, k) ==> Without(c, k) == c
    ensures DistinctKeys(c) && c != [] && c[0].0 == k ==> Without(c, k) == c[1..]
  {
  }

  /** Taking out only the queue of a connection whose client hello has come would leave its client
      hello behind. */
  lemma LeftBehind(q: Queues, c: Chlos, k: int)
    requires Good(q, c) && HasKey(c, k)
    ensures !Covered(Without(q, k), c)
  {
    WithoutHas(q, k);
  }

  /** The oldest queue is first, so taking it out by name takes it off the front. */
  lemma WithoutFirst(q: Queues)
    requires q != []
    ensures Without(q, q[0].0) == q[1..]
  {
    CutFirst(q);
  }

  lemma ExpireOne(q: Queues, c: Chlos)
    requires Good(q, c) && q != []
    ensures Good(q[1..], Without(c, q[0].0)) && Held(q[1..]) + multiset(q[0].1.packets) == Held(q)
  {
    WithoutFirst(q);
    RemovedGood(q, c, q[0].0);
    HeldWithout(q, q[0].0);
  }

  lemma WithoutAllMore(c: Chlos, q: Queues, n: nat)
    requires n < |q|
    ensures WithoutAll(c, q[..n + 1]) == Without(WithoutAll(c, q[..n]), q[n].0)
  {
    assert q[..n + 1][..n] == q[..n];
  }

  /** The n oldest queues have expired, and no others. */
  predicate ExpiredFirst(q: Queues, n: nat, now: int) {
    && n <= |q|
    && (forall i :: 0 <= i < n ==> q[i].1.creationTime <= now - LIFE_SPAN)
    && (forall i :: n <= i < |q| ==> q[i].1.creationTime > now - LIFE_SPAN)
  }

  lemma FirstYoung(q: Queues, c: Chlos, n: nat, now: int)
    requires Good(q, c) && n <= |q| && forall i :: 0 <= i < n ==> q[i].1.creationTime <= now - LIFE_SPAN
    requires n < |q| ==> q[n].1.creationTime > now - LIFE_SPAN
    ensures ExpiredFirst(q, n, now)
  {
  }

  /** After the alarm has gone off and been set again. */
  lemma AlarmAfterFiring(q: Queues, n: nat, deadline: int, before: int, now: int, lived: map<int, nat>)
    requires AlarmInTime(q, deadline, before) && LivedThroughOne(q, lived, deadline) && ExpiredFirst(q, n, now)
    requires deadline <= now && 0 <= before <= now
    ensures AlarmInTime(q[n..], if n == |q| then 0 else now + LIFE_SPAN, now)
    ensures LivedThroughOne(q[n..], map k | k in lived :: lived[k] + 1, if n == |q| then 0 else now + LIFE_SPAN)
  {
    var q' := q[n..];
    assert forall i :: 0 <= i < |q'| ==> q'[i] == q[n + i];
  }

  // ---- what a queue holds, from the packets as they came ----

  /** A packet that was accepted for a connection, with what came with it. */
  datatype Arrival = Arrival(packet: BufferedPacket, alpn: string, version: int, ietfQuic: bool, time: int)

  /** The queue of a connection after these packets, one added after the other. */
  function Collected(a: seq<Arrival>): PacketList
    requires a != []
  {
    var last := a[|a| - 1];
    var before := if |a| == 1 then PacketList([], last.time, "", last.ietfQuic, last.version) else Collected(a[..|a| - 1]);
    Added(before, last.packet, last.alpn, last.version)
  }

  /** The packets that are not client hellos, in the order in which they came. */
  function Others(a: seq<Arrival>): seq<BufferedPacket> {
    if a == [] then [] else Others(a[..|a| - 1]) + if a[|a| - 1].packet.isChlo then [] else [a[|a| - 1].packet]
  }

  /** The only client hello is the one at place i; with no place, there is none. */
  predicate OnlyChlo(a: seq<Arrival>, i: int) {
    forall j :: 0 <= j < |a| ==> (a[j].packet.isChlo <==> j == i)
  }

  /** A queue holds the client hello, if it has come, and then the other packets in the order in which
      they came. Application protocol and version are those of the client hello once it has come. */
  lemma {:induction false} ArrivalsCollected(a: seq<Arrival>, i: int)
    requires a != [] && i < |a| && OnlyChlo(a, i)
    ensures var l := Collected(a);
      && l.packets == (if i >= 0 then [a[i].packet] else []) + Others(a)
      && l.alpn == (if i >= 0 then a[i].alpn else "")
      && l.version == (if i >= 0 then a[i].version else a[0].version)
      && l.creationTime == a[0].time && l.ietfQuic == a[0].ietfQuic
  {
    var n := |a| - 1;
    if n == 0 {
      assert a[..0] == [];
    } else {
      assert forall j :: 0 <= j < n ==> a[..n][j] == a[j];
      if i == n {
        ArrivalsCollected(a[..n], -1);
      } else {
        ArrivalsCollected(a[..n], i);
      }
    }
  }

  lemma {:induction false} ChloPlace(a: seq<Arrival>) returns (i: int)
    requires a != []
    requires var p := Collected(a).packets; NoChlo(p) || (p != [] && p[0].isChlo && NoChlo(p[1..]))
    ensures i < |a| && OnlyChlo(a, i) && (i >= 0 <==> !NoChlo(Collected(a).packets))
  {
    var n := |a| - 1;
    var p, last := Collected(a).packets, a[n].packet;
    if n == 0 {
      assert p == [last] && p[0] == last;
      i := if last.isChlo then 0 else -1;
    } else {
      var before := Collected(a[..n]).packets;
      if last.isChlo {
        assert p[1..] == before && p[0] == last;
        i := ChloPlace(a[..n]);
        i := n;
      } else {
        assert p == before + [last];
        FewerPackets(before, last);
        i := ChloPlace(a[..n]);
        assert p[0] == if before == [] then last else before[0];
      }
      assert forall j :: 0 <= j < n ==> a[..n][j] == a[j];
    }
  }

  lemma FewerPackets(before: seq<BufferedPacket>, p: BufferedPacket)
    requires NoChlo(before + [p]) || NoChlo((before + [p])[1..])
    ensures NoChlo(before + [p]) ==> NoChlo(before)
    ensures before != [] && NoChlo((before + [p])[1..]) ==> NoChlo(before[1..])
    ensures !p.isChlo && NoChlo(before) ==> NoChlo(before + [p])
  {
    var t := before + [p];
    assert forall i :: 0 <= i < |before| ==> t[i] == before[i];
    if before != [] {
      assert t[1..] == before[1..] + [p];
      assert forall i :: 0 <= i < |before| - 1 ==> t[1..][i] == before[1..][i];
    }
  }

  /** A queue with a client hello in front, as it is delivered: the client hello with what came with it,
      and then every other packet in order of arrival. */
  lemma DeliveredIs(a: seq<Arrival>) returns (i: nat)
    requires a != []
    requires var p := Collected(a).packets; p != [] && p[0].isChlo && NoChlo(p[1..])
    ensures i < |a| && a[i].packet.isChlo
    ensures Collected(a).packets == [a[i].packet] + Others(a) && Collected(a).alpn == a[i].alpn && Collected(a).version == a[i].version
  {
    var k := ChloPlace(a);
    i := k;
    ArrivalsCollected(a, i);
  }

  lemma {:induction false} CollectedMore(a: seq<Arrival>, b: Arrival)
    ensures a != [] ==> Collected(a + [b]) == Added(Collected(a), b.packet, b.alpn, b.version)
    ensures Collected([b]) == Added(PacketList([], b.time, "", b.ietfQuic, b.version), b.packet, b.alpn, b.version)
  {
    if a != [] {
      assert (a + [b])[..|a|] == a;
    }
  }

  /** What accepting a packet does to the queue of its connection, and that it does nothing to others. */
  lemma EnqueuedIs(q: Queues, k: int, p: BufferedPacket, ietfQuic: bool, alpn: string, version: int, now: int)
    requires DistinctKeys(q)
    ensures var was, l := Taken(q, k), Added(ListBefore(q, k, ietfQuic, version, now), p, alpn, version);
      var r := Enqueued(q, k, l);
      && Taken(r, k) == l && HasKey(r, k)
      && l.packets == (if p.isChlo then [p] + was.packets else was.packets + [p])
      && l.alpn == (if p.isChlo then alpn else was.alpn)
      && l.version == (if p.isChlo || !HasKey(q, k) then version else was.version)
      && l.ietfQuic == (if HasKey(q, k) then was.ietfQuic else ietfQuic)
      && l.creationTime == (if HasKey(q, k) then was.creationTime else now)
      && (forall i :: 0 <= i < |q| && q[i].0 != k ==> i < |r| && r[i] == q[i])
      && |r| == (if HasKey(q, k) then |q| else |q| + 1)
  {
    var l := Added(ListBefore(q, k, ietfQuic, version, now), p, alpn, version);
    if Place(q, k) < |q| {
      var r := q[Place(q, k) := (k, l)];
      assert r[Place(q, k)].0 == k;
    } else {
      var r := q + [(k, l)];
      assert r[|q|].0 == k;
    }
  }

  /** Every queue is what its arrivals make it. */
  ghost predicate Chronicled(q: Queues, arrivals: map<int, seq<Arrival>>) {
    forall i :: 0 <= i < |q| ==> q[i].0 in arrivals && arrivals[q[i].0] != [] && q[i].1 == Collected(arrivals[q[i].0])
  }

  function Arrived(q: Queues, arrivals: map<int, seq<Arrival>>, k: int, b: Arrival): map<int, seq<Arrival>> {
    arrivals[k := (if HasKey(q, k) && k in arrivals then arrivals[k] else []) + [b]]
  }

  lemma ChronicledEnqueue(q: Queues, arrivals: map<int, seq<Arrival>>, k: int, p: BufferedPacket, ietfQuic: bool, alpn: string, version: int, now: int)
    requires DistinctKeys(q) && Chronicled(q, arrivals)
    ensures var b, l := Arrival(p, alpn, version, ietfQuic, now), Added(ListBefore(q, k, ietfQuic, version, now), p, alpn, version);
      Chronicled(Enqueued(q, k, l), Arrived(q, arrivals, k, b))
  {
    var b, l := Arrival(p, alpn, version, ietfQuic, now), Added(ListBefore(q, k, ietfQuic, version, now), p, alpn, version);
    var r, arrivals' := Enqueued(q, k, l), Arrived(q, arrivals, k, b);
    hide Added, Collected;
    if HasKey(q, k) {
      CollectedMore(arrivals[k], b);
    } else {
      CollectedMore([], b);
      assert [] + [b] == [b];
    }
    forall i | 0 <= i < |r| ensures r[i].0 in arrivals' && arrivals'[r[i].0] != [] && r[i].1 == Collected(arrivals'[r[i].0]) {
      if i != Place(q, k) {
        assert r[i] == q[i];
      }
    }
  }

  lemma ChronicledWithout(q: Queues, arrivals: map<int, seq<Arrival>>, k: int)
    requires Chronicled(q, arrivals)
    ensures Chronicled(Without(q, k), arrivals)
  {
    hide Cut, Collected;
    if Place(q, k) < |q| {
      CutAt(q, Place(q, k));
    }
  }

  lemma ChronicledTaken(q: Queues, arrivals: map<int, seq<Arrival>>, k: int)
    requires Chronicled(q, arrivals) && HasKey(q, k)
    ensures k in arrivals && arrivals[k] != [] && Taken(q, k) == Collected(arrivals[k])
  {
  }
}
