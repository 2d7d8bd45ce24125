/** How a connection gets packets to its writer: in order, queueing them while the writer is blocked. */
module QuicConnectionSendQueue {
  import opened Wrappers
  import opened QuicPacketWrites

  /** What became of a packet: the writer took it; it was dropped on purpose; it was saved to be sent
      after the connection is gone, without being written; or it was lost in a failure or in closing. */
  datatype Fate = Written | Discarded | Saved | Lost

  /** A packet given to the writer, the writer's answer, and the encryption levels of the packet and of the
      connection then. */
  datatype Attempt = Attempt(number: nat, status: WriteStatus, packetLevel: EncryptionLevel, level: EncryptionLevel)

  predicate Accepted(status: WriteStatus) {
    !status.Blocked? && !status.Error?
  }

  /** The packets that the writer took. */
  function Taken(attempts: seq<Attempt>): seq<nat> {
    if attempts == [] then [] else
      Taken(attempts[..|attempts| - 1]) + if Accepted(attempts[|attempts| - 1].status) then [attempts[|attempts| - 1].number] else []
  }

  /** Packets are given to the writer in order, and none again after the writer took it. */
  predicate GivenInOrder(attempts: seq<Attempt>) {
    forall i, j :: 0 <= i < j < |attempts| ==>
      attempts[i].number <= attempts[j].number && (Accepted(attempts[i].status) ==> attempts[i].number < attempts[j].number)
  }

  /** Nothing given to the writer so far comes after n. */
  predicate NotPast(attempts: seq<Attempt>, n: nat) {
    forall i :: 0 <= i < |attempts| ==> attempts[i].number <= n
  }

  /** The peer of a forward secure connection is given no packet without encryption. */
  predicate Protected(a: Attempt) {
    a.level.ForwardSecure? ==> !a.packetLevel.Initial?
  }

  /** What was given to the writer and what it took, of the packets numbered below next. */
  predicate Offers(attempts: seq<Attempt>, written: seq<nat>, next: nat) {
    && GivenInOrder(attempts) && written == Taken(attempts) && Ascending(written)
    && (forall i :: 0 <= i < |attempts| ==> attempts[i].number < next && Protected(attempts[i]))
  }

  lemma TakenMore(attempts: seq<Attempt>, a: Attempt)
    ensures Taken(attempts + [a]) == Taken(attempts) + if Accepted(a.status) then [a.number] else []
  {
    assert (attempts + [a])[..|attempts|] == attempts;
  }

  lemma {:induction false} AcceptedWasTaken(attempts: seq<Attempt>, i: nat)
    requires i < |attempts| && Accepted(attempts[i].status)
    ensures attempts[i].number in Taken(attempts)
  {
    var n := |attempts| - 1;
    if i < n {
      AcceptedWasTaken(attempts[..n], i);
    }
  }

  /** One more packet is given to the writer, after all that it took. */
  lemma OffersMore(attempts: seq<Attempt>, written: seq<nat>, next: nat, a: Attempt)
    requires Offers(attempts, written, next) && NotPast(attempts, a.number) && a.number < next && Protected(a)
    requires written != [] ==> written[|written| - 1] < a.number
    ensures Offers(attempts + [a], written + if Accepted(a.status) then [a.number] else [], next)
    ensures NotPast(attempts + [a], a.number)
  {
    hide Accepted, Taken, Protected;
    TakenMore(attempts, a);
    forall i | 0 <= i < |attempts| && Accepted(attempts[i].status) ensures attempts[i].number < a.number {
      AcceptedWasTaken(attempts, i);
    }
  }

  lemma OffersNext(attempts: seq<Attempt>, written: seq<nat>, next: nat)
    requires Offers(attempts, written, next)
    ensures Offers(attempts, written, next + 1) && NotPast(attempts, next)
    ensures next > 0 ==> NotPast(attempts, next - 1)
  {
  }

  lemma NotPastLater(attempts: seq<Attempt>, n: nat, m: nat)
    requires NotPast(attempts, n) && n <= m
    ensures NotPast(attempts, m)
  {
  }

  function Numbers(q: seq<SerializedPacket>): set<nat> {
    set i | 0 <= i < |q| :: q[i].number
  }

  predicate Increasing(q: seq<SerializedPacket>) {
    forall i, j :: 0 <= i < j < |q| ==> q[i].number < q[j].number
  }

  predicate Ascending(s: seq<nat>) {
    forall i, j :: 0 <= i < j < |s| ==> s[i] < s[j]
  }

  predicate Above(q: seq<SerializedPacket>, n: nat) {
    forall i :: 0 <= i < |q| ==> q[i].number > n
  }

  lemma NumbersAppend(q: seq<SerializedPacket>, p: SerializedPacket)
    ensures Numbers(q + [p]) == Numbers(q) + {p.number}
  {
    var t := q + [p];
    assert t[|q|] == p;
    forall n | n in Numbers(q) ensures n in Numbers(t) {
      var i :| 0 <= i < |q| && q[i].number == n;
      assert t[i].number == n;
    }
  }

  lemma NumbersFront(q: seq<SerializedPacket>, p: SerializedPacket)
    ensures Numbers([p] + q) == Numbers(q) + {p.number}
  {
    var t := [p] + q;
    assert t[0] == p;
    forall n | n in Numbers(q) ensures n in Numbers(t) {
      var i :| 0 <= i < |q| && q[i].number == n;
      assert t[i + 1].number == n;
    }
    forall n | n in Numbers(t) && n != p.number ensures n in Numbers(q) {
      var i :| 0 <= i < |t| && t[i].number == n;
      assert q[i - 1].number == n;
    }
  }

  lemma NumbersDistinct(q: seq<SerializedPacket>)
    requires q != [] && forall i, j :: 0 <= i < j < |q| ==> q[i].number != q[j].number
    ensures q[0].number !in Numbers(q[1..])
  {
    forall n | n in Numbers(q[1..]) ensures n != q[0].number {
      var i :| 0 <= i < |q| - 1 && q[1..][i].number == n;
      assert q[1..][i] == q[i + 1];
    }
  }

  lemma NumbersEach(q: seq<SerializedPacket>)
    ensures forall i :: 0 <= i < |q| ==> q[i].number in Numbers(q)
  {
  }

  class QuicConnection {
    var connected: bool
    var writeErrorOccurred: bool
    var level: EncryptionLevel
    var queuedPackets: seq<SerializedPacket>
    var largestSent: Option<nat>
    var terminationPackets: seq<nat>
    var nextPacketNumber: nat
    /** What the writer and the rest of the connection decide, and how many of the writer's answers have
        been used. */
    const setting: Setting
    var turn: nat
    /** What was given to the writer; the packets it took, in order; and what became of every packet
        that is not waiting. */
    ghost var attempts: seq<Attempt>
    /** Every packet that could not be written, each time that it could not. */
    ghost var refusals: seq<nat>
    ghost var written: seq<nat>
    ghost var fate: map<nat, Fate>

    /** Every packet made so far is in the queue, or in hand, or has met its fate, and only one of
        these. */
    ghost predicate Accounted(inHand: set<nat>)
      reads `queuedPackets, `nextPacketNumber, `fate
    {
      && (forall n :: n in fate ==> n < nextPacketNumber && n !in Numbers(queuedPackets) && n !in inHand)
      && (forall n :: n in Numbers(queuedPackets) ==> n < nextPacketNumber && n !in inHand)
      && (forall n :: n in inHand ==> n < nextPacketNumber)
      && (forall n: nat :: n < nextPacketNumber ==> n in fate || n in Numbers(queuedPackets) || n in inHand)
      && (forall i, j :: 0 <= i < j < |queuedPackets| ==> queuedPackets[i].number != queuedPackets[j].number)
    }

    /** Packets are given to the writer in order, and not again once taken; what it took met that fate;
        and while the connection is open, what waits comes after all that, in order. */
    ghost predicate InOrder()
      reads `connected, `queuedPackets, `largestSent, `terminationPackets, `nextPacketNumber, `attempts, `written, `fate
    {
      && Offers(attempts, written, nextPacketNumber)
      && (forall n: nat :: n in written <==> n in fate && fate[n] == Written)
      && (forall n :: n in fate && fate[n] == Saved ==> n in terminationPackets)
      && largestSent == (if written == [] then None else Some(written[|written| - 1]))
      && (connected ==> Increasing(queuedPackets) && (largestSent.Some? ==> Above(queuedPackets, largestSent.value)))
      && (connected && queuedPackets != [] ==> NotPast(attempts, queuedPackets[0].number))
    }

    ghost predicate Valid()
      reads this
    {
      Accounted({}) && InOrder() && (connected ==> !writeErrorOccurred)
    }

    function Now(): Conn
      reads `connected, `writeErrorOccurred, `level, `queuedPackets, `nextPacketNumber, `turn
    {
      Conn(connected, writeErrorOccurred, level, queuedPackets, nextPacketNumber, turn)
    }

    constructor (setting: Setting)
      ensures Valid() && this.setting == setting && Now() == Conn(true, false, Initial, [], 1, 0) && written == []
    {
      this.setting, level, turn := setting, Initial, 0;
      connected, writeErrorOccurred := true, false;
      queuedPackets, largestSent, terminationPackets, nextPacketNumber := [], None, [], 1;
      attempts, refusals, written, fate := [], [], [], map[0 := Discarded];
    }

    method ClearQueuedPackets(ghost inHand: set<nat>)
      requires Accounted(inHand) && InOrder()
      modifies `queuedPackets, `fate
      ensures Accounted(inHand) && InOrder() && queuedPackets == []
      ensures fate == old(fate) + map n | n in Numbers(old(queuedPackets)) :: Lost
      ensures Grown()
    {
      hide Offers, NotPast, GivenInOrder, Taken;
      fate := fate + map n | n in Numbers(queuedPackets) :: Lost;
      queuedPackets := [];
    }

    predicate ShouldDiscardPacket(packet: SerializedPacket)
      reads this
    {
      !connected || Skips(packet, level)
    }

    /** Records the fate of a packet in hand. */
    ghost method Settle(n: nat, f: Fate, inHand: set<nat>)
      requires Accounted(inHand) && InOrder() && n in inHand && f != Written && (f == Saved ==> n in terminationPackets)
      modifies `fate
      ensures Accounted(inHand - {n}) && InOrder() && fate == old(fate)[n := f] && n !in old(fate)
    {
      hide Numbers, Increasing, Ascending, Above, Offers, NotPast, GivenInOrder, Taken;
      fate := fate[n := f];
    }

    /** The packet as it is given to the writer now. */
    function Given(packet: SerializedPacket, status: WriteStatus): Attempt
      reads `level
    {
      Attempt(packet.number, status, packet.level, level)
    }

    /** The writer has taken the packet. */
    method OnPacketSent(packet: SerializedPacket, status: WriteStatus, ghost inHand: set<nat>)
      requires Accounted(inHand) && InOrder() && packet.number in inHand && Accepted(status)
      requires NotPast(attempts, packet.number) && Protected(Given(packet, status))
      requires Above(queuedPackets, packet.number) && (largestSent.Some? ==> packet.number > largestSent.value)
      modifies `largestSent, `attempts, `written, `fate
      ensures Accounted(inHand - {packet.number}) && InOrder()
      ensures attempts == old(attempts) + [Given(packet, status)]
      ensures largestSent == Some(packet.number) && written == old(written) + [packet.number]
      ensures fate == old(fate)[packet.number := Written] && packet.number !in old(fate)
    {
      hide Numbers, Offers, NotPast, GivenInOrder, Taken, Protected, QuicConnection.Given;
      ghost var a := Given(packet, status);
      assert a.number == packet.number && a.status == status by { GivenIs(packet, status); }
      OffersMore(attempts, written, nextPacketNumber, a);
      if queuedPackets != [] {
        NotPastLater(attempts + [a], packet.number, queuedPackets[0].number);
      }
      attempts := attempts + [a];
      largestSent := Some(packet.number);
      written := written + [packet.number];
      fate := fate[packet.number := Written];
    }

    lemma GivenIs(packet: SerializedPacket, status: WriteStatus)
      ensures Given(packet, status) == Attempt(packet.number, status, packet.level, level)
    {
    }

    /** The writer did not take the packet. */
    ghost method Refused(packet: SerializedPacket, status: WriteStatus, inHand: set<nat>)
      requires Accounted(inHand) && InOrder() && packet.number in inHand && !Accepted(status)
      requires connected ==> Above(queuedPackets, packet.number)
      requires NotPast(attempts, packet.number) && (largestSent.Some? ==> packet.number > largestSent.value) && Protected(Given(packet, status))
      modifies `attempts
      ensures Accounted(inHand) && InOrder() && attempts == old(attempts) + [Given(packet, status)] && NotPast(attempts, packet.number)
    {
      hide Numbers, Offers, NotPast, GivenInOrder, Taken, Protected, QuicConnection.Given;
      var a := Given(packet, status);
      assert a.number == packet.number && a.status == status by { GivenIs(packet, status); }
      OffersMore(attempts, written, nextPacketNumber, a);
      assert written + [] == written;
      if connected && queuedPackets != [] {
        NotPastLater(attempts + [a], packet.number, queuedPackets[0].number);
      }
      attempts := attempts + [a];
    }

    /** What the writer has taken, and the fates met, are never taken back. */
    twostate predicate Grown()
      reads this
    {
      && old(written) <= written && old(attempts) <= attempts
      && (forall n :: n in old(fate) ==> n in fate && fate[n] == old(fate)[n])
      && (old(writeErrorOccurred) ==> writeErrorOccurred) && (connected ==> old(connected))
      && old(nextPacketNumber) <= nextPacketNumber
    }

    /** Why the packet met its fate: it was the last given to the writer, which took it; or it was not to
        be sent, or was a probe of a size that the writer found too big; or it is a termination packet. */
    twostate predicate Explained(packet: SerializedPacket, f: Fate)
      reads this
    {
      match f
      case Written =>
        && |attempts| == |old(attempts)| + 1 && old(attempts) <= attempts
        && attempts[|old(attempts)|].number == packet.number && Accepted(attempts[|old(attempts)|].status)
      case Discarded =>
        || (old(ShouldDiscardPacket(packet)) && attempts == old(attempts))
        || (packet.oversized && !packet.retransmittable && attempts == old(attempts) + [Attempt(packet.number, Error(true), packet.level, old(level))])
      case Saved => packet.termination && attempts == old(attempts)
      case Lost => false
    }

    method SaveTerminationPacket(n: nat, ghost inHand: set<nat>)
      requires Accounted(inHand) && InOrder()
      modifies `terminationPackets
      ensures Accounted(inHand) && InOrder() && terminationPackets == old(terminationPackets) + [n]
    {
      hide Numbers, Increasing, Ascending, Above, Offers, NotPast, GivenInOrder, Taken;
      terminationPackets := terminationPackets + [n];
    }

    /** Writes a packet if the writer will take it. The packet has met its fate when this returns true,
        and is still in hand when it returns false. One without encryption is dropped once the connection
        is forward secure; of any other the writer decides. */
    method WritePacket(packet: SerializedPacket, ghost inHand: set<nat>) returns (ok: bool)
      requires Accounted(inHand) && InOrder() && packet.number in inHand
      requires connected ==> Above(queuedPackets, packet.number) && (largestSent.Some? ==> packet.number > largestSent.value)
      requires connected ==> NotPast(attempts, packet.number)
      modifies this
      ensures InOrder() && Grown() && Accounted(if ok then inHand - {packet.number} else inHand)
      ensures connected ==> queuedPackets == old(queuedPackets) && nextPacketNumber == old(nextPacketNumber)
      ensures connected && !ok ==> largestSent == old(largestSent) && NotPast(attempts, packet.number)
      ensures connected && ok && largestSent != old(largestSent) ==> largestSent == Some(packet.number)
      ensures !old(connected) ==> ok && written == old(written)
      ensures connected ==> refusals == if ok then old(refusals) else old(refusals) + [packet.number]
      ensures ok ==> packet.number in fate && Explained(packet, fate[packet.number])
      ensures (Now(), ok) == Write(setting, old(Now()), packet)
      ensures old(connected && level.ForwardSecure?) && packet.level.Initial? ==>
        ok && attempts == old(attempts) && turn == old(turn) && fate[packet.number] == Discarded
      ensures old(connected && !(level.ForwardSecure? && packet.level.Initial?)) ==> var a := setting.writer(old(turn));
        && turn > old(turn) && (connected ==> turn == old(turn) + 1)
        && if packet.termination && a.stillBlocked then
             ok && attempts == old(attempts) && fate[packet.number] == Saved && packet.number in terminationPackets
           else if a.blocked && !packet.termination then
             !ok && connected && attempts == old(attempts)
           else
             && |attempts| > |old(attempts)|
             && attempts[|old(attempts)|] == Attempt(packet.number, a.status, packet.level, old(level))
             && match a.status
                case Ok => ok && connected && fate[packet.number] == Written
                case BlockedDataBuffered => ok && connected && fate[packet.number] == Written
                case Blocked => !ok && connected
                case Error(messageTooBig) =>
                  if messageTooBig && packet.oversized && !packet.retransmittable then ok && connected && fate[packet.number] == Discarded
                  else !ok && (connected ==> old(writeErrorOccurred))
      decreases if writeErrorOccurred then 0 else 1, 4
    {
      hide Accounted, InOrder, Numbers, Increasing, Ascending, Above, Offers, NotPast, GivenInOrder, Taken, Write, WriteError, Judge, Accepted, MtuProbe;
      if ShouldDiscardPacket(packet) {
        assert Write(setting, Now(), packet) == (Now(), true) by { WriteSkips(setting, Now(), packet); }
        Settle(packet.number, Discarded, inHand);
        return true;
      }
      if largestSent.Some? && packet.number < largestSent.value {
        assert false;
      }
      ok := WriteUnlessBlocked(packet, inHand);
    }

    method WriteUnlessBlocked(packet: SerializedPacket, ghost inHand: set<nat>) returns (ok: bool)
      requires Accounted(inHand) && InOrder() && packet.number in inHand && connected && !(level.ForwardSecure? && packet.level.Initial?)
      requires Above(queuedPackets, packet.number) && (largestSent.Some? ==> packet.number > largestSent.value)
      requires NotPast(attempts, packet.number)
      modifies this
      ensures InOrder() && Grown() && Accounted(if ok then inHand - {packet.number} else inHand)
      ensures connected ==> queuedPackets == old(queuedPackets) && nextPacketNumber == old(nextPacketNumber)
      ensures connected && !ok ==> largestSent == old(largestSent) && NotPast(attempts, packet.number)
      ensures connected && ok && largestSent != old(largestSent) ==> largestSent == Some(packet.number)
      ensures connected ==> refusals == if ok then old(refusals) else old(refusals) + [packet.number]
      ensures ok ==> packet.number in fate && Explained(packet, fate[packet.number])
      ensures (Now(), ok) == Write(setting, old(Now()), packet)
      ensures var a := setting.writer(old(turn));
        && turn > old(turn) && (connected ==> turn == old(turn) + 1)
        && if packet.termination && a.stillBlocked then
             ok && attempts == old(attempts) && fate[packet.number] == Saved && packet.number in terminationPackets
           else if a.blocked && !packet.termination then
             !ok && connected && attempts == old(attempts)
           else
             && |attempts| > |old(attempts)|
             && attempts[|old(attempts)|] == Attempt(packet.number, a.status, packet.level, old(level))
             && match a.status
                case Ok => ok && connected && fate[packet.number] == Written
                case BlockedDataBuffered => ok && connected && fate[packet.number] == Written
                case Blocked => !ok && connected
                case Error(messageTooBig) =>
                  if messageTooBig && packet.oversized && !packet.retransmittable then ok && connected && fate[packet.number] == Discarded
                  else !ok && (connected ==> old(writeErrorOccurred))
      decreases if writeErrorOccurred then 0 else 1, 3
    {
      hide Accounted, InOrder, Numbers, Increasing, Ascending, Above, Offers, NotPast, GivenInOrder, Taken, Write, WriteError, Judge, Accepted;
      WriteIs(setting, Now(), packet);
      var answer := setting.writer(turn);
      turn := turn + 1;
      if answer.blocked && !packet.termination {
        refusals := refusals + [packet.number];
        return false;
      }
      if packet.termination {
        SaveTerminationPacket(packet.number, inHand);
        if answer.stillBlocked {
          Settle(packet.number, Saved, inHand);
          return true;
        }
      }
      ok := HandToWriter(packet, answer.status, inHand);
    }

    /** The writer is not known to be blocked, and is given the packet. */
    method HandToWriter(packet: SerializedPacket, status: WriteStatus, ghost inHand: set<nat>) returns (ok: bool)
      requires Accounted(inHand) && InOrder() && packet.number in inHand && connected
      requires Above(queuedPackets, packet.number) && (largestSent.Some? ==> packet.number > largestSent.value)
      requires NotPast(attempts, packet.number) && !(level.ForwardSecure? && packet.level.Initial?)
      modifies this
      ensures InOrder() && Grown() && Accounted(if ok then inHand - {packet.number} else inHand)
      ensures connected ==> queuedPackets == old(queuedPackets) && nextPacketNumber == old(nextPacketNumber)
      ensures connected && !ok ==> largestSent == old(largestSent) && NotPast(attempts, packet.number)
      ensures connected && ok && largestSent != old(largestSent) ==> largestSent == Some(packet.number)
      ensures connected ==> refusals == if ok then old(refusals) else old(refusals) + [packet.number]
      ensures ok ==> packet.number in fate && Explained(packet, fate[packet.number])
      ensures |attempts| > |old(attempts)| && attempts[|old(attempts)|] == Attempt(packet.number, status, packet.level, old(level))
      ensures ok && !status.Error? ==> fate[packet.number] == Written
      ensures ok && status.Error? ==> fate[packet.number] == Discarded
      ensures ok <==> !status.Blocked? && (status.Error? ==> MtuProbe(packet, status))
      ensures Now() == if status.Error? && !MtuProbe(packet, status) then WriteError(setting, old(Now()), status.messageTooBig) else old(Now())
      decreases if writeErrorOccurred then 0 else 1, 2
    {
      hide Accounted, InOrder, Numbers, Increasing, Ascending, Above, Offers, NotPast, GivenInOrder, Taken, WriteError;
      if !Accepted(status) {
        Refused(packet, status, inHand);
      }
      if status.Blocked? {
        refusals := refusals + [packet.number];
        return false;
      }
      if MtuProbe(packet, status) {
        Settle(packet.number, Discarded, inHand);
        return true;
      }
      if status.Error? {
        OnWriteError(status.messageTooBig, inHand);
        refusals := refusals + [packet.number];
        return false;
      }
      OnPacketSent(packet, status, inHand);
      return true;
    }

    method OnWriteError(messageTooBig: bool, ghost inHand: set<nat>)
      requires Accounted(inHand) && InOrder()
      modifies this
      ensures Accounted(inHand) && InOrder() && Grown()
      ensures connected ==> old(writeErrorOccurred) && queuedPackets == old(queuedPackets) && nextPacketNumber == old(nextPacketNumber) && largestSent == old(largestSent)
      ensures connected ==> attempts == old(attempts) && refusals == old(refusals)
      ensures Now() == WriteError(setting, old(Now()), messageTooBig)
      decreases if writeErrorOccurred then 0 else 1, 1
    {
      hide Numbers, Increasing, Ascending, Above, Offers, NotPast, GivenInOrder, Taken;
      if writeErrorOccurred {
        return;
      }
      writeErrorOccurred := true;
      CloseConnection(messageTooBig, inHand);
    }

    /** Closing silently sends nothing, and leaves the queue as it is. */
    method CloseConnection(sendPacket: bool, ghost inHand: set<nat>)
      requires Accounted(inHand) && InOrder()
      modifies this
      ensures Accounted(inHand) && InOrder() && Grown() && !connected
      ensures !sendPacket ==> queuedPackets == old(queuedPackets) && written == old(written)
      ensures Now() == Close(setting, old(Now()), sendPacket)
      ensures old(connected) && sendPacket ==> (queuedPackets == [] <==> setting.clears || !CloseRefused(setting, old(Now()), old(turn)))
      decreases if writeErrorOccurred then 0 else 1, if sendPacket then 8 else 0
    {
      hide Numbers, Increasing, Ascending, Above, Offers, NotPast, GivenInOrder, Taken;
      if !connected {
        return;
      }
      CloseLeaves(setting, Now());
      if sendPacket {
        SendConnectionClosePacket(inHand);
      }
      connected := false;
    }

    /** The next packet number is used up; the packet that has it is now in hand. */
    method TakeNumber(ghost inHand: set<nat>)
      requires Accounted(inHand) && InOrder()
      modifies `nextPacketNumber
      ensures Accounted(inHand + {old(nextPacketNumber)}) && old(nextPacketNumber) !in inHand
      ensures InOrder() && nextPacketNumber == old(nextPacketNumber) + 1
    {
      hide Numbers, Increasing, Ascending, Above, Offers, NotPast, GivenInOrder, Taken;
      OffersNext(attempts, written, nextPacketNumber);
      nextPacketNumber := nextPacketNumber + 1;
    }

    method SendConnectionClosePacket(ghost inHand: set<nat>)
      requires Accounted(inHand) && InOrder() && connected
      modifies this
      ensures Accounted(inHand) && InOrder() && Grown()
      ensures Now() == SendClose(setting, old(Now()))
      decreases if writeErrorOccurred then 0 else 1, 7
    {
      hide Accounted, InOrder, Numbers, Increasing, Ascending, Above, Offers, NotPast, GivenInOrder, Taken;
      level := setting.closeLevel(nextPacketNumber);
      ClearQueuedPackets(inHand);
      var packet := SerializedPacket(nextPacketNumber, setting.serializes(nextPacketNumber), level, true, true, false);
      TakeNumber(inHand);
      OnSerializedPacket(packet, inHand);
      if setting.clears {
        ClearQueuedPackets(inHand);
      }
    }

    method PushBack(packet: SerializedPacket, ghost inHand: set<nat>)
      requires Accounted(inHand + {packet.number}) && packet.number !in inHand && InOrder()
      requires connected ==> (largestSent.Some? ==> packet.number > largestSent.value)
      requires connected ==> forall i :: 0 <= i < |queuedPackets| ==> queuedPackets[i].number < packet.number
      requires connected ==> NotPast(attempts, packet.number)
      modifies `queuedPackets
      ensures Accounted(inHand) && InOrder() && queuedPackets == old(queuedPackets) + [packet]
    {
      hide Numbers, Offers, NotPast, GivenInOrder, Taken;
      NumbersEach(queuedPackets);
      NumbersAppend(queuedPackets, packet);
      queuedPackets := queuedPackets + [packet];
    }

    method PushFront(packet: SerializedPacket, ghost inHand: set<nat>)
      requires Accounted(inHand + {packet.number}) && packet.number !in inHand && InOrder()
      requires connected ==> Above(queuedPackets, packet.number) && (largestSent.Some? ==> packet.number > largestSent.value)
      requires connected ==> NotPast(attempts, packet.number)
      modifies `queuedPackets
      ensures Accounted(inHand) && InOrder() && queuedPackets == [packet] + old(queuedPackets)
    {
      hide Numbers, Offers, NotPast, GivenInOrder, Taken;
      NumbersEach(queuedPackets);
      NumbersFront(queuedPackets, packet);
      queuedPackets := [packet] + queuedPackets;
    }

    method PopFront() returns (packet: SerializedPacket)
      requires Valid() && queuedPackets != []
      modifies `queuedPackets
      ensures packet == old(queuedPackets)[0] && queuedPackets == old(queuedPackets)[1..]
      ensures Accounted({packet.number}) && InOrder()
      ensures connected ==> Above(queuedPackets, packet.number) && (largestSent.Some? ==> packet.number > largestSent.value)
      ensures connected ==> NotPast(attempts, packet.number)
    {
      hide Numbers, Offers, NotPast, GivenInOrder, Taken;
      packet := queuedPackets[0];
      NumbersEach(queuedPackets);
      NumbersFront(queuedPackets[1..], packet);
      NumbersEach(queuedPackets[1..]);
      assert [packet] + queuedPackets[1..] == queuedPackets;
      NumbersDistinct(queuedPackets);
      if connected && |queuedPackets| > 1 {
        NotPastLater(attempts, packet.number, queuedPackets[1].number);
      }
      queuedPackets := queuedPackets[1..];
    }

    /** Writes the packet at the front of the queue, and puts it back if it has to wait. */
    method WriteFront() returns (ok: bool)
      requires Valid() && queuedPackets != []
      modifies this
      ensures Valid() && Grown()
      ensures connected && ok ==> queuedPackets == old(queuedPackets)[1..] && refusals == old(refusals)
      ensures connected && !ok ==> queuedPackets == old(queuedPackets) && refusals == old(refusals) + [queuedPackets[0].number]
      ensures var (d, written) := Write(setting, old(Now()).(queue := old(queuedPackets)[1..]), old(queuedPackets)[0]);
        ok == written && Now() == if d.connected && !ok then d.(queue := [old(queuedPackets)[0]] + d.queue) else d
    {
      hide Accounted, InOrder, Numbers, Increasing, Ascending, Above, Explained, Offers, NotPast, GivenInOrder, Taken, Write;
      var packet := PopFront();
      ok := WritePacket(packet, {packet.number});
      assert {packet.number} - {packet.number} == {} && {} + {packet.number} == {packet.number};
      if connected && !ok {
        PushFront(packet, {});
      } else if !ok {
        Settle(packet.number, Lost, {packet.number});
      }
    }

    /** Writes queued packets, oldest first, until the writer blocks or the connection is closed. */
    method WriteQueuedPackets()
      requires Valid()
      modifies this
      ensures Valid() && Grown()
      ensures connected ==> exists k :: 0 <= k <= |old(queuedPackets)| && queuedPackets == old(queuedPackets)[k..]
      ensures connected && queuedPackets != [] ==> refusals == old(refusals) + [queuedPackets[0].number]
      ensures Now() == Flush(setting, old(Now()))
      ensures old(connected) ==> var f := FirstFailure(setting, old(queuedPackets), old(level), old(turn));
        && (connected <==> f.NoFailure?)
        && (f.At? ==> queuedPackets == LeftBehind(setting, old(Now()), old(queuedPackets)[f.place + 1..], f))
    {
      hide Accounted, InOrder, Numbers, Increasing, Ascending, Above, Explained, Offers, NotPast, GivenInOrder, Taken, Write, Flush, FirstFailure, LeftBehind;
      if connected {
        FlushCloses(setting, Now());
      }
      ghost var k := 0;
      while queuedPackets != []
        invariant Valid() && Grown() && Flush(setting, Now()) == Flush(setting, old(Now()))
        invariant connected ==> 0 <= k <= |old(queuedPackets)| && queuedPackets == old(queuedPackets)[k..] && refusals == old(refusals)
        decreases |queuedPackets|
      {
        FlushIs(setting, Now());
        var ok := WriteFront();
        if !connected || !ok {
          break;
        }
        k := k + 1;
      }
      FlushNothing(setting, Now());
    }

    /** The packet just made comes after every other. */
    lemma NewestIsLast(n: nat, inHand: set<nat>)
      requires Accounted(inHand + {n}) && InOrder() && n !in inHand && n == nextPacketNumber - 1
      ensures largestSent.Some? ==> n > largestSent.value
      ensures forall i :: 0 <= i < |queuedPackets| ==> queuedPackets[i].number < n
      ensures NotPast(attempts, n) && Above([], n)
    {
      hide Numbers;
      NumbersEach(queuedPackets);
      OffersNext(attempts, written, nextPacketNumber);
      assert largestSent.Some? ==> largestSent.value in written;
    }

    /** Sends the packet just made, or queues it behind those that are waiting. */
    method SendOrQueuePacket(packet: SerializedPacket, ghost inHand: set<nat>)
      requires Accounted(inHand + {packet.number}) && packet.number !in inHand && InOrder() && packet.number == nextPacketNumber - 1
      modifies this
      ensures Accounted(inHand) && InOrder() && Grown()
      ensures packet.hasBuffer && connected && old(queuedPackets) != [] ==> queuedPackets == old(queuedPackets) + [packet]
      ensures packet.hasBuffer && connected && old(queuedPackets) == [] ==>
        || (queuedPackets == [] && packet.number in fate && Explained(packet, fate[packet.number]))
        || (queuedPackets == [packet] && refusals == old(refusals) + [packet.number])
      ensures Now() == Send(setting, old(Now()), packet)
      ensures packet.hasBuffer && old(connected && !writeErrorOccurred) && !connected ==>
        queuedPackets == ClosedBy(setting, old(Now()), packet) + [packet]
      decreases if writeErrorOccurred then 0 else 1, 5
    {
      hide Accounted, InOrder, Numbers, Increasing, Ascending, Above, Explained, Offers, NotPast, GivenInOrder, Taken, Write;
      if packet.hasBuffer && connected && !writeErrorOccurred {
        SendCloses(setting, Now(), packet);
      }
      assert inHand + {packet.number} - {packet.number} == inHand;
      NewestIsLast(packet.number, inHand);
      if !packet.hasBuffer {
        Settle(packet.number, Lost, inHand + {packet.number});
        return;
      }
      var done := false;
      if queuedPackets == [] {
        done := WritePacket(packet, inHand + {packet.number});
      }
      if !done {
        PushBack(packet, inHand);
      }
    }

    /** A packet that could not be serialized closes the connection silently. */
    method OnSerializedPacket(packet: SerializedPacket, ghost inHand: set<nat>)
      requires Accounted(inHand + {packet.number}) && packet.number !in inHand && InOrder() && packet.number == nextPacketNumber - 1
      modifies this
      ensures Accounted(inHand) && InOrder() && Grown()
      ensures Now() == Serialized(setting, old(Now()), packet)
      ensures !packet.hasBuffer ==> !connected && queuedPackets == old(queuedPackets) && turn == old(turn)
      decreases if writeErrorOccurred then 0 else 1, 6
    {
      hide Accounted, InOrder, Numbers, Increasing, Ascending, Above, Offers, NotPast, GivenInOrder, Taken;
      if !packet.hasBuffer {
        Settle(packet.number, Lost, inHand + {packet.number});
        assert inHand + {packet.number} - {packet.number} == inHand;
        CloseConnection(false, inHand);
      } else {
        SendOrQueuePacket(packet, inHand);
      }
    }

    method SetDefaultEncryptionLevel(level: EncryptionLevel)
      requires Valid()
      modifies `level
      ensures Valid() && this.level == level
    {
      this.level := level;
    }

    /** Makes the next packet, with the next number, and sends or queues it. */
    method SendPacket(retransmittable: bool, termination: bool, oversized: bool)
      requires Valid()
      modifies this
      ensures Valid() && Grown() && old(nextPacketNumber) < nextPacketNumber
      ensures var packet := SerializedPacket(old(nextPacketNumber), setting.serializes(old(nextPacketNumber)), old(level), retransmittable, termination, oversized);
        Now() == Serialized(setting, old(Now()).(next := old(nextPacketNumber) + 1), packet)
    {
      hide InOrder, Accounted, Numbers, Increasing, Ascending, Above, Offers, NotPast, GivenInOrder, Taken, Serialized;
      var packet := SerializedPacket(nextPacketNumber, setting.serializes(nextPacketNumber), level, retransmittable, termination, oversized);
      TakeNumber({});
      OnSerializedPacket(packet, {});
    }
  }
}
