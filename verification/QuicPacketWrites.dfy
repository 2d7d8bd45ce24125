/** What becomes of a connection's packets, as a function of how the writer answers: writing, queueing,
    and closing after a write error. */
module QuicPacketWrites {

  datatype EncryptionLevel = Initial | Handshake | ZeroRtt | ForwardSecure

  /** A packet. One without a buffer could not be serialized; a termination packet holds a connection
      close frame. */
  datatype SerializedPacket = SerializedPacket(number: nat, hasBuffer: bool, level: EncryptionLevel, retransmittable: bool, termination: bool, oversized: bool)

  datatype WriteStatus = Ok | Blocked | BlockedDataBuffered | Error(messageTooBig: bool)

  /** What the writer has to say to one packet: whether it is blocked when asked, whether it is so when
      asked again, and its answer to the packet. */
  datatype Answer = Answer(blocked: bool, stillBlocked: bool, status: WriteStatus)

  /** What a connection does not decide itself: the writer's answers, one after the other; whether the
      close packet with a given number can be serialized, and the level it is sent at; and whether
      quic_clear_queued_packets_on_connection_close is set. */
  datatype Setting = Setting(writer: nat -> Answer, serializes: nat -> bool, closeLevel: nat -> EncryptionLevel, clears: bool)

  /** The part of a connection that decides what is written; turn counts the writer's answers. */
  datatype Conn = Conn(connected: bool, writeErrorOccurred: bool, level: EncryptionLevel, queue: seq<SerializedPacket>, next: nat, turn: nat)

  predicate Skips(p: SerializedPacket, level: EncryptionLevel) {
    level.ForwardSecure? && p.level.Initial?
  }

  datatype Verdict = Gone | Refused | Failed(messageTooBig: bool)

  /** A packet of a size that was only tried out turned out too big. */
  predicate MtuProbe(p: SerializedPacket, status: WriteStatus) {
    status.Error? && status.messageTooBig && !p.retransmittable && p.oversized
  }

  /** What the answer means for the packet. */
  function Judge(p: SerializedPacket, a: Answer): Verdict {
    if a.blocked && !p.termination then Refused
    else if p.termination && a.stillBlocked then Gone
    else if a.status.Blocked? then Refused
    else if a.status.Error? && !MtuProbe(p, a.status) then Failed(a.status.messageTooBig)
    else Gone
  }

  // ---- the operations ----

  function Write(s: Setting, c: Conn, p: SerializedPacket): (r: (Conn, bool))
    ensures r.0.connected ==> r.0.queue == c.queue && r.0.next == c.next && c.connected && r.0.writeErrorOccurred == c.writeErrorOccurred
    ensures c.writeErrorOccurred ==> r.0.writeErrorOccurred
    ensures r.0.turn >= c.turn
    decreases if c.writeErrorOccurred then 0 else 1, 2
  {
    if !c.connected || Skips(p, c.level) then (c, true)
    else
      var d := c.(turn := c.turn + 1);
      match Judge(p, s.writer(c.turn))
      case Gone => (d, true)
      case Refused => (d, false)
      case Failed(messageTooBig) => (WriteError(s, d, messageTooBig), false)
  }

  function WriteError(s: Setting, c: Conn, messageTooBig: bool): (r: Conn)
    ensures if c.writeErrorOccurred then r == c else !r.connected
    ensures r.writeErrorOccurred && r.turn >= c.turn
    decreases if c.writeErrorOccurred then 0 else 1, 1
  {
    if c.writeErrorOccurred then c else Close(s, c.(writeErrorOccurred := true), messageTooBig)
  }

  function Close(s: Setting, c: Conn, sendPacket: bool): (r: Conn)
    ensures !r.connected && (c.writeErrorOccurred ==> r.writeErrorOccurred) && r.turn >= c.turn
    decreases if c.writeErrorOccurred then 0 else 1, if sendPacket then 6 else 0
  {
    if !c.connected then c else
      (if sendPacket then SendClose(s, c) else c).(connected := false)
  }

  function ClosePacket(s: Setting, c: Conn): SerializedPacket {
    SerializedPacket(c.next, s.serializes(c.next), s.closeLevel(c.next), true, true, false)
  }

  function SendClose(s: Setting, c: Conn): (r: Conn)
    ensures (c.writeErrorOccurred ==> r.writeErrorOccurred) && r.turn >= c.turn
    decreases if c.writeErrorOccurred then 0 else 1, 5
  {
    var d := Serialized(s, c.(level := s.closeLevel(c.next), queue := [], next := c.next + 1), ClosePacket(s, c));
    if s.clears then d.(queue := []) else d
  }

  function Serialized(s: Setting, c: Conn, p: SerializedPacket): (r: Conn)
    ensures (c.writeErrorOccurred ==> r.writeErrorOccurred) && r.turn >= c.turn
    ensures r.connected ==> r.writeErrorOccurred == c.writeErrorOccurred
    decreases if c.writeErrorOccurred then 0 else 1, 4
  {
    if !p.hasBuffer then Close(s, c, false) else Send(s, c, p)
  }

  function Send(s: Setting, c: Conn, p: SerializedPacket): (r: Conn)
    ensures (c.writeErrorOccurred ==> r.writeErrorOccurred) && r.turn >= c.turn
    ensures r.connected ==> r.writeErrorOccurred == c.writeErrorOccurred
    decreases if c.writeErrorOccurred then 0 else 1, 3
  {
    if !p.hasBuffer then c
    else if c.queue != [] then c.(queue := c.queue + [p])
    else
      var (d, ok) := Write(s, c, p);
      if ok then d else d.(queue := d.queue + [p])
  }

  function Flush(s: Setting, c: Conn): (r: Conn)
    ensures r.connected ==> r.writeErrorOccurred == c.writeErrorOccurred
    decreases |c.queue|
  {
    if c.queue == [] then c else
      var (d, ok) := Write(s, c.(queue := c.queue[1..]), c.queue[0]);
      if !d.connected then d
      else if !ok then d.(queue := [c.queue[0]] + d.queue)
      else Flush(s, d)
  }

  lemma WriteSkips(s: Setting, c: Conn, p: SerializedPacket)
    requires !c.connected || Skips(p, c.level)
    ensures Write(s, c, p) == (c, true)
  {
  }

  /** What writing a packet that is not skipped comes to. */
  lemma WriteIs(s: Setting, c: Conn, p: SerializedPacket)
    requires c.connected && !Skips(p, c.level)
    ensures var d, a := c.(turn := c.turn + 1), s.writer(c.turn);
      Write(s, c, p) ==
        if a.blocked && !p.termination then (d, false)
        else if p.termination && a.stillBlocked then (d, true)
        else if a.status.Error? && !MtuProbe(p, a.status) then (WriteError(s, d, a.status.messageTooBig), false)
        else (d, !a.status.Blocked?)
  {
  }

  lemma FlushNothing(s: Setting, c: Conn)
    ensures c.queue == [] ==> Flush(s, c) == c
  {
  }

  lemma FlushIs(s: Setting, c: Conn)
    requires c.queue != []
    ensures var (d, ok) := Write(s, c.(queue := c.queue[1..]), c.queue[0]);
      Flush(s, c) == if !d.connected then d else if !ok then d.(queue := [c.queue[0]] + d.queue) else Flush(s, d)
  {
  }

  // ---- when flushing closes the connection ----

  /** Where in the queue a packet fails, if one does before the writer blocks. */
  datatype Failure = NoFailure | At(place: nat, messageTooBig: bool, turn: nat)

  function FirstFailure(s: Setting, q: seq<SerializedPacket>, level: EncryptionLevel, turn: nat): (f: Failure)
    ensures f.At? ==> f.place < |q|
    decreases |q|
  {
    if q == [] then NoFailure
    else if Skips(q[0], level) then Later(FirstFailure(s, q[1..], level, turn))
    else match Judge(q[0], s.writer(turn))
      case Gone => Later(FirstFailure(s, q[1..], level, turn + 1))
      case Refused => NoFailure
      case Failed(messageTooBig) => At(0, messageTooBig, turn + 1)
  }

  function Later(f: Failure): Failure {
    if f.At? then f.(place := f.place + 1) else f
  }

  /** The close packet cannot be written, and is put into the queue. */
  predicate CloseRefused(s: Setting, c: Conn, turn: nat) {
    ClosePacket(s, c).hasBuffer && !Judge(ClosePacket(s, c), s.writer(turn)).Gone?
  }

  /** What a failure leaves in the queue, when these packets are behind the one that failed. */
  function LeftBehind(s: Setting, c: Conn, behind: seq<SerializedPacket>, f: Failure): seq<SerializedPacket>
    requires f.At?
  {
    if !f.messageTooBig then behind
    else if !s.clears && CloseRefused(s, c, f.turn) then [ClosePacket(s, c)]
    else []
  }

  /** The queue is expected to be empty when flushing has closed the connection. */
  predicate EmptyWhenClosed(c: Conn) {
    !c.connected ==> c.queue == []
  }

  /** The close packet goes alone into an empty queue, and is not skipped. */
  lemma CloseSends(s: Setting, c: Conn) returns (d: Conn)
    requires c.connected
    ensures d == c.(level := s.closeLevel(c.next), queue := [], next := c.next + 1) && !Skips(ClosePacket(s, c), d.level)
    ensures Close(s, c, true).queue == if s.clears || !s.serializes(c.next) then [] else Send(s, d, ClosePacket(s, c)).queue
  {
    var p := ClosePacket(s, c);
    d := c.(level := s.closeLevel(c.next), queue := [], next := c.next + 1);
    assert Serialized(s, d, p) == if !p.hasBuffer then Close(s, d, false) else Send(s, d, p);
    assert Close(s, d, false) == d.(connected := false);
    assert SendClose(s, c) == if s.clears then Serialized(s, d, p).(queue := []) else Serialized(s, d, p);
    assert Close(s, c, true) == SendClose(s, c).(connected := false);
  }

  lemma SendAlone(s: Setting, d: Conn, p: SerializedPacket)
    requires d.connected && d.queue == [] && p.hasBuffer && !Skips(p, d.level)
    ensures Judge(p, s.writer(d.turn)).Gone? ==> Send(s, d, p).queue == []
    ensures Judge(p, s.writer(d.turn)).Refused? ==> Send(s, d, p).queue == [p]
    ensures Judge(p, s.writer(d.turn)).Failed? ==>
      Send(s, d, p).queue == WriteError(s, d.(turn := d.turn + 1), Judge(p, s.writer(d.turn)).messageTooBig).queue + [p]
  {
    hide Judge, Skips;
    assert [] + [p] == [p];
  }

  lemma CloseAfterError(s: Setting, c: Conn)
    requires c.connected && c.writeErrorOccurred
    ensures Close(s, c, true).queue == if !s.clears && CloseRefused(s, c, c.turn) then [ClosePacket(s, c)] else []
  {
    hide Judge, Skips;
    var p := ClosePacket(s, c);
    var d := CloseSends(s, c);
    if p.hasBuffer {
      SendAlone(s, d, p);
      assert [] + [p] == [p];
    }
  }

  /** Flushing closes the connection exactly when a packet fails. What is then in the queue is all that
      was behind that packet, if it closes silently, and otherwise the close packet, unless it has
      been taken or the flag is set. */
  lemma {:induction false} FlushCloses(s: Setting, c: Conn)
    requires c.connected && !c.writeErrorOccurred
    ensures var f := FirstFailure(s, c.queue, c.level, c.turn);
      && (Flush(s, c).connected <==> f.NoFailure?)
      && (f.At? ==> Flush(s, c).queue == LeftBehind(s, c, c.queue[f.place + 1..], f))
    decreases |c.queue|
  {
    hide Judge, Skips, CloseRefused, Close, ClosePacket;
    if c.queue != [] {
      var p, rest := c.queue[0], c.(queue := c.queue[1..]);
      var f := FirstFailure(s, c.queue, c.level, c.turn);
      FlushFirst(s, c);
      if !Skips(p, c.level) && Judge(p, s.writer(c.turn)).Failed? {
        assert c.queue[1..] == c.queue[f.place + 1..];
      } else if Skips(p, c.level) || Judge(p, s.writer(c.turn)).Gone? {
        var d := if Skips(p, c.level) then rest else rest.(turn := c.turn + 1);
        FlushCloses(s, d);
        SameClose(s, c, d);
        if f.At? {
          assert c.queue[1..][f.place..] == c.queue[f.place + 1..];
        }
      }
    }
  }

  lemma SameClose(s: Setting, c: Conn, d: Conn)
    requires c.next == d.next
    ensures ClosePacket(s, c) == ClosePacket(s, d)
    ensures forall turn :: CloseRefused(s, c, turn) == CloseRefused(s, d, turn)
  {
  }

  /** What the first packet of the queue does to a flush. */
  lemma FlushFirst(s: Setting, c: Conn)
    requires c.connected && !c.writeErrorOccurred && c.queue != []
    ensures var p, rest, next := c.queue[0], c.(queue := c.queue[1..]), c.(queue := c.queue[1..], turn := c.turn + 1);
      if Skips(p, c.level) then Flush(s, c) == Flush(s, rest)
      else match Judge(p, s.writer(c.turn))
        case Gone => Flush(s, c) == Flush(s, next)
        case Refused => Flush(s, c) == c.(turn := c.turn + 1)
        case Failed(messageTooBig) =>
          && !Flush(s, c).connected
          && Flush(s, c).queue ==
               if !messageTooBig then c.queue[1..]
               else if !s.clears && CloseRefused(s, c, c.turn + 1) then [ClosePacket(s, c)] else []
  {
    hide Judge, CloseRefused;
    var p, d := c.queue[0], c.(queue := c.queue[1..], turn := c.turn + 1);
    if !Skips(p, c.level) {
      match Judge(p, s.writer(c.turn))
      case Gone =>
      case Refused => assert [p] + c.queue[1..] == c.queue;
      case Failed(messageTooBig) =>
        var e := d.(writeErrorOccurred := true);
        assert Flush(s, c) == WriteError(s, d, messageTooBig) == Close(s, e, messageTooBig);
        CloseAfterError(s, e);
        SameClose(s, c, e);
    }
  }

  /** On a closed connection a flush takes one packet and stops. */
  lemma FlushOfClosed(s: Setting, c: Conn)
    requires !c.connected && c.queue != []
    ensures Flush(s, c) == c.(queue := c.queue[1..])
  {
  }

  // ---- for which queues no answer of the writer breaks the expectation ----

  /** Nothing can go wrong: at most the last packet is written at all, and it cannot fail as too big,
      or the close packet cannot be left behind. */
  predicate Harmless(q: seq<SerializedPacket>, level: EncryptionLevel, closeFits: bool, clears: bool) {
    && (forall i :: 0 <= i < |q| - 1 ==> Skips(q[i], level))
    && (q == [] || Skips(q[|q| - 1], level) || (!q[|q| - 1].retransmittable && q[|q| - 1].oversized) || clears || !closeFits)
  }

  lemma {:induction false} FailureIsReal(s: Setting, q: seq<SerializedPacket>, level: EncryptionLevel, turn: nat)
    ensures var f := FirstFailure(s, q, level, turn);
      f.At? ==> !Skips(q[f.place], level) && exists a :: Judge(q[f.place], a) == Failed(f.messageTooBig)
    decreases |q|
  {
    hide Judge, Skips;
    if q != [] {
      FailureIsReal(s, q[1..], level, turn);
      FailureIsReal(s, q[1..], level, turn + 1);
    }
  }

  lemma {:induction false} FailsAt(s: Setting, q: seq<SerializedPacket>, level: EncryptionLevel, turn: nat, i: nat, messageTooBig: bool)
    requires i < |q| && (forall j :: 0 <= j < i ==> Skips(q[j], level)) && !Skips(q[i], level)
    requires Judge(q[i], s.writer(turn)) == Failed(messageTooBig)
    ensures FirstFailure(s, q, level, turn) == At(i, messageTooBig, turn + 1)
    decreases i
  {
    hide Judge, Skips;
    if i > 0 {
      FailsAt(s, q[1..], level, turn, i - 1, messageTooBig);
    }
  }

  lemma {:induction false} FirstWritten(q: seq<SerializedPacket>, level: EncryptionLevel, i: nat) returns (j: nat)
    requires i < |q| && !Skips(q[i], level)
    ensures j <= i && !Skips(q[j], level) && forall k :: 0 <= k < j ==> Skips(q[k], level)
    decreases i
  {
    j := i;
    if k :| 0 <= k < i && !Skips(q[k], level) {
      j := FirstWritten(q, level, k);
    }
  }

  lemma HarmlessSuffices(s: Setting, c: Conn)
    requires c.connected && !c.writeErrorOccurred && Harmless(c.queue, c.level, s.serializes(c.next), s.clears)
    ensures EmptyWhenClosed(Flush(s, c))
  {
    hide Skips;
    FlushCloses(s, c);
    FailureIsReal(s, c.queue, c.level, c.turn);
  }

  /** An answer that makes a flush close the connection with something in its queue. */
  lemma HarmlessNeeded(c: Conn, serializes: nat -> bool, closeLevel: nat -> EncryptionLevel, clears: bool) returns (writer: nat -> Answer)
    requires c.connected && !c.writeErrorOccurred && !Harmless(c.queue, c.level, serializes(c.next), clears)
    ensures !EmptyWhenClosed(Flush(Setting(writer, serializes, closeLevel, clears), c))
  {
    hide Skips;
    if i :| 0 <= i < |c.queue| - 1 && !Skips(c.queue[i], c.level) {
      writer := n => Answer(false, false, Error(false));
      var s := Setting(writer, serializes, closeLevel, clears);
      var j := FirstWritten(c.queue, c.level, i);
      FailsAt(s, c.queue, c.level, c.turn, j, false);
      FlushCloses(s, c);
    } else {
      writer := n => if n == c.turn then Answer(false, false, Error(true)) else Answer(false, false, Blocked);
      var s := Setting(writer, serializes, closeLevel, clears);
      FailsAt(s, c.queue, c.level, c.turn, |c.queue| - 1, true);
      FlushCloses(s, c);
    }
  }

  /** The expectation holds whatever the writer answers exactly for harmless queues: the writer can
      break it as soon as a packet waits behind one that will be written, or as the only such packet
      can fail as too big, the close packet is serialized, and the flag is not set. */
  lemma EmptyWhenClosedExactly(c: Conn, serializes: nat -> bool, closeLevel: nat -> EncryptionLevel, clears: bool)
    requires c.connected && !c.writeErrorOccurred
    ensures (forall writer: nat -> Answer :: EmptyWhenClosed(Flush(Setting(writer, serializes, closeLevel, clears), c)))
      <==> Harmless(c.queue, c.level, serializes(c.next), clears)
  {
    if Harmless(c.queue, c.level, serializes(c.next), clears) {
      forall writer: nat -> Answer ensures EmptyWhenClosed(Flush(Setting(writer, serializes, closeLevel, clears), c)) {
        HarmlessSuffices(Setting(writer, serializes, closeLevel, clears), c);
      }
    } else {
      var writer := HarmlessNeeded(c, serializes, closeLevel, clears);
    }
  }

  // ---- the two ways it fails ----

  function Data(number: nat): SerializedPacket {
    SerializedPacket(number, true, ForwardSecure, true, false, false)
  }

  /** Two packets wait, and the socket fails: the second stays in the queue of the closed connection. */
  lemma SilentCloseLeavesAPacket(serializes: nat -> bool, closeLevel: nat -> EncryptionLevel, clears: bool)
    ensures var s := Setting(n => Answer(false, false, Error(false)), serializes, closeLevel, clears);
      var d := Flush(s, Conn(true, false, ForwardSecure, [Data(1), Data(2)], 3, 0));
      !d.connected && d.queue == [Data(2)]
  {
    var s := Setting(n => Answer(false, false, Error(false)), serializes, closeLevel, clears);
    var c := Conn(true, false, ForwardSecure, [Data(1), Data(2)], 3, 0);
    FailsAt(s, c.queue, c.level, 0, 0, false);
    FlushCloses(s, c);
  }

  /** One packet waits and is too big, and then the writer is blocked: the close packet stays in the
      queue of the closed connection, unless the flag is set. */
  lemma RefusedCloseStays(closeLevel: nat -> EncryptionLevel, clears: bool)
    ensures var s := Setting(n => Answer(false, false, if n == 0 then Error(true) else Blocked), n => true, closeLevel, clears);
      var d := Flush(s, Conn(true, false, ForwardSecure, [Data(1)], 2, 0));
      !d.connected && d.queue == if clears then [] else [SerializedPacket(2, true, closeLevel(2), true, true, false)]
  {
    var s := Setting(n => Answer(false, false, if n == 0 then Error(true) else Blocked), n => true, closeLevel, clears);
    var c := Conn(true, false, ForwardSecure, [Data(1)], 2, 0);
    FailsAt(s, c.queue, c.level, 0, 0, true);
    FlushCloses(s, c);
  }

  // ---- closing and sending ----

  /** However a connection closes, a close packet stays in its queue exactly if it could not be written
      and the flag is not set. */
  lemma CloseLeaves(s: Setting, c: Conn)
    requires c.connected
    ensures Close(s, c, false).queue == c.queue
    ensures Close(s, c, true).queue == [] <==> s.clears || !CloseRefused(s, c, c.turn)
  {
    hide Judge, Skips;
    var p := ClosePacket(s, c);
    var d := CloseSends(s, c);
    if p.hasBuffer {
      SendAlone(s, d, p);
    }
  }

  /** A close packet counts as sent though the writer is blocked: it is saved, and does not wait. */
  lemma CloseIsSaved(s: Setting, c: Conn)
    requires c.connected && s.writer(c.turn).blocked && s.writer(c.turn).stillBlocked
    ensures Close(s, c, true).queue == [] && Close(s, c, true).next == c.next + 1
  {
    CloseLeaves(s, c);
    var d := CloseSends(s, c);
    var p := ClosePacket(s, c);
    assert Serialized(s, d, p) == if !p.hasBuffer then Close(s, d, false) else Send(s, d, p);
    assert Close(s, d, false) == d.(connected := false);
    if p.hasBuffer {
      assert Judge(p, s.writer(d.turn)).Gone?;
      assert Write(s, d, p) == (d.(turn := d.turn + 1), true);
      assert Send(s, d, p) == d.(turn := d.turn + 1);
    }
    assert SendClose(s, c) == if s.clears then Serialized(s, d, p).(queue := []) else Serialized(s, d, p);
  }

  /** What closing leaves in an empty queue when the writer fails to take p. */
  function ClosedBy(s: Setting, c: Conn, p: SerializedPacket): seq<SerializedPacket> {
    var verdict := Judge(p, s.writer(c.turn));
    if verdict.Failed? then LeftBehind(s, c, [], At(0, verdict.messageTooBig, c.turn + 1)) else []
  }

  /** Sending a packet that closes the connection leaves the packet in the queue, behind a close packet
      that could not be written. */
  lemma SendCloses(s: Setting, c: Conn, p: SerializedPacket)
    requires c.connected && !c.writeErrorOccurred && p.hasBuffer
    ensures Send(s, c, p).connected <==> c.queue != [] || Skips(p, c.level) || !Judge(p, s.writer(c.turn)).Failed?
    ensures !Send(s, c, p).connected ==>
      Send(s, c, p).queue == ClosedBy(s, c, p) + [p]
  {
    hide Judge, CloseRefused, Skips;
    if c.queue == [] && !Skips(p, c.level) && Judge(p, s.writer(c.turn)).Failed? {
      var e := c.(turn := c.turn + 1, writeErrorOccurred := true);
      SendAlone(s, c, p);
      assert WriteError(s, c.(turn := c.turn + 1), Judge(p, s.writer(c.turn)).messageTooBig) == Close(s, e, Judge(p, s.writer(c.turn)).messageTooBig);
      CloseAfterError(s, e);
      SameClose(s, c, e);
    }
  }
}
