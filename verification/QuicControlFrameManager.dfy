/** The control frame manager: a window over the ledger, from the oldest frame not yet acked. */
module QuicControlFrameManaging {
  import opened ControlFrameLedger

  const INVALID_CONTROL_FRAME_ID: nat := 0

  datatype QuicFrame = QuicFrame(id: nat, body: Body)

  /** The session: it takes a frame or is write blocked, as it likes. */
  class QuicSession {
    var attempts: seq<Attempt>
    var connected: bool

    constructor ()
      ensures attempts == [] && connected
    {
      attempts, connected := [], true;
    }

    method WriteControlFrame(frame: QuicFrame) returns (taken: bool)
      modifies this`attempts
      ensures attempts == old(attempts) + [Attempt(frame.id, frame.body, taken)]
    {
      taken := *;
      attempts := attempts + [Attempt(frame.id, frame.body, taken)];
    }

    method CloseConnection()
      modifies this`connected
      ensures !connected
    {
      connected := false;
    }
  }

  /** A stored frame; an acked one has lost its id. */
  ghost predicate Stores(frame: QuicFrame, id: nat, e: Entry) {
    frame == QuicFrame(if e.status == Acked then INVALID_CONTROL_FRAME_ID else id, e.body)
  }

  /** The frames from id first on; everything before them is acked. */
  ghost predicate Shows(l: Ledger, frames: seq<QuicFrame>, first: nat) {
    && 1 <= first && |l.entries| + 1 == first + |frames|
    && (forall i :: 0 <= i < first - 1 ==> l.entries[i].status == Acked)
    && (forall j :: 0 <= j < |frames| ==> Stores(frames[j], first + j, l.entries[first + j - 1]))
  }

  lemma ShowsAck(l: Ledger, frames: seq<QuicFrame>, first: nat, id: nat, order: seq<nat>)
    requires Shows(l, frames, first) && first <= id && Known(l, id)
    ensures Shows(SetStatus(l, id, Acked).(lostOrder := order), frames[id - first := frames[id - first].(id := INVALID_CONTROL_FRAME_ID)], first)
  {
  }

  lemma ShowsStatus(l: Ledger, frames: seq<QuicFrame>, first: nat, id: nat, status: Status, order: seq<nat>)
    requires Shows(l, frames, first) && Known(l, id) && At(l, id).status != Acked && status != Acked
    ensures Shows(SetStatus(l, id, status).(lostOrder := order), frames, first)
  {
  }

  lemma ShowsBuffer(l: Ledger, frames: seq<QuicFrame>, first: nat, body: Body)
    requires Shows(l, frames, first)
    ensures Shows(Buffer(l, body), frames + [QuicFrame(|l.entries| + 1, body)], first)
  {
  }

  lemma {:induction false} MappedBuffer(l: Ledger, updates: map<nat, nat>, body: Body)
    requires Mapped(l, updates)
    ensures Mapped(Buffer(l, body), updates)
  {
    forall id: nat | Known(Buffer(l, body), id) && id <= |l.entries|
      ensures At(Buffer(l, body), id) == At(l, id)
    {
    }
  }

  lemma MappedLose(l: Ledger, updates: map<nat, nat>, id: nat)
    requires Mapped(l, updates)
    ensures Mapped(Lose(l, id), updates)
  {
    forall i | Known(l, i)
      ensures At(Lose(l, id), i).body == At(l, i).body && (Outstanding(At(Lose(l, id), i)) <==> Outstanding(At(l, i)))
    {
    }
  }

  lemma MappedAck(l: Ledger, updates: map<nat, nat>, id: nat)
    requires Mapped(l, updates) && Known(l, id) && Outstanding(At(l, id))
    ensures Mapped(Ack(l, id), if At(l, id).body.WindowUpdate? then updates - {At(l, id).body.streamId} else updates)
  {
    forall i | Known(l, i) && i != id
      ensures At(Ack(l, id), i) == At(l, i)
    {
    }
  }

  class QuicControlFrameManager {
    var controlFrames: seq<QuicFrame>
    var lastControlFrameId: nat
    var leastUnacked: nat
    var leastUnsent: nat
    var pendingRetransmissions: seq<nat>
    var windowUpdateFrames: map<nat, nat>
    const session: QuicSession

    /** What the manager has been told and has done, frame by frame. */
    ghost var ledger: Ledger

    /** All but that the front of the window may have just been acked. */
    ghost predicate Window()
      reads this
    {
      && Sound(ledger) && Shows(ledger, controlFrames, leastUnacked)
      && lastControlFrameId == |ledger.entries| && leastUnsent == SentCount(ledger) + 1 && leastUnacked <= leastUnsent
      && pendingRetransmissions == ledger.lostOrder
    }

    ghost predicate Core()
      reads this
    {
      Window() && (controlFrames != [] ==> controlFrames[0].id != INVALID_CONTROL_FRAME_ID)
    }

    ghost predicate Valid()
      reads this
    {
      Core() && Mapped(ledger, windowUpdateFrames)
    }

    constructor (session: QuicSession)
      ensures Valid() && ledger == EMPTY && this.session == session
    {
      controlFrames := [];
      lastControlFrameId := INVALID_CONTROL_FRAME_ID;
      leastUnacked := 1;
      leastUnsent := 1;
      pendingRetransmissions := [];
      windowUpdateFrames := map[];
      this.session := session;
      ledger := EMPTY;
    }

    predicate HasBufferedFrames()
      reads this
    {
      leastUnsent < leastUnacked + |controlFrames|
    }

    predicate HasPendingRetransmission()
      reads this
    {
      pendingRetransmissions != []
    }

    predicate WillingToWrite()
      reads this
    {
      HasPendingRetransmission() || HasBufferedFrames()
    }

    /** Exactly the sent frames not yet acked, and the unsent ones, are outstanding here. */
    lemma OutstandingIs(frame: QuicFrame)
      requires Valid()
      ensures IsControlFrameOutstanding(frame) <==> Known(ledger, frame.id) && At(ledger, frame.id).status != Acked
      ensures WillingToWrite() <==> ledger.lostOrder != [] || HasBuffered(ledger)
    {
    }

    predicate IsControlFrameOutstanding(frame: QuicFrame)
      requires Valid()
      reads this
    {
      if frame.id == INVALID_CONTROL_FRAME_ID then false
      else
        && frame.id < leastUnacked + |controlFrames| && frame.id >= leastUnacked
        && controlFrames[frame.id - leastUnacked].id != INVALID_CONTROL_FRAME_ID
    }

    /** Marks the frame acked and drops the acked frames from the front of the window. */
    method OnControlFrameIdAcked(id: nat) returns (first: bool)
      requires Core()
      modifies this`controlFrames, this`leastUnacked, this`pendingRetransmissions, this`ledger, session`connected
      ensures Core() && ledger == Ack(old(ledger), id)
      ensures first <==> Known(old(ledger), id) && Outstanding(At(old(ledger), id))
      ensures session.connected == (old(session.connected) && id <= SentCount(old(ledger)))
    {
      hide Sound, SentCount, Erase;
      if id == INVALID_CONTROL_FRAME_ID {
        return false;
      }
      if id >= leastUnsent {
        if Known(ledger, id) {
          StatusByCount(ledger, id);
        }
        session.CloseConnection();
        return false;
      }
      if id < leastUnacked || controlFrames[id - leastUnacked].id == INVALID_CONTROL_FRAME_ID {
        return false;
      }
      StatusByCount(ledger, id);
      AckSound(ledger, id);
      ShowsAck(ledger, controlFrames, leastUnacked, id, Erase(ledger.lostOrder, id));
      var frame := controlFrames[id - leastUnacked];
      controlFrames := controlFrames[id - leastUnacked := frame.(id := INVALID_CONTROL_FRAME_ID)];
      pendingRetransmissions := Erase(pendingRetransmissions, id);
      ledger := Ack(ledger, id);
      DropAcked();
      return true;
    }

    /** The loop that cleans up the front of the window. */
    method DropAcked()
      requires Window()
      modifies this`controlFrames, this`leastUnacked
      ensures Core()
    {
      hide Sound;
      while controlFrames != [] && controlFrames[0].id == INVALID_CONTROL_FRAME_ID
        invariant Window()
        decreases |controlFrames|
      {
        StatusByCount(ledger, leastUnacked);
        controlFrames := controlFrames[1..];
        leastUnacked := leastUnacked + 1;
      }
    }

    /** A frame has been written: the next unsent one, or one that is waiting to be sent again. */
    method OnControlFrameSent(frame: QuicFrame)
      requires Valid() && Known(ledger, frame.id) && frame.body == At(ledger, frame.id).body
      requires frame.id == leastUnsent || frame.id in pendingRetransmissions
      modifies this`controlFrames, this`leastUnacked, this`leastUnsent, this`pendingRetransmissions, this`windowUpdateFrames, this`ledger, session`connected
      ensures Valid() && ledger == Send(old(ledger), frame.id)
      ensures session.connected == old(session.connected)
    {
      hide SentCount, Erase, Sound, OutstandingBelow, Shows, Mapped, Send;
      StatusByCount(ledger, frame.id);
      var id := frame.id;
      ghost var l := ledger;
      if id == INVALID_CONTROL_FRAME_ID {
        assert false;
      }
      MappedSend(l, windowUpdateFrames, id);
      if frame.body.WindowUpdate? {
        var streamId := frame.body.streamId;
        SupersededIs(l, windowUpdateFrames, id, streamId);
        if streamId in windowUpdateFrames && id > windowUpdateFrames[streamId] {
          var _ := OnControlFrameIdAcked(windowUpdateFrames[streamId]);
        }
        windowUpdateFrames := windowUpdateFrames[streamId := id];
      }
      SupersedeSound(l, id);
      MarkSent(id, l);
    }

    /** What OnControlFrameSent does after any older window update has been seen to. */
    method MarkSent(id: nat, ghost l: Ledger)
      requires Core() && Sound(l) && Sound(ledger) && Known(l, id) && ledger == Supersede(l, id) && SentCount(ledger) == SentCount(l) && Known(ledger, id) && At(ledger, id) == At(l, id)
      requires id == leastUnsent || id in pendingRetransmissions
      modifies this`leastUnsent, this`pendingRetransmissions, this`ledger, session`connected
      ensures Core() && ledger == Send(l, id) && session.connected == old(session.connected)
    {
      hide SentCount, Erase, Sound, Supersede;
      StatusByCount(l, id);
      StatusByCount(ledger, id);
      SendSound(l, id);
      ShowsStatus(ledger, controlFrames, leastUnacked, id, Sent, Erase(ledger.lostOrder, id));
      if id in pendingRetransmissions {
        pendingRetransmissions := Erase(pendingRetransmissions, id);
        ledger := Send(l, id);
        return;
      }
      // The source closes the connection here; no run gets here.
      if id > leastUnsent {
        assert false;
      }
      leastUnsent := leastUnsent + 1;
      EraseAbsent(ledger.lostOrder, id);
      ledger := Send(l, id);
    }

    /** The frame is the one stored under its id, if it still is. */
    ghost predicate SameAsStored(frame: QuicFrame)
      reads this
    {
      Known(ledger, frame.id) && At(ledger, frame.id).status != Acked ==> frame.body == At(ledger, frame.id).body
    }

    method OnControlFrameAcked(frame: QuicFrame) returns (first: bool)
      requires Valid() && SameAsStored(frame)
      modifies this`controlFrames, this`leastUnacked, this`pendingRetransmissions, this`windowUpdateFrames, this`ledger, session`connected
      ensures Valid() && Step(old(ledger), AckFrame(frame.id), [], ledger)
      ensures first <==> Known(old(ledger), frame.id) && Outstanding(At(old(ledger), frame.id))
      ensures session.connected == (old(session.connected) && frame.id <= SentCount(old(ledger)))
    {
      hide Sound, SentCount, Erase, Shows, Mapped;
      ghost var l := ledger;
      first := OnControlFrameIdAcked(frame.id);
      if !first {
        return false;
      }
      MappedAck(l, windowUpdateFrames, frame.id);
      if frame.body.WindowUpdate? {
        MappedTo(l, windowUpdateFrames, frame.id);
        var streamId := frame.body.streamId;
        if streamId in windowUpdateFrames && windowUpdateFrames[streamId] == frame.id {
          windowUpdateFrames := windowUpdateFrames - {streamId};
        }
      }
    }

    lemma MappedTo(l: Ledger, updates: map<nat, nat>, id: nat)
      requires Mapped(l, updates) && Known(l, id) && Outstanding(At(l, id)) && At(l, id).body.WindowUpdate?
      ensures At(l, id).body.streamId in updates && updates[At(l, id).body.streamId] == id
    {
    }

    method OnControlFrameLost(frame: QuicFrame)
      requires Valid()
      modifies this`pendingRetransmissions, this`ledger, session`connected
      ensures Valid() && Step(old(ledger), LoseFrame(frame.id), [], ledger)
      ensures session.connected == (old(session.connected) && frame.id <= SentCount(old(ledger)))
    {
      hide Sound, SentCount, Mapped;
      var id := frame.id;
      if id == INVALID_CONTROL_FRAME_ID {
        return;
      }
      if Known(ledger, id) {
        StatusByCount(ledger, id);
      }
      MappedLose(ledger, windowUpdateFrames, id);
      if id >= leastUnsent {
        session.CloseConnection();
        return;
      }
      if id < leastUnacked || controlFrames[id - leastUnacked].id == INVALID_CONTROL_FRAME_ID {
        return;
      }
      LoseSound(ledger, id);
      ShowsStatus(ledger, controlFrames, leastUnacked, id, Lost, ledger.lostOrder + [id]);
      if id !in pendingRetransmissions {
        pendingRetransmissions := pendingRetransmissions + [id];
      }
      ledger := Lose(ledger, id);
    }

    method OnCanWrite()
      requires Valid()
      modifies this, session
      ensures Valid() && session.connected == old(session.connected)
      ensures old(session.attempts) <= session.attempts
      ensures Step(old(ledger), CanWrite, session.attempts[|old(session.attempts)|..], ledger)
    {
      if HasPendingRetransmission() {
        WritePendingRetransmission();
        return;
      }
      WriteBufferedFrames();
    }

    /** Sends an outstanding frame again at once; the ledger does not change. */
    method RetransmitControlFrame(frame: QuicFrame) returns (goOn: bool)
      requires Valid()
      modifies session
      ensures old(session.attempts) <= session.attempts
      ensures Step(old(ledger), Retransmit(frame.id, frame.body), session.attempts[|old(session.attempts)|..], ledger)
      ensures session.connected == (old(session.connected) && frame.id <= SentCount(ledger))
      ensures goOn <==> frame.id <= SentCount(ledger) && (session.attempts == old(session.attempts) || session.attempts[|session.attempts| - 1].taken)
    {
      var id := frame.id;
      if id == INVALID_CONTROL_FRAME_ID {
        return true;
      }
      if id >= leastUnsent {
        session.CloseConnection();
        return false;
      }
      if id < leastUnacked || controlFrames[id - leastUnacked].id == INVALID_CONTROL_FRAME_ID {
        return true;
      }
      goOn := session.WriteControlFrame(frame);
    }

    /** Adds a frame to the window and tries to send it, unless others are already waiting. */
    method WriteOrBufferQuicFrame(body: Body)
      requires Valid()
      modifies this, session
      ensures Valid() && session.connected == old(session.connected)
      ensures old(session.attempts) <= session.attempts
      ensures Step(old(ledger), WriteOrBuffer(body), session.attempts[|old(session.attempts)|..], ledger)
    {
      var hadBufferedFrames := HasBufferedFrames();
      Extend(body);
      if hadBufferedFrames {
        return;
      }
      WriteBufferedFrames();
    }

    /** A ping is dropped when frames are waiting. */
    method WritePing()
      requires Valid()
      modifies this, session
      ensures Valid() && session.connected == old(session.connected)
      ensures old(session.attempts) <= session.attempts
      ensures Step(old(ledger), Op.WritePing, session.attempts[|old(session.attempts)|..], ledger)
    {
      if HasBufferedFrames() {
        return;
      }
      Extend(Ping);
      WriteBufferedFrames();
    }

    /** The next id, and its frame at the end of the window. */
    method Extend(body: Body)
      requires Valid()
      modifies this`controlFrames, this`lastControlFrameId, this`ledger
      ensures Valid() && ledger == Buffer(old(ledger), body)
    {
      hide Sound, SentCount, Mapped, Shows;
      BufferSound(ledger, body);
      MappedBuffer(ledger, windowUpdateFrames, body);
      ShowsBuffer(ledger, controlFrames, leastUnacked, body);
      lastControlFrameId := lastControlFrameId + 1;
      controlFrames := controlFrames + [QuicFrame(lastControlFrameId, body)];
      ledger := Buffer(ledger, body);
    }

    method WriteBufferedFrames()
      requires Valid()
      modifies this, session
      ensures Valid() && session.connected == old(session.connected)
      ensures old(session.attempts) <= session.attempts
      ensures BufferedWrites(old(ledger), session.attempts[|old(session.attempts)|..], ledger)
    {
      hide Mapped, Sound, BufferedWrites, Send;
      ghost var l0, n, taken: seq<Attempt> := ledger, |session.attempts|, [];
      while HasBufferedFrames()
        invariant Valid() && session.connected == old(session.connected)
        invariant session.attempts == old(session.attempts) + taken
        invariant BufferedSoFar(l0, taken, ledger) && |ledger.entries| == |l0.entries|
        decreases |l0.entries| + 1 - leastUnsent
      {
        var frameToSend := controlFrames[leastUnsent - leastUnacked];
        var ok := session.WriteControlFrame(frameToSend);
        if !ok {
          BufferedEnd(l0, taken, ledger, [Attempt(leastUnsent, frameToSend.body, false)]);
          assert session.attempts[n..] == taken + [Attempt(leastUnsent, frameToSend.body, false)];
          return;
        }
        BufferedAgain(l0, taken, ledger);
        SentMore(ledger, leastUnsent);
        taken := taken + [Attempt(leastUnsent, frameToSend.body, true)];
        OnControlFrameSent(frameToSend);
      }
      BufferedEnd(l0, taken, ledger, []);
      assert session.attempts[n..] == taken + [];
    }

    lemma SentMore(l: Ledger, id: nat)
      requires Sound(l) && id == SentCount(l) + 1 && Known(l, id)
      ensures |Send(l, id).entries| == |l.entries| && SentCount(Send(l, id)) == id
    {
      SendSound(l, id);
    }

    method WritePendingRetransmission()
      requires Valid()
      modifies this, session
      ensures Valid() && session.connected == old(session.connected)
      ensures old(session.attempts) <= session.attempts
      ensures PendingWrites(old(ledger), session.attempts[|old(session.attempts)|..], ledger)
    {
      hide Mapped, PendingWrites, Send;
      ghost var l0, n, taken: seq<Attempt> := ledger, |session.attempts|, [];
      while HasPendingRetransmission()
        invariant Valid() && session.connected == old(session.connected)
        invariant session.attempts == old(session.attempts) + taken
        invariant PendingSoFar(l0, taken, ledger)
        decreases |pendingRetransmissions|
      {
        var pending := NextPendingRetransmission();
        var ok := session.WriteControlFrame(pending);
        if !ok {
          PendingEnd(l0, taken, ledger, [Attempt(pending.id, pending.body, false)]);
          assert session.attempts[n..] == taken + [Attempt(pending.id, pending.body, false)];
          return;
        }
        PendingAgain(l0, taken, ledger);
        FewerPending(ledger, pending.id);
        taken := taken + [Attempt(pending.id, pending.body, true)];
        OnControlFrameSent(pending);
      }
      PendingEnd(l0, taken, ledger, []);
      assert session.attempts[n..] == taken + [];
    }

    /** The frame lost the longest ago. */
    method NextPendingRetransmission() returns (frame: QuicFrame)
      requires Valid() && HasPendingRetransmission()
      ensures frame.id == ledger.lostOrder[0] && Known(ledger, frame.id) && frame.body == At(ledger, frame.id).body
    {
      var id := pendingRetransmissions[0];
      assert id in ledger.lostOrder;
      frame := controlFrames[id - leastUnacked];
    }

    lemma FewerPending(l: Ledger, id: nat)
      requires Sound(l) && id in l.lostOrder
      ensures |Send(l, id).lostOrder| < |l.lostOrder|
    {
      SupersedeSound(l, id);
      var body := At(l, id).body;
      if body.WindowUpdate? {
        EraseDistinct(l.lostOrder, OutstandingBelow(l, body.streamId, id));
      }
      EraseDistinct(Supersede(l, id).lostOrder, id);
    }
  }
}
