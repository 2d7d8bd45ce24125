/** What the control frame manager is for, as a ledger with one line per control frame id. */
module ControlFrameLedger {

  datatype Body =
    | RstStream(streamId: nat, error: nat, bytesWritten: nat)
    | GoAway(goAwayError: nat, lastGoodStreamId: nat, reason: string)
    | WindowUpdate(streamId: nat, byteOffset: nat)
    | Blocked(streamId: nat)
    | StreamsBlocked(count: nat, unidirectional: bool)
    | MaxStreams(count: nat, unidirectional: bool)
    | StopSending(streamId: nat, code: nat)
    | Ping

  datatype Status = Unsent | Sent | Lost | Acked

  datatype Entry = Entry(body: Body, status: Status)

  /** Line i is about the frame with id i + 1; lostOrder lists the lost frames, oldest loss first. */
  datatype Ledger = Ledger(entries: seq<Entry>, lostOrder: seq<nat>)

  predicate Known(l: Ledger, id: nat) { 1 <= id <= |l.entries| }

  function At(l: Ledger, id: nat): Entry
    requires Known(l, id)
  {
    l.entries[id - 1]
  }

  predicate Outstanding(e: Entry) { e.status == Sent || e.status == Lost }

  predicate IsWindowUpdate(e: Entry, stream: nat) { e.body.WindowUpdate? && e.body.streamId == stream }

  function Erase(s: seq<nat>, x: nat): seq<nat> {
    if s == [] then [] else if s[0] == x then s[1..] else [s[0]] + Erase(s[1..], x)
  }

  predicate NoDuplicates(s: seq<nat>) {
    forall i, j :: 0 <= i < j < |s| ==> s[i] != s[j]
  }

  lemma {:induction false} EraseDistinct(s: seq<nat>, x: nat)
    requires NoDuplicates(s)
    ensures NoDuplicates(Erase(s, x))
    ensures forall y :: y in Erase(s, x) <==> y in s && y != x
    ensures |Erase(s, x)| == if x in s then |s| - 1 else |s|
  {
    if s != [] {
      var t := s[1..];
      assert s == [s[0]] + t;
      assert s[0] !in t;
      EraseDistinct(t, x);
      ConsDistinct(s[0], Erase(t, x));
    }
  }

  lemma {:induction false} EraseAbsent(s: seq<nat>, x: nat)
    requires x !in s
    ensures Erase(s, x) == s
  {
    if s != [] {
      EraseAbsent(s[1..], x);
    }
  }

  lemma ConsDistinct(y: nat, t: seq<nat>)
    requires NoDuplicates(t) && y !in t
    ensures NoDuplicates([y] + t)
  {
  }

  // ---- what happens to the ledger ----

  function Buffer(l: Ledger, body: Body): Ledger {
    l.(entries := l.entries + [Entry(body, Unsent)])
  }

  function SetStatus(l: Ledger, id: nat, status: Status): Ledger
    requires Known(l, id)
  {
    l.(entries := l.entries[id - 1 := At(l, id).(status := status)])
  }

  /** An acknowledgement counts once, and only for a frame that has been sent. */
  function Ack(l: Ledger, id: nat): Ledger {
    if Known(l, id) && Outstanding(At(l, id)) then
      SetStatus(l, id, Acked).(lostOrder := Erase(l.lostOrder, id))
    else l
  }

  function Lose(l: Ledger, id: nat): Ledger {
    if Known(l, id) && At(l, id).status == Sent then
      SetStatus(l, id, Lost).(lostOrder := l.lostOrder + [id])
    else l
  }

  /** The latest outstanding window update for the stream with an id below the bound; 0 if none. */
  function OutstandingBelow(l: Ledger, stream: nat, bound: nat): (id: nat)
    requires bound <= |l.entries| + 1
    ensures id > 0 ==> id < bound && Outstanding(At(l, id)) && IsWindowUpdate(At(l, id), stream)
    ensures forall i :: id < i < bound && i > 0 ==> !(Outstanding(At(l, i)) && IsWindowUpdate(At(l, i), stream))
  {
    if bound <= 1 then 0
    else if Outstanding(At(l, bound - 1)) && IsWindowUpdate(At(l, bound - 1), stream) then bound - 1
    else OutstandingBelow(l, stream, bound - 1)
  }

  /** A window update makes the one outstanding before it on the same stream redundant. */
  function Supersede(l: Ledger, id: nat): Ledger
    requires Known(l, id)
  {
    var body := At(l, id).body;
    if body.WindowUpdate? then Ack(l, OutstandingBelow(l, body.streamId, id)) else l
  }

  /** Frame id has been handed to the connection, for the first time or again. */
  function Send(l: Ledger, id: nat): Ledger
    requires Known(l, id)
  {
    SetStatus(Supersede(l, id), id, Sent).(lostOrder := Erase(Supersede(l, id).lostOrder, id))
  }

  /** How many frames have been sent at least once. */
  function SentCount(l: Ledger): (n: nat)
    ensures n <= |l.entries|
    ensures forall i :: 0 <= i < n ==> l.entries[i].status != Unsent
    ensures n < |l.entries| ==> l.entries[n].status == Unsent
  {
    SentCountFrom(l, 0)
  }

  function SentCountFrom(l: Ledger, n: nat): (m: nat)
    requires n <= |l.entries|
    ensures n <= m <= |l.entries|
    ensures forall i :: n <= i < m ==> l.entries[i].status != Unsent
    ensures m < |l.entries| ==> l.entries[m].status == Unsent
    decreases |l.entries| - n
  {
    if n == |l.entries| || l.entries[n].status == Unsent then n else SentCountFrom(l, n + 1)
  }

  /** What every run keeps: frames are sent in the order of their ids; the lost ones are
      listed once each; and on each stream all window updates sent before the latest one
      sent are acked. */
  ghost predicate Sound(l: Ledger) {
    && (forall i :: SentCount(l) <= i < |l.entries| ==> l.entries[i].status == Unsent)
    && NoDuplicates(l.lostOrder)
    && (forall id :: id in l.lostOrder <==> Known(l, id) && At(l, id).status == Lost)
    && LatestOnly(l)
  }

  ghost predicate LatestOnly(l: Ledger) {
    forall i, j :: 0 <= i < j < |l.entries| && l.entries[i].body.WindowUpdate? && l.entries[j].body.WindowUpdate?
      && l.entries[i].body.streamId == l.entries[j].body.streamId && l.entries[j].status != Unsent
      ==> l.entries[i].status == Acked
  }

  /** An attempt to hand a frame to the connection, and whether it took the frame. */
  datatype Attempt = Attempt(id: nat, body: Body, taken: bool)

  /** Buffered frames are tried in the order of their ids until one is refused or none is left. */
  ghost predicate BufferedWrites(l: Ledger, attempts: seq<Attempt>, l': Ledger)
    decreases |attempts|
  {
    if SentCount(l) == |l.entries| then attempts == [] && l' == l
    else
      && attempts != [] && attempts[0].id == SentCount(l) + 1 && attempts[0].body == At(l, attempts[0].id).body
      && if attempts[0].taken then BufferedWrites(Send(l, attempts[0].id), attempts[1..], l')
         else |attempts| == 1 && l' == l
  }

  /** Lost frames are tried in the order of their loss until one is refused or none is left. */
  ghost predicate PendingWrites(l: Ledger, attempts: seq<Attempt>, l': Ledger)
    decreases |attempts|
  {
    if l.lostOrder == [] then attempts == [] && l' == l
    else
      && attempts != [] && attempts[0].id == l.lostOrder[0] && Known(l, attempts[0].id) && attempts[0].body == At(l, attempts[0].id).body
      && if attempts[0].taken then PendingWrites(Send(l, attempts[0].id), attempts[1..], l')
         else |attempts| == 1 && l' == l
  }

  datatype Op =
    | WriteOrBuffer(body: Body)
    | WritePing
    | AckFrame(id: nat)
    | LoseFrame(id: nat)
    | CanWrite
    | Retransmit(id: nat, body: Body)

  ghost predicate HasBuffered(l: Ledger) { SentCount(l) < |l.entries| }

  /** One call on the manager, with the attempts it makes. */
  ghost predicate Step(l: Ledger, op: Op, attempts: seq<Attempt>, l': Ledger) {
    match op
    case WriteOrBuffer(body) =>
      if HasBuffered(l) then attempts == [] && l' == Buffer(l, body) else BufferedWrites(Buffer(l, body), attempts, l')
    case WritePing =>
      if HasBuffered(l) then attempts == [] && l' == l else BufferedWrites(Buffer(l, Ping), attempts, l')
    case AckFrame(id) => attempts == [] && l' == Ack(l, id)
    case LoseFrame(id) => attempts == [] && l' == Lose(l, id)
    case CanWrite => if l.lostOrder != [] then PendingWrites(l, attempts, l') else BufferedWrites(l, attempts, l')
    case Retransmit(id, body) =>
      && l' == l
      && if Known(l, id) && Outstanding(At(l, id)) then |attempts| == 1 && attempts[0].id == id && attempts[0].body == body else attempts == []
  }

  // ---- every step keeps the ledger sound ----

  lemma SentCountIs(l: Ledger, n: nat)
    requires n <= |l.entries|
    requires forall i :: 0 <= i < n ==> l.entries[i].status != Unsent
    requires n < |l.entries| ==> l.entries[n].status == Unsent
    ensures SentCount(l) == n
  {
  }

  lemma StatusByCount(l: Ledger, id: nat)
    requires Sound(l) && Known(l, id)
    ensures At(l, id).status == Unsent <==> id > SentCount(l)
    ensures id in l.lostOrder <==> At(l, id).status == Lost
  {
  }

  lemma BufferSound(l: Ledger, body: Body)
    requires Sound(l)
    ensures Sound(Buffer(l, body)) && SentCount(Buffer(l, body)) == SentCount(l)
  {
    SentCountIs(Buffer(l, body), SentCount(l));
    assert forall id :: Known(l, id) ==> At(Buffer(l, body), id) == At(l, id);
  }

  lemma AckSound(l: Ledger, id: nat)
    requires Sound(l)
    ensures Sound(Ack(l, id)) && SentCount(Ack(l, id)) == SentCount(l)
  {
    SentCountIs(Ack(l, id), SentCount(l));
    EraseDistinct(l.lostOrder, id);
  }

  lemma LoseSound(l: Ledger, id: nat)
    requires Sound(l)
    ensures Sound(Lose(l, id)) && SentCount(Lose(l, id)) == SentCount(l)
  {
    SentCountIs(Lose(l, id), SentCount(l));
  }

  lemma SupersedeSound(l: Ledger, id: nat)
    requires Sound(l) && Known(l, id)
    ensures Sound(Supersede(l, id)) && SentCount(Supersede(l, id)) == SentCount(l)
    ensures Known(Supersede(l, id), id) && At(Supersede(l, id), id) == At(l, id)
  {
    if At(l, id).body.WindowUpdate? {
      AckSound(l, OutstandingBelow(l, At(l, id).body.streamId, id));
    }
  }

  /** Sending is sound for the next frame in order, and for any outstanding frame. */
  lemma SendSound(l: Ledger, id: nat)
    requires Sound(l) && Known(l, id)
    requires id == SentCount(l) + 1 || Outstanding(At(l, id))
    ensures Sound(Send(l, id))
    ensures SentCount(Send(l, id)) == if id == SentCount(l) + 1 then id else SentCount(l)
  {
    var l1 := Supersede(l, id);
    SupersedeSound(l, id);
    var l2 := Send(l, id);
    SentCountIs(l2, if id == SentCount(l) + 1 then id else SentCount(l));
    EraseDistinct(l1.lostOrder, id);
    LatestAfterSend(l, id);
  }

  lemma LatestAfterSend(l: Ledger, id: nat)
    requires Sound(l) && Known(l, id)
    requires id == SentCount(l) + 1 || Outstanding(At(l, id))
    ensures LatestOnly(Send(l, id))
  {
    var l2 := Send(l, id);
    forall i, j | 0 <= i < j < |l2.entries| && l2.entries[i].body.WindowUpdate? && l2.entries[j].body.WindowUpdate?
      && l2.entries[i].body.streamId == l2.entries[j].body.streamId && l2.entries[j].status != Unsent
      ensures l2.entries[i].status == Acked
    {
      var stream := l2.entries[i].body.streamId;
      assert l2.entries[i].body == l.entries[i].body && l2.entries[j].body == l.entries[j].body;
      if j == id - 1 {
        if l.entries[i].status != Acked {
          assert Outstanding(At(l, i + 1)) && IsWindowUpdate(At(l, i + 1), stream);
          var o := OutstandingBelow(l, stream, id);
          assert i + 1 <= o;
          if i + 1 < o {
            assert false;
          }
        }
      } else {
        assert l.entries[j].status != Unsent;
      }
    }
  }

  lemma {:induction false} BufferedWritesSound(l: Ledger, attempts: seq<Attempt>, l': Ledger)
    requires Sound(l) && BufferedWrites(l, attempts, l')
    ensures Sound(l')
    decreases |attempts|
  {
    if SentCount(l) < |l.entries| && attempts[0].taken {
      SendSound(l, attempts[0].id);
      BufferedWritesSound(Send(l, attempts[0].id), attempts[1..], l');
    }
  }

  lemma {:induction false} PendingWritesSound(l: Ledger, attempts: seq<Attempt>, l': Ledger)
    requires Sound(l) && PendingWrites(l, attempts, l')
    ensures Sound(l')
    decreases |attempts|
  {
    if l.lostOrder != [] && attempts[0].taken {
      assert attempts[0].id in l.lostOrder;
      SendSound(l, attempts[0].id);
      PendingWritesSound(Send(l, attempts[0].id), attempts[1..], l');
    }
  }

  lemma StepSound(l: Ledger, op: Op, attempts: seq<Attempt>, l': Ledger)
    requires Sound(l) && Step(l, op, attempts, l')
    ensures Sound(l')
  {
    match op
    case WriteOrBuffer(body) =>
      BufferSound(l, body);
      if !HasBuffered(l) { BufferedWritesSound(Buffer(l, body), attempts, l'); }
    case WritePing =>
      BufferSound(l, Ping);
      if !HasBuffered(l) { BufferedWritesSound(Buffer(l, Ping), attempts, l'); }
    case AckFrame(id) => AckSound(l, id);
    case LoseFrame(id) => LoseSound(l, id);
    case CanWrite =>
      if l.lostOrder != [] { PendingWritesSound(l, attempts, l'); } else { BufferedWritesSound(l, attempts, l'); }
    case Retransmit(_, _) =>
  }

  /** The ledger a manager starts with. */
  const EMPTY := Ledger([], [])

  // ---- runs ----

  datatype Call = Call(op: Op, attempts: seq<Attempt>)

  /** The ledgers l[0], l[1], ... between the calls of a run. */
  ghost predicate IsRun(ledgers: seq<Ledger>, calls: seq<Call>) {
    && |ledgers| == |calls| + 1 && ledgers[0] == EMPTY
    && forall i :: 0 <= i < |calls| ==> Step(ledgers[i], calls[i].op, calls[i].attempts, ledgers[i + 1])
  }

  lemma {:induction false} RunSound(ledgers: seq<Ledger>, calls: seq<Call>, n: nat)
    requires IsRun(ledgers, calls) && n <= |calls|
    ensures Sound(ledgers[n])
  {
    if n > 0 {
      RunSound(ledgers, calls, n - 1);
      StepSound(ledgers[n - 1], calls[n - 1].op, calls[n - 1].attempts, ledgers[n]);
    }
  }

  /** After every call of every run a stream has at most one window update that is sent and not acked,
      and it is the newest of the stream's that was ever sent. */
  lemma OneWindowUpdatePerStream(ledgers: seq<Ledger>, calls: seq<Call>, n: nat, stream: nat, id: nat, other: nat)
    requires IsRun(ledgers, calls) && n <= |calls|
    requires Known(ledgers[n], id) && IsWindowUpdate(At(ledgers[n], id), stream) && Outstanding(At(ledgers[n], id))
    requires Known(ledgers[n], other) && IsWindowUpdate(At(ledgers[n], other), stream) && other != id
    ensures !Outstanding(At(ledgers[n], other))
    ensures At(ledgers[n], other).status != Unsent ==> other < id
  {
    RunSound(ledgers, calls, n);
  }

  /** Ids keep their frames, and an acked frame stays acked. */
  ghost predicate Grows(l: Ledger, l': Ledger) {
    && |l.entries| <= |l'.entries|
    && forall i :: 0 <= i < |l.entries| ==>
         l'.entries[i].body == l.entries[i].body && (l.entries[i].status == Acked ==> l'.entries[i].status == Acked)
           && (l.entries[i].status != Unsent ==> l'.entries[i].status != Unsent)
  }

  lemma SendGrows(l: Ledger, id: nat)
    requires Known(l, id) && At(l, id).status != Acked
    ensures Grows(l, Send(l, id))
  {
  }

  lemma {:induction false} BufferedWritesGrow(l: Ledger, attempts: seq<Attempt>, l': Ledger)
    requires Sound(l) && BufferedWrites(l, attempts, l')
    ensures Grows(l, l')
    decreases |attempts|
  {
    if SentCount(l) < |l.entries| && attempts[0].taken {
      SendSound(l, attempts[0].id);
      SendGrows(l, attempts[0].id);
      BufferedWritesGrow(Send(l, attempts[0].id), attempts[1..], l');
    }
  }

  lemma {:induction false} PendingWritesGrow(l: Ledger, attempts: seq<Attempt>, l': Ledger)
    requires Sound(l) && PendingWrites(l, attempts, l')
    ensures Grows(l, l')
    decreases |attempts|
  {
    if l.lostOrder != [] && attempts[0].taken {
      assert attempts[0].id in l.lostOrder;
      SendSound(l, attempts[0].id);
      SendGrows(l, attempts[0].id);
      PendingWritesGrow(Send(l, attempts[0].id), attempts[1..], l');
    }
  }

  lemma StepGrows(l: Ledger, op: Op, attempts: seq<Attempt>, l': Ledger)
    requires Sound(l) && Step(l, op, attempts, l')
    ensures Grows(l, l')
  {
    match op
    case WriteOrBuffer(body) =>
      BufferSound(l, body);
      if !HasBuffered(l) { BufferedWritesGrow(Buffer(l, body), attempts, l'); }
    case WritePing =>
      BufferSound(l, Ping);
      if !HasBuffered(l) { BufferedWritesGrow(Buffer(l, Ping), attempts, l'); }
    case CanWrite =>
      if l.lostOrder != [] { PendingWritesGrow(l, attempts, l'); } else { BufferedWritesGrow(l, attempts, l'); }
    case _ =>
  }

  lemma {:induction false} RunGrows(ledgers: seq<Ledger>, calls: seq<Call>, m: nat, n: nat)
    requires IsRun(ledgers, calls) && m <= n <= |calls|
    ensures Grows(ledgers[m], ledgers[n])
  {
    if m < n {
      hide Step, Sound;
      RunGrows(ledgers, calls, m, n - 1);
      RunSound(ledgers, calls, n - 1);
      StepGrows(ledgers[n - 1], calls[n - 1].op, calls[n - 1].attempts, ledgers[n]);
    }
  }

  /** The n-th call acknowledges a frame for the first time: OnControlFrameAcked returns true. */
  ghost predicate AcksFirst(ledgers: seq<Ledger>, calls: seq<Call>, n: nat, id: nat)
    requires |ledgers| == |calls| + 1
  {
    n < |calls| && calls[n].op == AckFrame(id) && Known(ledgers[n], id) && Outstanding(At(ledgers[n], id))
  }

  /** No frame is acknowledged for the first time twice. */
  lemma AckedOnce(ledgers: seq<Ledger>, calls: seq<Call>, m: nat, n: nat, id: nat)
    requires IsRun(ledgers, calls) && AcksFirst(ledgers, calls, m, id) && AcksFirst(ledgers, calls, n, id)
    ensures m == n
  {
    var i, j := if m < n then m else n, if m < n then n else m;
    if i < j {
      assert Step(ledgers[i], calls[i].op, calls[i].attempts, ledgers[i + 1]);
      RunGrows(ledgers, calls, i + 1, j);
      assert false;
    }
  }

  /** The ids handed over and taken, in order. */
  function Taken(attempts: seq<Attempt>): seq<nat> {
    if attempts == [] then [] else (if attempts[0].taken then [attempts[0].id] else []) + Taken(attempts[1..])
  }

  function AllTaken(calls: seq<Call>): seq<nat> {
    if calls == [] then [] else AllTaken(calls[..|calls| - 1]) + Taken(calls[|calls| - 1].attempts)
  }

  /** The ids in the order in which each occurs for the first time. */
  function FirstTimes(ids: seq<nat>): (r: seq<nat>)
    ensures forall x :: x in r <==> x in ids
  {
    if ids == [] then []
    else
      var r, last := FirstTimes(ids[..|ids| - 1]), ids[|ids| - 1];
      assert ids == ids[..|ids| - 1] + [last];
      if last in r then r else r + [last]
  }

  function UpTo(n: nat): (r: seq<nat>)
    ensures |r| == n && forall x :: x in r <==> 1 <= x <= n
  {
    if n == 0 then [] else UpTo(n - 1) + [n]
  }

  lemma NextTime(ids: seq<nat>, id: nat, n: nat)
    requires FirstTimes(ids) == UpTo(n) && 1 <= id <= n + 1
    ensures FirstTimes(ids + [id]) == UpTo(if id == n + 1 then id else n)
  {
    assert (ids + [id])[..|ids|] == ids;
  }

  lemma {:induction false} BufferedFirstTimes(l: Ledger, attempts: seq<Attempt>, l': Ledger, ids: seq<nat>)
    requires Sound(l) && BufferedWrites(l, attempts, l') && FirstTimes(ids) == UpTo(SentCount(l))
    ensures FirstTimes(ids + Taken(attempts)) == UpTo(SentCount(l'))
    decreases |attempts|
  {
    hide Send, Sound, FirstTimes, UpTo;
    if SentCount(l) < |l.entries| && attempts[0].taken {
      var id := attempts[0].id;
      SendSound(l, id);
      NextTime(ids, id, SentCount(l));
      BufferedFirstTimes(Send(l, id), attempts[1..], l', ids + [id]);
      assert ids + Taken(attempts) == ids + [id] + Taken(attempts[1..]);
    } else {
      assert ids + Taken(attempts) == ids;
    }
  }

  lemma {:induction false} PendingFirstTimes(l: Ledger, attempts: seq<Attempt>, l': Ledger, ids: seq<nat>)
    requires Sound(l) && PendingWrites(l, attempts, l') && FirstTimes(ids) == UpTo(SentCount(l))
    ensures FirstTimes(ids + Taken(attempts)) == UpTo(SentCount(l'))
    decreases |attempts|
  {
    hide Send, Sound, FirstTimes, UpTo;
    if l.lostOrder != [] && attempts[0].taken {
      var id := attempts[0].id;
      assert id in l.lostOrder;
      StatusByCount(l, id);
      SendSound(l, id);
      NextTime(ids, id, SentCount(l));
      PendingFirstTimes(Send(l, id), attempts[1..], l', ids + [id]);
      assert ids + Taken(attempts) == ids + [id] + Taken(attempts[1..]);
    } else {
      assert ids + Taken(attempts) == ids;
    }
  }

  lemma StepFirstTimes(l: Ledger, op: Op, attempts: seq<Attempt>, l': Ledger, ids: seq<nat>)
    requires Sound(l) && Step(l, op, attempts, l') && FirstTimes(ids) == UpTo(SentCount(l))
    ensures FirstTimes(ids + Taken(attempts)) == UpTo(SentCount(l'))
  {
    assert ids + [] == ids;
    match op
    case WriteOrBuffer(body) =>
      BufferSound(l, body);
      if !HasBuffered(l) { BufferedFirstTimes(Buffer(l, body), attempts, l', ids); }
    case WritePing =>
      BufferSound(l, Ping);
      if !HasBuffered(l) { BufferedFirstTimes(Buffer(l, Ping), attempts, l', ids); }
    case AckFrame(id) => AckSound(l, id);
    case LoseFrame(id) => LoseSound(l, id);
    case CanWrite =>
      if l.lostOrder != [] { PendingFirstTimes(l, attempts, l', ids); } else { BufferedFirstTimes(l, attempts, l', ids); }
    case Retransmit(id, _) =>
      if Known(l, id) && Outstanding(At(l, id)) {
        assert id <= SentCount(l);
        NextTime(ids, id, SentCount(l));
        assert attempts[1..] == [];
        assert Taken(attempts) == if attempts[0].taken then [id] else [];
      }
  }

  /** In every run the ids sent for the first time are 1, 2, 3 and so on, without a gap. */
  lemma {:induction false} FirstSentInOrder(ledgers: seq<Ledger>, calls: seq<Call>)
    requires IsRun(ledgers, calls)
    ensures FirstTimes(AllTaken(calls)) == UpTo(SentCount(ledgers[|calls|]))
    decreases |calls|
  {
    if calls != [] {
      var n := |calls| - 1;
      FirstSentInOrder(ledgers[..n + 1], calls[..n]);
      RunSound(ledgers, calls, n);
      StepFirstTimes(ledgers[n], calls[n].op, calls[n].attempts, ledgers[n + 1], AllTaken(calls[..n]));
    }
  }

  // ---- the loops that write, one attempt at a time ----

  /** The attempts made so far have all been taken. */
  ghost predicate BufferedSoFar(l: Ledger, attempts: seq<Attempt>, l': Ledger)
    decreases |attempts|
  {
    if attempts == [] then l' == l
    else
      && HasBuffered(l) && attempts[0] == Attempt(SentCount(l) + 1, At(l, SentCount(l) + 1).body, true)
      && BufferedSoFar(Send(l, attempts[0].id), attempts[1..], l')
  }

  lemma {:induction false} BufferedAgain(l: Ledger, attempts: seq<Attempt>, l': Ledger)
    requires BufferedSoFar(l, attempts, l') && HasBuffered(l')
    ensures BufferedSoFar(l, attempts + [Attempt(SentCount(l') + 1, At(l', SentCount(l') + 1).body, true)], Send(l', SentCount(l') + 1))
    decreases |attempts|
  {
    hide Send, SentCount;
    var more := attempts + [Attempt(SentCount(l') + 1, At(l', SentCount(l') + 1).body, true)];
    if attempts == [] {
      assert more[1..] == [];
      assert BufferedSoFar(Send(l', SentCount(l') + 1), more[1..], Send(l', SentCount(l') + 1));
    } else {
      BufferedAgain(Send(l, attempts[0].id), attempts[1..], l');
      assert more[1..] == attempts[1..] + [Attempt(SentCount(l') + 1, At(l', SentCount(l') + 1).body, true)];
    }
  }

  /** The loop ends when nothing is buffered, or with an attempt that is refused. */
  lemma {:induction false} BufferedEnd(l: Ledger, attempts: seq<Attempt>, l': Ledger, last: seq<Attempt>)
    requires BufferedSoFar(l, attempts, l')
    requires if HasBuffered(l') then last == [Attempt(SentCount(l') + 1, At(l', SentCount(l') + 1).body, false)] else last == []
    ensures BufferedWrites(l, attempts + last, l')
    decreases |attempts|
  {
    if attempts == [] {
      assert attempts + last == last;
    } else {
      hide Send, SentCount;
      BufferedEnd(Send(l, attempts[0].id), attempts[1..], l', last);
      assert (attempts + last)[1..] == attempts[1..] + last;
    }
  }

  ghost predicate PendingSoFar(l: Ledger, attempts: seq<Attempt>, l': Ledger)
    decreases |attempts|
  {
    if attempts == [] then l' == l
    else
      && l.lostOrder != [] && Known(l, l.lostOrder[0]) && attempts[0] == Attempt(l.lostOrder[0], At(l, l.lostOrder[0]).body, true)
      && PendingSoFar(Send(l, attempts[0].id), attempts[1..], l')
  }

  lemma {:induction false} PendingAgain(l: Ledger, attempts: seq<Attempt>, l': Ledger)
    requires PendingSoFar(l, attempts, l') && l'.lostOrder != [] && Known(l', l'.lostOrder[0])
    ensures PendingSoFar(l, attempts + [Attempt(l'.lostOrder[0], At(l', l'.lostOrder[0]).body, true)], Send(l', l'.lostOrder[0]))
    decreases |attempts|
  {
    hide Send;
    var id := l'.lostOrder[0];
    var more := attempts + [Attempt(id, At(l', id).body, true)];
    if attempts == [] {
      assert more[1..] == [];
      assert PendingSoFar(Send(l', id), more[1..], Send(l', id));
    } else {
      PendingAgain(Send(l, attempts[0].id), attempts[1..], l');
      assert more[1..] == attempts[1..] + [Attempt(id, At(l', id).body, true)];
    }
  }

  lemma {:induction false} PendingEnd(l: Ledger, attempts: seq<Attempt>, l': Ledger, last: seq<Attempt>)
    requires PendingSoFar(l, attempts, l')
    requires l'.lostOrder != [] ==> Known(l', l'.lostOrder[0])
    requires if l'.lostOrder != [] then last == [Attempt(l'.lostOrder[0], At(l', l'.lostOrder[0]).body, false)] else last == []
    ensures PendingWrites(l, attempts + last, l')
    decreases |attempts|
  {
    if attempts == [] {
      assert attempts + last == last;
    } else {
      hide Send;
      PendingEnd(Send(l, attempts[0].id), attempts[1..], l', last);
      assert (attempts + last)[1..] == attempts[1..] + last;
    }
  }

  // ---- the map of window updates ----

  /** The map leads to the outstanding window update of each stream that has one, and nowhere else. */
  ghost predicate Mapped(l: Ledger, updates: map<nat, nat>) {
    && (forall s :: s in updates ==>
          Known(l, updates[s]) && Outstanding(At(l, updates[s])) && IsWindowUpdate(At(l, updates[s]), s))
    && (forall id :: Known(l, id) && Outstanding(At(l, id)) && At(l, id).body.WindowUpdate? ==>
          At(l, id).body.streamId in updates && updates[At(l, id).body.streamId] == id)
  }

  /** The map leads to the update that a new one supersedes. */
  lemma SupersededIs(l: Ledger, updates: map<nat, nat>, id: nat, stream: nat)
    requires Mapped(l, updates) && Known(l, id) && IsWindowUpdate(At(l, id), stream)
    ensures OutstandingBelow(l, stream, id) == if stream in updates && updates[stream] < id then updates[stream] else 0
  {
    var o := OutstandingBelow(l, stream, id);
    if o > 0 {
      assert Outstanding(At(l, o));
    }
  }

  lemma MappedSend(l: Ledger, updates: map<nat, nat>, id: nat)
    requires Sound(l) && Mapped(l, updates) && Known(l, id) && (id == SentCount(l) + 1 || Outstanding(At(l, id)))
    ensures Mapped(Send(l, id), if At(l, id).body.WindowUpdate? then updates[At(l, id).body.streamId := id] else updates)
  {
    var l' := Send(l, id);
    var body := At(l, id).body;
    var updates' := if body.WindowUpdate? then updates[body.streamId := id] else updates;
    if body.WindowUpdate? {
      SupersededIs(l, updates, id, body.streamId);
    }
    forall i | Known(l', i) && Outstanding(At(l', i)) && At(l', i).body.WindowUpdate?
      ensures At(l', i).body.streamId in updates' && updates'[At(l', i).body.streamId] == i
    {
      if i != id {
        assert Outstanding(At(l, i)) && At(l, i).body == At(l', i).body;
      }
    }
    forall s | s in updates'
      ensures Known(l', updates'[s]) && Outstanding(At(l', updates'[s])) && IsWindowUpdate(At(l', updates'[s]), s)
    {
    }
  }
}
