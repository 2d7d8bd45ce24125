/** What the calls of a run do to each frame, and in which order lost frames are sent again. */
module ControlFrameRuns {
  import opened ControlFrameLedger

  // ---- frame by frame ----

  predicate TakenIn(attempts: seq<Attempt>, id: nat) {
    exists k :: 0 <= k < |attempts| && attempts[k].id == id && attempts[k].taken
  }

  /** A later window update for the same stream was taken. */
  ghost predicate SupersededIn(l: Ledger, attempts: seq<Attempt>, id: nat) {
    && Known(l, id) && At(l, id).body.WindowUpdate?
    && exists k :: 0 <= k < |attempts| && attempts[k].taken && attempts[k].id > id
         && Known(l, attempts[k].id) && IsWindowUpdate(At(l, attempts[k].id), At(l, id).body.streamId)
  }

  /** A frame that was not acked is acked by writes only if it was superseded; otherwise it is sent if it
      was taken, and stays what it was if not. */
  ghost predicate Written(l: Ledger, attempts: seq<Attempt>, l': Ledger) {
    && |l'.entries| == |l.entries|
    && forall id :: Known(l, id) ==>
         && At(l', id).body == At(l, id).body
         && (At(l, id).status == Acked ==> At(l', id).status == Acked)
         && (At(l, id).status != Acked && At(l', id).status == Acked ==> SupersededIn(l, attempts, id))
         && (At(l', id).status != Acked ==> At(l', id).status == if TakenIn(attempts, id) then Sent else At(l, id).status)
  }

  lemma SendWritten(l: Ledger, a: Attempt)
    requires Known(l, a.id) && At(l, a.id).status != Acked && a.taken
    ensures Written(l, [a], Send(l, a.id))
  {
    var l', id := Send(l, a.id), a.id;
    assert [a][0] == a;
    forall i | Known(l, i) && At(l, i).status != Acked && At(l', i).status == Acked ensures SupersededIn(l, [a], i) {
      assert i == OutstandingBelow(l, At(l, id).body.streamId, id);
    }
  }

  lemma WrittenThen(l: Ledger, attempts: seq<Attempt>, l1: Ledger, l': Ledger)
    requires attempts != [] && Written(l, [attempts[0]], l1) && Written(l1, attempts[1..], l')
    ensures Written(l, attempts, l')
  {
    var rest := attempts[1..];
    forall id | Known(l, id)
      ensures TakenIn(attempts, id) <==> TakenIn([attempts[0]], id) || TakenIn(rest, id)
      ensures SupersededIn(l, [attempts[0]], id) || SupersededIn(l1, rest, id) ==> SupersededIn(l, attempts, id)
    {
      TakenInCons(attempts, id);
      SupersededCons(l, attempts, l1, id);
    }
  }

  lemma TakenInCons(attempts: seq<Attempt>, id: nat)
    requires attempts != []
    ensures TakenIn(attempts, id) <==> (attempts[0].id == id && attempts[0].taken) || TakenIn(attempts[1..], id)
    ensures TakenIn([attempts[0]], id) <==> attempts[0].id == id && attempts[0].taken
  {
    assert [attempts[0]][0] == attempts[0];
    if TakenIn(attempts[1..], id) {
      var k :| 0 <= k < |attempts| - 1 && attempts[1..][k].id == id && attempts[1..][k].taken;
      assert attempts[k + 1].id == id && attempts[k + 1].taken;
    }
    if TakenIn(attempts, id) && !(attempts[0].id == id && attempts[0].taken) {
      var k :| 0 <= k < |attempts| && attempts[k].id == id && attempts[k].taken;
      assert attempts[1..][k - 1] == attempts[k];
    }
  }

  lemma SupersededCons(l: Ledger, attempts: seq<Attempt>, l1: Ledger, id: nat)
    requires attempts != [] && Known(l, id) && |l1.entries| == |l.entries| && forall i :: Known(l, i) ==> At(l1, i).body == At(l, i).body
    ensures SupersededIn(l, [attempts[0]], id) ==> SupersededIn(l, attempts, id)
    ensures SupersededIn(l1, attempts[1..], id) ==> SupersededIn(l, attempts, id)
  {
    if SupersededIn(l1, attempts[1..], id) {
      var k :| 0 <= k < |attempts| - 1 && attempts[1..][k].taken && attempts[1..][k].id > id
        && Known(l1, attempts[1..][k].id) && IsWindowUpdate(At(l1, attempts[1..][k].id), At(l1, id).body.streamId);
      assert attempts[k + 1] == attempts[1..][k];
    }
  }

  lemma NoneWritten(l: Ledger, attempts: seq<Attempt>)
    requires forall k :: 0 <= k < |attempts| ==> !attempts[k].taken
    ensures Written(l, attempts, l)
  {
  }

  lemma {:induction false} BufferedWritten(l: Ledger, attempts: seq<Attempt>, l': Ledger)
    requires Sound(l) && BufferedWrites(l, attempts, l')
    ensures Written(l, attempts, l')
    decreases |attempts|
  {
    hide Written, Sound, Send;
    if SentCount(l) < |l.entries| && attempts[0].taken {
      NextIsUnsent(l);
      SendSound(l, attempts[0].id);
      SendWritten(l, attempts[0]);
      BufferedWritten(Send(l, attempts[0].id), attempts[1..], l');
      WrittenThen(l, attempts, Send(l, attempts[0].id), l');
    } else {
      NoneWritten(l, attempts);
    }
  }

  lemma NextIsUnsent(l: Ledger)
    requires SentCount(l) < |l.entries|
    ensures At(l, SentCount(l) + 1).status == Unsent
  {
  }

  lemma {:induction false} PendingWritten(l: Ledger, attempts: seq<Attempt>, l': Ledger)
    requires Sound(l) && PendingWrites(l, attempts, l')
    ensures Written(l, attempts, l')
    decreases |attempts|
  {
    hide Written, Send;
    if l.lostOrder != [] && attempts[0].taken {
      assert attempts[0].id in l.lostOrder;
      SendSound(l, attempts[0].id);
      SendWritten(l, attempts[0]);
      hide Sound;
      PendingWritten(Send(l, attempts[0].id), attempts[1..], l');
      WrittenThen(l, attempts, Send(l, attempts[0].id), l');
    } else {
      NoneWritten(l, attempts);
    }
  }

  /** What each call does to a frame there was before it. */
  lemma StatusAfter(l: Ledger, op: Op, attempts: seq<Attempt>, l': Ledger, id: nat)
    requires Sound(l) && Step(l, op, attempts, l') && Known(l, id)
    ensures Known(l', id) && At(l', id).body == At(l, id).body
    ensures match op
      case AckFrame(x) =>
        At(l', id).status == if x == id && (At(l, id).status == Sent || At(l, id).status == Lost) then Acked else At(l, id).status
      case LoseFrame(x) =>
        At(l', id).status == if x == id && At(l, id).status == Sent then Lost else At(l, id).status
      case Retransmit(_, _) => l' == l
      case _ =>
        if At(l', id).status == Acked then At(l, id).status == Acked || SupersededIn(l', attempts, id)
        else At(l, id).status != Acked && At(l', id).status == if TakenIn(attempts, id) then Sent else At(l, id).status
  {
    match op
    case WriteOrBuffer(body) => BufferedAfter(l, body, attempts, l', id);
    case WritePing =>
      if !HasBuffered(l) { BufferedAfter(l, Ping, attempts, l', id); }
    case CanWrite =>
      if l.lostOrder != [] { PendingWritten(l, attempts, l'); } else { BufferedWritten(l, attempts, l'); }
      SameBodies(l, l', attempts, id);
    case _ =>
  }

  lemma SameBodies(l: Ledger, l': Ledger, attempts: seq<Attempt>, id: nat)
    requires Known(l, id) && Written(l, attempts, l')
    ensures SupersededIn(l, attempts, id) ==> SupersededIn(l', attempts, id)
  {
  }

  lemma BufferedAfter(l: Ledger, body: Body, attempts: seq<Attempt>, l': Ledger, id: nat)
    requires Sound(l) && Known(l, id)
    requires if HasBuffered(l) then attempts == [] && l' == Buffer(l, body) else BufferedWrites(Buffer(l, body), attempts, l')
    ensures Known(l', id) && At(l', id).body == At(l, id).body
    ensures if At(l', id).status == Acked then At(l, id).status == Acked || SupersededIn(l', attempts, id)
      else At(l, id).status != Acked && At(l', id).status == if TakenIn(attempts, id) then Sent else At(l, id).status
  {
    if !HasBuffered(l) {
      BufferSound(l, body);
      BufferedWritten(Buffer(l, body), attempts, l');
      SameBodies(Buffer(l, body), l', attempts, id);
    }
  }

  /** A frame passed on gets the next id. */
  lemma FrameAdded(l: Ledger, body: Body, attempts: seq<Attempt>, l': Ledger)
    requires Sound(l) && Step(l, WriteOrBuffer(body), attempts, l')
    ensures |l'.entries| == |l.entries| + 1 && At(l', |l'.entries|).body == body
    ensures HasBuffered(l) ==> attempts == []
    ensures !HasBuffered(l) ==> |attempts| == 1 && attempts[0].id == |l'.entries| && attempts[0].body == body
  {
    BufferSound(l, body);
    if !HasBuffered(l) {
      var b := Buffer(l, body);
      BufferedWritten(b, attempts, l');
      assert attempts[0].id == |b.entries|;
      if attempts[0].taken {
        SendSound(b, attempts[0].id);
        assert |Send(b, attempts[0].id).entries| == |b.entries|;
        assert attempts[1..] == [];
      }
    }
  }

  // ---- the order of loss ----

  /** How many calls had been made when the frame was last not lost. */
  function LastNotLost(ledgers: seq<Ledger>, n: nat, id: nat): (k: nat)
    requires n < |ledgers|
    ensures k <= n
  {
    if n == 0 || !(Known(ledgers[n], id) && At(ledgers[n], id).status == Lost) then n else LastNotLost(ledgers, n - 1, id)
  }


  predicate Ascends(s: seq<nat>, rank: map<nat, int>) {
    && (forall i :: 0 <= i < |s| ==> s[i] in rank)
    && (forall i, j :: 0 <= i < j < |s| ==> rank[s[i]] < rank[s[j]])
  }

  lemma {:induction false} EraseAscends(s: seq<nat>, x: nat, rank: map<nat, int>)
    requires Ascends(s, rank)
    ensures Ascends(Erase(s, x), rank)
    ensures forall y :: y in Erase(s, x) ==> y in s
  {
    if s != [] {
      assert s == [s[0]] + s[1..];
      EraseAscends(s[1..], x, rank);
      var rest := Erase(s[1..], x);
      if s[0] != x {
        forall i | 0 <= i < |rest| ensures rank[s[0]] < rank[rest[i]] {
          assert rest[i] in s[1..];
        }
      }
    }
  }

  lemma SendAscends(l: Ledger, id: nat, rank: map<nat, int>)
    requires Known(l, id) && Ascends(l.lostOrder, rank)
    ensures Ascends(Send(l, id).lostOrder, rank) && forall x :: x in Send(l, id).lostOrder ==> x in l.lostOrder
  {
    var body := At(l, id).body;
    if body.WindowUpdate? {
      EraseAscends(l.lostOrder, OutstandingBelow(l, body.streamId, id), rank);
    }
    EraseAscends(Supersede(l, id).lostOrder, id, rank);
  }

  lemma {:induction false} BufferedAscends(l: Ledger, attempts: seq<Attempt>, l': Ledger, rank: map<nat, int>)
    requires BufferedWrites(l, attempts, l') && Ascends(l.lostOrder, rank)
    ensures Ascends(l'.lostOrder, rank) && forall x :: x in l'.lostOrder ==> x in l.lostOrder
    decreases |attempts|
  {
    hide Send, Ascends;
    if SentCount(l) < |l.entries| && attempts[0].taken {
      SendAscends(l, attempts[0].id, rank);
      BufferedAscends(Send(l, attempts[0].id), attempts[1..], l', rank);
    }
  }

  /** Frames are tried again in the order in which they are listed. */
  lemma {:induction false} PendingAscends(l: Ledger, attempts: seq<Attempt>, l': Ledger, rank: map<nat, int>)
    requires Sound(l) && PendingWrites(l, attempts, l') && Ascends(l.lostOrder, rank)
    ensures Ascends(l'.lostOrder, rank) && forall x :: x in l'.lostOrder ==> x in l.lostOrder
    ensures forall k :: 0 <= k < |attempts| ==> attempts[k].id in l.lostOrder
    ensures forall j, k :: 0 <= j < k < |attempts| ==> rank[attempts[j].id] < rank[attempts[k].id]
    decreases |attempts|
  {
    if l.lostOrder != [] {
      var id := l.lostOrder[0];
      assert id in l.lostOrder;
      assert id in rank;
      hide Send, Ascends, Sound;
      StatusByCount(l, id);
      if attempts[0].taken {
        SendSound(l, id);
        SendAscends(l, id, rank);
        PendingAscends(Send(l, id), attempts[1..], l', rank);
        SentNotListed(l, id);
        forall k | 0 < k < |attempts| ensures attempts[k].id in l.lostOrder && rank[id] < rank[attempts[k].id] {
          assert attempts[1..][k - 1] == attempts[k];
          FirstIsLeast(l.lostOrder, attempts[k].id, rank);
        }
        forall j, k | 0 < j < k < |attempts| ensures rank[attempts[j].id] < rank[attempts[k].id] {
          assert attempts[1..][j - 1] == attempts[j] && attempts[1..][k - 1] == attempts[k];
        }
      }
    }
  }

  lemma SentNotListed(l: Ledger, id: nat)
    requires Sound(l) && Known(l, id)
    ensures id !in Send(l, id).lostOrder
  {
    SupersedeSound(l, id);
    EraseDistinct(Supersede(l, id).lostOrder, id);
  }

  lemma FirstIsLeast(s: seq<nat>, x: nat, rank: map<nat, int>)
    requires Ascends(s, rank) && x in s && x != s[0]
    ensures rank[s[0]] < rank[x]
  {
    var k :| 0 <= k < |s| && s[k] == x;
  }

  /** What a call leaves of the list of lost frames keeps its order, and a frame newly lost comes last. */
  lemma StepAscends(l: Ledger, op: Op, attempts: seq<Attempt>, l': Ledger, rank: map<nat, int>)
    requires Sound(l) && Step(l, op, attempts, l') && Ascends(l.lostOrder, rank)
    ensures forall i, j :: 0 <= i < j < |l'.lostOrder| ==>
      && l'.lostOrder[i] in l.lostOrder
      && (l'.lostOrder[j] in l.lostOrder ==> rank[l'.lostOrder[i]] < rank[l'.lostOrder[j]])
  {
    match op
    case WriteOrBuffer(body) =>
      if !HasBuffered(l) { BufferedAscends(Buffer(l, body), attempts, l', rank); }
    case WritePing =>
      if !HasBuffered(l) { BufferedAscends(Buffer(l, Ping), attempts, l', rank); }
    case AckFrame(id) => EraseAscends(l.lostOrder, id, rank);
    case LoseFrame(id) =>
    case CanWrite =>
      if l.lostOrder != [] { PendingAscends(l, attempts, l', rank); } else { BufferedAscends(l, attempts, l', rank); }
    case Retransmit(_, _) =>
  }

  function RankAt(ledgers: seq<Ledger>, n: nat): (rank: map<nat, int>)
    requires n < |ledgers|
  {
    map id | id in ledgers[n].lostOrder :: LastNotLost(ledgers, n, id) as int
  }

  /** In every run the lost frames are listed in the order in which they were lost. */
  lemma {:induction false} LostInOrder(ledgers: seq<Ledger>, calls: seq<Call>, n: nat)
    requires IsRun(ledgers, calls) && n <= |calls|
    ensures var lost := ledgers[n].lostOrder;
      forall i, j :: 0 <= i < j < |lost| ==> LastNotLost(ledgers, n, lost[i]) < LastNotLost(ledgers, n, lost[j])
  {
    if n > 0 {
      var l, l' := ledgers[n - 1], ledgers[n];
      LostInOrder(ledgers, calls, n - 1);
      RunSound(ledgers, calls, n - 1);
      RunSound(ledgers, calls, n);
      var rank := RankAt(ledgers, n - 1);
      StepAscends(l, calls[n - 1].op, calls[n - 1].attempts, l', rank);
      hide Step;
      forall x | x in l'.lostOrder ensures LastNotLost(ledgers, n, x) == if x in l.lostOrder then rank[x] else n - 1 {
        ListedIsLost(l, x);
        ListedIsLost(l', x);
      }
      forall x | x in l.lostOrder ensures rank[x] < n - 1 {
        ListedIsLost(l, x);
      }
    }
  }

  lemma ListedIsLost(l: Ledger, id: nat)
    requires Sound(l)
    ensures id in l.lostOrder <==> Known(l, id) && At(l, id).status == Lost
  {
  }

  /** That place in the run is where the frame was reported lost. */
  lemma {:induction false} LostByCall(ledgers: seq<Ledger>, calls: seq<Call>, n: nat, id: nat)
    requires IsRun(ledgers, calls) && n <= |calls| && id in ledgers[n].lostOrder
    ensures var k := LastNotLost(ledgers, n, id); k < n && calls[k].op == LoseFrame(id)
  {
    RunSound(ledgers, calls, n);
    ListedIsLost(ledgers[n], id);
    if n > 0 {
      RunSound(ledgers, calls, n - 1);
      ListedIsLost(ledgers[n - 1], id);
      if id in ledgers[n - 1].lostOrder {
        LostByCall(ledgers, calls, n - 1, id);
      } else {
        BecameLost(ledgers[n - 1], calls[n - 1].op, calls[n - 1].attempts, ledgers[n], id);
      }
    }
  }

  lemma BecameLost(l: Ledger, op: Op, attempts: seq<Attempt>, l': Ledger, id: nat)
    requires Sound(l) && Step(l, op, attempts, l')
    requires Known(l', id) && At(l', id).status == Lost && !(Known(l, id) && At(l, id).status == Lost)
    ensures op == LoseFrame(id)
  {
    hide Step;
    if Known(l, id) {
      StatusAfter(l, op, attempts, l', id);
    } else {
      NewIsNotLost(l, op, attempts, l', id);
    }
  }

  lemma NewIsNotLost(l: Ledger, op: Op, attempts: seq<Attempt>, l': Ledger, id: nat)
    requires Sound(l) && Step(l, op, attempts, l') && Known(l', id) && !Known(l, id)
    ensures At(l', id).status != Lost
  {
    match op
    case WriteOrBuffer(body) =>
      BufferSound(l, body);
      if !HasBuffered(l) { BufferedWritten(Buffer(l, body), attempts, l'); }
    case WritePing =>
      BufferSound(l, Ping);
      if !HasBuffered(l) { BufferedWritten(Buffer(l, Ping), attempts, l'); }
    case CanWrite =>
      if l.lostOrder != [] { PendingWritten(l, attempts, l'); } else { BufferedWritten(l, attempts, l'); }
    case _ =>
  }

  /** Writing goes on until a frame is refused or nothing is left to write. */
  predicate UntilRefused(attempts: seq<Attempt>, done: bool) {
    && (forall k :: 0 <= k < |attempts| - 1 ==> attempts[k].taken)
    && (done || (attempts != [] && !attempts[|attempts| - 1].taken))
  }

  lemma {:induction false} PendingUntilRefused(l: Ledger, attempts: seq<Attempt>, l': Ledger)
    requires Sound(l) && PendingWrites(l, attempts, l')
    ensures UntilRefused(attempts, l'.lostOrder == [])
    decreases |attempts|
  {
    if l.lostOrder != [] && attempts[0].taken {
      assert attempts[0].id in l.lostOrder;
      SendSound(l, attempts[0].id);
      PendingUntilRefused(Send(l, attempts[0].id), attempts[1..], l');
      forall k | 0 <= k < |attempts| - 1 ensures attempts[k].taken {
        assert k > 0 ==> attempts[1..][k - 1] == attempts[k];
      }
      assert |attempts| > 1 ==> attempts[1..][|attempts| - 2] == attempts[|attempts| - 1];
    }
  }

  /** Buffered frames are tried in the order of their ids. */
  lemma {:induction false} BufferedUntilRefused(l: Ledger, attempts: seq<Attempt>, l': Ledger)
    requires Sound(l) && BufferedWrites(l, attempts, l')
    ensures UntilRefused(attempts, !HasBuffered(l'))
    ensures forall k :: 0 <= k < |attempts| ==> attempts[k].id == SentCount(l) + 1 + k
    decreases |attempts|
  {
    hide Send, Sound;
    if SentCount(l) < |l.entries| && attempts[0].taken {
      SendSound(l, attempts[0].id);
      BufferedUntilRefused(Send(l, attempts[0].id), attempts[1..], l');
      forall k | 0 <= k < |attempts| ensures attempts[k].id == SentCount(l) + 1 + k && (k < |attempts| - 1 ==> attempts[k].taken) {
        assert k > 0 ==> attempts[1..][k - 1] == attempts[k];
      }
      assert |attempts| > 1 ==> attempts[1..][|attempts| - 2] == attempts[|attempts| - 1];
    }
  }

  /** With no lost frame, OnCanWrite tries the buffered ones, from the first not yet sent. */
  lemma WrittenInOrder(ledgers: seq<Ledger>, calls: seq<Call>, n: nat)
    requires IsRun(ledgers, calls) && n < |calls| && calls[n].op == CanWrite && ledgers[n].lostOrder == []
    ensures UntilRefused(calls[n].attempts, !HasBuffered(ledgers[n + 1]))
    ensures forall k :: 0 <= k < |calls[n].attempts| ==> calls[n].attempts[k].id == SentCount(ledgers[n]) + 1 + k
  {
    RunSound(ledgers, calls, n);
    assert Step(ledgers[n], calls[n].op, calls[n].attempts, ledgers[n + 1]);
    BufferedUntilRefused(ledgers[n], calls[n].attempts, ledgers[n + 1]);
  }

  /** When there are lost frames, OnCanWrite tries these and no others, the one lost first before the
      others. */
  lemma RetriedInOrder(ledgers: seq<Ledger>, calls: seq<Call>, n: nat)
    requires IsRun(ledgers, calls) && n < |calls| && calls[n].op == CanWrite && ledgers[n].lostOrder != []
    ensures var a := calls[n].attempts;
      && a != [] && UntilRefused(a, ledgers[n + 1].lostOrder == [])
      && (forall k :: 0 <= k < |a| ==> Known(ledgers[n], a[k].id) && At(ledgers[n], a[k].id).status == Lost)
      && (forall j, k :: 0 <= j < k < |a| ==> LastNotLost(ledgers, n, a[j].id) < LastNotLost(ledgers, n, a[k].id))
  {
    RunSound(ledgers, calls, n);
    LostInOrder(ledgers, calls, n);
    var rank := RankAt(ledgers, n);
    assert Step(ledgers[n], calls[n].op, calls[n].attempts, ledgers[n + 1]);
    PendingAscends(ledgers[n], calls[n].attempts, ledgers[n + 1], rank);
    PendingUntilRefused(ledgers[n], calls[n].attempts, ledgers[n + 1]);
  }
}
