/** The alarms of the epoll server: a multimap ordered by time, and a round of callbacks that
    re-register themselves, and register and cancel others, while the map is walked. */
module EpollAlarms {
  import opened Wrappers
  import opened EpollRounds

  datatype Alarm = Alarm(time: int, cb: int)

  predicate Sorted(m: seq<Alarm>) {
    forall i, j :: 0 <= i < j < |m| ==> m[i].time <= m[j].time
  }

  /** Each callback is in the map at most once, so it stands for the iterator that points at it. */
  predicate DistinctCallbacks(m: seq<Alarm>) {
    forall i, j :: 0 <= i < j < |m| ==> m[i].cb != m[j].cb
  }

  predicate Has(m: seq<Alarm>, cb: int) {
    exists i :: 0 <= i < |m| && m[i].cb == cb
  }

  function IndexOf(m: seq<Alarm>, cb: int): (i: nat)
    requires Has(m, cb)
    ensures i < |m| && m[i].cb == cb
  {
    if m[0].cb == cb then 0 else
      assert exists i :: 0 <= i < |m| - 1 && m[1..][i].cb == cb by {
        var i :| 0 <= i < |m| && m[i].cb == cb;
        assert m[1..][i - 1].cb == cb;
      }
      1 + IndexOf(m[1..], cb)
  }

  /** Where an entry with this time is inserted: after every entry that is not later. */
  function UpperBound(m: seq<Alarm>, time: int): (p: nat)
    requires Sorted(m)
    ensures p <= |m|
    ensures forall i :: 0 <= i < p ==> m[i].time <= time
    ensures forall i :: p <= i < |m| ==> m[i].time > time
  {
    if m == [] || m[0].time > time then 0 else
      var p := UpperBound(m[1..], time);
      assert forall i :: 1 <= i < |m| ==> m[i] == m[1..][i - 1];
      1 + p
  }

  function Inserted(m: seq<Alarm>, p: nat, a: Alarm): seq<Alarm>
    requires p <= |m|
  {
    m[..p] + [a] + m[p..]
  }

  /** The callbacks in s that a round at the given time still has to run, in order. */
  function Waiting(s: seq<Alarm>, now: int, skip: set<int>): seq<int> {
    if s == [] then [] else
      (if s[0].time <= now && s[0].cb !in skip then [s[0].cb] else []) + Waiting(s[1..], now, skip)
  }

  lemma {:induction false} WaitingHas(s: seq<Alarm>, now: int, skip: set<int>, cb: int)
    ensures cb in Waiting(s, now, skip) <==> exists i :: 0 <= i < |s| && s[i].cb == cb && s[i].time <= now && cb !in skip
  {
    if s != [] {
      WaitingHas(s[1..], now, skip, cb);
      assert forall i :: 1 <= i < |s| ==> s[i] == s[1..][i - 1];
      if cb in Waiting(s[1..], now, skip) {
        var i :| 0 <= i < |s| - 1 && s[1..][i].cb == cb && s[1..][i].time <= now && cb !in skip;
        assert s[i + 1].cb == cb;
      }
      if i :| 0 <= i < |s| && s[i].cb == cb && s[i].time <= now && cb !in skip {
        if i > 0 {
          assert s[1..][i - 1].cb == cb;
        }
      }
    }
  }

  lemma DistinctTail(s: seq<Alarm>)
    requires DistinctCallbacks(s) && s != []
    ensures DistinctCallbacks(s[1..]) && !Has(s[1..], s[0].cb)
  {
    assert forall i :: 0 <= i < |s| - 1 ==> s[1..][i] == s[i + 1];
  }

  lemma {:induction false} WaitingErased(s: seq<Alarm>, q: nat, now: int, skip: set<int>)
    requires q < |s| && DistinctCallbacks(s)
    ensures Waiting(Cut(s, q), now, skip) == Without(Waiting(s, now, skip), s[q].cb)
  {
    hide DistinctCallbacks, Cut, Without;
    var cb := s[q].cb;
    var tail := Waiting(s[1..], now, skip);
    var head := if s[0].time <= now && s[0].cb !in skip then [s[0].cb] else [];
    assert Waiting(s, now, skip) == head + tail;
    if q == 0 {
      DistinctTail(s);
      CutFirst(s);
      NotWaitingFor(s[1..], now, skip, cb);
      WithoutAbsent(tail, cb);
      WithoutFirst(cb, tail);
      assert [] + tail == tail;
    } else {
      DistinctTail(s);
      DistinctFirst(s, q);
      WaitingErased(s[1..], q - 1, now, skip);
      CutTail(s, q);
      WaitingCons(s[0], Cut(s[1..], q - 1), now, skip);
      WithoutOther(s[0].cb, tail, cb);
      assert [] + tail == tail;
    }
  }

  lemma WaitingCons(a: Alarm, s: seq<Alarm>, now: int, skip: set<int>)
    ensures Waiting([a] + s, now, skip) == (if a.time <= now && a.cb !in skip then [a.cb] else []) + Waiting(s, now, skip)
  {
    assert ([a] + s)[1..] == s;
  }

  lemma NotWaitingFor(s: seq<Alarm>, now: int, skip: set<int>, cb: int)
    requires !Has(s, cb)
    ensures cb !in Waiting(s, now, skip)
  {
    WaitingHas(s, now, skip, cb);
  }

  lemma DistinctFirst(s: seq<Alarm>, q: nat)
    requires 0 < q < |s| && DistinctCallbacks(s)
    ensures s[0].cb != s[q].cb
  {
  }

  lemma WithoutFirst(x: int, s: seq<int>)
    ensures Without([x] + s, x) == Without(s, x)
  {
    assert ([x] + s)[1..] == s;
  }

  lemma WithoutOther(x: int, s: seq<int>, y: int)
    requires x != y
    ensures Without([x] + s, y) == [x] + Without(s, y)
  {
    assert ([x] + s)[1..] == s;
  }

  lemma {:induction false} WaitingInserted(s: seq<Alarm>, q: nat, a: Alarm, now: int, skip: set<int>)
    requires q <= |s| && (a.time > now || a.cb in skip)
    ensures Waiting(Inserted(s, q, a), now, skip) == Waiting(s, now, skip)
  {
    if q == 0 {
      assert Inserted(s, 0, a)[1..] == s;
    } else {
      WaitingInserted(s[1..], q - 1, a, now, skip);
      assert Inserted(s, q, a)[1..] == Inserted(s[1..], q - 1, a);
    }
  }

  lemma {:induction false} WaitingSkipMore(s: seq<Alarm>, now: int, skip: set<int>, cb: int)
    requires !Has(s, cb)
    ensures Waiting(s, now, skip + {cb}) == Waiting(s, now, skip)
  {
    if s != [] {
      forall i | 0 <= i < |s| - 1 ensures s[1..][i].cb != cb {
        assert s[i + 1].cb != cb;
      }
      WaitingSkipMore(s[1..], now, skip, cb);
    }
  }

  lemma {:induction false} WaitingNone(s: seq<Alarm>, now: int, skip: set<int>)
    requires Sorted(s) && (s == [] || s[0].time > now)
    ensures Waiting(s, now, skip) == []
  {
    if s != [] {
      WaitingNone(s[1..], now, skip);
    }
  }

  lemma {:induction false} WaitingUnique(s: seq<Alarm>, now: int, skip: set<int>)
    requires DistinctCallbacks(s)
    ensures Unique(Waiting(s, now, skip))
  {
    if s != [] {
      WaitingUnique(s[1..], now, skip);
      WaitingHas(s[1..], now, skip, s[0].cb);
    }
  }

  lemma InsertedAt(m: seq<Alarm>, p: nat, a: Alarm)
    requires p <= |m|
    ensures var m' := Inserted(m, p, a);
      |m'| == |m| + 1 && m'[p] == a
      && (forall k :: 0 <= k < p ==> m'[k] == m[k])
      && (forall k :: p < k <= |m| ==> m'[k] == m[k - 1])
  {
  }

  lemma InsertedHas(m: seq<Alarm>, p: nat, a: Alarm)
    requires p <= |m|
    ensures forall e :: e in Inserted(m, p, a) <==> e in m || e == a
    ensures forall cb :: Has(Inserted(m, p, a), cb) <==> Has(m, cb) || cb == a.cb
  {
    hide Inserted;
    InsertedAt(m, p, a);
    var m' := Inserted(m, p, a);
    forall e | e in m ensures e in m' {
      var k :| 0 <= k < |m| && m[k] == e;
      assert m'[if k < p then k else k + 1] == e;
    }
    forall cb ensures Has(m', cb) <==> Has(m, cb) || cb == a.cb {
      if k :| 0 <= k < |m| && m[k].cb == cb {
        assert m'[if k < p then k else k + 1].cb == cb;
      }
      if k :| 0 <= k < |m'| && m'[k].cb == cb && k != p {
        assert m[if k < p then k else k - 1].cb == cb;
      }
    }
  }

  lemma InsertedOrdered(m: seq<Alarm>, a: Alarm)
    requires Sorted(m) && DistinctCallbacks(m) && !Has(m, a.cb)
    ensures Sorted(Inserted(m, UpperBound(m, a.time), a)) && DistinctCallbacks(Inserted(m, UpperBound(m, a.time), a))
  {
    hide Inserted;
    var p := UpperBound(m, a.time);
    InsertedAt(m, p, a);
    var m' := Inserted(m, p, a);
    assert forall k :: 0 <= k < |m| ==> m[k].cb != a.cb;
  }

  lemma PassedErased(m: seq<Alarm>, p: nat, now: int, skip: set<int>)
    requires p < |m| && Passed(m, p, now, skip)
    ensures p <= |Cut(m, p)| && Passed(Cut(m, p), p, now, skip)
  {
    hide Cut;
    CutAt(m, p);
  }

  lemma ErasedHas(m: seq<Alarm>, p: nat)
    requires DistinctCallbacks(m) && p < |m|
    ensures forall e :: e in Cut(m, p) <==> e in m && e.cb != m[p].cb
    ensures forall cb :: Has(Cut(m, p), cb) <==> Has(m, cb) && cb != m[p].cb
  {
    hide Cut;
    CutAt(m, p);
    var m' := Cut(m, p);
    forall e ensures e in m' <==> e in m && e.cb != m[p].cb {
      if e in m && e.cb != m[p].cb {
        var k :| 0 <= k < |m| && m[k] == e;
        assert m'[if k < p then k else k - 1] == e;
      }
    }
    forall cb ensures Has(m', cb) <==> Has(m, cb) && cb != m[p].cb {
      if k :| 0 <= k < |m| && m[k].cb == cb && k != p {
        assert m'[if k < p then k else k - 1].cb == cb;
      }
      if k :| 0 <= k < |m'| && m'[k].cb == cb {
        assert m[if k < p then k else k + 1].cb == cb;
      }
    }
  }

  lemma ErasedOrdered(m: seq<Alarm>, p: nat)
    requires Sorted(m) && DistinctCallbacks(m) && p < |m|
    ensures Sorted(Cut(m, p)) && DistinctCallbacks(Cut(m, p))
  {
    hide Cut;
    CutAt(m, p);
  }

  /** Every entry before the iterator that is due was re-registered in this round. */
  predicate Passed(m: seq<Alarm>, i: nat, now: int, skip: set<int>) {
    i <= |m| && forall j :: 0 <= j < i && m[j].time <= now ==> m[j].cb in skip
  }

  lemma ErasedBefore(m: seq<Alarm>, i: nat, p: nat, now: int, skip: set<int>)
    requires p < i < |m| && DistinctCallbacks(m) && Passed(m, i, now, skip)
    ensures Cut(m, p)[i - 1] == m[i] && Passed(Cut(m, p), i - 1, now, skip)
    ensures Waiting(Cut(m, p)[i..], now, skip) == Without(Waiting(m[i + 1..], now, skip), m[p].cb)
  {
    var m', rest := Cut(m, p), m[i + 1..];
    assert m'[i..] == rest;
    assert forall k :: 0 <= k < i - 1 ==> m'[k] == m[if k < p then k else k + 1];
    forall k | 0 <= k < |rest| ensures rest[k].cb != m[p].cb {
      assert rest[k] == m[i + 1 + k];
    }
    WaitingHas(rest, now, skip, m[p].cb);
    WithoutAbsent(Waiting(rest, now, skip), m[p].cb);
  }

  lemma ErasedAfter(m: seq<Alarm>, i: nat, p: nat, now: int, skip: set<int>)
    requires i < p < |m| && DistinctCallbacks(m) && Passed(m, i, now, skip)
    ensures Cut(m, p)[i] == m[i] && Passed(Cut(m, p), i, now, skip)
    ensures Waiting(Cut(m, p)[i + 1..], now, skip) == Without(Waiting(m[i + 1..], now, skip), m[p].cb)
  {
    hide Waiting, Without;
    var rest := m[i + 1..];
    assert Cut(m, p)[i + 1..] == Cut(rest, p - i - 1);
    assert forall k :: 0 <= k < |rest| ==> rest[k] == m[i + 1 + k];
    WaitingErased(rest, p - i - 1, now, skip);
  }

  /** Another entry is erased while the iterator stands on entry i; it now stands on entry i'. */
  lemma ErasedAround(m: seq<Alarm>, i: nat, p: nat, now: int, skip: set<int>) returns (i': nat)
    requires i < |m| && p < |m| && p != i && DistinctCallbacks(m) && Passed(m, i, now, skip)
    ensures i' < |m| - 1 && |Cut(m, p)| == |m| - 1
    ensures Cut(m, p)[i'] == m[i] && Passed(Cut(m, p), i', now, skip)
    ensures Waiting(Cut(m, p)[i' + 1..], now, skip) == Without(Waiting(m[i + 1..], now, skip), m[p].cb)
  {
    if p < i {
      ErasedBefore(m, i, p, now, skip);
      i' := i - 1;
    } else {
      ErasedAfter(m, i, p, now, skip);
      i' := i;
    }
  }

  /** A later entry is inserted while the iterator stands on entry i, which is due. */
  lemma InsertedLater(m: seq<Alarm>, i: nat, a: Alarm, now: int, skip: set<int>)
    requires i < |m| && Sorted(m) && m[i].time <= now < a.time && Passed(m, i, now, skip)
    ensures var m' := Inserted(m, UpperBound(m, a.time), a);
      && m'[i] == m[i] && Passed(m', i, now, skip)
      && Waiting(m'[i + 1..], now, skip) == Waiting(m[i + 1..], now, skip)
  {
    var p := UpperBound(m, a.time);
    assert p > i;
    var rest := m[i + 1..];
    assert Inserted(m, p, a)[i + 1..] == Inserted(rest, p - i - 1, a);
    WaitingInserted(rest, p - i - 1, a, now, skip);
  }

  /** The entry just run is inserted again; the iterator, before entry i, stays where it was. */
  function Shifted(m: seq<Alarm>, i: nat, a: Alarm): nat
    requires Sorted(m)
  {
    if UpperBound(m, a.time) <= i then i + 1 else i
  }

  lemma InsertedBehind(m: seq<Alarm>, i: nat, p: nat, a: Alarm, now: int, skip: set<int>)
    requires p <= i && Passed(m, i, now, skip) && (a.time > now || a.cb in skip)
    ensures Passed(Inserted(m, p, a), i + 1, now, skip) && Inserted(m, p, a)[i + 1..] == m[i..]
  {
    hide Inserted;
    InsertedAt(m, p, a);
    var m' := Inserted(m, p, a);
    forall j | 0 <= j < i + 1 && m'[j].time <= now ensures m'[j].cb in skip {
      assert j != p ==> m'[j] == m[if j < p then j else j - 1];
    }
  }

  lemma InsertedAhead(m: seq<Alarm>, i: nat, p: nat, a: Alarm, now: int, skip: set<int>)
    requires i < p <= |m| && Passed(m, i, now, skip)
    ensures Passed(Inserted(m, p, a), i, now, skip) && Inserted(m, p, a)[i..] == Inserted(m[i..], p - i, a)
  {
  }

  lemma InsertedAgain(m: seq<Alarm>, i: nat, a: Alarm, now: int, skip: set<int>)
    requires Sorted(m) && Passed(m, i, now, skip) && (a.time > now || a.cb in skip)
    ensures var m' := Inserted(m, UpperBound(m, a.time), a);
      && Passed(m', Shifted(m, i, a), now, skip)
      && Waiting(m'[Shifted(m, i, a)..], now, skip) == Waiting(m[i..], now, skip)
  {
    hide Waiting, Inserted, Passed;
    var p := UpperBound(m, a.time);
    assert i <= |m| by { PassedBound(m, i, now, skip); }
    if p <= i {
      InsertedBehind(m, i, p, a, now, skip);
    } else {
      InsertedAhead(m, i, p, a, now, skip);
      WaitingInserted(m[i..], p - i, a, now, skip);
    }
  }

  lemma PassedBound(m: seq<Alarm>, i: nat, now: int, skip: set<int>)
    requires Passed(m, i, now, skip)
    ensures i <= |m|
  {
  }

  /** The calls OnAlarm can make: it may cancel any other alarm, and set any other that is not set,
      for later than the time of the round. */
  datatype Request = Cancel(other: int) | SetLater(other: int, time: int)

  /** What OnAlarm does when it is run: any calls, and any time to be called again. */
  datatype Reaction = Reaction(calls: seq<Request>, newTime: int)

  predicate AsksAgain(newTime: int) {
    newTime > 0
  }

  /** The callback was run, or its alarm was cancelled. */
  predicate Ends(e: Entry<int>, cb: int) {
    (e.Called? || e.Dropped?) && e.fd == cb
  }

  /** Callbacks that asked for a time are set for that time, unless they were run or cancelled since. */
  ghost predicate AsAsked(m: seq<Alarm>, start: nat, log: seq<Entry<int>>) {
    forall j :: start <= j < |log| && log[j].Returned? && log[j].details > 0 && (forall k :: j < k < |log| ==> !Ends(log[k], log[j].fd)) ==>
      Alarm(log[j].details, log[j].fd) in m
  }

  lemma AsAskedMore(before: seq<Alarm>, after: seq<Alarm>, start: nat, log: seq<Entry<int>>, log1: seq<Entry<int>>)
    requires log <= log1 && start <= |log| && AsAsked(before, start, log) && AsAsked(after, |log|, log1) && KeptAs(before, after, log, log1)
    ensures AsAsked(after, start, log1)
  {
    hide Ends;
    forall j | start <= j < |log| && log1[j].Returned? && log1[j].details > 0 && (forall k :: j < k < |log1| ==> !Ends(log1[k], log1[j].fd))
      ensures Alarm(log1[j].details, log1[j].fd) in after
    {
      assert forall k :: j < k < |log| ==> log[k] == log1[k];
      assert Alarm(log[j].details, log[j].fd) in before;
    }
  }

  class SimpleEpollServer {
    var alarmMap: seq<Alarm>
    var allAlarms: set<int>
    var skip: set<int>
    /** What callbacks do, one run after the other, and how many there have been. */
    const reactions: nat -> Reaction
    var turns: nat
    ghost var log: seq<Entry<int>>
    ghost var again: seq<int>

    /** The map is in order, and the callbacks known to be set are those in it, but for those running. */
    ghost predicate Consistent(running: set<int>)
      reads `alarmMap, `allAlarms
    {
      && Sorted(alarmMap) && DistinctCallbacks(alarmMap)
      && forall cb :: cb in allAlarms <==> Has(alarmMap, cb) && cb !in running
    }

    constructor (reactions: nat -> Reaction)
      ensures Consistent({}) && alarmMap == [] && skip == {} && log == [] && this.reactions == reactions && turns == 0
    {
      this.reactions, turns := reactions, 0;
      alarmMap, allAlarms, skip, log, again := [], {}, {}, [], [];
    }

    /** Inserts after every entry that is not later. */
    method RegisterAlarm(time: int, cb: int, ghost running: set<int>)
      requires Consistent(running) && cb !in allAlarms + running
      modifies `alarmMap, `allAlarms
      ensures Consistent(running) && allAlarms == old(allAlarms) + {cb}
      ensures alarmMap == Inserted(old(alarmMap), UpperBound(old(alarmMap), time), Alarm(time, cb))
    {
      InsertedOrdered(alarmMap, Alarm(time, cb));
      InsertedHas(alarmMap, UpperBound(alarmMap, time), Alarm(time, cb));
      alarmMap := Inserted(alarmMap, UpperBound(alarmMap, time), Alarm(time, cb));
      allAlarms := allAlarms + {cb};
    }

    method UnregisterAlarm(token: int, ghost running: set<int>)
      requires Consistent(running) && token in allAlarms
      modifies `alarmMap, `allAlarms
      ensures Consistent(running) && allAlarms == old(allAlarms) - {token}
      ensures alarmMap == Cut(old(alarmMap), IndexOf(old(alarmMap), token))
    {
      var p := IndexOf(alarmMap, token);
      ErasedOrdered(alarmMap, p);
      ErasedHas(alarmMap, p);
      alarmMap := Cut(alarmMap, p);
      allAlarms := allAlarms - {token};
    }

    /** Moves an alarm; every other alarm keeps its time, and the alarms set are the same. */
    method ReregisterAlarm(token: int, time: int)
      requires Consistent({}) && token in allAlarms
      modifies `alarmMap
      ensures Consistent({})
      ensures forall e :: e in alarmMap <==> e == Alarm(time, token) || (e in old(alarmMap) && e.cb != token)
      ensures var rest := Cut(old(alarmMap), IndexOf(old(alarmMap), token));
        Sorted(rest) && alarmMap == Inserted(rest, UpperBound(rest, time), Alarm(time, token))
    {
      var p := IndexOf(alarmMap, token);
      ErasedOrdered(alarmMap, p);
      ErasedHas(alarmMap, p);
      alarmMap := Cut(alarmMap, p);
      InsertedOrdered(alarmMap, Alarm(time, token));
      InsertedHas(alarmMap, UpperBound(alarmMap, time), Alarm(time, token));
      alarmMap := Inserted(alarmMap, UpperBound(alarmMap, time), Alarm(time, token));
    }

    /** What has been registered in this round and is still set, and what the walk has yet to run. */
    ghost function View(i: nat, now: int): Lists
      requires i <= |alarmMap|
      reads `alarmMap, `skip, `again
    {
      Lists(again, Waiting(alarmMap[i..], now, skip))
    }

    /** The iterator is before entry i; the callbacks in running are not known to be set. */
    ghost predicate Walking(i: nat, now: int, running: set<int>)
      reads `alarmMap, `allAlarms, `skip, `again
    {
      && Consistent(running)
      && Passed(alarmMap, i, now, skip)
      && (forall cb :: cb in again ==> cb in allAlarms)
      && (forall cb :: cb in skip && Has(alarmMap, cb) ==> cb in again)
      && (forall e :: e in alarmMap && e.cb in again && e.time <= now ==> e.cb in skip)
    }

    /** The iterator is at entry i, whose callback is being run. */
    ghost predicate Running(i: nat, now: int, cb: int)
      reads `alarmMap, `allAlarms, `skip, `again
    {
      Walking(i, now, {cb}) && i < |alarmMap| && alarmMap[i].cb == cb && alarmMap[i].time <= now
    }

    /** The log has grown by entries that lead from one view to another. */
    ghost predicate Told(view: Lists, start: seq<Entry<int>>, view1: Lists)
      reads `log
    {
      start <= log && Replay(view, log[|start|..]) == Some(view1)
    }

    lemma ToldNothing(view: Lists)
      ensures Told(view, log, view)
    {
      assert log[|log|..] == [];
    }

    lemma ToldOne(view: Lists, start: seq<Entry<int>>, view1: Lists)
      requires |log| == |start| + 1 && start <= log && Next(view, log[|start|]) == Some(view1)
      ensures Told(view, start, view1)
    {
      var entries := log[|start|..];
      assert entries[..0] == [] && entries[0] == log[|start|];
      assert Replay(view, entries[..0]) == Some(view);
    }

    lemma ToldMore(view: Lists, start: seq<Entry<int>>, view1: Lists, start1: seq<Entry<int>>, view2: Lists)
      requires start <= start1 && Replay(view, start1[|start|..]) == Some(view1)
      requires Told(view1, start1, view2)
      ensures Told(view, start, view2)
    {
      ReplayAppend(view, start1[|start|..], log[|start1|..]);
      assert log[|start|..] == start1[|start|..] + log[|start1|..];
    }

    /** An alarm that nothing in the log is about is still set for the same time. */
    ghost predicate Kept(before: seq<Alarm>, start: seq<Entry<int>>)
      reads `alarmMap, `log
    {
      KeptAs(before, alarmMap, start, log)
    }

    lemma KeptMore(before: seq<Alarm>, start: seq<Entry<int>>, between: seq<Alarm>, start1: seq<Entry<int>>)
      requires KeptAs(before, between, start, start1) && Kept(between, start1)
      requires start <= start1 <= log
      ensures Kept(before, start)
    {
      forall e | e in before ensures e in alarmMap || exists j :: |start| <= j < |log| && Ends(log[j], e.cb) {
        if e !in between {
          var j :| |start| <= j < |start1| && Ends(start1[j], e.cb);
          assert Ends(log[j], e.cb);
        }
      }
    }

    lemma NotWaiting(i: nat, now: int, other: int, running: set<int>)
      requires Walking(i, now, running) && other !in allAlarms + running
      ensures !Listed(View(i, now), other) && (i < |alarmMap| ==> !Listed(View(i + 1, now), other))
    {
      hide Waiting, Passed;
      PassedBound(alarmMap, i, now, skip);
      forall k | i <= k < |alarmMap| ensures alarmMap[k].cb != other {
        assert Has(alarmMap, alarmMap[k].cb);
      }
      WaitingHas(alarmMap[i..], now, skip, other);
      if i < |alarmMap| {
        WaitingHas(alarmMap[i + 1..], now, skip, other);
      }
    }

    /** OnAlarm cancels another alarm; the iterator stays on its entry. */
    method Cancel(other: int, cb: int, now: int, ghost i: nat) returns (ghost i': nat)
      requires Running(i, now, cb) && other in allAlarms
      modifies `alarmMap, `allAlarms, `log, `again
      ensures Running(i', now, cb)
      ensures forall e :: e in old(alarmMap) ==> e in alarmMap || e.cb == other
      ensures log == old(log) + [Dropped(other)] && View(i' + 1, now) == Displaced(old(View(i + 1, now)), other)
    {
      hide Waiting, Without, Cut, Passed;
      i' := ErasedAround(alarmMap, i, IndexOf(alarmMap, other), now, skip);
      ErasedHas(alarmMap, IndexOf(alarmMap, other));
      UnregisterAlarm(other, {cb});
      again := Without(again, other);
      log := log + [Dropped(other)];
    }

    /** OnAlarm sets another alarm, for later than the time of the round. */
    method SetLater(other: int, time: int, cb: int, now: int, ghost i: nat)
      requires Running(i, now, cb) && other !in allAlarms && other != cb && time > now
      modifies `alarmMap, `allAlarms, `log, `again
      ensures Running(i, now, cb)
      ensures forall e :: e in old(alarmMap) ==> e in alarmMap
      ensures log == old(log) + [Readied(other)] && View(i + 1, now) == Placed(old(View(i + 1, now)), other)
    {
      hide Waiting, Without, Inserted, Passed, UpperBound, Sorted, DistinctCallbacks;
      InsertedAt(alarmMap, UpperBound(alarmMap, time), Alarm(time, other));
      InsertedHas(alarmMap, UpperBound(alarmMap, time), Alarm(time, other));
      InsertedLater(alarmMap, i, Alarm(time, other), now, skip);
      NotWaiting(i, now, other, {cb});
      RegisterAlarm(time, other, {cb});
      again := [other] + again;
      log := log + [Readied(other)];
    }

    /** One call made by OnAlarm. */
    method Obey(r: Request, cb: int, now: int, ghost i: nat) returns (ghost i': nat)
      requires Running(i, now, cb)
      modifies `alarmMap, `allAlarms, `log, `again
      ensures Running(i', now, cb)
      ensures Told(old(View(i + 1, now)), old(log), View(i' + 1, now))
      ensures Kept(old(alarmMap), old(log)) && |View(i' + 1, now).tmp| <= |old(View(i + 1, now)).tmp|
      ensures forall j :: |old(log)| <= j < |log| ==> Between(log[j])
    {
      hide SimpleEpollServer.View, SimpleEpollServer.Walking, Waiting, Without;
      i' := i;
      match r {
        case Cancel(other) =>
          if other in allAlarms {
            i' := Cancel(other, cb, now, i);
            ToldOne(old(View(i + 1, now)), old(log), View(i' + 1, now));
            return;
          }
        case SetLater(other, time) =>
          if other !in allAlarms && other != cb && time > now {
            SetLater(other, time, cb, now, i);
            ToldOne(old(View(i + 1, now)), old(log), View(i' + 1, now));
            return;
          }
      }
      ToldNothing(View(i + 1, now));
    }

    /** A callback: any calls it is allowed to make, and any time to be called again. */
    method OnAlarm(cb: int, now: int, ghost i: nat) returns (newTime: int, ghost i': nat)
      requires Running(i, now, cb)
      modifies `alarmMap, `allAlarms, `log, `again, `turns
      ensures Running(i', now, cb)
      ensures Told(old(View(i + 1, now)), old(log), View(i' + 1, now))
      ensures Kept(old(alarmMap), old(log)) && |View(i' + 1, now).tmp| <= |old(View(i + 1, now)).tmp|
      ensures forall j :: |old(log)| <= j < |log| ==> Between(log[j])
      ensures newTime == reactions(old(turns)).newTime && turns == old(turns) + 1
    {
      hide SimpleEpollServer.View, SimpleEpollServer.Walking, KeptAs, Replay;
      var reaction := reactions(turns);
      turns := turns + 1;
      var calls := reaction.calls;
      newTime := reaction.newTime;
      i' := i;
      ToldNothing(View(i + 1, now));
      KeptAll(alarmMap, log);
      for k := 0 to |calls|
        invariant Running(i', now, cb)
        invariant Told(old(View(i + 1, now)), old(log), View(i' + 1, now))
        invariant Kept(old(alarmMap), old(log)) && |View(i' + 1, now).tmp| <= |old(View(i + 1, now)).tmp|
        invariant forall j :: |old(log)| <= j < |log| ==> Between(log[j])
        invariant turns == old(turns) + 1
      {
        ghost var view, start, between := View(i' + 1, now), log, alarmMap;
        i' := Obey(calls[k], cb, now, i');
        ToldMore(old(View(i + 1, now)), old(log), view, start, View(i' + 1, now));
        KeptMore(old(alarmMap), old(log), between, start);
      }
    }

    /** Marks the alarm at entry i as being run. */
    method Begin(now: int, i: nat) returns (cb: int)
      requires Walking(i, now, {}) && i < |alarmMap| && alarmMap[i].time <= now && alarmMap[i].cb !in skip
      modifies `allAlarms, `log
      ensures cb == alarmMap[i].cb && Running(i, now, cb)
      ensures log == old(log) + [Called(cb, alarmMap[i].time)]
      ensures Next(old(View(i, now)), log[|old(log)|]) == Some(View(i + 1, now))
      ensures |View(i + 1, now).tmp| < |old(View(i, now)).tmp|
    {
      hide Passed;
      cb := alarmMap[i].cb;
      assert alarmMap[i] in alarmMap;
      PassedBound(alarmMap, i, now, skip);
      assert alarmMap[i..][1..] == alarmMap[i + 1..];
      allAlarms := allAlarms - {cb};
      log := log + [Called(cb, alarmMap[i].time)];
    }

    lemma RunEntry(at: nat, now: int, cb: int)
      requires Running(at, now, cb)
      ensures Has(alarmMap, cb) && IndexOf(alarmMap, cb) == at
    {
      hide IndexOf, Sorted, Passed;
      assert alarmMap[at].cb == cb;
    }

    /** Takes out the entry just run. */
    method EraseRun(now: int, cb: int, ghost at: nat) returns (i: nat)
      requires Running(at, now, cb)
      modifies `alarmMap
      ensures i <= |alarmMap| && Walking(i, now, {}) && !Has(alarmMap, cb) && View(i, now) == old(View(at + 1, now))
      ensures forall e :: e in old(alarmMap) ==> e in alarmMap || e.cb == cb
    {
      hide Waiting, Cut, IndexOf, Sorted, Has, Passed;
      RunEntry(at, now, cb);
      i := IndexOf(alarmMap, cb);
      PassedErased(alarmMap, i, now, skip);
      ErasedOrdered(alarmMap, i);
      ErasedHas(alarmMap, i);
      CutRest(alarmMap, i);
      alarmMap := Cut(alarmMap, i);
    }

    /** Registers the alarm just run again; the walk skips it if it is already due. */
    method Rearm(newTime: int, now: int, cb: int, i: nat) returns (i': nat)
      requires Walking(i, now, {}) && !Has(alarmMap, cb)
      modifies `alarmMap, `allAlarms, `skip, `log, `again
      ensures i' <= |alarmMap| && Walking(i', now, {}) && View(i', now) == Placed(old(View(i, now)), cb)
      ensures Alarm(newTime, cb) in alarmMap && forall e :: e in old(alarmMap) ==> e in alarmMap
      ensures log == old(log) + [Readied(cb)]
    {
      hide Waiting, Inserted, Passed;
      PassedBound(alarmMap, i, now, skip);
      NotWaiting(i, now, cb, {});
      if newTime <= now {
        NotSkipped(i, now, cb);
        skip := skip + {cb};
      }
      var a := Alarm(newTime, cb);
      InsertedAgain(alarmMap, i, a, now, skip);
      InsertedHas(alarmMap, UpperBound(alarmMap, newTime), a);
      i' := Shifted(alarmMap, i, a);
      RegisterAlarm(newTime, cb, {});
      again := [cb] + again;
      log := log + [Readied(cb)];
      PassedBound(alarmMap, i', now, skip);
    }

    lemma NotSkipped(i: nat, now: int, cb: int)
      requires i <= |alarmMap| && Passed(alarmMap, i, now, skip) && !Has(alarmMap, cb)
      ensures Passed(alarmMap, i, now, skip + {cb})
      ensures Waiting(alarmMap[i..], now, skip + {cb}) == Waiting(alarmMap[i..], now, skip)
    {
      forall k | 0 <= k < |alarmMap| - i ensures alarmMap[i..][k].cb != cb {
        assert alarmMap[i + k].cb != cb;
      }
      WaitingSkipMore(alarmMap[i..], now, skip, cb);
    }

    /** What is left to do once the callback has returned. */
    method Finish(now: int, cb: int, newTime: int, ghost at: nat) returns (i': nat)
      requires Running(at, now, cb)
      modifies `alarmMap, `allAlarms, `skip, `log, `again
      ensures i' <= |alarmMap| && Walking(i', now, {})
      ensures Told(old(View(at + 1, now)), old(log), View(i', now)) && |View(i', now).tmp| <= |old(View(at + 1, now)).tmp|
      ensures forall j :: |old(log)| <= j < |log| ==> Between(log[j])
      ensures forall e :: e in old(alarmMap) ==> e in alarmMap || e.cb == cb
      ensures if newTime > 0 then Alarm(newTime, cb) in alarmMap && log == old(log) + [Readied(cb)] else !Has(alarmMap, cb) && log == old(log)
    {
      hide SimpleEpollServer.View, SimpleEpollServer.Walking;
      i' := EraseRun(now, cb, at);
      if newTime > 0 {
        i' := Rearm(newTime, now, cb, i');
        ToldOne(old(View(at + 1, now)), old(log), View(i', now));
      } else {
        ToldNothing(View(i', now));
      }
    }

    /** Runs the alarm at entry i, takes its entry out, and registers it again for the time it asks for. */
    method Fire(now: int, i: nat) returns (i': nat)
      requires Walking(i, now, {}) && i < |alarmMap| && alarmMap[i].time <= now && alarmMap[i].cb !in skip
      modifies this
      ensures i' <= |alarmMap| && Walking(i', now, {})
      ensures Told(old(View(i, now)), old(log), View(i', now)) && Kept(old(alarmMap), old(log))
      ensures |old(log)| < |log| && log[|old(log)|] == Called(old(alarmMap[i].cb), old(alarmMap[i].time))
      ensures |View(i', now).tmp| < |old(View(i, now)).tmp|
      ensures Turn(log[|old(log)|..], AsksAgain) && AsAsked(alarmMap, |old(log)|, log) && turns == old(turns) + 1
      ensures var cb, newTime := old(alarmMap[i].cb), reactions(old(turns)).newTime;
        if newTime > 0 then
          Alarm(newTime, cb) in alarmMap && |log| >= 2 && log[|log| - 2..] == [Returned(cb, newTime), Readied(cb)]
        else
          !Has(alarmMap, cb) && log[|log| - 1] == Returned(cb, newTime)
    {
      hide SimpleEpollServer.View, SimpleEpollServer.Walking, Next, Replay, KeptAs, AsAsked, Turn;
      var cb := Begin(now, i);
      ToldOne(old(View(i, now)), old(log), View(i + 1, now));
      KeptAll(alarmMap, old(log));
      ghost var view, start, between := View(i + 1, now), log, alarmMap;
      var newTime, at := OnAlarm(cb, now, i);
      ToldMore(old(View(i, now)), old(log), view, start, View(at + 1, now));
      KeptMore(old(alarmMap), old(log), between, start);
      ghost var running, returned := start, log;
      log := log + [Returned(cb, newTime)];
      KeptSame(old(alarmMap), alarmMap, old(log), returned, log);
      ToldReturn(View(at + 1, now), returned);
      ToldMore(old(View(i, now)), old(log), View(at + 1, now), returned, View(at + 1, now));
      view, start, between := View(at + 1, now), log, alarmMap;
      i' := Finish(now, cb, newTime, at);
      ToldMore(old(View(i, now)), old(log), view, start, View(i', now));
      assert Ends(log[|old(log)|], cb);
      KeptRun(old(alarmMap), between, old(log), start, cb);
      IsTurn(old(log), running, returned, log, newTime, AsksAgain);
      AskedNow(alarmMap, old(log), running, returned, log, newTime);
    }

    lemma ToldReturn(view: Lists, start: seq<Entry<int>>)
      requires |log| == |start| + 1 && start <= log && log[|start|].Returned?
      ensures Told(view, start, view)
    {
      ToldOne(view, start, view);
    }

    /** Only the alarm just run has changed since. */
    lemma KeptRun(before: seq<Alarm>, between: seq<Alarm>, start: seq<Entry<int>>, start1: seq<Entry<int>>, cb: int)
      requires KeptAs(before, between, start, start1) && start <= start1 <= log && |start| < |log| && Ends(log[|start|], cb)
      requires forall e :: e in between ==> e in alarmMap || e.cb == cb
      ensures Kept(before, start)
    {
      forall e | e in before ensures e in alarmMap || exists j :: |start| <= j < |log| && Ends(log[j], e.cb) {
        if e !in between {
          var j :| |start| <= j < |start1| && Ends(start1[j], e.cb);
          assert Ends(log[j], e.cb);
        }
      }
    }

    /** One round, for the time recorded when the wait for events ended. Alarms already re-registered
        in this round are passed over, so it ends whatever the callbacks return. */
    method CallAndReregisterAlarmEvents(now: int)
      requires Consistent({}) && skip == {}
      modifies this
      ensures Consistent({}) && skip == {} && Kept(old(alarmMap), old(log))
      ensures Told(Lists([], Waiting(old(alarmMap), now, {})), old(log), Lists(again, []))
      ensures forall e :: e in alarmMap && e.time <= now ==> e.cb in again
      ensures Turns(log[|old(log)|..], AsksAgain) && AsAsked(alarmMap, |old(log)|, log)
    {
      hide SimpleEpollServer.View, Waiting, Next, Replay, Turn, Turns, AsAsked, KeptAs;
      again := [];
      assert log[|log|..] == [];
      NoTurns(AsksAgain);
      NoneAsked(alarmMap, log);
      var i: nat := 0;
      StartsWithDue(now);
      ToldNothing(View(i, now));
      KeptAll(alarmMap, log);
      while i < |alarmMap|
        invariant i <= |alarmMap| && Walking(i, now, {}) && Kept(old(alarmMap), old(log))
        invariant Told(Lists([], Waiting(old(alarmMap), now, {})), old(log), View(i, now)) && old(log) <= log
        invariant Turns(log[|old(log)|..], AsksAgain) && AsAsked(alarmMap, |old(log)|, log)
        decreases |View(i, now).tmp|, |alarmMap| - i
      {
        if alarmMap[i].time > now {
          break;
        }
        if alarmMap[i].cb in skip {
          SkipsOne(i, now);
          i := i + 1;
          continue;
        }
        ghost var view, start, between := View(i, now), log, alarmMap;
        i := Fire(now, i);
        OneMoreTurn(start[|old(log)|..], log[|start|..], AsksAgain);
        assert log[|old(log)|..] == start[|old(log)|..] + log[|start|..];
        AsAskedMore(between, alarmMap, |old(log)|, start, log);
        ToldMore(Lists([], Waiting(old(alarmMap), now, {})), old(log), view, start, View(i, now));
        KeptMore(old(alarmMap), old(log), between, start);
      }
      NoneLeft(i, now);
      skip := {};
    }

    lemma StartsWithDue(now: int)
      requires Consistent({}) && skip == {} && again == []
      ensures Walking(0, now, {}) && View(0, now) == Lists([], Waiting(alarmMap, now, {}))
    {
      assert alarmMap[0..] == alarmMap;
    }

    lemma SkipsOne(i: nat, now: int)
      requires Walking(i, now, {}) && i < |alarmMap| && alarmMap[i].cb in skip
      ensures Walking(i + 1, now, {}) && View(i + 1, now) == View(i, now)
    {
      assert alarmMap[i..][1..] == alarmMap[i + 1..];
    }

    lemma NoneLeft(i: nat, now: int)
      requires Walking(i, now, {}) && i <= |alarmMap| && (i < |alarmMap| ==> alarmMap[i].time > now)
      ensures View(i, now) == Lists(again, [])
      ensures forall e :: e in alarmMap && e.time <= now ==> e.cb in again
    {
      WaitingNone(alarmMap[i..], now, skip);
      forall e | e in alarmMap && e.time <= now ensures e.cb in again {
        var j :| 0 <= j < |alarmMap| && alarmMap[j] == e;
        assert Has(alarmMap, e.cb);
      }
    }

    lemma KeptAll(before: seq<Alarm>, start: seq<Entry<int>>)
      requires forall e :: e in before ==> e in alarmMap
      ensures Kept(before, start)
    {
    }
  }

  lemma {:induction false} WaitingInOrder(m: seq<Alarm>, o: nat, now: int, skip: set<int>, rank: map<int, int>)
    requires o <= |m| && DistinctCallbacks(m) && forall k :: 0 <= k < |m| ==> m[k].cb in rank && rank[m[k].cb] == k
    ensures Increasing(Waiting(m[o..], now, skip), rank)
    ensures forall k :: 0 <= k < |Waiting(m[o..], now, skip)| ==> o <= rank[Waiting(m[o..], now, skip)[k]] < |m|
    decreases |m| - o
  {
    if o < |m| {
      WaitingInOrder(m, o + 1, now, skip, rank);
      assert m[o..][1..] == m[o + 1..];
    }
  }

  /** What a round amounts to: an alarm is run exactly when it was due at the start and no other
      callback cancelled it before its turn, and then exactly once. */
  lemma FiresOnce(m: seq<Alarm>, now: int, history: seq<Entry<int>>, again: seq<int>, cb: int)
    requires DistinctCallbacks(m) && Replay(Lists([], Waiting(m, now, {})), history) == Some(Lists(again, []))
    ensures Calls(history, cb) == 1 <==> (exists i :: 0 <= i < |m| && m[i].cb == cb && m[i].time <= now) && KeptItsTurn(history, cb)
    ensures Calls(history, cb) <= 1
    ensures cb in again <==> LastReadied(history, cb, false) || (LastReadied(history, cb, true) && cb in Waiting(m, now, {}))
  {
    WaitingHas(m, now, {}, cb);
    WaitingUnique(m, now, {});
    CalledOncePerRound(Waiting(m, now, {}), history, again, cb);
    ListedWhenLastReadied(Lists([], Waiting(m, now, {})), history, cb);
    LastReadiedMonotone(history, cb);
  }

  lemma {:induction false} LastReadiedMonotone(history: seq<Entry<int>>, cb: int)
    ensures LastReadied(history, cb, false) ==> LastReadied(history, cb, true)
  {
    if history != [] {
      LastReadiedMonotone(history[..|history| - 1], cb);
    }
  }

  /** Alarms run in the order of the times they were set for, the earlier registered first. */
  lemma FiresInOrder(m: seq<Alarm>, now: int, history: seq<Entry<int>>, i: nat, j: nat)
    requires Sorted(m) && DistinctCallbacks(m) && Replay(Lists([], Waiting(m, now, {})), history).Some?
    requires i < j < |history| && history[i].Called? && history[j].Called?
    ensures exists a, b :: 0 <= a < b < |m| && m[a].cb == history[i].fd && m[b].cb == history[j].fd && m[a].time <= m[b].time
  {
    var rank := map k | 0 <= k < |m| :: m[k].cb := k;
    assert m[0..] == m;
    forall k | 0 <= k < |m| ensures m[k].cb in rank && rank[m[k].cb] == k {
    }
    WaitingInOrder(m, 0, now, {}, rank);
    CalledInOrder(Waiting(m, now, {}), history, rank);
    assert IsCall(history[i]) && IsCall(history[j]);
    assert Earlier(rank, history[i].fd, history[j].fd);
  }

  lemma NoneAsked(m: seq<Alarm>, log: seq<Entry<int>>)
    ensures AsAsked(m, |log|, log)
  {
  }

  lemma KeptSame(before: seq<Alarm>, after: seq<Alarm>, start: seq<Entry<int>>, log: seq<Entry<int>>, log1: seq<Entry<int>>)
    requires KeptAs(before, after, start, log) && log <= log1
    ensures KeptAs(before, after, start, log1)
  {
    forall e | e in before && e !in after ensures exists j :: |start| <= j < |log1| && Ends(log1[j], e.cb) {
      var j :| |start| <= j < |log| && Ends(log[j], e.cb);
      assert Ends(log1[j], e.cb);
    }
  }

  lemma AskedNow(m: seq<Alarm>, start: seq<Entry<int>>, running: seq<Entry<int>>, returned: seq<Entry<int>>, after: seq<Entry<int>>, newTime: int)
    requires |running| == |start| + 1 && start <= running && running[|start|].Called? && running <= returned <= after
    requires forall i :: |running| <= i < |returned| ==> Between(returned[i])
    requires var cb := running[|start|].fd; after == returned + [Returned(cb, newTime)] + if newTime > 0 then [Readied(cb)] else []
    requires newTime > 0 ==> Alarm(newTime, running[|start|].fd) in m
    ensures AsAsked(m, |start|, after)
  {
    forall j | |start| <= j < |returned| ensures !after[j].Returned? {
      assert after[j] == returned[j] && returned[|start|] == running[|start|];
      assert j > |start| ==> Between(returned[j]);
    }
  }

  ghost predicate KeptAs(before: seq<Alarm>, after: seq<Alarm>, start: seq<Entry<int>>, log: seq<Entry<int>>) {
    forall e :: e in before ==> e in after || exists j :: |start| <= j < |log| && Ends(log[j], e.cb)
  }
}
