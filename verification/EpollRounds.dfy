/** What happens to the ready lists and the alarms of the epoll server, as a history of entries: the
    order of the lists after any history, and what one round of callbacks amounts to. */
module EpollRounds {
  import opened Wrappers

  /** A descriptor was given a place; a call took its place away; its callback was run; its callback
      returned. Details of the last two are recorded. Alarms are logged in the same way, under their own
      identifiers. */
  datatype Entry<T> =
    | Readied(fd: int)
    | Dropped(fd: int)
    | Called(fd: int, details: T)
    | Returned(fd: int, details: T)

  /** The descriptors on the two lists, front first. */
  datatype Lists = Lists(ready: seq<int>, tmp: seq<int>)

  predicate Unique(s: seq<int>) {
    forall i, j :: 0 <= i < j < |s| ==> s[i] != s[j]
  }

  /** No descriptor is on the lists twice. */
  predicate OnceEach(l: Lists) {
    Unique(l.ready) && Unique(l.tmp) && forall fd :: fd in l.ready ==> fd !in l.tmp
  }

  predicate Listed(l: Lists, fd: int) {
    fd in l.ready || fd in l.tmp
  }

  function Without(s: seq<int>, fd: int): (r: seq<int>)
    ensures |r| <= |s| && forall x :: x in r <==> x in s && x != fd
    ensures Unique(s) ==> Unique(r)
  {
    if s == [] then [] else if s[0] == fd then Without(s[1..], fd) else
      var rest := Without(s[1..], fd);
      assert forall i :: 0 <= i < |rest| ==> rest[i] in s[1..];
      [s[0]] + rest
  }

  function Placed(l: Lists, fd: int): Lists {
    if Listed(l, fd) then l else Lists([fd] + l.ready, l.tmp)
  }

  function Displaced(l: Lists, fd: int): (r: Lists)
    ensures |r.tmp| <= |l.tmp|
  {
    Lists(Without(l.ready, fd), Without(l.tmp, fd))
  }

  /** One entry; a callback runs only for the front of the list being worked through. */
  function Next<T>(l: Lists, e: Entry<T>): Option<Lists> {
    match e
    case Readied(fd) => Some(Placed(l, fd))
    case Dropped(fd) => Some(Displaced(l, fd))
    case Returned(_, _) => Some(l)
    case Called(fd, _) => if l.tmp != [] && l.tmp[0] == fd then Some(Lists(l.ready, l.tmp[1..])) else None
  }

  function Replay<T>(l: Lists, history: seq<Entry<T>>): Option<Lists> {
    if history == [] then Some(l) else
      match Replay(l, history[..|history| - 1])
      case None => None
      case Some(before) => Next(before, history[|history| - 1])
  }

  lemma FrontDropped<T>(l: Lists, called: Entry<T>)
    requires OnceEach(l) && l.tmp != [] && called.Called? && called.fd == l.tmp[0]
    ensures Next(l, called) == Some(Displaced(l, called.fd))
    ensures Displaced(l, called.fd) == Lists(l.ready, l.tmp[1..])
  {
    WithoutAbsent(l.ready, called.fd);
    WithoutAbsent(l.tmp[1..], called.fd);
  }

  lemma {:induction false} WithoutAbsent(s: seq<int>, fd: int)
    requires fd !in s
    ensures Without(s, fd) == s
  {
    if s != [] {
      WithoutAbsent(s[1..], fd);
    }
  }

  lemma {:induction false} ReplayAppend<T>(l: Lists, a: seq<Entry<T>>, b: seq<Entry<T>>)
    requires Replay(l, a).Some?
    ensures Replay(l, a + b) == Replay(Replay(l, a).value, b)
  {
    if b == [] {
      assert a + b == a;
    } else {
      ReplayAppend(l, a, b[..|b| - 1]);
      assert (a + b)[..|a + b| - 1] == a + b[..|b| - 1];
    }
  }

  predicate IsCall<T>(e: Entry<T>) { e.Called? }

  function Calls<T>(history: seq<Entry<T>>, fd: int): (n: nat) {
    if history == [] then 0 else
      Calls(history[..|history| - 1], fd) + if IsCall(history[|history| - 1]) && history[|history| - 1].fd == fd then 1 else 0
  }

  /** No call took the descriptor's place away before its callback ran. */
  predicate KeptItsTurn<T>(history: seq<Entry<T>>, fd: int) {
    if history == [] then true else
      var earlier := history[..|history| - 1];
      KeptItsTurn(earlier, fd) && (history[|history| - 1] == Dropped(fd) ==> Calls(earlier, fd) != 0)
  }

  /** The state during a round that began with the descriptors in pending. */
  lemma {:induction false} DuringRound<T>(pending: seq<int>, history: seq<Entry<T>>, fd: int)
    requires Unique(pending) && Replay(Lists([], pending), history).Some?
    ensures var l := Replay(Lists([], pending), history).value;
      && OnceEach(l)
      && Calls(history, fd) == (if fd in pending && fd !in l.tmp && KeptItsTurn(history, fd) then 1 else 0)
      && (fd in l.tmp ==> fd in pending && KeptItsTurn(history, fd))
  {
    if history != [] {
      var n := |history| - 1;
      DuringRound(pending, history[..n], fd);
      var before := Replay(Lists([], pending), history[..n]).value;
      if history[n].Called? {
        var after := before.tmp[1..];
        assert before.tmp == [history[n].fd] + after;
        assert forall x :: x in after ==> x in before.tmp;
      }
    }
  }

  /** A whole round: every descriptor that was ready at its start is called back exactly once,
      unless a call took its place away before its turn; no other descriptor is called back. */
  lemma CalledOncePerRound<T>(pending: seq<int>, history: seq<Entry<T>>, ready: seq<int>, fd: int)
    requires Unique(pending) && Replay(Lists([], pending), history) == Some(Lists(ready, []))
    ensures Calls(history, fd) == if fd in pending && KeptItsTurn(history, fd) then 1 else 0
    ensures Unique(ready)
  {
    DuringRound(pending, history, fd);
  }

  predicate About<T>(e: Entry<T>, fd: int) { !e.Returned? && e.fd == fd }

  /** After any history a descriptor has a place exactly when the last entry about it readied it,
      or nothing happened to it and it had one at the start. */
  ghost predicate LastReadied<T>(history: seq<Entry<T>>, fd: int, atStart: bool) {
    if history == [] then atStart
    else if About(history[|history| - 1], fd) then history[|history| - 1].Readied?
    else LastReadied(history[..|history| - 1], fd, atStart)
  }

  lemma {:induction false} ListedWhenLastReadied<T>(l: Lists, history: seq<Entry<T>>, fd: int)
    requires OnceEach(l) && Replay(l, history).Some?
    ensures OnceEach(Replay(l, history).value)
    ensures Listed(Replay(l, history).value, fd) <==> LastReadied(history, fd, Listed(l, fd))
  {
    if history != [] {
      var n := |history| - 1;
      ListedWhenLastReadied(l, history[..n], fd);
      var before := Replay(l, history[..n]).value;
      var e := history[n];
      if e.Called? {
        var after := Next(before, e).value;
        assert before.tmp == [e.fd] + after.tmp;
        assert forall x :: x in after.tmp ==> x in before.tmp;
      }
    }
  }

  /** The descriptors in s have increasing rank. */
  predicate Increasing(s: seq<int>, rank: map<int, int>) {
    && (forall i :: 0 <= i < |s| ==> s[i] in rank)
    && (forall i, j :: 0 <= i < j < |s| ==> rank[s[i]] < rank[s[j]])
  }

  lemma {:induction false} WithoutKeepsOrder(s: seq<int>, fd: int, rank: map<int, int>)
    requires Increasing(s, rank)
    ensures Increasing(Without(s, fd), rank)
  {
    if s != [] {
      assert Increasing(s[1..], rank);
      WithoutKeepsOrder(s[1..], fd, rank);
      var rest := Without(s[1..], fd);
      forall i | 0 <= i < |rest| ensures rank[s[0]] < rank[rest[i]] {
        assert rest[i] in s[1..];
      }
    }
  }

  predicate Earlier(rank: map<int, int>, a: int, b: int) {
    a in rank && b in rank && rank[a] < rank[b]
  }

  /** Everything still waiting comes after x. */
  predicate AllAfter(s: seq<int>, rank: map<int, int>, x: int) {
    x in rank && forall i :: 0 <= i < |s| && s[i] in rank ==> rank[x] < rank[s[i]]
  }

  lemma NextKeepsOrder<T>(before: Lists, e: Entry<T>, rank: map<int, int>)
    requires Increasing(before.tmp, rank) && Next(before, e).Some?
    ensures var after := Next(before, e).value.tmp;
      && Increasing(after, rank)
      && (forall k :: 0 <= k < |after| ==> after[k] in before.tmp)
      && (e.Called? ==> e.fd in before.tmp && AllAfter(after, rank, e.fd))
  {
    match e
    case Readied(_) =>
    case Returned(_, _) =>
    case Dropped(fd) =>
      WithoutKeepsOrder(before.tmp, fd, rank);
      var after := Without(before.tmp, fd);
      assert forall k :: 0 <= k < |after| ==> after[k] in after;
    case Called(_, _) =>
      var after := before.tmp[1..];
      assert forall k :: 0 <= k < |after| ==> after[k] == before.tmp[k + 1];
      assert before.tmp[0] == e.fd;
  }

  /** What has had its turn comes before everything still waiting after one more entry, and before
      the descriptor called by it. */
  lemma StillAfter<T>(before: Lists, e: Entry<T>, rank: map<int, int>, x: int)
    requires Increasing(before.tmp, rank) && Next(before, e).Some? && AllAfter(before.tmp, rank, x)
    ensures AllAfter(Next(before, e).value.tmp, rank, x)
    ensures e.Called? ==> Earlier(rank, x, e.fd)
  {
    NextKeepsOrder(before, e, rank);
  }

  /** Every call made is before all that is still waiting. */
  predicate CallsBefore<T>(history: seq<Entry<T>>, waiting: seq<int>, rank: map<int, int>) {
    forall i :: 0 <= i < |history| && IsCall(history[i]) ==> AllAfter(waiting, rank, history[i].fd)
  }

  /** The calls made are in increasing rank. */
  predicate CallsOrdered<T>(history: seq<Entry<T>>, rank: map<int, int>) {
    forall i, j :: 0 <= i < j < |history| && IsCall(history[i]) && IsCall(history[j]) ==> Earlier(rank, history[i].fd, history[j].fd)
  }

  lemma OneMoreInOrder<T>(history: seq<Entry<T>>, before: Lists, e: Entry<T>, rank: map<int, int>)
    requires Increasing(before.tmp, rank) && Next(before, e).Some?
    requires CallsBefore(history, before.tmp, rank) && CallsOrdered(history, rank)
    ensures Increasing(Next(before, e).value.tmp, rank)
    ensures CallsBefore(history + [e], Next(before, e).value.tmp, rank) && CallsOrdered(history + [e], rank)
  {
    hide Next, Increasing, AllAfter, Earlier;
    NextKeepsOrder(before, e, rank);
    forall i | 0 <= i < |history| && IsCall(history[i])
      ensures AllAfter(Next(before, e).value.tmp, rank, history[i].fd)
      ensures IsCall(e) ==> Earlier(rank, history[i].fd, e.fd)
    {
      StillAfter(before, e, rank, history[i].fd);
    }
  }

  /** Callbacks run in the order of the list the round began with, before everything still waiting. */
  lemma {:induction false} CalledInOrder<T>(pending: seq<int>, history: seq<Entry<T>>, rank: map<int, int>)
    requires Increasing(pending, rank) && Replay(Lists([], pending), history).Some?
    ensures Increasing(Replay(Lists([], pending), history).value.tmp, rank)
    ensures CallsBefore(history, Replay(Lists([], pending), history).value.tmp, rank) && CallsOrdered(history, rank)
  {
    if history != [] {
      var n := |history| - 1;
      CalledInOrder(pending, history[..n], rank);
      OneMoreInOrder(history[..n], Replay(Lists([], pending), history[..n]).value, history[n], rank);
      assert history[..n] + [history[n]] == history;
    }
  }

  // ---- turns ----

  predicate Between<T>(e: Entry<T>) { !e.Called? && !e.Returned? }

  predicate NoneBetween<T>(s: seq<Entry<T>>, a: nat, b: nat)
    requires b < |s|
  {
    forall m :: a < m < b ==> Between(s[m])
  }

  /** One turn: a callback is run, calls are made, it returns at place k, and it is readied again exactly
      if what it returned asks for that. */
  ghost predicate TurnWith<T>(t: seq<Entry<T>>, k: nat, again: T -> bool) {
    && 0 < k < |t| && t[0].Called? && t[k].Returned? && t[k].fd == t[0].fd
    && NoneBetween(t, 0, k)
    && t[k + 1..] == if again(t[k].details) then [Readied(t[k].fd)] else []
  }

  ghost predicate Turn<T>(t: seq<Entry<T>>, again: T -> bool) {
    exists k: nat :: TurnWith(t, k, again)
  }

  /** One turn after another, the last of them beginning at place k. */
  ghost predicate Turns<T>(history: seq<Entry<T>>, again: T -> bool) {
    history == [] || exists k :: 0 <= k < |history| && Turns(history[..k], again) && Turn(history[k..], again)
  }

  lemma NoTurns<T>(again: T -> bool)
    ensures Turns<T>([], again)
  {
  }

  lemma OneMoreTurn<T>(history: seq<Entry<T>>, t: seq<Entry<T>>, again: T -> bool)
    requires Turns(history, again) && Turn(t, again)
    ensures Turns(history + t, again)
  {
    var k := |history|;
    assert (history + t)[..k] == history && (history + t)[k..] == t;
  }

  /** A callback was run, made calls and returned, as the log has it at four moments. */
  lemma IsTurn<T>(start: seq<Entry<T>>, running: seq<Entry<T>>, returned: seq<Entry<T>>, after: seq<Entry<T>>, d: T, again: T -> bool)
    requires |running| == |start| + 1 && start <= running && running[|start|].Called? && running <= returned <= after
    requires forall i :: |running| <= i < |returned| ==> Between(returned[i])
    requires var fd := running[|start|].fd; after == returned + [Returned(fd, d)] + if again(d) then [Readied(fd)] else []
    ensures Turn(after[|start|..], again)
  {
    var t := after[|start|..];
    var k := |returned| - |start|;
    forall j | 0 < j < k ensures Between(t[j]) {
      assert t[j] == returned[|start| + j];
    }
    assert t[0] == running[|start|];
    assert TurnWith(t, k, again);
  }

  lemma Places<T>(t: seq<Entry<T>>, k: nat, again: T -> bool, m: nat)
    requires TurnWith(t, k, again) && m < |t|
    ensures 0 < k < |t| && t[k].fd == t[0].fd && t[k].Returned? && (0 < m < k ==> Between(t[m]))
    ensures t[m].Called? <==> m == 0
    ensures t[m].Returned? <==> m == k
    ensures |t| == k + if again(t[k].details) then 2 else 1
    ensures again(t[k].details) ==> t[k + 1] == Readied(t[k].fd)
  {
    assert |t[k + 1..]| == |t| - k - 1;
    if again(t[k].details) {
      assert t[k + 1..][0] == t[k + 1];
    }
    if 0 < m < k {
      assert Between(t[m]);
    }
  }

  /** A callback that returned is readied at once if it asks for that, and otherwise nothing happens before
      the next callback is run. */
  lemma {:induction false} ReturnsAreAnswered<T>(history: seq<Entry<T>>, again: T -> bool, i: nat)
    requires Turns(history, again) && i < |history| && history[i].Returned?
    ensures if again(history[i].details) then i + 1 < |history| && history[i + 1] == Readied(history[i].fd)
      else i + 1 < |history| ==> history[i + 1].Called?
    decreases |history|
  {
    var n: nat :| n < |history| && Turns(history[..n], again) && Turn(history[n..], again);
    var t := history[n..];
    var k: nat :| TurnWith(t, k, again);
    hide Turns, TurnWith;
    Places(t, k, again, 0);
    assert t[0] == history[n] && t[k] == history[n + k];
    if i < n {
      ReturnsAreAnswered(history[..n], again, i);
    } else {
      Places(t, k, again, i - n);
      assert again(t[k].details) ==> t[k + 1] == history[n + k + 1];
    }
  }

  /** At j a callback that was run at i returns, and no other was run meanwhile. */
  predicate ReturnsAt<T>(s: seq<Entry<T>>, i: nat, j: nat) {
    i < j < |s| && s[j].Returned? && s[j].fd == s[i].fd && NoneBetween(s, i, j)
  }

  /** Every callback that was run returned, before any other was run. */
  lemma {:induction false} CallsReturn<T>(history: seq<Entry<T>>, again: T -> bool, i: nat) returns (j: nat)
    requires Turns(history, again) && i < |history| && history[i].Called?
    ensures ReturnsAt(history, i, j)
    decreases |history|
  {
    hide Turns, Turn, NoneBetween, ReturnsAt;
    var n := LastTurn(history, again);
    if i < n {
      j := CallsReturn(history[..n], again, i);
      NoneInPrefix(history, n, i, j);
    } else {
      j := CallInTurn(history, n, again, i);
    }
  }

  lemma CallInTurn<T>(s: seq<Entry<T>>, n: nat, again: T -> bool, i: nat) returns (j: nat)
    requires n <= i < |s| && Turn(s[n..], again) && s[i].Called?
    ensures ReturnsAt(s, i, j)
  {
    hide Turn, NoneBetween;
    assert s[n..][i - n] == s[i];
    var k := TurnReturns(s[n..], again, i - n);
    NoneInSuffix(s, n, k);
    assert s[n..][k] == s[n + k];
    j := n + k;
  }

  lemma NoneInPrefix<T>(s: seq<Entry<T>>, n: nat, a: nat, b: nat)
    requires n <= |s| && ReturnsAt(s[..n], a, b)
    ensures ReturnsAt(s, a, b)
  {
    forall m | a < m < b ensures Between(s[m]) {
      assert s[..n][m] == s[m];
    }
  }

  lemma NoneInSuffix<T>(s: seq<Entry<T>>, n: nat, b: nat)
    requires n + b < |s| && NoneBetween(s[n..], 0, b)
    ensures NoneBetween(s, n, n + b)
  {
    forall m | n < m < n + b ensures Between(s[m]) {
      assert s[n..][m - n] == s[m];
    }
  }

  lemma LastTurn<T>(history: seq<Entry<T>>, again: T -> bool) returns (n: nat)
    requires Turns(history, again) && history != []
    ensures n < |history| && Turns(history[..n], again) && Turn(history[n..], again)
  {
    n :| n < |history| && Turns(history[..n], again) && Turn(history[n..], again);
  }

  lemma TurnReturns<T>(t: seq<Entry<T>>, again: T -> bool, i: nat) returns (k: nat)
    requires Turn(t, again) && i < |t| && t[i].Called?
    ensures i == 0 < k < |t| && t[k].Returned? && t[k].fd == t[0].fd && NoneBetween(t, 0, k)
  {
    k :| TurnWith(t, k, again);
    Places(t, k, again, i);
  }

  /** A descriptor whose callback asks for another turn has a place afterwards, unless something happens
      to it later. */
  lemma {:induction false} AskedIsReadied<T>(history: seq<Entry<T>>, again: T -> bool, i: nat, atStart: bool)
    requires Turns(history, again) && i < |history| && history[i].Returned? && again(history[i].details)
    requires forall j :: i + 1 < j < |history| ==> !About(history[j], history[i].fd)
    ensures LastReadied(history, history[i].fd, atStart)
  {
    ReturnsAreAnswered(history, again, i);
    LastOne(history, i + 1, atStart);
  }

  lemma {:induction false} LastOne<T>(history: seq<Entry<T>>, i: nat, atStart: bool)
    requires i < |history| && history[i].Readied? && forall j :: i < j < |history| ==> !About(history[j], history[i].fd)
    ensures LastReadied(history, history[i].fd, atStart)
    decreases |history|
  {
    var n := |history| - 1;
    if i < n {
      LastOne(history[..n], i, atStart);
    }
  }

  /** What follows the return of a callback: it is readied at once if it asks for that, and then is ready at
      the end unless something happens to it later; otherwise the next callback is run. */
  predicate AnsweredAt<T>(history: seq<Entry<T>>, again: T -> bool, i: nat, ready: bool)
    requires i < |history| && history[i].Returned?
  {
    if again(history[i].details) then
      && i + 1 < |history| && history[i + 1] == Readied(history[i].fd)
      && (!LaterAbout(history, i + 2, history[i].fd) ==> ready)
    else
      i + 1 < |history| ==> history[i + 1].Called?
  }

  predicate LaterAbout<T>(history: seq<Entry<T>>, n: nat, fd: int) {
    exists j :: n <= j < |history| && About(history[j], fd)
  }

  ghost predicate Answered<T>(history: seq<Entry<T>>, again: T -> bool, fd: int, ready: bool) {
    forall i :: 0 <= i < |history| && history[i].Returned? && history[i].fd == fd ==> AnsweredAt(history, again, i, ready)
  }

  lemma AllAnswered<T>(history: seq<Entry<T>>, again: T -> bool, fd: int, atStart: bool)
    requires Turns(history, again)
    ensures Answered(history, again, fd, LastReadied(history, fd, atStart))
  {
    hide Turns, About;
    forall i | 0 <= i < |history| && history[i].Returned? && history[i].fd == fd
      ensures AnsweredAt(history, again, i, LastReadied(history, fd, atStart))
    {
      ReturnsAreAnswered(history, again, i);
      if again(history[i].details) && !LaterAbout(history, i + 2, fd) {
        AskedIsReadied(history, again, i, atStart);
      }
    }
  }

  // ---- the order of the ready list ----

  /** How much of the history had passed when fd was last not on the ready list. */
  function LastAway<T>(l: Lists, history: seq<Entry<T>>, fd: int): (n: nat)
    requires Replay(l, history).Some?
    ensures n <= |history|
  {
    if history == [] || fd !in Replay(l, history).value.ready then |history| else LastAway(l, history[..|history| - 1], fd)
  }

  /** Those that got their place later are nearer to the front. */
  ghost predicate NewestFirst<T>(l: Lists, history: seq<Entry<T>>)
    requires Replay(l, history).Some?
  {
    var ready := Replay(l, history).value.ready;
    forall i, j :: 0 <= i < j < |ready| ==> LastAway(l, history, ready[i]) > LastAway(l, history, ready[j])
  }

  lemma OrderAfter<T>(before: Lists, e: Entry<T>, rank: map<int, int>, n: int)
    requires Increasing(before.ready, rank) && Next(before, e).Some? && forall x :: x in before.ready ==> rank[x] > n
    ensures var after := Next(before, e).value.ready;
      forall i, j :: 0 <= i < j < |after| ==>
        && after[j] in before.ready
        && (after[i] in before.ready ==> rank[after[i]] < rank[after[j]])
  {
    var after := Next(before, e).value.ready;
    match e
    case Dropped(fd) =>
      WithoutKeepsOrder(before.ready, fd, rank);
      assert forall k :: 0 <= k < |after| ==> after[k] in after;
    case Readied(fd) =>
      if !Listed(before, fd) {
        assert forall k :: 0 < k < |after| ==> after[k] == before.ready[k - 1];
      }
    case _ =>
  }

  lemma {:induction false} ReadyOrder<T>(l: Lists, history: seq<Entry<T>>)
    requires l.ready == [] && Replay(l, history).Some?
    ensures NewestFirst(l, history)
  {
    if history != [] {
      var n := |history| - 1;
      ReadyOrder(l, history[..n]);
      ReplayLast(l, history);
      var before := Replay(l, history[..n]).value;
      var rank: map<int, int> := map x | x in before.ready :: 0 - LastAway(l, history[..n], x);
      hide Next, Replay;
      AwayEarlier(l, history[..n]);
      OrderAfter(before, history[n], rank, -n - 1);
    }
  }

  lemma ReplayLast<T>(l: Lists, history: seq<Entry<T>>)
    requires history != [] && Replay(l, history).Some?
    ensures Replay(l, history[..|history| - 1]).Some?
    ensures Replay(l, history) == Next(Replay(l, history[..|history| - 1]).value, history[|history| - 1])
  {
  }

  lemma AwayEarlier<T>(l: Lists, history: seq<Entry<T>>)
    requires l.ready == [] && Replay(l, history).Some?
    ensures forall x :: x in Replay(l, history).value.ready ==> LastAway(l, history, x) < |history|
  {
  }
}
