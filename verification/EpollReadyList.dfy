/** The ready lists of the epoll server: two doubly linked lists threaded through the
    registrations, and a round of callbacks that may do anything to them. */
module EpollReadyList {
  import opened Wrappers
  import opened EpollRounds

  /** A set of events, by bit position. */
  type Mask = set<nat>

  /** What a callback is run with; and what it returned, and whether there was one registered then. */
  datatype Callback = Callback(cb: int, events: Mask) | Answer(registered: bool, outReadyMask: Mask)

  predicate AsksAgain(d: Callback) {
    d.Answer? && d.registered && d.outReadyMask != {}
  }

  /** What callbacks are told, apart from events. */
  datatype Notice = OnRegistration(fd: int, cb: int, eventMask: Mask) | OnUnregistration(fd: int, cb: int, replaced: bool)

  /** Where the back link of a list element points. */
  datatype Link = Nowhere | ReadyHead | TmpHead | NextOf(node: Node)

  const EPOLL_ERROR_AND_HANGUP: Mask := {3, 4}

  class Node {
    const fd: int
    var cb: Option<int>
    var eventMask: Mask
    var eventsAsserted: Mask
    var eventsToFake: Mask
    var inUse: bool
    var next: Node?
    var prev: Link

    constructor (fd: int, cb: int, eventMask: Mask)
      ensures this.fd == fd && this.cb == Some(cb) && this.eventMask == eventMask && eventsAsserted == {} && eventsToFake == {}
      ensures !inUse && next == null && prev == Nowhere
    {
      this.fd, this.cb, this.eventMask := fd, Some(cb), eventMask;
      eventsAsserted, eventsToFake, inUse, next, prev := {}, {}, false, null, Nowhere;
    }
  }

  function After(s: seq<Node>, i: nat): Node?
    requires i < |s|
  {
    if i + 1 < |s| then s[i + 1] else null
  }

  function HeadOf(onReady: bool): Link {
    if onReady then ReadyHead else TmpHead
  }

  function Before(head: Link, s: seq<Node>, i: nat): Link
    requires i < |s|
  {
    if i == 0 then head else NextOf(s[i - 1])
  }

  function First(s: seq<Node>): Node? {
    if s == [] then null else s[0]
  }

  /** The elements in s, linked forwards and back, starting from the given head. */
  ghost predicate Linked(first: Node?, head: Link, s: seq<Node>)
    reads s`next, s`prev
  {
    && first == First(s)
    && (forall i :: 0 <= i < |s| ==> s[i].next == After(s, i) && s[i].prev == Before(head, s, i))
  }

  ghost predicate Distinct(s: seq<Node>) {
    forall i, j :: 0 <= i < j < |s| ==> s[i] != s[j]
  }

  ghost predicate Disjoint(s: seq<Node>, t: seq<Node>) {
    forall i, j :: 0 <= i < |s| && 0 <= j < |t| ==> s[i] != t[j]
  }

  ghost function Fds(s: seq<Node>): (fds: seq<int>)
    ensures |fds| == |s| && forall i :: 0 <= i < |s| ==> fds[i] == s[i].fd
  {
    if s == [] then [] else [s[0].fd] + Fds(s[1..])
  }

  /** The calls a callback can make. */
  datatype Request =
    | Register(fd: int, cb: int, eventMask: Mask)
    | Unregister(fd: int)
    | Modify(fd: int, removeEvent: Mask, addEvent: Mask)
    | SetReady(fd: int, eventsToFake: Mask)
    | SetNotReady(fd: int)

  /** A call, and the calls that OnUnregistration makes, should this one lead to it. */
  datatype Call = Call(request: Request, inner: seq<Call>)

  /** The calls that may be made while the descriptors in leaving are being unregistered, and the
      callbacks of those in replaced are being replaced. */
  predicate Allowed(c: Call, leaving: set<int>, replaced: set<int>) {
    match c.request
    case Register(fd, _, _) => fd !in leaving + replaced && AllAllowed(c.inner, leaving, replaced + {fd})
    case Unregister(fd) => fd !in leaving + replaced && AllAllowed(c.inner, leaving + {fd}, replaced)
    case Modify(fd, _, _) => fd !in leaving
    case SetReady(fd, _) => fd !in leaving
    case SetNotReady(_) => true
  }

  /** What a callback does when it is run: any calls, and any mask of events it is still ready for. */
  datatype Reaction = Reaction(calls: seq<Call>, outReadyMask: Mask)

  predicate AllAllowed(calls: seq<Call>, leaving: set<int>, replaced: set<int>) {
    forall c <- calls :: Allowed(c, leaving, replaced)
  }

  /** The descriptors that calls are about. */
  function Mentioned(calls: seq<Call>): set<int> {
    if calls == [] then {} else {calls[0].request.fd} + Mentioned(calls[0].inner) + Mentioned(calls[1..])
  }

  lemma {:induction false} MentionedEach(calls: seq<Call>, i: nat)
    requires i < |calls|
    ensures {calls[i].request.fd} + Mentioned(calls[i].inner) <= Mentioned(calls)
  {
    if i > 0 {
      MentionedEach(calls[1..], i - 1);
    }
  }

  class SimpleEpollServer {
    var cbMap: map<int, Node>
    var readyFirst: Node?
    var tmpFirst: Node?
    var readyListSize: int
    var kernel: map<int, Mask>
    /** The descriptors of which OnUnregistration is running: because they are being unregistered, and
        are gone from the kernel already, or because they get another callback. */
    ghost var leaving: set<int>
    ghost var replaced: set<int>
    /** What callbacks do, one run after the other, and how many there have been. */
    const reactions: nat -> Reaction
    var turns: nat
    ghost var notices: seq<Notice>
    ghost var ready: seq<Node>
    ghost var tmp: seq<Node>
    ghost var log: seq<Entry<Callback>>

    ghost predicate Chained()
      reads `readyFirst, `tmpFirst, `readyListSize, `ready, `tmp, ready`next, ready`prev, tmp`next, tmp`prev
    {
      && Linked(readyFirst, ReadyHead, ready) && Linked(tmpFirst, TmpHead, tmp)
      && Distinct(ready) && Distinct(tmp) && Disjoint(ready, tmp)
      && readyListSize == |ready| + |tmp|
    }

    ghost predicate Holds(n: Node)
      reads `cbMap
    {
      n.fd in cbMap && cbMap[n.fd] == n
    }

    /** Every registration is filed under its descriptor, and nothing that has left the map is on a
        list. A registration has a back link exactly when it is on a list. Only one in use may be
        without a callback, and then it is on no list. */
    ghost predicate Filed()
      reads `cbMap, `ready, `tmp, cbMap.Values`prev, cbMap.Values`cb, cbMap.Values`inUse
    {
      && (forall fd :: fd in cbMap ==> cbMap[fd].fd == fd)
      && (forall i :: 0 <= i < |ready| ==> Holds(ready[i]))
      && (forall i :: 0 <= i < |tmp| ==> Holds(tmp[i]))
      && (forall fd :: fd in cbMap && cbMap[fd].prev != Nowhere ==> cbMap[fd] in ready || cbMap[fd] in tmp)
      && (forall fd :: fd in cbMap && cbMap[fd].cb == None ==> cbMap[fd].inUse && cbMap[fd].prev == Nowhere)
    }

    /** The kernel watches exactly the descriptors that have a callback, for the events asked for, but
        for those that are leaving. */
    ghost predicate Watched()
      reads `cbMap, `kernel, `leaving, cbMap.Values`cb, cbMap.Values`eventMask
    {
      && (forall fd :: fd in kernel <==> fd in cbMap && cbMap[fd].cb != None && fd !in leaving)
      && (forall fd :: fd in kernel ==> kernel[fd] == cbMap[fd].eventMask + EPOLL_ERROR_AND_HANGUP)
    }

    /** A descriptor keeps its callback while OnUnregistration is running, and one that is leaving is
        on no list. */
    ghost predicate Parting()
      reads `cbMap, `leaving, `replaced, cbMap.Values`cb, cbMap.Values`prev
    {
      && (forall fd :: fd in leaving ==> fd in cbMap && cbMap[fd].cb != None && cbMap[fd].prev == Nowhere)
      && (forall fd :: fd in replaced ==> fd in cbMap && cbMap[fd].cb != None)
    }

    ghost predicate Valid()
      reads `cbMap, `readyFirst, `tmpFirst, `readyListSize, `kernel, `ready, `tmp, `leaving, `replaced, cbMap.Values, ready, tmp
    {
      Chained() && Filed() && Watched() && Parting()
    }

    /** OnUnregistration is not running, and callbacks keep to the calls that they may make. */
    ghost predicate Quiet()
      reads `leaving, `replaced
    {
      leaving == {} && replaced == {} && forall k: nat :: AllAllowed(reactions(k).calls, {}, {})
    }

    ghost function View(): Lists
      reads `ready, `tmp
    {
      Lists(Fds(ready), Fds(tmp))
    }

    constructor (reactions: nat -> Reaction)
      requires forall k: nat :: AllAllowed(reactions(k).calls, {}, {})
      ensures Valid() && Quiet() && cbMap == map[] && View() == Lists([], []) && log == [] && notices == []
      ensures this.reactions == reactions && turns == 0
    {
      this.reactions, turns, notices := reactions, 0, [];
      leaving, replaced := {}, {};
      cbMap, kernel := map[], map[];
      readyFirst, tmpFirst, readyListSize := null, null, 0;
      ready, tmp, log := [], [], [];
    }

    /** A registration is on a list exactly when it has a back link. */
    lemma OnAListWhenLinked(n: Node)
      requires Valid() && Holds(n)
      ensures n.prev != Nowhere <==> n in ready || n in tmp
      ensures n.prev != Nowhere <==> Listed(View(), n.fd)
    {
      hide SimpleEpollServer.Watched;
      if n in ready {
        var i :| 0 <= i < |ready| && ready[i] == n;
        assert ready[i].prev != Nowhere && Fds(ready)[i] == n.fd;
      }
      if n in tmp {
        var i :| 0 <= i < |tmp| && tmp[i] == n;
        assert tmp[i].prev != Nowhere && Fds(tmp)[i] == n.fd;
      }
      if n.fd in Fds(ready) {
        var i :| 0 <= i < |ready| && Fds(ready)[i] == n.fd;
        assert Holds(ready[i]);
      }
      if n.fd in Fds(tmp) {
        var i :| 0 <= i < |tmp| && Fds(tmp)[i] == n.fd;
        assert Holds(tmp[i]);
      }
    }

    /** The registrations after their links have changed and nothing else: those that gained a back
        link are those that gained a place. */
    twostate lemma Refiled(n: Node)
      requires old(Filed()) && cbMap == old(cbMap) && Holds(n)
      requires forall fd :: fd in cbMap ==> cbMap[fd].cb == old(cbMap[fd].cb) && cbMap[fd].inUse == old(cbMap[fd].inUse)
      requires forall fd :: fd in cbMap && cbMap[fd] != n ==> (cbMap[fd].prev == Nowhere <==> old(cbMap[fd].prev) == Nowhere)
      requires n.prev != Nowhere ==> n.cb != None && (n in ready || n in tmp)
      requires forall m :: m in ready ==> m == n || m in old(ready)
      requires forall m :: m in tmp ==> m in old(tmp)
      requires forall m :: m in old(ready) ==> m == n || m in ready
      requires forall m :: m in old(tmp) ==> m == n || m in tmp
      ensures Filed()
    {
      assert forall i :: 0 <= i < |ready| ==> ready[i] in ready;
      assert forall i :: 0 <= i < |tmp| ==> tmp[i] in tmp;
    }

    lemma FrontHeld()
      requires Valid()
      ensures tmp == [] ==> tmpFirst == null
      ensures readyFirst != null ==> Holds(readyFirst) && ready != [] && readyFirst == ready[0] && readyFirst.prev == ReadyHead
      ensures tmpFirst != null ==> Holds(tmpFirst) && tmp != [] && tmpFirst == tmp[0] && tmpFirst.prev == TmpHead
    {
    }

    twostate lemma StillParting()
      requires old(Parting()) && cbMap == old(cbMap) && leaving == old(leaving) && replaced == old(replaced)
      requires forall fd :: fd in cbMap ==> cbMap[fd].cb == old(cbMap[fd].cb)
      requires forall fd :: fd in leaving ==> (old(cbMap[fd].prev) == Nowhere ==> cbMap[fd].prev == Nowhere)
      ensures Parting()
    {
    }

    /** Only what is filed under fd has changed, which is neither leaving nor replaced, or what has been
        is so no longer. */
    twostate lemma PartingAfter(fd: int)
      requires old(Parting())
      requires forall d :: d != fd && d in old(cbMap) ==> d in cbMap && cbMap[d] == old(cbMap[d]) && Same(cbMap[d]) && cbMap[d].prev == old(cbMap[d].prev)
      requires forall d :: d != fd ==> (d in leaving ==> d in old(leaving)) && (d in replaced ==> d in old(replaced))
      requires fd in leaving ==> fd in cbMap && cbMap[fd].cb != None && cbMap[fd].prev == Nowhere
      requires fd in replaced ==> fd in cbMap && cbMap[fd].cb != None
      ensures Parting()
    {
    }

    twostate lemma StillWatched()
      requires old(Watched()) && cbMap == old(cbMap) && kernel == old(kernel) && leaving == old(leaving)
      requires forall fd :: fd in cbMap ==> cbMap[fd].cb == old(cbMap[fd].cb) && cbMap[fd].eventMask == old(cbMap[fd].eventMask)
      ensures Watched()
    {
    }

    twostate lemma PushedOnReady(n: Node)
      requires old(Chained()) && n !in old(ready) && n !in old(tmp)
      requires readyFirst == n && tmpFirst == old(tmpFirst) && readyListSize == old(readyListSize) + 1
      requires ready == [n] + old(ready) && tmp == old(tmp)
      requires n.next == old(readyFirst) && n.prev == ReadyHead
      requires forall m :: m in old(ready) || m in old(tmp) ==> m.next == old(m.next)
      requires forall m :: (m in old(ready) || m in old(tmp)) && m != old(readyFirst) ==> m.prev == old(m.prev)
      requires old(readyFirst) != null ==> old(readyFirst).prev == NextOf(n)
      ensures Chained()
    {
      var s := old(ready);
      forall i | 0 <= i < |s| ensures s[i].prev == Before(NextOf(n), s, i) && s[i].next == After(s, i) {
        assert s[i] in s;
      }
      assert Linked(tmpFirst, TmpHead, tmp) by {
        forall i | 0 <= i < |tmp| ensures tmp[i].next == old(tmp[i].next) && tmp[i].prev == old(tmp[i].prev) {
          assert tmp[i] in tmp;
        }
      }
      Pushed(n, s);
    }

    lemma ListedOnce()
      requires Valid()
      ensures OnceEach(View())
    {
      hide SimpleEpollServer.Watched;
      forall i | 0 <= i < |ready| ensures Holds(ready[i]) && View().ready[i] == ready[i].fd {
      }
      forall i | 0 <= i < |tmp| ensures Holds(tmp[i]) && View().tmp[i] == tmp[i].fd {
      }
    }

    /** Links n in front of the ready list. */
    method InsertHead(n: Node)
      requires Chained() && n !in ready && n !in tmp && Holds(n)
      requires readyFirst != null ==> Holds(readyFirst) && readyFirst != n && readyFirst.prev != Nowhere
      modifies `readyFirst, `readyListSize, `ready, cbMap.Values`next, cbMap.Values`prev
      ensures Chained() && ready == [n] + old(ready) && n.prev == ReadyHead
      ensures forall fd :: fd in cbMap && cbMap[fd] != n ==> (cbMap[fd].prev == Nowhere <==> old(cbMap[fd].prev) == Nowhere)
    {
      hide SimpleEpollServer.Chained;
      n.next := readyFirst;
      if readyFirst != null {
        readyFirst.prev := NextOf(n);
      }
      readyFirst := n;
      n.prev := ReadyHead;
      ready := [n] + ready;
      readyListSize := readyListSize + 1;
      PushedOnReady(n);
    }

    method AddToReadyList(n: Node)
      requires Valid() && Holds(n) && n.cb != None && n.fd !in leaving
      modifies `readyFirst, `readyListSize, `ready, cbMap.Values`next, cbMap.Values`prev
      ensures Valid() && n.prev != Nowhere
      ensures View() == Placed(old(View()), n.fd)
    {
      hide SimpleEpollServer.Watched, SimpleEpollServer.Filed, SimpleEpollServer.Chained;
      OnAListWhenLinked(n);
      if n.prev == Nowhere {
        FrontHeld();
        InsertHead(n);
        assert ready[1..] == old(ready);
        Refiled(n);
        StillWatched();
        StillParting();
      }
    }

    /** n is the element at place i of one of the lists, linked to its neighbours. */
    ghost predicate At(n: Node, onReady: bool, i: nat)
      reads this, n, n.next
    {
      var s := if onReady then ready else tmp;
      && i < |s| && s[i] == n && Holds(n) && n.next == After(s, i) && n.prev == Before(HeadOf(onReady), s, i)
      && (n.next != null ==> Holds(n.next) && n.next != n && n.next.prev == NextOf(n))
      && (i > 0 ==> Holds(s[i - 1]) && s[i - 1] != n)
    }

    /** Where a registration with a back link is, and that its neighbours are registered. */
    lemma Place(n: Node) returns (onReady: bool, i: nat)
      requires Valid() && Holds(n) && n.prev != Nowhere
      ensures At(n, onReady, i)
    {
      hide SimpleEpollServer.Watched;
      onReady := n in ready;
      if n in ready {
        i :| 0 <= i < |ready| && ready[i] == n;
        if i + 1 < |ready| { assert Holds(ready[i + 1]); }
        if i > 0 { assert Holds(ready[i - 1]); }
      } else {
        i :| 0 <= i < |tmp| && tmp[i] == n;
        if i + 1 < |tmp| { assert Holds(tmp[i + 1]); }
        if i > 0 { assert Holds(tmp[i - 1]); }
      }
    }

    twostate lemma CutFromReady(n: Node, new i: nat)
      requires old(Chained()) && i < |old(ready)| && old(ready)[i] == n
      requires i + 1 < |old(ready)| ==> old(ready)[i + 1].prev == old(n.prev)
      requires i > 0 ==> old(ready)[i - 1].next == old(n.next)
      requires forall m :: m in old(ready) || m in old(tmp) ==> m == n || (i > 0 && m == old(ready)[i - 1]) || m.next == old(m.next)
      requires forall m :: m in old(ready) || m in old(tmp) ==> m == n || (i + 1 < |old(ready)| && m == old(ready)[i + 1]) || m.prev == old(m.prev)
      requires ready == Cut(old(ready), i) && tmp == old(tmp)
      requires readyFirst == (if i == 0 then old(n.next) else old(readyFirst)) && tmpFirst == old(tmpFirst)
      requires readyListSize == old(readyListSize) - 1
      ensures Chained()
    {
      hide Cut, Before, After;
      var s := old(ready);
      forall k | 0 <= k < |tmp| ensures tmp[k].next == old(tmp[k].next) && tmp[k].prev == old(tmp[k].prev) {
        assert tmp[k] in tmp;
      }
      forall k | 0 <= k < |s| && k != i
        ensures k + 1 != i ==> s[k].next == old(s[k].next)
        ensures k != i + 1 ==> s[k].prev == old(s[k].prev)
      {
        assert s[k] in s;
      }
      CutAt(s, i);
      Unlinked(s, i, true);
    }

    twostate lemma CutFromTmp(n: Node, new i: nat)
      requires old(Chained()) && i < |old(tmp)| && old(tmp)[i] == n
      requires i + 1 < |old(tmp)| ==> old(tmp)[i + 1].prev == old(n.prev)
      requires i > 0 ==> old(tmp)[i - 1].next == old(n.next)
      requires forall m :: m in old(ready) || m in old(tmp) ==> m == n || (i > 0 && m == old(tmp)[i - 1]) || m.next == old(m.next)
      requires forall m :: m in old(ready) || m in old(tmp) ==> m == n || (i + 1 < |old(tmp)| && m == old(tmp)[i + 1]) || m.prev == old(m.prev)
      requires tmp == Cut(old(tmp), i) && ready == old(ready)
      requires tmpFirst == (if i == 0 then old(n.next) else old(tmpFirst)) && readyFirst == old(readyFirst)
      requires readyListSize == old(readyListSize) - 1
      ensures Chained()
    {
      hide Cut, Before, After;
      var s := old(tmp);
      forall k | 0 <= k < |ready| ensures ready[k].next == old(ready[k].next) && ready[k].prev == old(ready[k].prev) {
        assert ready[k] in ready;
      }
      forall k | 0 <= k < |s| && k != i
        ensures k + 1 != i ==> s[k].next == old(s[k].next)
        ensures k != i + 1 ==> s[k].prev == old(s[k].prev)
      {
        assert s[k] in s;
      }
      CutAt(s, i);
      Unlinked(s, i, false);
    }

    /** Joins the neighbours of n, the element at place i of one of the lists. */
    method ListRemove(n: Node, ghost onReady: bool, ghost i: nat)
      requires At(n, onReady, i)
      modifies `readyFirst, `tmpFirst, cbMap.Values`next, cbMap.Values`prev
      ensures readyFirst == if onReady && i == 0 then old(n.next) else old(readyFirst)
      ensures tmpFirst == if !onReady && i == 0 then old(n.next) else old(tmpFirst)
      ensures n.next != null ==> n.next.prev == old(n.prev)
      ensures i > 0 ==> (if onReady then ready else tmp)[i - 1].next == n.next
      ensures n.next == old(n.next)
      ensures forall fd :: fd in cbMap && cbMap[fd] != n.next ==> cbMap[fd].prev == old(cbMap[fd].prev)
      ensures forall fd :: fd in cbMap && (i > 0 ==> cbMap[fd] != (if onReady then ready else tmp)[i - 1]) ==> cbMap[fd].next == old(cbMap[fd].next)
    {
      if n.next != null {
        n.next.prev := n.prev;
      }
      match n.prev {
        case ReadyHead => readyFirst := n.next;
        case TmpHead => tmpFirst := n.next;
        case NextOf(p) => p.next := n.next;
      }
    }

    lemma WithoutPlaceInView(onReady: bool, i: nat)
      requires Valid() && i < |if onReady then ready else tmp|
      ensures var s, t := if onReady then ready else tmp, if onReady then tmp else ready;
        Without(Fds(s), s[i].fd) == Fds(Cut(s, i)) && Without(Fds(t), s[i].fd) == Fds(t)
    {
      hide SimpleEpollServer.Valid;
      ListedOnce();
      if onReady {
        WithoutPlace(ready, tmp, i);
      } else {
        WithoutPlace(tmp, ready, i);
      }
    }

    /** Takes out n, the element at place i of one of the lists. */
    method TakeOut(n: Node, ghost onReady: bool, ghost i: nat)
      requires Chained() && (forall m :: m in ready ==> Holds(m)) && (forall m :: m in tmp ==> Holds(m))
      requires forall fd :: fd in cbMap ==> cbMap[fd].fd == fd
      requires At(n, onReady, i)
      modifies `readyFirst, `tmpFirst, `readyListSize, `ready, `tmp, cbMap.Values`next, cbMap.Values`prev
      ensures Chained() && n.prev == Nowhere
      ensures if onReady then ready == Cut(old(ready), i) && tmp == old(tmp) else tmp == Cut(old(tmp), i) && ready == old(ready)
      ensures forall fd :: fd in cbMap && cbMap[fd] != n ==> (cbMap[fd].prev == Nowhere <==> old(cbMap[fd].prev) == Nowhere)
    {
      hide SimpleEpollServer.Chained, Cut, Distinct, Linked, Disjoint, First;
      ListRemove(n, onReady, i);
      n.prev := Nowhere;
      readyListSize := readyListSize - 1;
      if onReady {
        ready := Cut(ready, i);
        CutFromReady(n, i);
      } else {
        tmp := Cut(tmp, i);
        CutFromTmp(n, i);
      }
    }

    /** Takes n off the list it is on, if it is on one. */
    method RemoveFromReadyList(n: Node)
      requires Valid() && Holds(n)
      modifies `readyFirst, `tmpFirst, `readyListSize, `ready, `tmp, cbMap.Values`next, cbMap.Values`prev
      ensures Valid() && n.prev == Nowhere
      ensures View() == Displaced(old(View()), n.fd)
    {
      hide SimpleEpollServer.Watched, SimpleEpollServer.Chained, Without, Fds, Cut, Unique, OnceEach, Before, After;
      OnAListWhenLinked(n);
      if n.prev != Nowhere {
        ghost var onReady, i := Place(n);
        WithoutPlaceInView(onReady, i);
        CutMembers(if onReady then ready else tmp, i);
        TakeOut(n, onReady, i);
        Refiled(n);
        StillWatched();
        StillParting();
      } else {
        WithoutAbsent(View().ready, n.fd);
        WithoutAbsent(View().tmp, n.fd);
      }
    }

    /** The registrations of all other descriptors are as they were. */
    twostate predicate OthersKept(fds: set<int>)
      reads `cbMap, cbMap.Values
    {
      && (forall d :: d in cbMap && d !in fds ==> d in old(cbMap) && cbMap[d] == old(cbMap[d]) && Same(cbMap[d]))
      && (forall d :: d in old(cbMap) && d !in fds ==> d in cbMap)
    }

    /** Registrations in use stay, and so do those whose callback is being told, and no other comes into
        use. */
    twostate predicate Undisturbed()
      reads `cbMap, `leaving, `replaced, cbMap.Values
    {
      leaving == old(leaving) && replaced == old(replaced) && Steady()
    }

    twostate predicate Steady()
      reads `cbMap, `leaving, `replaced, cbMap.Values
    {
      && (forall d :: d in old(cbMap) && (old(cbMap[d].inUse) || d in leaving || d in replaced)
            ==> d in cbMap && cbMap[d] == old(cbMap[d]) && cbMap[d].inUse == old(cbMap[d].inUse))
      && (forall d :: d in cbMap && cbMap[d].inUse ==> d in old(cbMap) && cbMap[d] == old(cbMap[d]) && old(cbMap[d].inUse))
    }

    ghost predicate Registered(fd: int)
      reads `cbMap, cbMap.Values`cb
    {
      fd in cbMap && cbMap[fd].cb != None
    }

    method AddFD(fd: int, eventMask: Mask)
      requires fd !in kernel
      modifies `kernel
      ensures kernel == old(kernel)[fd := eventMask + EPOLL_ERROR_AND_HANGUP]
    {
      kernel := kernel[fd := eventMask + EPOLL_ERROR_AND_HANGUP];
    }

    method ModFD(fd: int, eventMask: Mask)
      requires fd in kernel
      modifies `kernel
      ensures kernel == old(kernel)[fd := eventMask + EPOLL_ERROR_AND_HANGUP]
    {
      kernel := kernel[fd := eventMask + EPOLL_ERROR_AND_HANGUP];
    }

    method DelFD(fd: int)
      requires fd in kernel
      modifies `kernel
      ensures kernel == old(kernel) - {fd}
    {
      kernel := kernel - {fd};
    }

    lemma Known(fd: int)
      requires Valid() && fd in cbMap
      ensures cbMap[fd].cb == None ==> cbMap[fd].inUse && cbMap[fd].prev == Nowhere
      ensures forall d :: d in cbMap ==> cbMap[d].fd == d && Holds(cbMap[d])
      ensures fd in kernel <==> cbMap[fd].cb != None && fd !in leaving
      ensures fd in leaving + replaced ==> cbMap[fd].cb != None
      ensures fd in kernel ==> kernel[fd] == cbMap[fd].eventMask + {3, 4}
    {
    }

    /** Only what is filed under fd has changed, and no list. */
    twostate lemma FiledAfter(fd: int)
      requires old(Filed()) && ready == old(ready) && tmp == old(tmp)
      requires forall d :: d in cbMap && d != fd ==> d in old(cbMap) && cbMap[d] == old(cbMap[d]) && Same(cbMap[d]) && cbMap[d].prev == old(cbMap[d].prev)
      requires forall d :: d in old(cbMap) && d != fd ==> d in cbMap
      requires fd in cbMap ==> cbMap[fd].fd == fd && (cbMap[fd].cb == None ==> cbMap[fd].inUse && cbMap[fd].prev == Nowhere)
      requires fd in cbMap && fd in old(cbMap) ==> cbMap[fd] == old(cbMap[fd]) && cbMap[fd].prev == old(cbMap[fd].prev)
      requires fd in cbMap && fd !in old(cbMap) ==> cbMap[fd].prev == Nowhere
      requires fd !in cbMap ==> (forall i :: 0 <= i < |ready| ==> ready[i].fd != fd) && (forall i :: 0 <= i < |tmp| ==> tmp[i].fd != fd)
      ensures Filed()
    {
    }

    twostate lemma WatchedAfter(fd: int)
      requires old(Watched())
      requires forall d :: d in cbMap && d != fd ==> d in old(cbMap) && cbMap[d] == old(cbMap[d]) && Same(cbMap[d])
      requires forall d :: d in old(cbMap) && d != fd ==> d in cbMap
      requires forall d :: d != fd ==> (d in kernel <==> d in old(kernel)) && (d in kernel ==> kernel[d] == old(kernel[d]))
      requires forall d :: d != fd ==> (d in leaving <==> d in old(leaving))
      requires fd in kernel <==> fd in cbMap && cbMap[fd].cb != None && fd !in leaving
      requires fd in kernel ==> kernel[fd] == cbMap[fd].eventMask + EPOLL_ERROR_AND_HANGUP
      ensures Watched()
    {
    }

    lemma NotListedNow(n: Node)
      requires Valid() && n.fd in cbMap && cbMap[n.fd] == n && n.prev == Nowhere
      ensures forall i :: 0 <= i < |ready| ==> ready[i].fd != n.fd
      ensures forall i :: 0 <= i < |tmp| ==> tmp[i].fd != n.fd
    {
      hide SimpleEpollServer.Watched;
      assert forall i :: 0 <= i < |ready| ==> Holds(ready[i]) && ready[i].prev != Nowhere;
      assert forall i :: 0 <= i < |tmp| ==> Holds(tmp[i]) && tmp[i].prev != Nowhere;
    }

    /** Files another callback under a descriptor that is registered, or was while its node is in use. */
    method Reuse(fd: int, cb: int, eventMask: Mask)
      requires Valid() && fd in cbMap && fd !in leaving
      modifies `kernel, `replaced, cbMap[fd]
      ensures Valid() && replaced == old(replaced) - {fd}
      ensures cbMap[fd].cb == Some(cb) && cbMap[fd].eventMask == eventMask && cbMap[fd].eventsToFake == {}
      ensures cbMap[fd].inUse == old(cbMap[fd].inUse)
    {
      hide SimpleEpollServer.Chained, SimpleEpollServer.Filed, SimpleEpollServer.Watched, SimpleEpollServer.Parting;
      Known(fd);
      var n := cbMap[fd];
      if n.cb != None {
        ModFD(fd, eventMask);
      } else {
        AddFD(fd, eventMask);
      }
      n.cb := Some(cb);
      n.eventMask := eventMask;
      n.eventsToFake := {};
      replaced := replaced - {fd};
      FiledAfter(fd);
      WatchedAfter(fd);
      PartingAfter(fd);
    }

    /** Takes the callback of fd off the lists, to be replaced. */
    method Displace(fd: int)
      requires Valid() && Registered(fd) && fd !in leaving
      modifies `readyFirst, `tmpFirst, `readyListSize, `ready, `tmp, `log, `replaced, cbMap.Values`next, cbMap.Values`prev
      ensures Valid() && replaced == old(replaced) + {fd}
      ensures log == old(log) + [Dropped(fd)] && View() == Displaced(old(View()), fd)
    {
      hide SimpleEpollServer.Chained, SimpleEpollServer.Filed, SimpleEpollServer.Watched, SimpleEpollServer.Parting, SimpleEpollServer.View, SimpleEpollServer.Holds, Placed, Displaced;
      Known(fd);
      RemoveFromReadyList(cbMap[fd]);
      label removed:
      log := log + [Dropped(fd)];
      replaced := replaced + {fd};
      PartingAfter@removed(fd);
    }

    /** OnUnregistration of a callback, which may make calls. */
    method Tell(fd: int, cb: int, replaced: bool, inner: seq<Call>)
      requires Valid() && AllAllowed(inner, leaving, this.replaced)
      modifies this, cbMap.Values
      ensures Valid() && Undisturbed() && OthersKept(Mentioned(inner)) && fresh(cbMap.Values - old(cbMap.Values))
      ensures Told(old(View()), old(log)) && |View().tmp| <= |old(View()).tmp|
      ensures inner == [] ==> log == old(log) && View() == old(View()) && notices == old(notices) + [OnUnregistration(fd, cb, replaced)]
      ensures old(notices) + [OnUnregistration(fd, cb, replaced)] <= notices
      ensures forall i :: |old(log)| <= i < |log| ==> Between(log[i])
      ensures turns == old(turns)
      decreases inner, 1
    {
      hide SimpleEpollServer.Valid, SimpleEpollServer.View, SimpleEpollServer.Told, AllAllowed, Mentioned;
      notices := notices + [OnUnregistration(fd, cb, replaced)];
      MakeCalls(inner);
    }

    /** Tells the callback of fd that another one takes its place. */
    method TellReplaced(fd: int, inner: seq<Call>)
      requires Valid() && Registered(fd) && fd !in leaving + replaced && AllAllowed(inner, leaving, replaced + {fd})
      modifies this, cbMap.Values
      ensures Valid() && Steady() && leaving == old(leaving) && replaced == old(replaced) + {fd}
      ensures OthersKept(Mentioned(inner) + {fd}) && fresh(cbMap.Values - old(cbMap.Values))
      ensures Told(old(View()), old(log)) && |View().tmp| <= |old(View()).tmp| && old(log) + [Dropped(fd)] <= log
      ensures inner == [] ==> log == old(log) + [Dropped(fd)] && View() == Displaced(old(View()), fd)
      ensures forall i :: |old(log)| <= i < |log| ==> Between(log[i])
      ensures old(notices) + [OnUnregistration(fd, old(cbMap[fd].cb).value, true)] <= notices
      ensures inner == [] ==> notices == old(notices) + [OnUnregistration(fd, old(cbMap[fd].cb).value, true)]
      ensures turns == old(turns)
      decreases inner, 2
    {
      hide SimpleEpollServer.Chained, SimpleEpollServer.Filed, SimpleEpollServer.Watched, SimpleEpollServer.Parting, SimpleEpollServer.View, SimpleEpollServer.Holds, SimpleEpollServer.Told, Placed, Displaced, AllAllowed, Mentioned;
      var callback := cbMap[fd].cb.value;
      Displace(fd);
      ghost var view, start := View(), log;
      Tell(fd, callback, true, inner);
      ToldFurther(old(View()), old(log), view, start);
    }

    method AddNode(fd: int, cb: int, eventMask: Mask)
      requires Valid() && fd !in cbMap
      modifies `cbMap, `kernel
      ensures Valid() && fd in cbMap && fresh(cbMap[fd]) && cbMap == old(cbMap)[fd := cbMap[fd]]
      ensures cbMap[fd].cb == Some(cb) && cbMap[fd].eventMask == eventMask && cbMap[fd].eventsToFake == {} && !cbMap[fd].inUse
    {
      hide SimpleEpollServer.Chained, SimpleEpollServer.Filed, SimpleEpollServer.Watched, SimpleEpollServer.Parting;
      Unknown(fd);
      AddFD(fd, eventMask);
      var n := new Node(fd, cb, eventMask);
      cbMap := cbMap[fd := n];
      FiledAfter(fd);
      WatchedAfter(fd);
      PartingAfter(fd);
    }

    /** Tells the callback registered for fd, and files another. */
    method Replace(fd: int, cb: int, eventMask: Mask, inner: seq<Call>)
      requires Valid() && Registered(fd) && fd !in leaving + replaced && AllAllowed(inner, leaving, replaced + {fd})
      modifies this, cbMap.Values
      ensures Valid() && Undisturbed() && OthersKept(Mentioned(inner) + {fd}) && fresh(cbMap.Values - old(cbMap.Values))
      ensures fd in cbMap && cbMap[fd].cb == Some(cb) && cbMap[fd].eventMask == eventMask && cbMap[fd].eventsToFake == {}
      ensures cbMap[fd] == old(cbMap[fd])
      ensures Told(old(View()), old(log)) && |View().tmp| <= |old(View()).tmp| && old(log) + [Dropped(fd)] <= log
      ensures inner == [] ==> log == old(log) + [Dropped(fd)] && View() == Displaced(old(View()), fd)
      ensures forall i :: |old(log)| <= i < |log| ==> Between(log[i])
      ensures old(notices) + [OnUnregistration(fd, old(cbMap[fd].cb).value, true)] <= notices
      ensures inner == [] ==> notices == old(notices) + [OnUnregistration(fd, old(cbMap[fd].cb).value, true)]
      ensures turns == old(turns)
      decreases inner, 3
    {
      hide SimpleEpollServer.Valid, SimpleEpollServer.View, SimpleEpollServer.Holds, SimpleEpollServer.Told, Placed, Displaced, AllAllowed, Mentioned, Between, Allowed;
      TellReplaced(fd, inner);
      assert old(replaced) + {fd} - {fd} == old(replaced);
      Known(fd);
      Reuse(fd, cb, eventMask);
    }

    /** Registers a callback, telling the one that it replaces, if any. */
    method RegisterFD(fd: int, cb: int, eventMask: Mask, inner: seq<Call>)
      requires Valid() && fd !in leaving + replaced && AllAllowed(inner, leaving, replaced + {fd})
      modifies this, cbMap.Values
      ensures Valid() && Undisturbed() && OthersKept(Mentioned(inner) + {fd}) && fresh(cbMap.Values - old(cbMap.Values))
      ensures fd in cbMap && cbMap[fd].cb == Some(cb) && cbMap[fd].eventMask == eventMask && cbMap[fd].eventsToFake == {}
      ensures fd in old(cbMap) ==> cbMap[fd] == old(cbMap[fd])
      ensures fd !in old(cbMap) ==> !cbMap[fd].inUse
      ensures Told(old(View()), old(log)) && |View().tmp| <= |old(View()).tmp|
      ensures if old(Registered(fd)) then old(log) + [Dropped(fd)] <= log else log == old(log) && View() == old(View())
      ensures inner == [] && old(Registered(fd)) ==> log == old(log) + [Dropped(fd)] && View() == Displaced(old(View()), fd)
      ensures forall i :: |old(log)| <= i < |log| ==> Between(log[i])
      ensures |old(notices)| < |notices| && notices[|notices| - 1] == OnRegistration(fd, cb, eventMask)
      ensures old(Registered(fd)) ==> old(notices) + [OnUnregistration(fd, old(cbMap[fd].cb).value, true)] <= notices
      ensures !old(Registered(fd)) ==> notices == old(notices) + [OnRegistration(fd, cb, eventMask)]
      ensures inner == [] && old(Registered(fd)) ==> notices == old(notices) + [OnUnregistration(fd, old(cbMap[fd].cb).value, true), OnRegistration(fd, cb, eventMask)]
      ensures turns == old(turns)
      decreases inner, 4
    {
      hide SimpleEpollServer.Valid, SimpleEpollServer.View, SimpleEpollServer.Holds, SimpleEpollServer.Told, Placed, Displaced, AllAllowed, Mentioned, Between, Allowed;
      StillTold();
      if fd in cbMap {
        Known(fd);
        if cbMap[fd].cb != None {
          Replace(fd, cb, eventMask, inner);
        } else {
          assert replaced - {fd} == replaced;
          Reuse(fd, cb, eventMask);
        }
      } else {
        AddNode(fd, cb, eventMask);
      }
      notices := notices + [OnRegistration(fd, cb, eventMask)];
    }

    /** Ends a registration that is on no list: the kernel forgets it first. */
    method Withdraw(fd: int)
      requires Valid() && Registered(fd) && fd !in leaving
      modifies `readyFirst, `tmpFirst, `readyListSize, `ready, `tmp, `log, `kernel, `leaving, cbMap.Values`next, cbMap.Values`prev
      ensures Valid() && leaving == old(leaving) + {fd}
      ensures log == old(log) + [Dropped(fd)] && View() == Displaced(old(View()), fd)
    {
      hide SimpleEpollServer.Chained, SimpleEpollServer.Filed, SimpleEpollServer.Watched, SimpleEpollServer.Parting, SimpleEpollServer.View, SimpleEpollServer.Holds, Placed, Displaced;
      Known(fd);
      RemoveFromReadyList(cbMap[fd]);
      label removed:
      log := log + [Dropped(fd)];
      DelFD(fd);
      leaving := leaving + {fd};
      WatchedAfter@removed(fd);
      PartingAfter@removed(fd);
    }

    /** Ends a registration but for its node, and tells its callback. */
    method Depart(fd: int, inner: seq<Call>)
      requires Valid() && Registered(fd) && fd !in leaving + replaced && AllAllowed(inner, leaving + {fd}, replaced)
      modifies this, cbMap.Values
      ensures Valid() && Steady() && leaving == old(leaving) + {fd} && replaced == old(replaced)
      ensures OthersKept(Mentioned(inner) + {fd}) && fresh(cbMap.Values - old(cbMap.Values))
      ensures Told(old(View()), old(log)) && |View().tmp| <= |old(View()).tmp| && old(log) + [Dropped(fd)] <= log
      ensures inner == [] ==> log == old(log) + [Dropped(fd)] && View() == Displaced(old(View()), fd)
      ensures forall i :: |old(log)| <= i < |log| ==> Between(log[i])
      ensures old(notices) + [OnUnregistration(fd, old(cbMap[fd].cb).value, false)] <= notices
      ensures inner == [] ==> notices == old(notices) + [OnUnregistration(fd, old(cbMap[fd].cb).value, false)]
      ensures turns == old(turns)
      decreases inner, 2
    {
      hide SimpleEpollServer.Chained, SimpleEpollServer.Filed, SimpleEpollServer.Watched, SimpleEpollServer.Parting, SimpleEpollServer.View, SimpleEpollServer.Holds, SimpleEpollServer.Told, Placed, Displaced, AllAllowed, Mentioned;
      var callback := cbMap[fd].cb.value;
      Withdraw(fd);
      ghost var view, start := View(), log;
      Tell(fd, callback, false, inner);
      ToldFurther(old(View()), old(log), view, start);
    }

    /** Then the registration goes; one in use is kept until its callback returns. */
    method Retire(fd: int)
      requires Valid() && fd in leaving && fd !in replaced
      modifies `leaving, `cbMap, cbMap.Values
      ensures Valid() && !Registered(fd) && leaving == old(leaving) - {fd} && fd in old(cbMap)
      ensures cbMap == if old(cbMap[fd].inUse) then old(cbMap) else old(cbMap) - {fd}
      ensures old(cbMap[fd]).inUse == old(cbMap[fd].inUse) && OthersKept({fd})
      ensures old(cbMap[fd].inUse) ==> cbMap[fd].eventMask == {} && cbMap[fd].eventsToFake == {}
    {
      hide SimpleEpollServer.Chained, SimpleEpollServer.Filed, SimpleEpollServer.Watched, SimpleEpollServer.Parting;
      LeavingKnown(fd);
      Known(fd);
      var n := cbMap[fd];
      NotListedNow(n);
      if !n.inUse {
        cbMap := cbMap - {fd};
      } else {
        n.cb := None;
        n.eventMask := {};
        n.eventsToFake := {};
      }
      leaving := leaving - {fd};
      FiledAfter(fd);
      WatchedAfter(fd);
      PartingAfter(fd);
    }

    lemma LeavingKnown(fd: int)
      requires Valid() && fd in leaving + replaced
      ensures fd in cbMap && cbMap[fd].cb != None
      ensures fd in leaving ==> cbMap[fd].prev == Nowhere
    {
    }

    /** Ends a registration, telling its callback when the kernel has forgotten it. */
    method UnregisterFD(fd: int, inner: seq<Call>)
      requires Valid() && fd !in leaving + replaced && AllAllowed(inner, leaving + {fd}, replaced)
      modifies this, cbMap.Values
      ensures Valid() && Undisturbed() && OthersKept(Mentioned(inner) + {fd}) && fresh(cbMap.Values - old(cbMap.Values))
      ensures !Registered(fd)
      ensures fd in cbMap <==> fd in old(cbMap) && old(cbMap[fd].inUse)
      ensures fd in cbMap ==> cbMap[fd] == old(cbMap[fd])
      ensures fd in cbMap && old(Registered(fd)) ==> cbMap[fd].eventMask == {} && cbMap[fd].eventsToFake == {}
      ensures Told(old(View()), old(log)) && |View().tmp| <= |old(View()).tmp|
      ensures if old(Registered(fd)) then old(log) + [Dropped(fd)] <= log else log == old(log) && View() == old(View())
      ensures inner == [] && old(Registered(fd)) ==> log == old(log) + [Dropped(fd)] && View() == Displaced(old(View()), fd)
      ensures forall i :: |old(log)| <= i < |log| ==> Between(log[i])
      ensures !old(Registered(fd)) ==> notices == old(notices)
      ensures old(Registered(fd)) ==> old(notices) + [OnUnregistration(fd, old(cbMap[fd].cb).value, false)] <= notices
      ensures inner == [] && old(Registered(fd)) ==> notices == old(notices) + [OnUnregistration(fd, old(cbMap[fd].cb).value, false)]
      ensures turns == old(turns)
      decreases inner, 3
    {
      hide SimpleEpollServer.Valid, SimpleEpollServer.View, SimpleEpollServer.Holds, SimpleEpollServer.Told, Placed, Displaced, AllAllowed, Mentioned;
      StillTold();
      if fd in cbMap {
        Known(fd);
      }
      if fd !in cbMap || cbMap[fd].cb == None {
        return;
      }
      Depart(fd, inner);
      assert old(leaving) + {fd} - {fd} == old(leaving);
      Retire(fd);
    }

    method ModifyFD(fd: int, removeEvent: Mask, addEvent: Mask)
      requires Valid() && fd !in leaving
      modifies `kernel, cbMap.Values
      ensures Valid() && Undisturbed() && OthersKept({fd}) && cbMap == old(cbMap) && log == old(log) && View() == old(View())
      ensures Registered(fd) <==> old(Registered(fd))
      ensures Registered(fd) ==> cbMap[fd].eventMask == old(cbMap[fd].eventMask) - removeEvent + addEvent
    {
      hide SimpleEpollServer.Chained;
      if fd !in cbMap {
        return;
      }
      var n := cbMap[fd];
      if n.cb != None {
        n.eventMask := n.eventMask - removeEvent + addEvent;
        ModFD(fd, n.eventMask);
      }
    }

    method HandleEvent(fd: int, eventMask: Mask)
      requires Valid() && fd !in leaving
      modifies `readyFirst, `readyListSize, `ready, `log, cbMap.Values
      ensures Valid() && Undisturbed() && OthersKept({fd})
      ensures Registered(fd) <==> old(Registered(fd))
      ensures Registered(fd) ==> cbMap[fd].cb == old(cbMap[fd].cb)
      ensures Registered(fd) ==> cbMap[fd].eventsAsserted == eventMask && cbMap[fd].eventsToFake == old(cbMap[fd].eventsToFake)
      ensures log == old(log) + if Registered(fd) then [Readied(fd)] else []
      ensures View() == if Registered(fd) then Placed(old(View()), fd) else old(View())
    {
      hide SimpleEpollServer.Chained, SimpleEpollServer.Filed, SimpleEpollServer.Watched, SimpleEpollServer.Parting, SimpleEpollServer.View, SimpleEpollServer.Holds, Placed, Displaced;
      if fd !in cbMap || cbMap[fd].cb == None {
        return;
      }
      var n := cbMap[fd];
      Known(fd);
      n.eventsAsserted := eventMask;
      OnAListWhenLinked(n);
      AddToReadyList(n);
      log := log + [Readied(fd)];
    }

    method SetFDReady(fd: int, eventsToFake: Mask)
      requires Valid() && fd !in leaving
      modifies `readyFirst, `readyListSize, `ready, `log, cbMap.Values
      ensures Valid() && Undisturbed() && OthersKept({fd})
      ensures Registered(fd) <==> old(Registered(fd))
      ensures Registered(fd) ==> cbMap[fd].cb == old(cbMap[fd].cb)
      ensures Registered(fd) ==> cbMap[fd].eventsToFake == eventsToFake && cbMap[fd].eventsAsserted == old(cbMap[fd].eventsAsserted)
      ensures log == old(log) + if Registered(fd) then [Readied(fd)] else []
      ensures View() == if Registered(fd) then Placed(old(View()), fd) else old(View())
    {
      hide SimpleEpollServer.Chained, SimpleEpollServer.Filed, SimpleEpollServer.Watched, SimpleEpollServer.Parting, SimpleEpollServer.View, SimpleEpollServer.Holds, Placed, Displaced;
      if fd in cbMap && cbMap[fd].cb != None {
        var n := cbMap[fd];
        Known(fd);
        n.eventsToFake := eventsToFake;
        OnAListWhenLinked(n);
        AddToReadyList(n);
        log := log + [Readied(fd)];
      }
    }

    method SetFDNotReady(fd: int)
      requires Valid()
      modifies `readyFirst, `tmpFirst, `readyListSize, `ready, `tmp, `log, cbMap.Values
      ensures Valid() && Undisturbed() && OthersKept({fd})
      ensures Registered(fd) <==> old(Registered(fd))
      ensures log == old(log) + if fd in cbMap then [Dropped(fd)] else []
      ensures View() == if fd in cbMap then Displaced(old(View()), fd) else old(View())
    {
      hide SimpleEpollServer.Chained, SimpleEpollServer.Filed, SimpleEpollServer.Watched, SimpleEpollServer.Parting, SimpleEpollServer.View, SimpleEpollServer.Holds, Placed, Displaced;
      if fd in cbMap {
        Known(fd);
        RemoveFromReadyList(cbMap[fd]);
        log := log + [Dropped(fd)];
      }
    }

    method IsFDReady(fd: int) returns (isReady: bool)
      requires Valid()
      ensures isReady <==> Listed(View(), fd)
    {
      isReady := fd in cbMap && cbMap[fd].cb != None && cbMap[fd].prev != Nowhere;
      if fd in cbMap {
        OnAListWhenLinked(cbMap[fd]);
      } else {
        Unknown(fd);
      }
    }

    /** The only registration in use, if any, is n. */
    ghost predicate OnlyInUse(n: Node?)
      reads `cbMap, cbMap.Values`inUse
    {
      forall fd :: fd in cbMap && cbMap[fd].inUse ==> cbMap[fd] == n
    }

    /** The log has grown by entries that lead from the lists given to the present ones. */
    ghost predicate Told(view: Lists, start: seq<Entry<Callback>>)
      reads `ready, `tmp, `log
    {
      start <= log && Replay(view, log[|start|..]) == Some(View())
    }

    lemma ToldOne(view: Lists, start: seq<Entry<Callback>>)
      requires (log == start && View() == view) || (|log| == |start| + 1 && log[..|start|] == start && Next(view, log[|start|]) == Some(View()))
      ensures Told(view, start)
    {
      if log == start {
        assert log[|start|..] == [];
      } else {
        var entries := log[|start|..];
        assert entries[..0] == [] && entries[0] == log[|start|];
        assert Replay(view, entries[..0]) == Some(view);
      }
    }

    lemma ToldMore(view: Lists, start: seq<Entry<Callback>>, view1: Lists, start1: seq<Entry<Callback>>)
      requires start <= start1 && Replay(view, start1[|start|..]) == Some(view1)
      requires Told(view1, start1)
      ensures Told(view, start)
    {
      ReplayAppend(view, start1[|start|..], log[|start1|..]);
      assert log[|start|..] == start1[|start|..] + log[|start1|..];
    }

    lemma StillTold()
      ensures Told(View(), log)
    {
      ToldOne(View(), log);
    }

    lemma ToldFurther(view: Lists, start: seq<Entry<Callback>>, view1: Lists, start1: seq<Entry<Callback>>)
      requires start < start1 && |start1| == |start| + 1 && Next(view, start1[|start|]) == Some(view1)
      requires Told(view1, start1)
      ensures Told(view, start) && start1 <= log
    {
      var entries := start1[|start|..];
      assert entries[..0] == [] && entries[0] == start1[|start|];
      assert Replay(view, entries[..0]) == Some(view);
      ToldMore(view, start, view1, start1);
    }

    /** One call made by a callback, with those that OnUnregistration makes meanwhile. */
    method Obey(c: Call)
      requires Valid() && Allowed(c, leaving, replaced)
      modifies this, cbMap.Values
      ensures Valid() && Undisturbed() && OthersKept({c.request.fd} + Mentioned(c.inner)) && fresh(cbMap.Values - old(cbMap.Values))
      ensures Told(old(View()), old(log)) && |View().tmp| <= |old(View()).tmp|
      ensures forall i :: |old(log)| <= i < |log| ==> Between(log[i])
      ensures old(notices) <= notices && turns == old(turns) && old(log) <= log
      decreases c, 5
    {
      hide SimpleEpollServer.Valid, SimpleEpollServer.View, Without, Listed, AllAllowed, Mentioned;
      match c.request {
        case Register(fd, cb, eventMask) =>
          RegisterFD(fd, cb, eventMask, c.inner);
        case Unregister(fd) =>
          UnregisterFD(fd, c.inner);
        case Modify(fd, removeEvent, addEvent) =>
          ModifyFD(fd, removeEvent, addEvent);
          ToldOne(old(View()), old(log));
        case SetReady(fd, eventsToFake) =>
          SetFDReady(fd, eventsToFake);
          ToldOne(old(View()), old(log));
        case SetNotReady(fd) =>
          SetFDNotReady(fd);
          ToldOne(old(View()), old(log));
      }
    }

    /** The calls a callback makes, one after the other. */
    method MakeCalls(calls: seq<Call>)
      requires Valid() && AllAllowed(calls, leaving, replaced)
      modifies this, cbMap.Values
      ensures Valid() && Undisturbed() && OthersKept(Mentioned(calls)) && fresh(cbMap.Values - old(cbMap.Values))
      ensures Told(old(View()), old(log)) && |View().tmp| <= |old(View()).tmp|
      ensures calls == [] ==> log == old(log) && View() == old(View()) && notices == old(notices)
      ensures old(notices) <= notices && turns == old(turns) && old(log) <= log
      ensures forall i :: |old(log)| <= i < |log| ==> Between(log[i])
      decreases calls, 0
    {
      hide SimpleEpollServer.Valid, SimpleEpollServer.View, Allowed, Mentioned;
      ToldOne(View(), log);
      for i := 0 to |calls|
        invariant Valid() && Undisturbed() && OthersKept(Mentioned(calls)) && fresh(cbMap.Values - old(cbMap.Values))
        invariant Told(old(View()), old(log)) && |View().tmp| <= |old(View()).tmp|
        invariant |old(log)| <= |log| && forall j :: |old(log)| <= j < |log| ==> Between(log[j])
        invariant i == 0 ==> log == old(log) && View() == old(View()) && notices == old(notices)
        invariant old(notices) <= notices && turns == old(turns)
      {
        ghost var view, start := View(), log;
        MentionedEach(calls, i);
        Obey(calls[i]);
        assert forall j :: |old(log)| <= j < |start| ==> log[j] == start[j];
        ToldMore(old(View()), old(log), view, start);
      }
    }

    /** A callback: any calls at all, and any mask of events it is still ready for. */
    method OnEvent(ghost n: Node, events: Mask) returns (outReadyMask: Mask)
      requires Valid() && Quiet() && Holds(n) && n.inUse && OnlyInUse(n)
      modifies this, cbMap.Values
      ensures Valid() && Quiet() && Holds(n) && n.inUse && OnlyInUse(n) && fresh(cbMap.Values - old(cbMap.Values))
      ensures Told(old(View()), old(log)) && |View().tmp| <= |old(View()).tmp|
      ensures forall i :: |old(log)| <= i < |log| ==> Between(log[i])
      ensures outReadyMask == reactions(old(turns)).outReadyMask && turns == old(turns) + 1 && old(log) <= log
    {
      hide SimpleEpollServer.Valid, SimpleEpollServer.View, SimpleEpollServer.Told, Allowed, SimpleEpollServer.OthersKept;
      var reaction := reactions(turns);
      turns := turns + 1;
      MakeCalls(reaction.calls);
      outReadyMask := reaction.outReadyMask;
    }

    /** After its callback returns: forget a registration that was ended meanwhile, or give it another turn. */
    method Finish(n: Node, outReadyMask: Mask)
      requires Valid() && Quiet() && Holds(n) && n.inUse && OnlyInUse(n)
      modifies `readyFirst, `readyListSize, `ready, `cbMap, `log, cbMap.Values
      ensures Valid() && Quiet() && OnlyInUse(null) && cbMap.Values <= old(cbMap.Values)
      ensures Registered(n.fd) <==> old(Registered(n.fd))
      ensures Registered(n.fd) && outReadyMask != {} ==> cbMap[n.fd].eventsToFake == outReadyMask && Listed(View(), n.fd)
      ensures log == old(log) + if Registered(n.fd) && outReadyMask != {} then [Readied(n.fd)] else []
      ensures View() == if Registered(n.fd) && outReadyMask != {} then Placed(old(View()), n.fd) else old(View())
    {
      hide SimpleEpollServer.Chained, SimpleEpollServer.Filed, SimpleEpollServer.Watched, SimpleEpollServer.Parting, SimpleEpollServer.View, Placed, Displaced, Listed;
      Known(n.fd);
      if n.cb == None {
        NotListedNow(n);
      }
      n.inUse := false;
      if n.cb == None {
        cbMap := cbMap - {n.fd};
      }
      FiledAfter(n.fd);
      WatchedAfter(n.fd);
      PartingAfter(n.fd);
      if n.cb != None && outReadyMask != {} {
        n.eventsToFake := outReadyMask;
        AddToReadyList(n);
        OnAListWhenLinked(n);
        log := log + [Readied(n.fd)];
      }
    }

    /** Takes the events that n is ready for, and marks it as being in use. */
    method Use(n: Node) returns (events: Mask)
      requires Valid() && Holds(n)
      modifies n`inUse, n`eventsAsserted, n`eventsToFake
      ensures Valid() && n.inUse && events == old(n.eventsAsserted + n.eventsToFake) && n.eventsAsserted == n.eventsToFake == {}
    {
      hide SimpleEpollServer.Chained, SimpleEpollServer.Filed, SimpleEpollServer.Watched, SimpleEpollServer.Parting;
      Known(n.fd);
      events := n.eventsAsserted + n.eventsToFake;
      n.eventsAsserted, n.eventsToFake := {}, {};
      n.inUse := true;
      FiledAfter(n.fd);
    }

    /** Takes the registration at the front of the list being worked through, ready to be called. */
    method TakeFront() returns (n: Node, events: Mask)
      requires Valid() && Quiet() && OnlyInUse(null) && tmpFirst != null
      modifies `readyFirst, `tmpFirst, `readyListSize, `ready, `tmp, `log, cbMap.Values
      ensures Valid() && Quiet() && cbMap == old(cbMap) && Holds(n) && n.inUse && OnlyInUse(n) && n.cb != None
      ensures n == old(tmpFirst) && n.cb == old(tmpFirst.cb)
      ensures events == old(tmpFirst.eventsAsserted + tmpFirst.eventsToFake) && n.eventsAsserted == n.eventsToFake == {}
      ensures log == old(log) + [Called(n.fd, Callback(n.cb.value, events))]
      ensures Some(View()) == Next(old(View()), Called(n.fd, Callback(n.cb.value, events)))
    {
      hide Next, Without, Fds, Unique, SimpleEpollServer.Holds, SimpleEpollServer.Valid, SimpleEpollServer.View, Placed, Displaced, Listed, OnceEach, First;
      FrontReady();
      FrontNext();
      n := tmpFirst;
      Known(n.fd);
      RemoveFromReadyList(n);
      events := Use(n);
      log := log + [Called(n.fd, Callback(n.cb.value, events))];
    }

    lemma FrontNext()
      requires Valid() && tmpFirst != null
      ensures forall d: Callback :: Next(View(), Called(tmpFirst.fd, d)) == Some(Displaced(View(), tmpFirst.fd))
    {
      hide SimpleEpollServer.Valid, SimpleEpollServer.View, Displaced, Next;
      FrontReady();
      ListedOnce();
      forall d: Callback ensures Next(View(), Called(tmpFirst.fd, d)) == Some(Displaced(View(), tmpFirst.fd)) {
        FrontDropped(View(), Called(tmpFirst.fd, d));
      }
    }

    lemma FrontReady()
      requires Valid() && tmpFirst != null
      ensures Holds(tmpFirst) && tmpFirst.prev != Nowhere && tmpFirst.cb != None
      ensures View().tmp != [] && View().tmp[0] == tmpFirst.fd
    {
    }

    /** Runs the callback at the front of the list being worked through. If the descriptor is still
        registered when it returns, and it asks for more, it is readied with just what it asks for. */
    method CallFront()
      requires Valid() && Quiet() && OnlyInUse(null) && tmpFirst != null
      modifies this, cbMap.Values
      ensures Valid() && Quiet() && OnlyInUse(null) && fresh(cbMap.Values - old(cbMap.Values))
      ensures Told(old(View()), old(log)) && |View().tmp| < |old(View()).tmp|
      ensures |old(log)| < |log| && old(tmpFirst.cb) != None
      ensures log[|old(log)|] == Called(old(tmpFirst.fd), Callback(old(tmpFirst.cb).value, old(tmpFirst.eventsAsserted + tmpFirst.eventsToFake)))
      ensures Turn(log[|old(log)|..], AsksAgain) && turns == old(turns) + 1
      ensures var fd, mask := old(tmpFirst.fd), reactions(old(turns)).outReadyMask;
        if Registered(fd) && mask != {} then
          && cbMap[fd].eventsToFake == mask && Listed(View(), fd)
          && |log| >= 2 && log[|log| - 2..] == [Returned(fd, Answer(true, mask)), Readied(fd)]
        else
          log[|log| - 1] == Returned(fd, Answer(Registered(fd), mask))
    {
      hide SimpleEpollServer.Valid, SimpleEpollServer.View, SimpleEpollServer.Told, Listed, Without, TurnWith;
      var n, events := TakeFront();
      ToldOne(old(View()), old(log));
      ghost var view, start := View(), log;
      var outReadyMask := OnEvent(n, events);
      ToldMore(old(View()), old(log), view, start);
      ghost var view1, start1 := View(), log;
      log := log + [Returned(n.fd, Answer(n.cb != None, outReadyMask))];
      ToldOne(view1, start1);
      ToldMore(old(View()), old(log), view1, start1);
      ghost var view2, start2 := View(), log;
      Finish(n, outReadyMask);
      ToldOne(view2, start2);
      ToldMore(old(View()), old(log), view2, start2);
      IsTurn(old(log), start, start1, log, start2[|start1|].details, AsksAgain);
    }

    twostate lemma Swapped()
      requires old(Chained()) && old(tmp) == [] && ready == [] && tmp == old(ready)
      requires readyFirst == old(tmpFirst) && tmpFirst == old(readyFirst) && readyListSize == old(readyListSize)
      requires forall m :: m in tmp ==> m.next == old(m.next) && m.prev == if m == tmpFirst then TmpHead else old(m.prev)
      ensures Chained()
    {
      forall i | 0 <= i < |tmp| ensures tmp[i].next == After(tmp, i) && tmp[i].prev == Before(TmpHead, tmp, i) {
        assert tmp[i] in tmp && (i > 0 ==> tmp[i] != tmp[0]);
      }
    }

    twostate lemma FiledAfterSwap()
      requires old(Filed()) && cbMap == old(cbMap) && ready == old(tmp) && tmp == old(ready)
      requires forall fd :: fd in cbMap ==> Same(cbMap[fd]) && (cbMap[fd].prev == Nowhere <==> old(cbMap[fd].prev) == Nowhere)
      ensures Filed()
    {
    }

    /** Moves the whole ready list over to the list to be worked through. */
    method SwapLists()
      requires Valid() && tmp == []
      modifies `readyFirst, `tmpFirst, `ready, `tmp, cbMap.Values`prev
      ensures Valid() && View() == Lists([], old(View()).ready)
      ensures tmpFirst == old(readyFirst) && readyFirst == null
    {
      hide SimpleEpollServer.Watched, SimpleEpollServer.Filed, SimpleEpollServer.Chained;
      FrontHeld();
      readyFirst, tmpFirst := tmpFirst, readyFirst;
      ready, tmp := tmp, ready;
      if tmpFirst != null {
        tmpFirst.prev := TmpHead;
      }
      Swapped();
      FiledAfterSwap();
      StillWatched();
    }

    /** One round. It ends whatever the callbacks do. The lists after it are those that the logged
        history leads to, and nothing is left waiting. */
    method CallReadyListCallbacks()
      requires Valid() && Quiet() && OnlyInUse(null) && tmp == []
      modifies this, cbMap.Values
      ensures Valid() && Quiet() && OnlyInUse(null) && fresh(cbMap.Values - old(cbMap.Values)) && tmp == []
      ensures Told(Lists([], old(View()).ready), old(log))
      ensures Turns(log[|old(log)|..], AsksAgain)
    {
      hide SimpleEpollServer.Chained, SimpleEpollServer.Filed, SimpleEpollServer.Watched, Without, Listed, Turn, Turns;
      assert log[|log|..] == [];
      NoTurns(AsksAgain);
      SwapLists();
      if tmpFirst != null {
        ToldOne(View(), log);
        while tmpFirst != null
          invariant Valid() && Quiet() && OnlyInUse(null) && fresh(cbMap.Values - old(cbMap.Values))
          invariant Told(Lists([], old(View()).ready), old(log)) && old(log) <= log
          invariant Turns(log[|old(log)|..], AsksAgain)
          decreases |View().tmp|
        {
          ghost var view, start := View(), log;
          CallFront();
          OneMoreTurn(start[|old(log)|..], log[|start|..], AsksAgain);
          assert log[|old(log)|..] == start[|old(log)|..] + log[|start|..];
          ToldMore(Lists([], old(View()).ready), old(log), view, start);
        }
      } else {
        ToldOne(View(), log);
      }
      EmptyWhenNoFront();
    }

    /** What a finished round amounts to, descriptor by descriptor. */
    lemma RoundIsFair(pending: seq<int>, start: seq<Entry<Callback>>, fd: int)
      requires Valid() && tmp == [] && Unique(pending) && Told(Lists([], pending), start) && Turns(log[|start|..], AsksAgain)
      ensures Calls(log[|start|..], fd) == if fd in pending && KeptItsTurn(log[|start|..], fd) then 1 else 0
      ensures fd in View().ready <==> LastReadied(log[|start|..], fd, fd in pending)
      ensures NewestFirst(Lists([], pending), log[|start|..])
      ensures Answered(log[|start|..], AsksAgain, fd, fd in View().ready)
    {
      hide Turns, NewestFirst, Replay, Answered;
      AllAnswered(log[|start|..], AsksAgain, fd, fd in pending);
      ReadyOrder(Lists([], pending), log[|start|..]);
      CalledOncePerRound(pending, log[|start|..], View().ready, fd);
      ListedWhenLastReadied(Lists([], pending), log[|start|..], fd);
    }

    /** Every event the kernel reports for a registered descriptor is recorded, the last one for each, and
        gives it a place. */
    method HandleEvents(events: seq<(int, Mask)>)
      requires Valid() && Quiet() && OnlyInUse(null) && tmp == []
      modifies `readyFirst, `readyListSize, `ready, `log, cbMap.Values
      ensures Valid() && OnlyInUse(null) && View().tmp == []
      ensures forall fd :: Registered(fd) <==> old(Registered(fd))
      ensures forall fd :: fd in View().ready <==> fd in old(View()).ready || (old(Registered(fd)) && exists k :: 0 <= k < |events| && events[k].0 == fd)
      ensures old(log) <= log && forall k :: |old(log)| <= k < |log| ==> log[k].Readied?
      ensures forall k :: 0 <= k < |events| && Registered(events[k].0) && (forall m :: k < m < |events| ==> events[m].0 != events[k].0) ==> cbMap[events[k].0].eventsAsserted == events[k].1
    {
      hide SimpleEpollServer.Chained, SimpleEpollServer.Filed, SimpleEpollServer.Watched, SimpleEpollServer.Parting, SimpleEpollServer.View, SimpleEpollServer.Told, Without;
      TmpView();
      for i := 0 to |events|
        invariant Valid() && OnlyInUse(null)
        invariant forall fd :: Registered(fd) <==> old(Registered(fd))
        invariant View().tmp == []
        invariant forall fd :: fd in View().ready <==> fd in old(View()).ready || (old(Registered(fd)) && exists k :: 0 <= k < i && events[k].0 == fd)
        invariant old(log) <= log && forall k :: |old(log)| <= k < |log| ==> log[k].Readied?
        invariant forall k :: 0 <= k < i && Registered(events[k].0) && (forall m :: k < m < i ==> events[m].0 != events[k].0) ==> cbMap[events[k].0].eventsAsserted == events[k].1
      {
        HandleEvent(events[i].0, events[i].1);
      }
    }

    /** One turn of the event loop: the descriptors of which events are reported get a place, and then a
        round is run. */
    method WaitForEventsAndCallHandleEvents(events: seq<(int, Mask)>) returns (ghost pending: seq<int>, ghost start: seq<Entry<Callback>>)
      requires Valid() && Quiet() && OnlyInUse(null) && tmp == []
      modifies this, cbMap.Values
      ensures Valid() && Quiet() && OnlyInUse(null) && tmp == []
      ensures forall fd :: fd in pending <==> fd in old(View()).ready || (old(Registered(fd)) && exists i :: 0 <= i < |events| && events[i].0 == fd)
      ensures old(log) <= start && forall i :: |old(log)| <= i < |start| ==> start[i].Readied?
      ensures Unique(pending) && Told(Lists([], pending), start) && Turns(log[|start|..], AsksAgain)
    {
      hide SimpleEpollServer.Chained, SimpleEpollServer.Filed, SimpleEpollServer.Watched, SimpleEpollServer.Parting, SimpleEpollServer.View, SimpleEpollServer.Told, Without, Turns;
      HandleEvents(events);
      TmpView();
      ListedOnce();
      pending, start := View().ready, log;
      NoTurns(AsksAgain);
      assert log[|log|..] == [];
      if readyFirst != null {
        CallReadyListCallbacks();
      } else {
        NothingReady();
        ToldOne(Lists([], pending), start);
      }
    }

    /** Walks both lists; the count it ends with is the size the server keeps. */
    method VerifyReadyList() returns (count: int)
      requires Valid()
      ensures count == readyListSize
    {
      hide SimpleEpollServer.Filed, SimpleEpollServer.Watched, Linked;
      count := CountFrom(readyFirst, ReadyHead, ready);
      var onTmp := CountFrom(tmpFirst, TmpHead, tmp);
      count := count + onTmp;
    }

    lemma TmpView()
      requires Valid()
      ensures tmp == [] <==> View().tmp == []
    {
    }

    lemma NothingReady()
      requires Valid() && readyFirst == null
      ensures View().ready == []
    {
    }

    lemma EmptyWhenNoFront()
      requires Valid() && tmpFirst == null
      ensures tmp == []
    {
    }

    lemma Unknown(fd: int)
      requires Valid() && fd !in cbMap
      ensures fd !in kernel && fd !in leaving + replaced && !Listed(View(), fd)
    {
      forall i | 0 <= i < |ready| ensures Holds(ready[i]) && View().ready[i] == ready[i].fd {
      }
      forall i | 0 <= i < |tmp| ensures Holds(tmp[i]) && View().tmp[i] == tmp[i].fd {
      }
    }
  }

  /** Everything about a registration but its links. */
  twostate predicate Same(n: Node)
    reads n
  {
    n.cb == old(n.cb) && n.eventMask == old(n.eventMask) && n.inUse == old(n.inUse)
    && n.eventsAsserted == old(n.eventsAsserted) && n.eventsToFake == old(n.eventsToFake)
  }

  method CountFrom(first: Node?, ghost head: Link, ghost s: seq<Node>) returns (count: nat)
    requires Linked(first, head, s)
    ensures count == |s|
  {
    count := 0;
    var cur := first;
    while cur != null
      invariant count <= |s| && cur == (if count < |s| then s[count] else null)
      decreases |s| - count
    {
      count := count + 1;
      cur := cur.next;
    }
  }

  lemma {:induction false} WithoutFds(s: seq<Node>, i: nat)
    requires i < |s| && forall k :: 0 <= k < |s| && k != i ==> s[k].fd != s[i].fd
    ensures Without(Fds(s), s[i].fd) == Fds(Cut(s, i))
    decreases i
  {
    hide Unique, Cut;
    var fd := s[i].fd;
    assert Fds(s)[1..] == Fds(s[1..]);
    if i == 0 {
      CutFirst(s);
      forall x | x in Fds(s[1..]) ensures x != fd {
        var k :| 0 <= k < |s| - 1 && Fds(s[1..])[k] == x;
        assert s[1..][k] == s[k + 1];
      }
      WithoutAbsent(Fds(s[1..]), fd);
    } else {
      WithoutFds(s[1..], i - 1);
      CutTail(s, i);
      assert Without(Fds(s), fd) == [s[0].fd] + Without(Fds(s)[1..], fd);
    }
  }

  lemma WithoutPlace(s: seq<Node>, t: seq<Node>, i: nat)
    requires i < |s| && Unique(Fds(s)) && forall fd :: fd in Fds(s) ==> fd !in Fds(t)
    ensures Without(Fds(s), s[i].fd) == Fds(Cut(s, i)) && Without(Fds(t), s[i].fd) == Fds(t)
  {
    var fds := Fds(s);
    forall k | 0 <= k < |s| && k != i ensures s[k].fd != s[i].fd {
      assert fds[k] != fds[i];
    }
    WithoutFds(s, i);
    assert Fds(s)[i] in Fds(s);
    WithoutAbsent(Fds(t), s[i].fd);
  }

  lemma CutMembers(s: seq<Node>, i: nat)
    requires i < |s|
    ensures forall m :: m in Cut(s, i) ==> m in s
    ensures forall m :: m in s ==> m == s[i] || m in Cut(s, i)
  {
    forall m | m in s && m != s[i] ensures m in Cut(s, i) {
      var k :| 0 <= k < |s| && s[k] == m;
      assert Cut(s, i)[if k < i then k else k - 1] == m;
    }
  }

  /** What is left of a chain when element i has been unlinked. */
  twostate lemma Unlinked(s: seq<Node>, new i: nat, new onReady: bool)
    requires i < |s| && Distinct(s)
    requires old(Linked(First(s), HeadOf(onReady), s))
    requires forall k :: 0 <= k < |s| && k != i ==> s[k].next == if k + 1 == i then old(s[i].next) else old(s[k].next)
    requires forall k :: 0 <= k < |s| && k != i ==> s[k].prev == if k == i + 1 then old(s[i].prev) else old(s[k].prev)
    ensures Distinct(Cut(s, i))
    ensures Linked(if i == 0 then old(s[i].next) else s[0], HeadOf(onReady), Cut(s, i))
  {
    hide Cut;
    CutAt(s, i);
    var t := Cut(s, i);
    forall k | 0 <= k < |t| ensures t[k].next == After(t, k) && t[k].prev == Before(HeadOf(onReady), t, k) {
      if k < i {
        assert t[k] == s[k];
      } else {
        assert t[k] == s[k + 1];
      }
    }
  }

  /** A chain with a new element in front. */
  twostate lemma Pushed(new n: Node, s: seq<Node>)
    requires n !in s && Distinct(s)
    requires old(Linked(First(s), ReadyHead, s))
    requires n.prev == ReadyHead && n.next == First(s)
    requires forall i :: 0 <= i < |s| ==> s[i].next == old(s[i].next)
    requires forall i :: 0 <= i < |s| ==> s[i].prev == Before(NextOf(n), s, i)
    ensures Linked(n, ReadyHead, [n] + s)
  {
    var t := [n] + s;
    forall i | 0 <= i < |t| ensures t[i].next == After(t, i) && t[i].prev == Before(ReadyHead, t, i) {
      if i > 0 {
        assert t[i] == s[i - 1];
      }
    }
  }
}
