/** The list of sources that wait for a timed receive, and the pass of the worker over it. */
module ReceiveList {

  import opened Sequences

  /** What points at a list node: nothing, the head of the list, or the node before. */
  datatype Link = Unlinked | AtHead | Behind(prev: Source)

  class Source {
    var nextReceive: int
    var receiveNext: Source?
    var receiveLink: Link
    var failed: bool
    var coalesced: bool
    var armed: bool
    var checkSince: int
    var checkPackets: nat

    /** How often the worker read from this source. */
    ghost var timesRead: nat

    const delayMax: nat
    const packetLimit: nat

    constructor (delayMax: nat, packetLimit: nat)
      ensures this.delayMax == delayMax && this.packetLimit == packetLimit && coalesced == (delayMax > 0)
      ensures nextReceive == 0 && receiveNext == null && receiveLink == Unlinked && !failed && armed && Ready()
      ensures timesRead == 0 && checkSince == 0 && checkPackets == 0
    {
      this.delayMax, this.packetLimit := delayMax, packetLimit;
      nextReceive, receiveNext, receiveLink := 0, null, Unlinked;
      failed, coalesced, armed, checkSince, checkPackets, timesRead := false, delayMax > 0, true, 0, 0, 0;
    }

    /** Only sources with room for a delay are coalesced, and the others are always notified. */
    predicate Ready()
      reads this`failed, this`coalesced, this`armed
    {
      (coalesced ==> delayMax > 0) && (!coalesced && !failed ==> armed)
    }

    /** Ask for notifications, once or continuously; `ok` is the answer of the poller. */
    method Rearm(once: bool, ok: bool)
      modifies this`failed, this`coalesced, this`armed
      ensures ok ==> coalesced == once && armed && failed == old(failed)
      ensures !ok ==> failed && coalesced == old(coalesced)
    {
      if !ok {
        failed := true;
        return;
      }
      coalesced := once;
      armed := true;
    }

    /** The packets counted since the last check, while notifications are taken one by one. */
    ghost function Seen(count: nat): nat
      reads this`coalesced, this`checkPackets
    {
      if coalesced || delayMax == 0 then checkPackets else checkPackets + count
    }

    /** The rate is looked at anew: at a read that fills the limit, and every 100 milliseconds after that. */
    ghost predicate Checks(count: nat, now: int)
      reads this`coalesced, this`checkSince
    {
      if coalesced then count >= packetLimit else delayMax != 0 && now - checkSince >= 100
    }

    /** At this rate only half the limit would come within the longest delay. */
    ghost predicate Quiet(count: nat, now: int)
      reads this`coalesced, this`checkSince, this`checkPackets
    {
      Checks(count, now) && 2 * delayMax * Seen(count) < packetLimit * (now - checkSince)
    }

    /** The socket is armed anew: when a read fills the limit, when it finds nothing, and when a busy source is quiet
      * again. */
    ghost predicate Rearms(count: nat, now: int)
      reads this`coalesced, this`checkSince, this`checkPackets
    {
      if coalesced then count == 0 || count >= packetLimit else Quiet(count, now)
    }

    /** Choose when to read next: 0 waits for a notification. */
    method Decide(count: nat, now: int, ok: bool)
      requires Ready() && now >= 0
      modifies this`nextReceive, this`failed, this`coalesced, this`armed, this`checkSince, this`checkPackets
      ensures Ready()
      ensures nextReceive == 0 || now < nextReceive <= now + if delayMax > 1 then delayMax else 1
      ensures failed || nextReceive != 0 || armed
      ensures nextReceive != 0 <==> !old(failed) && old(coalesced) && 0 < count < packetLimit
      ensures nextReceive != 0 ==> nextReceive == now + if old(nextReceive) != 0 && count < 16 then delayMax else 1
      ensures failed == (old(failed) || (!ok && old(Rearms(count, now))))
      ensures coalesced == if !old(failed) && ok && old(Rearms(count, now)) then count < packetLimit || !old(coalesced)
                           else old(coalesced)
      ensures !old(failed) ==> checkSince == if old(Checks(count, now)) then now else old(checkSince)
      ensures !old(failed) ==> checkPackets == if old(Checks(count, now)) then 0 else old(Seen(count))
      ensures old(failed) ==> checkSince == old(checkSince) && checkPackets == old(checkPackets)
    {
      if failed {
        nextReceive := 0;
      } else if !coalesced {
        nextReceive := 0;
        if delayMax != 0 {
          checkPackets := checkPackets + count;
          var elapsed := now - checkSince;
          if elapsed >= 100 {
            if checkPackets * delayMax * 2 < elapsed * packetLimit {
              Rearm(true, ok);
            }
            checkSince := now;
            checkPackets := 0;
          }
        }
      } else if count >= packetLimit {
        nextReceive := 0;
        Rearm(false, ok);
        checkSince := now;
        checkPackets := 0;
      } else if count > 0 {
        var delay := if nextReceive != 0 && count < 16 then delayMax else 1;
        nextReceive := now + delay;
      } else {
        nextReceive := 0;
        Rearm(true, ok);
      }
    }
  }

  ghost function After(list: seq<Source>, i: nat): Source? {
    if i + 1 < |list| then list[i + 1] else null
  }

  ghost function Before(list: seq<Source>, i: nat): Link
    requires i <= |list|
  {
    if i == 0 then AtHead else Behind(list[i - 1])
  }

  ghost predicate Linked(list: seq<Source>)
    reads list`receiveNext, list`receiveLink
  {
    (forall i :: 0 <= i < |list| ==> list[i].receiveNext == After(list, i)) &&
    forall i :: 0 <= i < |list| ==> list[i].receiveLink == Before(list, i)
  }

  ghost predicate ChainOf(head: Source?, list: seq<Source>, sources: set<Source>)
    reads sources`receiveNext, sources`receiveLink
  {
    Distinct(list) && (forall s :: s in list ==> s in sources) && Linked(list) &&
    head == (if list == [] then null else list[0]) &&
    forall s :: s in sources && s !in list ==> s.receiveLink == Unlinked && s.receiveNext == null
  }

  /** The sources of a list whose time has come. */
  ghost function Due(list: seq<Source>, now: int): seq<Source>
    reads list`nextReceive
  {
    if list == [] then [] else (if list[0].nextReceive <= now then [list[0]] else []) + Due(list[1..], now)
  }

  class Worker {
    var head: Source?

    ghost var list: seq<Source>
    ghost var sources: set<Source>

    /** The links describe the list, and sources that are not on it are not linked. */
    ghost predicate Chain()
      reads this, sources`receiveNext, sources`receiveLink
    {
      ChainOf(head, list, sources)
    }

    /** A source is on the list exactly when it has a time to receive. */
    ghost predicate Timed(except: Source?)
      reads this`list, this`sources, sources`nextReceive
    {
      forall s :: s in sources && s != except ==> (s in list <==> s.nextReceive != 0)
    }

    ghost predicate AllReady()
      reads this`sources, sources`failed, sources`coalesced, sources`armed
    {
      forall s :: s in sources ==> s.Ready()
    }

    constructor ()
      ensures Chain() && AllReady() && Timed(null) && list == [] && sources == {}
    {
      head, list, sources := null, [], {};
    }

    /** A new source belongs to the worker. */
    ghost method Admit(s: Source)
      requires Chain() && AllReady() && Timed(null) && s !in sources
      requires s.nextReceive == 0 && s.receiveNext == null && s.receiveLink == Unlinked && s.Ready()
      modifies this`sources
      ensures Chain() && AllReady() && Timed(null) && sources == old(sources) + {s} && list == old(list)
    {
      sources := sources + {s};
    }

    /** A source that goes leaves the list. */
    method Release(s: Source)
      requires Chain() && AllReady() && Timed(null) && s in sources
      modifies this`head, this`list, this`sources, sources`receiveNext, sources`receiveLink
      ensures Chain() && AllReady() && Timed(null) && sources == old(sources) - {s}
      ensures s.receiveLink == Unlinked && s.receiveNext == null && forall t :: t in list <==> t in old(list) && t != s
    {
      hide ChainOf, RemoveAt, Distinct;
      var _ := Unlink(s);
      Freed(s);
      sources := sources - {s};
    }

    /** A source that is off the list is not linked, and nothing else needs it. */
    lemma Freed(s: Source)
      requires Chain() && s in sources && s !in list
      ensures ChainOf(head, list, sources - {s}) && s.receiveLink == Unlinked && s.receiveNext == null
    {
    }

    /** Take a source off the list in constant time; `i` is where it was. */
    method Unlink(s: Source) returns (ghost i: nat)
      requires Chain() && s in sources
      modifies this`head, this`list, sources`receiveNext, sources`receiveLink
      ensures Chain() && s !in list
      ensures s !in old(list) ==> list == old(list)
      ensures forall t :: t in list <==> t in old(list) && t != s
      ensures s in old(list) ==> i < |old(list)| && old(list)[i] == s && list == RemoveAt(old(list), i)
    {
      hide RemoveAt, ChainOf, Distinct, After, Before;
      OnList(s);
      i := 0;
      if s.receiveLink == Unlinked {
        return;
      }
      i :| 0 <= i < |list| && list[i] == s;
      Bypass(s, i);
      Mend(i);
      list := RemoveAt(list, i);
    }

    lemma OnList(s: Source)
      requires Chain() && s in sources
      ensures s in list <==> s.receiveLink != Unlinked
    {
    }

    /** With its neighbours pointing past a node, the rest of the list is linked. */
    lemma Mend(i: nat)
      requires Distinct(list) && i < |list| && (forall s :: s in list ==> s in sources)
      requires list[i].receiveNext == null && list[i].receiveLink == Unlinked
      requires forall j :: 0 <= j < |list| && j != i ==>
        list[j].receiveNext == if j + 1 == i then After(list, i) else After(list, j)
      requires forall j :: 0 <= j < |list| && j != i ==>
        list[j].receiveLink == if j == i + 1 then Before(list, i) else Before(list, j)
      requires forall t :: t in sources && t !in list ==> t.receiveLink == Unlinked && t.receiveNext == null
      requires head == if i > 0 then list[0] else After(list, i)
      ensures ChainOf(head, RemoveAt(list, i), sources)
      ensures forall t :: t in RemoveAt(list, i) <==> t in list && t != list[i]
    {
      hide RemoveAt, After, Before;
      RemoveAtFacts(list, i);
      var rest := RemoveAt(list, i);
      forall j | 0 <= j < |rest|
        ensures rest[j].receiveNext == After(rest, j) && rest[j].receiveLink == Before(rest, j) {
        RemovedLinks(list, i, j);
      }
      RemovedHead(list, i);
      assert Linked(rest) && head == if rest == [] then null else rest[0];
      assert forall s :: s in rest ==> s in sources;
    }

    lemma Neighbours(i: nat)
      requires Linked(list) && i < |list|
      ensures list[i].receiveNext == After(list, i) == (if i + 1 < |list| then list[i + 1] else null)
      ensures list[i].receiveLink == Before(list, i) == (if i > 0 then Behind(list[i - 1]) else AtHead)
    {
    }

    /** What points at a node points at the one after it. */
    method Forward(s: Source, ghost i: nat)
      requires Chain() && i < |list| && list[i] == s
      modifies this`head, sources`receiveNext
      ensures head == if i > 0 then list[0] else After(list, i)
      ensures forall j :: 0 <= j < |list| ==>
        list[j].receiveNext == if j + 1 == i then After(list, i) else After(list, j)
      ensures forall t :: t in sources && t !in list ==> t.receiveNext == null
    {
      Neighbours(i);
      hide After, Before;
      match s.receiveLink {
        case AtHead => head := s.receiveNext;
        case Behind(prev) => prev.receiveNext := s.receiveNext;
      }
    }

    /** The node after a node is pointed at by what pointed at the node. */
    method Backward(s: Source, ghost i: nat)
      requires Distinct(list) && (forall t :: t in list ==> t in sources) && i < |list| && list[i] == s
      requires s.receiveNext == After(list, i)
      requires forall j :: 0 <= j < |list| ==> list[j].receiveLink == Before(list, j)
      requires forall t :: t in sources && t !in list ==> t.receiveLink == Unlinked
      modifies sources`receiveLink
      ensures forall j :: 0 <= j < |list| ==>
        list[j].receiveLink == if j == i + 1 then Before(list, i) else Before(list, j)
      ensures forall t :: t in sources && t !in list ==> t.receiveLink == Unlinked
    {
      hide Before;
      if s.receiveNext != null {
        s.receiveNext.receiveLink := s.receiveLink;
      }
    }

    /** Let the neighbours of a node point past it, and the node at nothing. */
    method Bypass(s: Source, ghost i: nat)
      requires Chain() && i < |list| && list[i] == s
      modifies this`head, sources`receiveNext, sources`receiveLink
      ensures Distinct(list) && (forall t :: t in list ==> t in sources)
      ensures head == if i > 0 then list[0] else After(list, i)
      ensures s.receiveNext == null && s.receiveLink == Unlinked
      ensures forall j :: 0 <= j < |list| && j != i ==>
        list[j].receiveNext == if j + 1 == i then After(list, i) else After(list, j)
      ensures forall j :: 0 <= j < |list| && j != i ==>
        list[j].receiveLink == if j == i + 1 then Before(list, i) else Before(list, j)
      ensures forall t :: t in sources && t !in list ==> t.receiveLink == Unlinked && t.receiveNext == null
    {
      hide After, Before;
      assert s.receiveNext == After(list, i);
      Forward(s, i);
      Backward(s, i);
      s.receiveLink := Unlinked;
      s.receiveNext := null;
    }

    /** Put a source in front of the list. */
    method Push(s: Source)
      requires Chain() && s in sources && s !in list
      modifies this`head, this`list, sources`receiveNext, sources`receiveLink
      ensures Chain() && list == [s] + old(list)
    {
      s.receiveNext := head;
      s.receiveLink := AtHead;
      if head != null {
        head.receiveLink := Behind(s);
      }
      head := s;
      list := [s] + list;
      forall i | 0 < i < |list|
        ensures list[i].receiveNext == After(list, i) && list[i].receiveLink == Before(list, i) {
        assert list[i] == old(list)[i - 1] && After(list, i) == After(old(list), i - 1);
      }
    }

    /** Decide when to read from a source next, and put it on the list or take it off accordingly. */
    method Schedule(s: Source, count: nat, now: int, ok: bool)
      requires Chain() && AllReady() && Timed(s) && s in sources && now >= 0
      modifies this`head, this`list, sources`receiveNext, sources`receiveLink, s
      ensures Chain() && AllReady() && Timed(null)
      ensures s.failed || s.nextReceive != 0 || s.armed
      ensures s.nextReceive == 0 || s.nextReceive > now
      ensures s !in old(list) ==> list == (if s.nextReceive == 0 then [] else [s]) + old(list)
      ensures s.timesRead == old(s.timesRead)
    {
      hide ChainOf, RemoveAt;
      OnList(s);
      s.Decide(count, now, ok);
      if s.nextReceive == 0 {
        var _ := Unlink(s);
        assert [] + old(list) == old(list);
      } else if s.receiveLink == Unlinked {
        Push(s);
      }
    }

    /** Read from a source: it may fail. */
    method Receive(s: Source, fails: bool)
      requires s.Ready()
      modifies s`failed, s`timesRead
      ensures s.Ready() && s.timesRead == old(s.timesRead) + 1
      ensures s.failed == (old(s.failed) || fails)
    {
      s.timesRead := s.timesRead + 1;
      if fails {
        s.failed := true;
      }
    }

    /** A notification for a source arrives; a coalesced source is notified only once. */
    method HandleEvent(s: Source, count: nat, fails: bool, now: int, ok: bool)
      requires Chain() && AllReady() && Timed(null) && s in sources && now >= 0
      modifies this`head, this`list, sources`receiveNext, sources`receiveLink, s
      ensures Chain() && AllReady() && Timed(null) && (s.failed || s.nextReceive != 0 || s.armed)
      ensures s.timesRead == old(s.timesRead) + 1
    {
      hide ChainOf;
      if s.coalesced {
        s.armed := false;
      }
      Receive(s, fails);
      Schedule(s, count, now, ok);
    }

    /** Read from one source on the list and schedule it again. What follows it on the list stays as it is. */
    method Serve(s: Source, count: nat, fails: bool, now: int, ok: bool, ghost front: seq<Source>,
      ghost rest: seq<Source>)
      returns (ghost before: seq<Source>)
      requires Chain() && AllReady() && Timed(null) && now >= 0 && list == front + ([s] + rest)
      modifies this`head, this`list, sources`receiveNext, sources`receiveLink, s
      ensures Chain() && AllReady() && Timed(null) && list == before + rest
      ensures (s.nextReceive == 0 || s.nextReceive > now) && s.timesRead == old(s.timesRead) + 1
    {
      hide ChainOf, Linked, Distinct, RemoveAt, Source.Ready;
      assert list[|front|] == s;
      InSources(|front|);
      var i := Unlink(s);
      SameIndex(old(list), i, |front|);
      RemovedMiddle(front, s, rest);
      Receive(s, fails);
      Schedule(s, count, now, ok);
      before := (if s.nextReceive == 0 then [] else [s]) + front;
    }

    lemma HeadIsFirst()
      requires Chain()
      ensures head == First(list)
    {
    }

    lemma InSources(i: nat)
      requires Chain() && i < |list|
      ensures list[i] in sources && Distinct(list)
      ensures list[i].receiveNext == (if i + 1 < |list| then list[i + 1] else null)
    {
      assert list[i].receiveNext == After(list, i);
    }

    /** Exactly the sources served were read, once each, and have a later time or none; the others are as they were. */
    ghost predicate Recorded(served: seq<Source>, times: map<Source, nat>, nexts: map<Source, int>, now: int)
      reads this`sources, sources`timesRead, sources`nextReceive
    {
      (forall s :: s in sources ==> s in times && s.timesRead == times[s] + if s in served then 1 else 0) &&
      forall s :: s in sources ==>
        if s in served then s.nextReceive == 0 || s.nextReceive > now else s in nexts && s.nextReceive == nexts[s]
    }

    lemma NothingRecorded(times: map<Source, nat>, nexts: map<Source, int>, now: int)
      requires times == map s | s in sources :: s.timesRead
      requires nexts == map s | s in sources :: s.nextReceive
      ensures Recorded([], times, nexts, now)
    {
    }

    lemma RecordedMeans(served: seq<Source>, times: map<Source, nat>, nexts: map<Source, int>, now: int)
      requires Recorded(served, times, nexts, now)
      ensures forall s :: s in sources && s in served ==>
        s in times && s.timesRead == times[s] + 1 && (s.nextReceive == 0 || s.nextReceive > now)
      ensures forall s :: s in sources && s !in served ==>
        s in times && s in nexts && s.timesRead == times[s] && s.nextReceive == nexts[s]
    {
    }

    /** Read from a source on the list if its time has come, and note that it was served. */
    method Visit(s: Source, count: nat, fails: bool, now: int, ok: bool, ghost front: seq<Source>,
                 ghost rest: seq<Source>, ghost served: seq<Source>, ghost due: seq<Source>,
                 ghost times: map<Source, nat>, ghost nexts: map<Source, int>)
      returns (ghost before: seq<Source>, ghost more: seq<Source>)
      requires Chain() && AllReady() && Timed(null) && now >= 0 && list == front + ([s] + rest) && s !in rest &&
        s in sources
      requires Recorded(served, times, nexts, now) && due == served + Due([s] + rest, now) && Distinct(due)
      modifies this`head, this`list, sources`receiveNext, sources`receiveLink, s
      ensures Chain() && AllReady() && Timed(null) && list == before + rest
      ensures due == more + Due(rest, now)
      ensures more == if old(s.nextReceive) <= now then served + [s] else served
      ensures Recorded(more, times, nexts, now)
    {
      hide Chain, ChainOf, Linked, Distinct, AllReady, Timed, Source.Ready, After, Before, Due, First;
      DueStep(served, s, rest, now);
      NotYetServed(served, s, rest, now);
      if s.nextReceive <= now {
        before := Serve(s, count, fails, now, ok, front, rest);
        more := served + [s];
      } else {
        before := front + [s];
        more := served;
      }
    }

    /** Read once from every source whose time has come, and from no other; `served` is the order in which that
      * happens. */
    method WorkerReceive(now: int, counts: nat -> nat, fails: nat -> bool, oks: nat -> bool)
      returns (ghost served: seq<Source>)
      requires Chain() && AllReady() && Timed(null) && now >= 0
      modifies this`head, this`list, sources
      ensures Chain() && AllReady() && Timed(null)
      ensures served == old(Due(list, now))
      ensures forall s :: s in sources && s in served ==>
        s.timesRead == old(s.timesRead) + 1 && (s.nextReceive == 0 || s.nextReceive > now)
      ensures forall s :: s in sources && s !in served ==>
        s.timesRead == old(s.timesRead) && s.nextReceive == old(s.nextReceive)
    {
      HeadIsFirst();
      DueIsDistinct(now);
      hide Chain, ChainOf, Linked, Distinct, AllReady, Timed, Source.Ready, After, Due, First, Recorded;
      ghost var due := Due(list, now);
      ghost var times := map s | s in sources :: s.timesRead;
      ghost var nexts := map s | s in sources :: s.nextReceive;
      NothingRecorded(times, nexts, now);
      served := Walk(now, counts, fails, oks, due, times, nexts);
      RecordedMeans(served, times, nexts, now);
    }

    /** One source after the other; a source that is served may enter the list again, in front. */
    method Walk(now: int, counts: nat -> nat, fails: nat -> bool, oks: nat -> bool,
                ghost due: seq<Source>, ghost times: map<Source, nat>, ghost nexts: map<Source, int>)
                  returns (ghost served: seq<Source>)
      requires Chain() && AllReady() && Timed(null) && now >= 0 && head == First(list)
      requires due == Due(list, now) && Distinct(due) && Recorded([], times, nexts, now)
      modifies this`head, this`list, sources
      ensures Chain() && AllReady() && Timed(null) && served == due && Recorded(served, times, nexts, now)
    {
      hide Chain, ChainOf, Linked, Distinct, AllReady, Timed, Source.Ready, After, Due, First, Recorded;
      served := [];
      ghost var front, rest := [], list;
      var source := head;
      var n: nat := 0;
      while source != null
        invariant Chain() && AllReady() && Timed(null)
        invariant list == front + rest && source == First(rest)
        invariant due == served + Due(rest, now)
        invariant Recorded(served, times, nexts, now)
        decreases |rest|
      {
        FirstOf(rest);
        ghost var later := rest[1..];
        Next(front, source, later);
        var next := source.receiveNext;
        front, served := Visit(source, counts(n), fails(n), now, oks(n), front, later, served, due, times, nexts);
        rest := later;
        source := next;
        n := n + 1;
      }
      NothingDue(rest, now);
    }

    lemma DueIsDistinct(now: int)
      requires Chain()
      ensures Distinct(Due(list, now))
    {
      DueOnce(list, now);
    }

    lemma Next(front: seq<Source>, s: Source, rest: seq<Source>)
      requires Chain() && list == front + ([s] + rest)
      ensures s in sources && s.receiveNext == First(rest) && s !in rest
    {
      InSources(|front|);
      assert list[|front|] == s;
      forall k | 0 <= k < |rest| ensures rest[k] != s {
        assert list[|front| + 1 + k] == rest[k];
      }
    }
  }

  ghost function First(list: seq<Source>): Source? {
    if list == [] then null else list[0]
  }

  lemma RemovedMiddle(front: seq<Source>, s: Source, rest: seq<Source>)
    ensures RemoveAt(front + ([s] + rest), |front|) == front + rest
  {
  }

  lemma FirstOf(list: seq<Source>)
    requires First(list) != null
    ensures list != [] && list == [First(list)] + list[1..]
  {
  }

  lemma NothingDue(rest: seq<Source>, now: int)
    requires First(rest) == null
    ensures Due(rest, now) == []
  {
  }

  /** A source that is still to come and is due was not served before. */
  lemma NotYetServed(served: seq<Source>, s: Source, rest: seq<Source>, now: int)
    requires Distinct(served + Due([s] + rest, now))
    ensures s.nextReceive <= now ==> s !in served
  {
    var all := served + Due([s] + rest, now);
    assert s.nextReceive <= now ==> all[|served|] == s;
    assert forall i :: 0 <= i < |served| ==> all[i] == served[i];
  }

  lemma DueStep(served: seq<Source>, s: Source, rest: seq<Source>, now: int)
    ensures served + Due([s] + rest, now) == (if s.nextReceive <= now then served + [s] else served) + Due(rest, now)
  {
    assert ([s] + rest)[1..] == rest;
  }

  /** The due sources are those on the list whose time has come, each once. */
  lemma {:induction false} DueOnce(list: seq<Source>, now: int)
    requires Distinct(list)
    ensures Distinct(Due(list, now)) && forall s :: s in Due(list, now) <==> s in list && s.nextReceive <= now
  {
    if list != [] {
      DueOnce(list[1..], now);
      assert list == [list[0]] + list[1..];
      assert list[0] !in list[1..];
    }
  }

  lemma SameIndex(list: seq<Source>, i: nat, j: nat)
    requires Distinct(list) && i < |list| && j < |list| && list[i] == list[j]
    ensures i == j
  {
  }

  lemma RemovedHead(list: seq<Source>, i: nat)
    requires i < |list|
    ensures var rest := RemoveAt(list, i);
      |rest| == |list| - 1 && (if rest == [] then null else rest[0]) == if i > 0 then list[0] else After(list, i)
  {
  }

  lemma RemovedLinks(list: seq<Source>, i: nat, j: nat)
    requires i < |list| && j < |list| - 1
    ensures var rest := RemoveAt(list, i); var k := if j < i then j else j + 1;
      rest[j] == list[k] && After(rest, j) == (if k + 1 == i then After(list, i) else After(list, k)) &&
      Before(rest, j) == if k == i + 1 then Before(list, i) else Before(list, k)
  {
  }
}
