/** The send queue of a connection: a linked list of buffers and files drained by partial writes. */
module SendQueue {

  type Byte = bv8

  const BUFFER_SIZE: nat := 1536
  const MAX_IOVECS: nat := 64

  datatype Errno = Again | Interrupted | NoBuffers | Unsupported | Other

  /** What the kernel answers to a request: how much it took, or an error. */
  datatype Reply = Sent(count: nat) | Fault(errno: Errno)

  /** The kernel never takes more than it is offered. */
  function Taken(reply: Reply, offered: nat): nat
    requires reply.Sent?
  {
    if reply.count < offered then reply.count else offered
  }

  /** What an entry holds. `data` is the whole backing store; `base` and `len` bound what a buffer has left to send.
    * A batch published as a file has a descriptor, its own or for a view that of the owner, and contents `snapshot`. */
  datatype Item =
    | Memory(data: seq<Byte>, offset: nat, size: nat, base: nat, len: nat,
             isView: bool, ownerFd: int, sharedFd: int, snapshot: seq<Byte>)
    | File(data: seq<Byte>, offset: nat, size: nat, sent: nat)
  {
    /** The capacity retained while the entry is queued; files count as one buffer. */
    function Held(): nat {
      if File? then BUFFER_SIZE else |data|
    }

    /** The payload bytes that count towards flushing. */
    function Pending(): nat {
      if File? then 0 else len
    }

    /** The descriptor of the snapshot, or -1; a view that has fallen back no longer uses it. */
    function SendfileFd(): int {
      if File? || sharedFd == -2 then -1 else if isView then ownerFd else sharedFd
    }

    /** The payload lies in the backing store, and a snapshot holds exactly the payload. */
    predicate Fits() {
      offset + size <= |data| && (SendfileFd() >= 0 ==> snapshot == data[offset..offset + size])
    }

    /** Something is left to send, or a file is shorter than announced. */
    predicate Ok() {
      if File? then sent < size else Fits() && offset <= base && base + len == offset + size && len > 0
    }

    /** The bytes still to be sent; of a file, those that exist. */
    function Rest(): seq<Byte>
      requires Ok()
    {
      if File? then Range(data, offset + sent, offset + size) else data[base..base + len]
    }
  }

  /** What a file holds between two positions, however long it is. */
  function Range(data: seq<Byte>, from: nat, to: nat): seq<Byte>
    requires from <= to
  {
    if from >= |data| then [] else if to > |data| then data[from..] else data[from..to]
  }

  /** The reply that counts: the second one when a snapshot cannot be sent as a file. */
  function Answer(item: Item, reply: Reply, fallback: Reply): Reply {
    if item.SendfileFd() >= 0 && reply == Fault(Unsupported) then fallback else reply
  }

  /** A batch that is no longer sent from its file. */
  function Plain(item: Item): Item
    requires item.Memory?
  {
    item.(sharedFd := -2)
  }

  function Min(a: nat, b: nat): nat { if a < b then a else b }

  /** Nothing went out, and at most the front gave up its snapshot. */
  ghost predicate SameFront(before: seq<Item>, after: seq<Item>) {
    after == before || (before != [] && before[0].Memory? && after == before[0 := Plain(before[0])])
  }

  /** How many bytes are offered at once of the buffers in front, in at most so many slices. */
  ghost function BufferOffer(items: seq<Item>, maxBytes: nat, slices: nat): nat
    decreases |items|
  {
    if items == [] || maxBytes == 0 || slices == 0 || items[0].File? || items[0].SendfileFd() >= 0 then 0
    else
      var n := Min(items[0].len, maxBytes);
      n + BufferOffer(items[1..], maxBytes - n, slices - 1)
  }

  /** How many bytes a request offers: of a published batch, of a file, or of buffers together. */
  ghost function Offer(items: seq<Item>, maxBytes: nat, reply: Reply): nat
    requires AllOk(items)
  {
    if items == [] then 0
    else if items[0].File? then Min(|items[0].Rest()|, maxBytes)
    else if items[0].SendfileFd() < 0 then BufferOffer(items, maxBytes, MAX_IOVECS)
    else if reply == Fault(Unsupported) then BufferOffer(items[0 := Plain(items[0])], maxBytes, MAX_IOVECS)
    else Min(items[0].len, maxBytes)
  }

  /** How a send ends: 0, -1 for failure, -2 when the socket would block. */
  function Verdict(item: Item, reply: Reply, fallback: Reply): int {
    var answer := Answer(item, reply, fallback);
    if item.SendfileFd() >= 0 && reply != Fault(Unsupported) then
      if reply.Fault? then (if reply.errno == Other then -1 else -2) else if reply.count == 0 then -1 else 0
    else if answer.Sent? then 0
    else if answer.errno == Again || (item.Memory? && answer.errno == NoBuffers) then -2
    else -1
  }

  ghost predicate AllOk(items: seq<Item>) {
    forall i :: 0 <= i < |items| ==> items[i].Ok()
  }

  /** The bytes of a list still to be sent, in order. */
  ghost function Unsent(items: seq<Item>): seq<Byte>
    requires AllOk(items)
  {
    if items == [] then [] else items[0].Rest() + Unsent(items[1..])
  }

  ghost function Payload(items: seq<Item>): nat {
    if items == [] then 0 else items[0].Pending() + Payload(items[1..])
  }

  /** The unsent bytes of the buffers in front of the first file. */
  ghost function Lead(items: seq<Item>): nat {
    if items == [] || items[0].File? then 0 else items[0].len + Lead(items[1..])
  }

  ghost function Capacity(items: seq<Item>): nat {
    if items == [] then 0 else items[0].Held() + Capacity(items[1..])
  }

  class Entry {
    var item: Item
    var refcount: int
    var next: Entry?

    constructor (item: Item)
      ensures this.item == item && refcount == 1 && next == null
    {
      this.item, refcount, next := item, 1, null;
    }
  }

  /** Distinct entries, each linked to the one after it. */
  ghost predicate Linked(list: seq<Entry>)
    reads list`next
  {
    (forall i, j :: 0 <= i < j < |list| ==> list[i] != list[j]) &&
    forall i :: 0 <= i < |list| ==> list[i].next == After(list, i)
  }

  ghost function After(list: seq<Entry>, i: nat): Entry? {
    if i + 1 < |list| then list[i + 1] else null
  }

  class Queue {
    var head: Entry?
    var tail: Entry?
    var totalBytes: nat
    var memoryBytes: nat
    var numQueued: nat

    /** The linked entries and what they hold. */
    ghost var list: seq<Entry>
    ghost var items: seq<Item>

    /** All bytes ever queued, and those the kernel has taken. */
    ghost var added: seq<Byte>
    ghost var written: seq<Byte>

    constructor ()
      ensures Valid() && list == [] && added == written == []
    {
      head, tail, totalBytes, memoryBytes, numQueued := null, null, 0, 0, 0;
      list, items, added, written := [], [], [], [];
      new;
      hide Item.Ok, Item.Rest;
    }

    /** The links describe the list. */
    ghost predicate Chain()
      reads this`head, this`tail, this`list, list`next
    {
      Linked(list) &&
      (if list == [] then head == null && tail == null else head == list[0] && tail == list[|list| - 1])
    }

    ghost predicate Mirror()
      reads this`list, this`items, list`item
    {
      |items| == |list| && forall i :: 0 <= i < |list| ==> list[i].item == items[i]
    }

    /** The counters describe the list; `extra` payload bytes are no longer counted. */
    ghost predicate Tally(extra: nat)
      reads this`totalBytes, this`memoryBytes, this`numQueued, this`items
    {
      totalBytes + extra == Payload(items) && memoryBytes == Capacity(items) && numQueued == |items|
    }

    /** What was written, followed by what is queued, is what was added. */
    ghost predicate Stream()
      reads this`items, this`added, this`written
    {
      AllOk(items) && added == written + Unsent(items)
    }

    ghost predicate Valid()
      reads this, list`next, list`item
    {
      Chain() && Mirror() && Tally(0) && Stream()
    }

    /** Queue a buffer; the queue takes a reference of its own. */
    method Add(e: Entry) returns (ret: int)
      requires Valid() && e !in list && e.item.Memory? &&
        (e.item.offset + e.item.size <= |e.item.data| ==> e.item.Fits())
      modifies this, e, list`next
      ensures Valid() && written == old(written)
      ensures ret == if e.item.size > 0 && e.item.offset + e.item.size > |e.item.data| then -1 else 0
      ensures ret == 0 && e.item.size > 0 ==> list == old(list) + [e] && e.refcount == old(e.refcount) + 1
      ensures ret == 0 && e.item.size > 0 ==>
        added == old(added) + e.item.data[e.item.offset..e.item.offset + e.item.size]
      ensures ret != 0 || e.item.size == 0 ==> list == old(list) && added == old(added) && e.refcount == old(e.refcount)
      ensures memoryBytes == old(memoryBytes) + if ret == 0 && e.item.size > 0 then |e.item.data| else 0
      ensures totalBytes == old(totalBytes) + if ret == 0 then e.item.size else 0
      ensures e.item.Memory? && e.item == old(e.item).(base := e.item.base, len := e.item.len)
      ensures old(items) <= items
    {
      hide Valid;
      if e.item.size == 0 {
        return 0;
      }
      var capacity := e.item.Held();
      if e.item.offset > capacity || e.item.size > capacity - e.item.offset {
        return -1;
      }
      Prepare(e);
      Enqueue(e);
      ret := 0;
    }

    /** The whole payload of a buffer is to be sent, and the queue holds it. */
    method Prepare(e: Entry)
      requires e.item.Memory? && e.item.size > 0 && e.item.Fits()
      modifies e
      ensures e.item == old(e.item).(base := old(e.item.offset), len := old(e.item.size)) && e.item.Ok()
      ensures e.next == null && e.refcount == old(e.refcount) + 1
    {
      e.item := e.item.(base := e.item.offset, len := e.item.size);
      e.next := null;
      e.refcount := e.refcount + 1;
    }

    /** Queue a file, which the queue then owns; `memory` tells whether an entry can be allocated. */
    method AddFile(fd: int, contents: seq<Byte>, offset: nat, size: nat, memory: bool) returns (ret: int)
      requires Valid()
      modifies this, list`next
      ensures Valid() && written == old(written)
      ensures ret == if fd < 0 || size == 0 || !memory then -1 else 0
      ensures ret == 0 ==> |list| == |old(list)| + 1 && list[..|old(list)|] == old(list) && fresh(list[|old(list)|])
      ensures ret == 0 ==> list[|old(list)|].refcount == 1
      ensures memoryBytes == old(memoryBytes) + if ret == 0 then BUFFER_SIZE else 0
      ensures ret == 0 ==> added == old(added) + Range(contents, offset, offset + size)
      ensures ret != 0 ==> list == old(list) && added == old(added)
      ensures old(items) <= items
    {
      hide Valid;
      if fd < 0 || size == 0 {
        return -1;
      }
      if !memory {
        return -1;
      }
      var e := new Entry(File(contents, offset, size, 0));
      Enqueue(e);
      ret := 0;
    }

    /** Link an entry behind the tail and count it. */
    method Enqueue(e: Entry)
      requires Valid() && e !in list && e.item.Ok() && e.next == null
      modifies this, list`next
      ensures Valid() && list == old(list) + [e] && added == old(added) + e.item.Rest() && written == old(written)
      ensures memoryBytes == old(memoryBytes) + e.item.Held() && totalBytes == old(totalBytes) + e.item.Pending()
      ensures old(items) <= items
    {
      hide Chain, Mirror, Stream, Payload, Capacity, Item.Ok, Item.Rest, Item.Held, Item.Pending;
      Append(e);
      totalBytes := totalBytes + e.item.Pending();
      memoryBytes := memoryBytes + e.item.Held();
      numQueued := numQueued + 1;
    }

    /** Link an entry behind the tail. */
    method Append(e: Entry)
      requires Chain() && Mirror() && Stream() && e !in list && e.item.Ok() && e.next == null
      modifies this`head, this`tail, this`list, this`items, this`added, list`next
      ensures Chain() && Mirror() && Stream() && list == old(list) + [e] && added == old(added) + e.item.Rest()
      ensures Payload(items) == old(Payload(items)) + e.item.Pending() &&
        Capacity(items) == old(Capacity(items)) + e.item.Held()
      ensures |items| == old(|items|) + 1
      ensures old(items) <= items
    {
      hide Chain, Unsent, Payload, Capacity, AllOk, Item.Ok, Item.Rest, Item.Held, Item.Pending, Item.Fits,
        Item.SendfileFd;
      Grown(items, e.item);
      Link(e);
      added := added + e.item.Rest();
      items := items + [e.item];
    }

    method Link(e: Entry)
      requires Chain() && e !in list && e.next == null
      modifies this`head, this`tail, this`list, list`next
      ensures Chain() && list == old(list) + [e]
    {
      if tail != null {
        tail.next := e;
        tail := e;
      } else {
        head, tail := e, e;
      }
      list := list + [e];
      forall i | 0 <= i < |list| - 1 ensures list[i].next == After(list, i) {
        assert old(list)[i] == list[i];
      }
    }

    /** Drop the head. Its whole capacity is released only now, however much of it went out before. */
    method PopHead(e: Entry)
      requires Chain() && Mirror() && head == e && AllOk(items[1..])
      requires memoryBytes == Capacity(items) && numQueued == |items|
      modifies this`head, this`tail, this`list, this`items, this`memoryBytes, this`numQueued, e`refcount
      ensures Chain() && Mirror() && AllOk(items) && memoryBytes == Capacity(items) && numQueued == |items|
      ensures list == old(list[1..]) && items == old(items[1..]) && e.refcount == old(e.refcount) - 1
    {
      assert list[0] == e && items[0] == e.item;
      hide Item.Ok, Item.Held;
      head := e.next;
      if head == null {
        tail := null;
      }
      numQueued := numQueued - 1;
      memoryBytes := memoryBytes - e.item.Held();
      e.refcount := e.refcount - 1;
      list := list[1..];
      items := items[1..];
      forall i | 0 <= i < |list| ensures list[i].next == After(list, i) {
        assert old(list)[i + 1].next == After(old(list), i + 1);
      }
    }

    /** The head pointer is the first entry. */
    lemma HeadIsFirst()
      requires Chain() && Mirror() && head != null
      ensures |list| == |items| > 0 && head == list[0] && head.item == items[0]
    {
    }

    /** Take sent bytes off the buffers in front: entries that went out entirely are dropped, the next one is
      * shortened. */
    method ConsumeMemory(sent: nat)
      requires Chain() && Mirror() && AllOk(items) && Tally(0) && sent <= Lead(items)
      modifies this`head, this`tail, this`list, this`items, this`totalBytes, this`memoryBytes, this`numQueued,
        list`item, list`refcount
      ensures Chain() && Mirror() && AllOk(items) && Tally(0) && sent <= |old(Unsent(items))|
      ensures Unsent(items) == old(Unsent(items))[sent..] && (sent == 0 ==> items == old(items))
      ensures |list| <= |old(list)| && list == old(list)[|old(list)| - |list|..]
      ensures forall i :: 0 <= i < |old(list)| ==>
        old(list)[i].refcount == old(list[i].refcount) - if i < |old(list)| - |list| then 1 else 0
    {
      hide Chain, Mirror, Item.Ok, Unsent, Payload, Lead, AllOk, Shorter;
      LeadBounds(items);
      totalBytes := totalBytes - sent;
      var left: nat := sent;
      assert list == old(list)[0..];
      OneEach();
      while left > 0
        invariant Chain() && Mirror() && AllOk(items) && Tally(left) && left <= Lead(items)
        invariant |list| <= |old(list)| && list == old(list)[|old(list)| - |list|..]
        invariant forall i :: 0 <= i < |old(list)| ==>
          old(list)[i].refcount == old(list[i].refcount) - if i < |old(list)| - |list| then 1 else 0
        invariant left <= |Unsent(items)| && Unsent(items)[left..] == old(Unsent(items))[sent..]
        invariant sent == 0 ==> items == old(items)
        decreases |list|
      {
        Step(items, left);
        HeadExists();
        HeadIsFirst();
        var e := head;
        if left < e.item.len {
          ShorterHead(items, left);
          Shorten(e, left);
          return;
        }
        left := left - e.item.len;
        assert e == old(list)[|old(list)| - |list|];
        PopHead(e);
      }
    }

    /** Walking the links visits the list in order. */
    lemma At(k: nat)
      requires Chain() && Mirror() && AllOk(items) && k < |list|
      ensures |items| == |list| && list[k].item == items[k] && items[k].Ok()
      ensures list[k].next == if k + 1 < |list| then list[k + 1] else null
    {
      assert list[k].next == After(list, k);
    }

    /** One buffer more is offered. */
    lemma GatherStep(k: nat, iovecs: seq<seq<Byte>>, budget: nat, maxBytes: nat)
      requires Chain() && Mirror() && AllOk(items) && k < |list| == |items| && budget > 0 && |iovecs| < MAX_IOVECS
      requires Gathered(items, k, iovecs, budget, maxBytes) && list[k].item.Memory? && list[k].item.SendfileFd() < 0
      ensures list[k].item.Ok() && list[k].next == if k + 1 < |list| then list[k + 1] else null
      ensures var slice := Clipped(list[k].item, budget);
        Gathered(items, k + 1, iovecs + [slice], budget - |slice|, maxBytes)
    {
      hide Chain, Mirror, Offered, Joined, Clipped, Item.Ok, BufferOffer;
      At(k);
      OfferNext(items, k, Joined(iovecs), budget);
      BufferOfferStep(items, k, budget, MAX_IOVECS - |iovecs|);
      JoinedOnce(iovecs, Clipped(list[k].item, budget));
    }

    /** Nothing more can be offered. */
    lemma GatherEnd(k: nat, iovecs: seq<seq<Byte>>, budget: nat, maxBytes: nat)
      requires Chain() && Mirror() && AllOk(items) && k <= |list| == |items| && |iovecs| <= MAX_IOVECS
      requires Gathered(items, k, iovecs, budget, maxBytes)
      requires k == |list| || budget == 0 || |iovecs| == MAX_IOVECS || list[k].item.File? ||
        list[k].item.SendfileFd() >= 0
      ensures |Joined(iovecs)| == BufferOffer(items, maxBytes, MAX_IOVECS) <= maxBytes
      ensures Joined(iovecs) <= Unsent(items) && |Joined(iovecs)| <= Lead(items)
      ensures |Joined(iovecs)| == 0 ==> iovecs == []
    {
      OfferedFits(items, k, Joined(iovecs), budget);
    }

    lemma GatherStart(maxBytes: nat)
      requires Chain() && Mirror() && AllOk(items)
      ensures Gathered(items, 0, [], maxBytes, maxBytes)
      ensures head == (if 0 < |list| then list[0] else null) && |items| == |list|
    {
      assert items[0..] == items;
    }

    lemma Ends()
      requires Chain() && Mirror()
      ensures head == (if 0 < |list| then list[0] else null) && |items| == |list|
    {
    }

    lemma OthersDiffer()
      requires Chain() && list != []
      ensures forall i :: 0 < i < |list| ==> list[i] != list[0]
    {
    }

    lemma OneEach()
      requires Chain()
      ensures forall i, j :: 0 <= i < j < |list| ==> list[i] != list[j]
    {
    }

    lemma HeadExists()
      requires Chain() && Mirror() && items != []
      ensures head != null
    {
    }

    /** The first bytes of a buffer are gone. */
    method Shorten(e: Entry, n: nat)
      requires Chain() && Mirror() && head == e && e.item.Memory? && n < e.item.len
      modifies e`item, this`items
      ensures Chain() && Mirror() && items == old(items)[0 := Shorter(old(items)[0], n)]
    {
      hide Chain, Linked;
      HeadIsFirst();
      OthersDiffer();
      e.item := e.item.(base := e.item.base + n, len := e.item.len - n);
      items := items[0 := e.item];
    }

    /** The slices offered to the kernel at once: buffers from the front, within the budget and the number of slices. */
    method Gather(maxBytes: nat) returns (iovecs: seq<seq<Byte>>)
      requires Chain() && Mirror() && AllOk(items)
      ensures |iovecs| <= MAX_IOVECS && |Joined(iovecs)| <= maxBytes && |Joined(iovecs)| <= Lead(items)
      ensures Joined(iovecs) <= Unsent(items) && |Joined(iovecs)| == BufferOffer(items, maxBytes, MAX_IOVECS)
      ensures |Joined(iovecs)| == 0 ==> iovecs == []
    {
      hide Item.Ok, Item.Rest, Unsent, Lead, AllOk, Chain, Mirror, Item.SendfileFd, Gathered, Joined, Clipped,
        BufferOffer;
      iovecs := [];
      var budget: nat := maxBytes;
      var buf := head;
      ghost var k := 0;
      GatherStart(maxBytes);
      while buf != null && budget > 0 && |iovecs| < MAX_IOVECS && buf.item.Memory? && buf.item.SendfileFd() < 0
        invariant k <= |list| && buf == (if k < |list| then list[k] else null) && |iovecs| <= MAX_IOVECS
        invariant Gathered(items, k, iovecs, budget, maxBytes)
        decreases |list| - k
      {
        GatherStep(k, iovecs, budget, maxBytes);
        var slice := Clipped(buf.item, budget);
        iovecs := iovecs + [slice];
        budget := budget - |slice|;
        buf := buf.next;
        k := k + 1;
      }
      GatherEnd(k, iovecs, budget, maxBytes);
    }

    /** Try to send up to maxBytes; a second answer of the kernel is used when a snapshot cannot be sent as a file. */
    method Send(maxBytes: nat, reply: Reply, fallback: Reply) returns (ret: int, bytesSent: nat)
      requires Valid()
      modifies this, list`item, list`refcount
      ensures Valid() && added == old(added)
      ensures bytesSent <= |old(Unsent(items))| && written == old(written) + old(Unsent(items))[..bytesSent]
      ensures old(items) == [] || maxBytes == 0 ==> ret == 0 && bytesSent == 0
      ensures old(items) != [] && maxBytes > 0 ==> ret == Verdict(old(items)[0], reply, fallback)
      ensures old(items) != [] && maxBytes > 0 ==>
        var answer := Answer(old(items)[0], reply, fallback);
        bytesSent == if answer.Sent? then Taken(answer, Offer(old(items), maxBytes, reply)) else 0
      ensures |list| <= |old(list)| && list == old(list)[|old(list)| - |list|..]
      ensures forall i :: 0 <= i < |old(list)| ==>
        old(list)[i].refcount == old(list[i].refcount) - if i < |old(list)| - |list| then 1 else 0
      ensures old(items) != [] && bytesSent == 0 ==> items != [] && SameFront(old(items), items)
    {
      hide Chain, Mirror, Stream, Tally, Verdict, Offer, Answer, Unsent, Item.Ok, Item.Rest, Taken;
      Sendable();
      if head == null || maxBytes == 0 {
        return 0, 0;
      }
      HeadIsFirst();
      var e := head;
      var answer := reply;
      SendCases(items, maxBytes, reply, fallback);
      if e.item.SendfileFd() >= 0 {
        if reply == Fault(Unsupported) {
          FallBack(e);
          Sendable();
          SendCases(items, maxBytes, fallback, fallback);
          answer := fallback;
        } else {
          var fd;
          ret, bytesSent, fd := SendSnapshot(e, maxBytes, reply);
          return;
        }
      }
      assert list == old(list) && forall i :: 0 <= i < |list| ==> list[i].refcount == old(list[i].refcount);
      ret, bytesSent := SendPlain(e, maxBytes, answer);
    }

    /** Every byte added is written or still queued. */
    lemma Balance()
      requires Valid()
      ensures AllOk(items) && (head == null <==> items == []) && added == written + Unsent(items)
      ensures items == [] ==> Unsent(items) == []
    {
    }

    lemma Sendable()
      requires Valid()
      ensures AllOk(items) && (head == null <==> items == []) && |items| == |list|
    {
    }

    /** Send what is not a published batch: a file by itself, or buffers together. */
    method SendPlain(e: Entry, maxBytes: nat, reply: Reply) returns (ret: int, bytesSent: nat)
      requires Valid() && head == e && e.item.SendfileFd() < 0 && maxBytes > 0
      modifies this, list`item, list`refcount
      ensures Valid() && added == old(added)
      ensures bytesSent <= |old(Unsent(items))| && written == old(written) + old(Unsent(items))[..bytesSent]
      ensures old(items) != [] && ret == Verdict(old(items)[0], reply, reply)
      ensures bytesSent == if reply.Sent? then Taken(reply, Offer(old(items), maxBytes, reply)) else 0
      ensures |list| <= |old(list)| && list == old(list)[|old(list)| - |list|..]
      ensures forall i :: 0 <= i < |old(list)| ==>
        old(list)[i].refcount == old(list[i].refcount) - if i < |old(list)| - |list| then 1 else 0
      ensures bytesSent == 0 ==> items == old(items)
    {
      hide Chain, Mirror, Stream, Tally;
      Sendable();
      HeadIsFirst();
      if e.item.File? {
        ret, bytesSent := SendFile(e, maxBytes, reply);
      } else {
        ret, bytesSent := SendBuffers(e, maxBytes, reply);
      }
    }

    /** The entry's snapshot is no longer used; its bytes go out like those of any buffer. */
    method FallBack(e: Entry)
      requires Valid() && head == e && e.item.Memory?
      modifies e`item, this`items
      ensures Valid() && e.item.Memory? && e.item.SendfileFd() == -1
      ensures items != [] && items == old(items)[0 := Plain(old(items)[0])] && Unsent(items) == old(Unsent(items))
    {
      HeadIsFirst();
      OthersDiffer();
      assert AllOk(items);
      Unshared(items);
      hide Chain, Item.Ok, Payload, Capacity, Unsent, AllOk;
      e.item := e.item.(sharedFd := -2);
      items := items[0 := e.item];
    }

    /** Send a published batch from its file; `fd` is the descriptor the kernel is given, that of the owner for a
      * view. */
    method SendSnapshot(e: Entry, maxBytes: nat, reply: Reply) returns (ret: int, bytesSent: nat, fd: int)
      requires Valid() && head == e && e.item.SendfileFd() >= 0 && maxBytes > 0 && reply != Fault(Unsupported)
      modifies this, list`item, list`refcount
      ensures Valid() && added == old(added)
      ensures bytesSent <= |old(Unsent(items))| && written == old(written) + old(Unsent(items))[..bytesSent]
      ensures |list| <= |old(list)| && list == old(list)[|old(list)| - |list|..]
      ensures forall i :: 0 <= i < |old(list)| ==>
        old(list)[i].refcount == old(list[i].refcount) - if i < |old(list)| - |list| then 1 else 0
      ensures ret ==
        if reply.Fault? then (if reply.errno == Other then -1 else -2) else if reply.count == 0 then -1 else 0
      ensures bytesSent == if reply.Sent? then Taken(reply, Min(old(e.item).len, maxBytes)) else 0
      ensures old(e.item).Memory? && fd == if old(e.item).isView then old(e.item).ownerFd else old(e.item).sharedFd
      ensures bytesSent == 0 ==> items == old(items)
    {
      hide Valid, AllOk, Unsent, Lead, Item.Ok, Item.SendfileFd;
      SnapshotReady(e);
      fd := e.item.SendfileFd();
      var count := Min(e.item.len, maxBytes);
      match reply {
        case Fault(errno) =>
          if errno == Again || errno == Interrupted || errno == NoBuffers {
            return -2, 0, fd;
          }
          return -1, 0, fd;
        case Sent(_) =>
          bytesSent := Taken(reply, count);
          SnapshotHead(items, bytesSent);
          if bytesSent == 0 {
            return -1, 0, fd;
          }
          var start := e.item.base - e.item.offset;
          Deliver(e.item.snapshot[start..start + bytesSent]);
          ret := 0;
      }
    }

    lemma SnapshotReady(e: Entry)
      requires Valid() && head == e && e.item.SendfileFd() >= 0
      ensures AllOk(items) && items != [] && items[0] == e.item && e.item.Memory? && e.item.SendfileFd() >= 0 &&
        e.item.len > 0 && e.item.SendfileFd() == if e.item.isView then e.item.ownerFd else e.item.sharedFd
    {
    }

    /** Send a part of the file in front; the kernel cannot take what the file does not have. */
    method SendFile(e: Entry, maxBytes: nat, reply: Reply) returns (ret: int, bytesSent: nat)
      requires Valid() && head == e && e.item.File?
      modifies this, list`item, list`refcount
      ensures Valid() && added == old(added)
      ensures bytesSent <= |old(Unsent(items))| && written == old(written) + old(Unsent(items))[..bytesSent]
      ensures |list| <= |old(list)| && list == old(list)[|old(list)| - |list|..]
      ensures forall i :: 0 <= i < |old(list)| ==>
        old(list)[i].refcount == old(list[i].refcount) - if i < |old(list)| - |list| then 1 else 0
      ensures ret == if reply.Sent? then 0 else if reply.errno == Again then -2 else -1
      ensures old(e.item).Ok() && bytesSent ==
        if reply.Sent? then Taken(reply, Min(|old(e.item).Rest()|, maxBytes)) else 0
      ensures bytesSent == 0 ==> items == old(items)
    {
      hide Chain, Mirror, Stream, Tally, Unsent, Item.Ok, Item.Rest, AllOk, Range;
      FileReady(e);
      var remaining := e.item.size - e.item.sent;
      if remaining > maxBytes {
        remaining := maxBytes;
      }
      match reply {
        case Fault(errno) =>
          return if errno == Again then -2 else -1, 0;
        case Sent(_) =>
          var start := e.item.offset + e.item.sent;
          OfferedOfFile(e.item, remaining);
          bytesSent := Taken(reply, |Range(e.item.data, start, start + remaining)|);
          TakeFile(e, bytesSent, Range(e.item.data, start, start + remaining)[..bytesSent]);
          ret := 0;
      }
    }

    lemma FileReady(e: Entry)
      requires Valid() && head == e && e.item.File?
      ensures |list| > 0 && list[0] == e
      ensures AllOk(items) && items != [] && items[0] == e.item && e.item.Ok() &&
        |e.item.Rest()| <= e.item.size - e.item.sent
    {
      HeadIsFirst();
      RangeDrop(e.item.data, e.item.offset + e.item.sent, e.item.offset + e.item.size, 0);
    }

    /** The kernel took these bytes of the file in front; a file that went out entirely is dropped. */
    method TakeFile(e: Entry, n: nat, ghost bytes: seq<Byte>)
      requires Chain() && Mirror() && Tally(0) && Stream()
      requires head == e && e.item.File? && items != [] && e.item == items[0] && e.item.Ok() && n <= |e.item.Rest()|
      requires bytes == e.item.Rest()[..n]
      modifies this, e`item, e`refcount
      ensures Chain() && Mirror() && Tally(0) && Stream() && added == old(added)
      ensures n <= |old(Unsent(items))| && written == old(written) + old(Unsent(items))[..n]
      ensures |list| <= |old(list)| && list == old(list)[|old(list)| - |list|..]
      ensures forall i :: 0 <= i < |old(list)| ==>
        old(list)[i].refcount == old(list[i].refcount) - if i < |old(list)| - |list| then 1 else 0
      ensures n == 0 ==> items == old(items)
    {
      hide Chain, Mirror, Unsent, Payload, Capacity, Item.Ok, Item.Rest, Item.Held, Item.Pending, AllOk, Range,
        Progressed;
      HeadIsFirst();
      OneEach();
      FileProgress(items, n);
      Continues(written, Unsent(items), n);
      Advance(e, n, bytes);
      if e.item.sent >= e.item.size {
        Unfinished(old(e.item), n);
        PopHead(e);
      }
    }

    /** More of the file in front is gone. */
    method Advance(e: Entry, n: nat, ghost bytes: seq<Byte>)
      requires Chain() && Mirror() && head == e && e.item.File?
      modifies e`item, this`items, this`written
      ensures written == old(written) + bytes
      ensures Chain() && Mirror() && old(items) != [] && old(items)[0] == old(e.item)
      ensures items == Progressed(old(items), n) && e.item == Further(old(e.item), n)
    {
      hide Chain, Linked;
      HeadIsFirst();
      OthersDiffer();
      written := written + bytes;
      e.item := e.item.(sent := e.item.sent + n);
      items := items[0 := e.item];
    }

    /** Send buffers from the front in one call. */
    method SendBuffers(e: Entry, maxBytes: nat, reply: Reply) returns (ret: int, bytesSent: nat)
      requires Valid() && head == e && e.item.Memory? && e.item.SendfileFd() < 0 && maxBytes > 0
      modifies this, list`item, list`refcount
      ensures Valid() && added == old(added)
      ensures bytesSent <= |old(Unsent(items))| && written == old(written) + old(Unsent(items))[..bytesSent]
      ensures |list| <= |old(list)| && list == old(list)[|old(list)| - |list|..]
      ensures forall i :: 0 <= i < |old(list)| ==>
        old(list)[i].refcount == old(list[i].refcount) - if i < |old(list)| - |list| then 1 else 0
      ensures ret == if reply.Sent? then 0 else if reply.errno == Again || reply.errno == NoBuffers then -2 else -1
      ensures bytesSent == if reply.Sent? then Taken(reply, BufferOffer(old(items), maxBytes, MAX_IOVECS)) else 0
      ensures bytesSent == 0 ==> items == old(items)
    {
      hide Chain, Mirror, Tally, Lead, Unsent, AllOk, BufferOffer, Item.Ok, Item.SendfileFd;
      HeadIsFirst();
      Sendable();
      SomeOffered(items, maxBytes);
      var iovecs := Gather(maxBytes);
      assert iovecs != [];
      match reply {
        case Fault(errno) =>
          if errno == Again {
            return -2, 0;
          }
          if errno == NoBuffers {
            return -2, 0;
          }
          return -1, 0;
        case Sent(_) =>
          bytesSent := Taken(reply, |Joined(iovecs)|);
          PrefixOfPrefix(Joined(iovecs), Unsent(items), bytesSent);
          Deliver(Joined(iovecs)[..bytesSent]);
          ret := 0;
      }
    }

    /** The kernel took these bytes, which lead the queue. */
    method Deliver(bytes: seq<Byte>)
      requires Valid() && |bytes| <= Lead(items) && bytes <= Unsent(items)
      modifies this, list`item, list`refcount
      ensures Valid() && added == old(added) && written == old(written) + bytes
      ensures |bytes| <= |old(Unsent(items))| && bytes == old(Unsent(items))[..|bytes|]
      ensures bytes == [] ==> items == old(items)
      ensures |list| <= |old(list)| && list == old(list)[|old(list)| - |list|..]
      ensures forall i :: 0 <= i < |old(list)| ==>
        old(list)[i].refcount == old(list[i].refcount) - if i < |old(list)| - |list| then 1 else 0
    {
      hide Chain, Mirror, Tally, Lead, Unsent, AllOk;
      written := written + bytes;
      ConsumeMemory(|bytes|);
    }

    method ReleaseAll()
      requires Chain()
      modifies list`refcount
      ensures forall i :: 0 <= i < |list| ==> list[i].refcount == old(list[i].refcount) - 1
    {
      var buf := head;
      ghost var k := 0;
      while buf != null
        invariant k <= |list| && buf == (if k < |list| then list[k] else null)
        invariant forall i :: 0 <= i < |list| ==> list[i].refcount == old(list[i].refcount) - if i < k then 1 else 0
        decreases |list| - k
      {
        var following := buf.next;
        buf.refcount := buf.refcount - 1;
        assert following == After(list, k);
        buf := following;
        k := k + 1;
      }
    }

    /** Release every entry. */
    method Cleanup()
      requires Valid()
      modifies this, list`refcount
      ensures Valid() && list == [] && totalBytes == memoryBytes == numQueued == 0
      ensures forall i :: 0 <= i < |old(list)| ==> old(list)[i].refcount == old(list[i].refcount) - 1
    {
      ReleaseAll();
      Reset();
    }

    /** Forget everything that was queued. */
    method Reset()
      modifies this
      ensures Valid() && list == [] && totalBytes == memoryBytes == numQueued == 0
    {
      head, tail, totalBytes, memoryBytes, numQueued := null, null, 0, 0, 0;
      list, items, added := [], [], written;
    }
  }

  lemma {:induction false} Grown(items: seq<Item>, e: Item)
    requires AllOk(items) && e.Ok()
    ensures AllOk(items + [e]) && Unsent(items + [e]) == Unsent(items) + e.Rest()
    ensures Payload(items + [e]) == Payload(items) + e.Pending()
    ensures Capacity(items + [e]) == Capacity(items) + e.Held()
  {
    hide Item.Ok, Item.Rest, Item.Held, Item.Pending, Item.SendfileFd, Item.Fits;
    if items == [] {
      assert items + [e] == [e];
    } else {
      assert (items + [e])[1..] == items[1..] + [e];
      Grown(items[1..], e);
    }
  }

  lemma {:induction false} LeadBounds(items: seq<Item>)
    requires AllOk(items)
    ensures Lead(items) <= Payload(items) && Lead(items) <= |Unsent(items)|
  {
    if items != [] {
      LeadBounds(items[1..]);
    }
  }

  /** What is asked for of a file, within what is left of it, is the first of the bytes still to be sent. */
  lemma OfferedOfFile(item: Item, n: nat)
    requires item.File? && item.Ok() && n <= item.size - item.sent
    ensures var start := item.offset + item.sent;
      |Range(item.data, start, start + n)| == Min(|item.Rest()|, n) &&
      Range(item.data, start, start + n) == item.Rest()[..Min(|item.Rest()|, n)]
  {
    RangePrefix(item.data, item.offset + item.sent, n, item.size - item.sent);
    hide Range;
  }

  lemma RangePrefix(data: seq<Byte>, from: nat, n: nat, m: nat)
    requires n <= m
    ensures var all := Range(data, from, from + m);
      |Range(data, from, from + n)| == Min(|all|, n) && Range(data, from, from + n) == all[..Min(|all|, n)]
  {
    var all := Range(data, from, from + m);
    if from + n > |data| {
      assert all[..|all|] == all;
    } else {
      SliceOfFront(data, from, n, |all|);
    }
  }

  lemma SliceOfFront(data: seq<Byte>, from: nat, n: nat, m: nat)
    requires n <= m && from + m <= |data|
    ensures data[from..from + m][..n] == data[from..from + n]
  {
  }

  /** A buffer without its first bytes. */
  function Shorter(item: Item, n: nat): Item
    requires item.Memory? && n <= item.len
  {
    item.(base := item.base + n, len := item.len - n)
  }

  lemma ShorterHead(items: seq<Item>, n: nat)
    requires AllOk(items) && items != [] && items[0].Memory? && n < items[0].len
    ensures var short := items[0 := Shorter(items[0], n)];
      AllOk(short) && n <= |Unsent(items)| && Unsent(short) == Unsent(items)[n..] &&
      Payload(short) == Payload(items) - n && Capacity(short) == Capacity(items)
  {
    var head, short := items[0], Shorter(items[0], n);
    SliceOfSlice(head.data, head.base, head.base + head.len, n);
    assert short.Ok() && short.Rest() == head.Rest()[n..];
    HeadReplaced(items, short, n);
  }

  /** Taking bytes off the front passes the head or stays in it. */
  lemma Step(items: seq<Item>, n: nat)
    requires AllOk(items) && 0 < n <= Lead(items)
    ensures items != [] && items[0].Memory? && n <= |Unsent(items)| && AllOk(items[1..])
    ensures n >= items[0].len ==>
      n - items[0].len <= Lead(items[1..]) && n - items[0].len <= |Unsent(items[1..])| &&
      Unsent(items[1..])[n - items[0].len..] == Unsent(items)[n..] &&
      Payload(items[1..]) == Payload(items) - items[0].len
  {
    LeadBounds(items);
    LeadBounds(items[1..]);
    assert |items[0].Rest()| == items[0].len;
    if n >= items[0].len {
      Passed(items[0].Rest(), Unsent(items[1..]), n);
    }
  }

  lemma Passed(a: seq<Byte>, b: seq<Byte>, n: nat)
    requires |a| <= n <= |a| + |b|
    ensures (a + b)[n..] == b[n - |a|..]
  {
  }

  function Joined(slices: seq<seq<Byte>>): seq<Byte> {
    if slices == [] then [] else Joined(slices[..|slices| - 1]) + slices[|slices| - 1]
  }

  /** A file of which more has been sent. */
  function Further(item: Item, n: nat): Item
    requires item.File?
  {
    item.(sent := item.sent + n)
  }

  /** The list when more of the file in front has been sent. */
  ghost function Progressed(items: seq<Item>, n: nat): seq<Item>
    requires items != [] && items[0].File?
  {
    items[0 := Further(items[0], n)]
  }

  lemma Unshared(items: seq<Item>)
    requires AllOk(items) && items != [] && items[0].Memory?
    ensures var plain := items[0 := Plain(items[0])];
      AllOk(plain) && Unsent(plain) == Unsent(items) && Payload(plain) == Payload(items) &&
      Capacity(plain) == Capacity(items)
  {
    var head := items[0].(sharedFd := -2);
    assert head.Ok() && head.Rest() == items[0].Rest()[0..];
    HeadReplaced(items, head, 0);
  }

  /** The file of a batch holds the same bytes as the buffer, so a range of it leads what is unsent. */
  lemma SnapshotHead(items: seq<Item>, n: nat)
    requires AllOk(items) && items != [] && items[0].SendfileFd() >= 0 && n <= items[0].len
    ensures items[0].offset <= items[0].base
    ensures var start := items[0].base - items[0].offset;
      start + n <= |items[0].snapshot| && items[0].snapshot[start..start + n] <= Unsent(items) && n <= Lead(items)
  {
    hide Item.Ok, Item.Rest, Item.Fits, Item.SendfileFd;
    var e := items[0];
    PublishedItem(e);
    SliceOfSlice(e.data, e.base, e.base + e.len, n);
    SnapshotPart(e.data, e.offset, e.offset + e.size, e.base, n);
    Prefixed(e.Rest(), Unsent(items[1..]), n);
  }

  lemma PublishedItem(e: Item)
    requires e.Ok() && e.SendfileFd() >= 0
    ensures e.Memory? && e.offset <= e.base && e.base + e.len == e.offset + e.size <= |e.data|
    ensures e.snapshot == e.data[e.offset..e.offset + e.size] && e.Rest() == e.data[e.base..e.base + e.len]
  {
  }

  lemma SnapshotPart(data: seq<Byte>, a: nat, b: nat, from: nat, n: nat)
    requires a <= from && from + n <= b <= |data|
    ensures data[a..b][from - a..from - a + n] == data[from..from + n]
  {
    var whole := data[a..b];
    var part := whole[from - a..from - a + n];
    forall i | 0 <= i < n ensures part[i] == data[from..from + n][i] {
      assert part[i] == whole[from - a + i];
    }
  }

  lemma Continues(written: seq<Byte>, unsent: seq<Byte>, n: nat)
    requires n <= |unsent|
    ensures written + unsent[..n] + unsent[n..] == written + unsent
  {
  }

  lemma Unfinished(file: Item, n: nat)
    requires file.File? && file.Ok() && Further(file, n).sent >= file.size
    ensures n > 0
  {
  }

  /** Sending a part of the file in front takes its bytes off the unsent ones. */
  lemma FileHead(items: seq<Item>, n: nat)
    requires AllOk(items) && items != [] && items[0].File? && n <= |items[0].Rest()|
    ensures n <= items[0].size - items[0].sent
    ensures n <= |Unsent(items)| && items[0].Rest()[..n] == Unsent(items)[..n]
    ensures var more := items[0 := Further(items[0], n)];
      AllOk(more[1..]) && Payload(more) == Payload(items) && Capacity(more) == Capacity(items) &&
      if n < items[0].size - items[0].sent then AllOk(more) && Unsent(more) == Unsent(items)[n..]
      else Unsent(more[1..]) == Unsent(items)[n..] && Payload(more[1..]) == Payload(items)
  {
    hide Range;
    var file, more := items[0], Further(items[0], n);
    assert items[0 := more][1..] == items[1..];
    RangeDrop(file.data, file.offset + file.sent, file.offset + file.size, n);
    Prefixed(file.Rest(), Unsent(items[1..]), n);
    if n < file.size - file.sent {
      assert more.Ok() && more.Rest() == file.Rest()[n..];
      HeadReplaced(items, more, n);
    } else {
      assert file.Rest()[n..] == [];
    }
  }

  lemma FileProgress(items: seq<Item>, n: nat)
    requires AllOk(items) && items != [] && items[0].File? && n <= |items[0].Rest()|
    ensures n <= |Unsent(items)| && items[0].Rest()[..n] == Unsent(items)[..n] &&
      (n == 0 ==> Progressed(items, n) == items)
    ensures var more := Progressed(items, n);
      |more| == |items| && AllOk(more[1..]) && Payload(more) == Payload(items) && Capacity(more) == Capacity(items) &&
      if n < items[0].size - items[0].sent then AllOk(more) && Unsent(more) == Unsent(items)[n..]
      else Unsent(more[1..]) == Unsent(items)[n..] && Payload(more[1..]) == Payload(items)
  {
    hide Item.Ok, Item.Rest, Unsent, Payload, Capacity;
    FileHead(items, n);
  }

  lemma RangeDrop(data: seq<Byte>, from: nat, to: nat, n: nat)
    requires from <= to && n <= |Range(data, from, to)|
    ensures |Range(data, from, to)| <= to - from && Range(data, from + n, to) == Range(data, from, to)[n..]
  {
  }

  lemma SliceOfSlice(data: seq<Byte>, a: nat, b: nat, n: nat)
    requires a + n <= b <= |data|
    ensures data[a..b][..n] == data[a..][..n] == data[a..a + n] && data[a..b][n..] == data[a + n..b]
  {
  }

  lemma Prefixed(a: seq<Byte>, b: seq<Byte>, n: nat)
    requires n <= |a|
    ensures (a + b)[..n] == a[..n] && (a + b)[n..] == a[n..] + b && a[..n] <= a + b
  {
    assert (a + b)[..n] == a[..n];
  }

  /** Replacing the head by one that has n bytes less to send. */
  lemma HeadReplaced(items: seq<Item>, head: Item, n: nat)
    requires AllOk(items) && items != [] && head.Ok() && n <= |items[0].Rest()| && head.Rest() == items[0].Rest()[n..]
    ensures var next := items[0 := head];
      AllOk(next) && n <= |Unsent(items)| && Unsent(next) == Unsent(items)[n..] &&
      Payload(next) == Payload(items) - items[0].Pending() + head.Pending() &&
      Capacity(next) == Capacity(items) - items[0].Held() + head.Held()
  {
    hide Item.Ok, Item.Rest, Item.Pending, Item.Held;
    assert items[0 := head][1..] == items[1..];
    Prefixed(items[0].Rest(), Unsent(items[1..]), n);
  }

  /** What is offered leads the unsent bytes, and while the budget lasts it covers the first k entries. */
  ghost predicate Offered(items: seq<Item>, k: nat, offered: seq<Byte>, budget: nat)
    requires AllOk(items) && k <= |items|
  {
    offered <= Unsent(items) && |offered| <= Lead(items) &&
    (budget > 0 ==> offered + Unsent(items[k..]) == Unsent(items) && |offered| + Lead(items[k..]) == Lead(items))
  }

  /** The slices gathered so far, up to entry k. */
  ghost predicate Gathered(items: seq<Item>, k: nat, iovecs: seq<seq<Byte>>, budget: nat, maxBytes: nat)
    requires AllOk(items) && k <= |items| && |iovecs| <= MAX_IOVECS
  {
    Offered(items, k, Joined(iovecs), budget) && budget + |Joined(iovecs)| == maxBytes &&
    |Joined(iovecs)| + BufferOffer(items[k..], budget, MAX_IOVECS - |iovecs|) == BufferOffer(items, maxBytes,
      MAX_IOVECS) &&
    (iovecs != [] ==> Joined(iovecs) != [])
  }

  lemma OfferedFits(items: seq<Item>, k: nat, offered: seq<Byte>, budget: nat)
    requires AllOk(items) && k <= |items| && Offered(items, k, offered, budget)
    ensures offered <= Unsent(items) && |offered| <= Lead(items)
  {
  }

  /** What is left of a buffer, cut off where the budget ends. */
  function Clipped(item: Item, budget: nat): (slice: seq<Byte>)
    requires item.Ok() && item.Memory? && budget > 0
    ensures 0 < |slice| == Min(item.len, budget) && slice <= item.Rest()
  {
    var n := if item.len > budget then budget else item.len;
    assert item.data[item.base..item.base + item.len][..n] == item.data[item.base..item.base + n];
    item.data[item.base..item.base + n]
  }

  /** The next buffer, or what the budget allows of it, extends what is offered along the unsent bytes. */
  lemma OfferNext(items: seq<Item>, k: nat, offered: seq<Byte>, budget: nat)
    requires AllOk(items) && k < |items| && items[k].Memory? && budget > 0 && Offered(items, k, offered, budget)
    ensures var slice := Clipped(items[k], budget); Offered(items, k + 1, offered + slice, budget - |slice|)
  {
    assert items[k..][1..] == items[k + 1..] && items[k..][0] == items[k];
    var slice := Clipped(items[k], budget);
    assert slice == items[k].Rest()[..|slice|] && (|slice| < budget ==> |slice| == |items[k].Rest()|);
    Extends(offered, items[k].Rest(), Unsent(items[k + 1..]), |slice|);
  }

  lemma BufferOfferStep(items: seq<Item>, k: nat, budget: nat, slices: nat)
    requires k < |items| && items[k].Memory? && items[k].SendfileFd() < 0 && budget > 0 && slices > 0 && items[k].Ok()
    ensures var n := |Clipped(items[k], budget)|;
      BufferOffer(items[k..], budget, slices) == n + BufferOffer(items[k + 1..], budget - n, slices - 1)
  {
    assert items[k..][0] == items[k] && items[k..][1..] == items[k + 1..];
  }

  lemma JoinedOnce(slices: seq<seq<Byte>>, slice: seq<Byte>)
    ensures Joined(slices + [slice]) == Joined(slices) + slice
  {
    assert (slices + [slice])[..|slices|] == slices;
  }

  lemma Extends(front: seq<Byte>, middle: seq<Byte>, back: seq<Byte>, n: nat)
    requires n <= |middle|
    ensures front + middle[..n] <= front + (middle + back)
    ensures n == |middle| ==> front + middle[..n] + back == front + (middle + back)
  {
    assert (front + (middle + back))[..|front| + n] == front + middle[..n];
  }

  lemma PrefixOfPrefix(a: seq<Byte>, b: seq<Byte>, n: nat)
    requires a <= b && n <= |a|
    ensures a[..n] <= b && a[..n] == b[..n]
  {
  }

  lemma SomeOffered(items: seq<Item>, maxBytes: nat)
    requires AllOk(items) && items != [] && items[0].Memory? && items[0].SendfileFd() < 0 && maxBytes > 0
    ensures BufferOffer(items, maxBytes, MAX_IOVECS) > 0
  {
  }

  /** Which request is made, and how its answer reads. */
  lemma SendCases(items: seq<Item>, maxBytes: nat, reply: Reply, fallback: Reply)
    requires AllOk(items) && items != []
    ensures var item := items[0];
      if item.File? then
        Answer(item, reply, fallback) == reply && Offer(items, maxBytes, reply) == Min(|item.Rest()|, maxBytes) &&
        Verdict(item, reply, fallback) == Verdict(item, reply, reply)
      else if item.SendfileFd() < 0 then
        Answer(item, reply, fallback) == reply &&
        Offer(items, maxBytes, reply) == BufferOffer(items, maxBytes, MAX_IOVECS) &&
        Verdict(item, reply, fallback) == Verdict(item, reply, reply)
      else if reply == Fault(Unsupported) then
        Answer(item, reply, fallback) == fallback &&
        Offer(items, maxBytes, reply) == BufferOffer(items[0 := Plain(item)], maxBytes, MAX_IOVECS) &&
        Verdict(item, reply, fallback) == Verdict(Plain(item), fallback, fallback)
      else
        Answer(item, reply, fallback) == reply && Offer(items, maxBytes, reply) == Min(item.len, maxBytes) &&
        Verdict(item, reply, fallback) ==
          if reply.Fault? then (if reply.errno == Other then -1 else -2) else if reply.count == 0 then -1 else 0
  {
  }

  /** The kernel decides: nothing more is taken than it answers, and something whenever it is willing and bytes are
    * left. */
  lemma KernelDecides(items: seq<Item>, maxBytes: nat, reply: Reply)
    requires AllOk(items) && items != [] && maxBytes > 0 && reply.Sent?
    ensures Taken(reply, Offer(items, maxBytes, reply)) <= reply.count && Offer(items, maxBytes, reply) <= maxBytes
    ensures Offer(items, maxBytes, reply) > 0 <==> items[0].Rest() != []
  {
    BufferOfferFits(items, maxBytes, MAX_IOVECS);
    if items[0].Memory? && items[0].SendfileFd() < 0 {
      SomeOffered(items, maxBytes);
    }
  }

  lemma {:induction false} BufferOfferFits(items: seq<Item>, maxBytes: nat, slices: nat)
    ensures BufferOffer(items, maxBytes, slices) <= maxBytes
    decreases |items|
  {
    if items != [] && maxBytes > 0 && slices > 0 && items[0].Memory? && items[0].SendfileFd() < 0 {
      BufferOfferFits(items[1..], maxBytes - Min(items[0].len, maxBytes), slices - 1);
    }
  }
}
