/** Queueing output on a connection and draining it when the socket is writable. */
module Connection {

  import opened Sequences
  import opened SendQueue

  const BATCH_BYTES: nat := 65536
  const WRITE_LIMIT: nat := 256 * 1024

  datatype WriteStatus = Idle | Pending | Blocked | Closed

  /** Why a round of sends ended. */
  datatype Stop = Failed | WouldBlock | Empty | Exhausted | Stuck

  /** The payload lies within the backing store. */
  predicate InBounds(item: Item) {
    item.offset + item.size <= |item.data|
  }

  /** How many buffers hold so many bytes. */
  function Chunks(n: nat): nat {
    (n + BUFFER_SIZE - 1) / BUFFER_SIZE
  }

  class Connection {
    const queue: Queue
    var closing: bool
    var watching: bool
    var scheduled: bool
    var bytesSent: nat
    var droppedPackets: nat
    var droppedBytes: nat
    var bytesHighwater: nat
    var buffersHighwater: nat

    constructor ()
      ensures queue.Valid() && fresh(queue) && queue.list == [] && queue.added == []
      ensures !closing && !watching && !scheduled && bytesSent == 0
      ensures droppedPackets == droppedBytes == bytesHighwater == buffersHighwater == 0
    {
      queue := new Queue();
      closing, watching, scheduled := false, false, false;
      bytesSent, droppedPackets, droppedBytes, bytesHighwater, buffersHighwater := 0, 0, 0, 0, 0;
    }

    /** Ask for a later write, unless the socket is watched for it already. */
    method ScheduleWrite()
      modifies this`scheduled
      ensures scheduled == (old(scheduled) || !watching)
    {
      if !watching {
        scheduled := true;
      }
    }

    /** Queue a buffer unless the queue would retain more than `limit` bytes. */
    method QueueBuffer(e: Entry, limit: nat) returns (ret: int)
      requires queue.Valid() && e !in queue.list && e.item.Memory? && (InBounds(e.item) ==> e.item.Fits())
      modifies this`scheduled, this`droppedPackets, this`droppedBytes, this`bytesHighwater, this`buffersHighwater
      modifies queue, e, queue.list`next
      ensures queue.Valid() && queue.written == old(queue.written)
      ensures ret ==
        if e.item.size > 0 && (old(queue.memoryBytes) + |e.item.data| > limit || !InBounds(e.item)) then -1 else 0
      ensures ret == 0 && e.item.size > 0 ==>
        queue.list == old(queue.list) + [e] && queue.memoryBytes == old(queue.memoryBytes) + |e.item.data|
      ensures ret == 0 && e.item.size > 0 ==>
        InBounds(e.item) && queue.added == old(queue.added) + e.item.data[e.item.offset..e.item.offset + e.item.size]
      ensures ret != 0 || e.item.size == 0 ==> queue.list == old(queue.list) && queue.added == old(queue.added)
      ensures ret != 0 || e.item.size == 0 ==> queue.memoryBytes == old(queue.memoryBytes)
      ensures e.item.Memory? && e.item == old(e.item).(base := e.item.base, len := e.item.len)
      ensures e.refcount == old(e.refcount) + if ret == 0 && e.item.size > 0 then 1 else 0
      ensures scheduled ==
        (old(scheduled) || (ret == 0 && e.item.size > 0 && queue.totalBytes >= BATCH_BYTES && !watching))
      ensures droppedBytes == old(droppedBytes) +
        if old(queue.memoryBytes) + |e.item.data| > limit then e.item.size else 0
      ensures droppedPackets == old(droppedPackets) +
        if e.item.size > 0 && old(queue.memoryBytes) + |e.item.data| > limit then 1 else 0
      ensures ret == 0 && e.item.size > 0 ==>
        bytesHighwater == Max(old(bytesHighwater), old(queue.memoryBytes)) &&
        buffersHighwater == Max(old(buffersHighwater), queue.numQueued)
      ensures queue.totalBytes == old(queue.totalBytes) + if ret == 0 then e.item.size else 0
      ensures ret != 0 || e.item.size == 0 ==>
        bytesHighwater == old(bytesHighwater) && buffersHighwater == old(buffersHighwater)
      ensures old(queue.items) <= queue.items
    {
      hide Queue.Valid, Item.SendfileFd;
      if e.item.size == 0 {
        return 0;
      }
      var queued := queue.memoryBytes;
      if queued + e.item.Held() > limit {
        RecordDrop(e.item.size);
        return -1;
      }
      ret := queue.Add(e);
      if ret < 0 {
        return -1;
      }
      Note(queued);
    }

    method RecordDrop(len: nat)
      modifies this`droppedPackets, this`droppedBytes
      ensures droppedPackets == old(droppedPackets) + 1 && droppedBytes == old(droppedBytes) + len
    {
      droppedPackets := droppedPackets + 1;
      droppedBytes := droppedBytes + len;
    }

    /** Keep the high-water marks, and ask for a write once a batch has gathered. */
    method Note(queued: nat)
      modifies this`scheduled, this`bytesHighwater, this`buffersHighwater
      ensures bytesHighwater == if queued > old(bytesHighwater) then queued else old(bytesHighwater)
      ensures buffersHighwater ==
        if queue.numQueued > old(buffersHighwater) then queue.numQueued else old(buffersHighwater)
      ensures scheduled == (old(scheduled) || (queue.totalBytes >= BATCH_BYTES && !watching))
    {
      if queued > bytesHighwater {
        bytesHighwater := queued;
      }
      if queue.numQueued > buffersHighwater {
        buffersHighwater := queue.numQueued;
      }
      if queue.totalBytes >= BATCH_BYTES {
        ScheduleWrite();
      }
    }

    /** A fresh buffer with stale contents, or null when the pools are exhausted. */
    method AllocOutputBuffer(stale: seq<Byte>, memory: bool) returns (e: Entry?)
      requires |stale| == BUFFER_SIZE
      ensures e == null <==> !memory
      ensures e != null ==> fresh(e) && e.item == Memory(stale, 0, 0, 0, 0, false, -1, -1, []) && e.refcount == 1
    {
      if !memory {
        return null;
      }
      e := new Entry(Memory(stale, 0, 0, 0, 0, false, -1, -1, []));
    }

    /** Copy one chunk into a fresh buffer and queue it. */
    method QueueChunk(chunk: seq<Byte>, stale: seq<Byte>, memory: bool, limit: nat) returns (ret: int)
      requires queue.Valid() && |stale| == BUFFER_SIZE && 0 < |chunk| <= BUFFER_SIZE
      modifies this`scheduled, this`droppedPackets, this`droppedBytes, this`bytesHighwater, this`buffersHighwater
      modifies queue, queue.list`next
      ensures queue.Valid() && queue.written == old(queue.written) && (old(scheduled) ==> scheduled)
      ensures queue.totalBytes == old(queue.totalBytes) + if ret == 0 then |chunk| else 0
      ensures scheduled ==> old(scheduled) || queue.totalBytes >= BATCH_BYTES
      ensures ret == if memory && old(queue.memoryBytes) + BUFFER_SIZE <= limit then 0 else -1
      ensures ret == 0 ==>
        queue.added == old(queue.added) + chunk && queue.memoryBytes == old(queue.memoryBytes) + BUFFER_SIZE
      ensures ret == 0 ==>
        |queue.list| == |old(queue.list)| + 1 && queue.list[..|old(queue.list)|] == old(queue.list) &&
        fresh(queue.list[|old(queue.list)|]) && queue.list[|old(queue.list)|].refcount == 1
      ensures ret != 0 ==>
        queue.added == old(queue.added) && queue.list == old(queue.list) && queue.memoryBytes == old(queue.memoryBytes)
      ensures old(queue.items) <= queue.items
    {
      hide Queue.Valid;
      var e := AllocOutputBuffer(stale, memory);
      if e == null {
        return -1;
      }
      e.item := Memory(chunk + stale[|chunk|..], 0, |chunk|, 0, 0, false, -1, -1, []);
      assert e.item.data[e.item.offset..e.item.offset + e.item.size] == chunk;
      ret := QueueBuffer(e, limit);
      e.refcount := e.refcount - 1;
    }

    /** Queue data in buffers of at most the pool's buffer size. `memory` and `limit` say for each chunk whether a
      * buffer is available and how much the queue may retain; `queued` is how much of the data made it into the
      * queue. */
    method QueueOutput(data: seq<Byte>, stale: seq<Byte>, memory: nat -> bool, limit: nat -> nat)
      returns (ret: int, ghost queued: nat)
      requires queue.Valid() && |stale| == BUFFER_SIZE
      modifies this`scheduled, this`droppedPackets, this`droppedBytes, this`bytesHighwater, this`buffersHighwater
      modifies queue, queue.list`next
      ensures queue.Valid() && queue.written == old(queue.written) && (old(scheduled) ==> scheduled)
      ensures queue.totalBytes == old(queue.totalBytes) + queued
      ensures scheduled ==> old(scheduled) || queue.totalBytes >= BATCH_BYTES
      ensures queued <= |data| && queue.added == old(queue.added) + data[..queued]
      ensures ret == if queued == |data| then 0 else -1
      ensures ret == 0 <==> forall i: nat :: i < Chunks(|data|) ==> memory(i) && Room(old(queue.memoryBytes), i, limit)
      ensures queue.memoryBytes == old(queue.memoryBytes) + Chunks(queued) * BUFFER_SIZE
      ensures |queue.list| >= |old(queue.list)| && queue.list[..|old(queue.list)|] == old(queue.list)
      ensures forall i :: |old(queue.list)| <= i < |queue.list| ==>
        fresh(queue.list[i]) && queue.list[i].refcount == 1
      ensures old(queue.items) <= queue.items
    {
      hide Queue.Valid;
      queued := 0;
      var remaining: nat := |data|;
      var k: nat := 0;
      assert data[..0] == [];
      while remaining > 0
        invariant queued + remaining == |data| && (remaining == 0 || queued == k * BUFFER_SIZE) && k == Chunks(queued)
        invariant queue.Valid() && queue.written == old(queue.written) && (old(scheduled) ==> scheduled)
        invariant queue.added == old(queue.added) + data[..queued]
        invariant queue.totalBytes == old(queue.totalBytes) + queued
        invariant scheduled ==> old(scheduled) || queue.totalBytes >= BATCH_BYTES
        invariant queue.memoryBytes == old(queue.memoryBytes) + k * BUFFER_SIZE
        invariant forall i: nat :: i < k ==> memory(i) && Room(old(queue.memoryBytes), i, limit)
        invariant |queue.list| >= |old(queue.list)| && queue.list[..|old(queue.list)|] == old(queue.list) &&
          old(queue.items) <= queue.items
        invariant forall i :: |old(queue.list)| <= i < |queue.list| ==>
          fresh(queue.list[i]) && queue.list[i].refcount == 1
      {
        var size := if remaining > BUFFER_SIZE then BUFFER_SIZE else remaining;
        var start := |data| - remaining;
        ret := QueueChunk(data[start..start + size], stale, memory(k), limit(k));
        if ret < 0 {
          return -1, queued;
        }
        assert data[..start] + data[start..start + size] == data[..start + size];
        remaining := remaining - size;
        queued := queued + size;
        k := k + 1;
      }
      return 0, queued;
    }

    method WatchWritable(enabled: bool)
      modifies this`watching
      ensures watching == enabled
    {
      if watching == enabled {
        return;
      }
      watching := enabled;
    }

    /** The stream is told that the client took data, and may queue more. */
    method OnDrain(sent: nat, resume: seq<Byte>, stale: seq<Byte>, memory: nat -> bool, limit: nat -> nat)
      returns (ghost queued: nat)
      requires queue.Valid() && |stale| == BUFFER_SIZE
      modifies this`scheduled, this`droppedPackets, this`droppedBytes, this`bytesHighwater, this`buffersHighwater
      modifies queue, queue.list`next
      ensures queue.Valid() && queue.written == old(queue.written) && (old(scheduled) ==> scheduled)
      ensures queued <= |resume| && queue.added == old(queue.added) + resume[..queued] && (sent == 0 ==> queued == 0)
      ensures sent > 0 ==> (queued == |resume| <==> RoomForAll(old(queue.memoryBytes), |resume|, memory, limit))
      ensures queue.memoryBytes == old(queue.memoryBytes) + Chunks(queued) * BUFFER_SIZE
      ensures scheduled ==> old(scheduled) || queue.totalBytes >= BATCH_BYTES
      ensures forall i :: 0 <= i < |queue.list| ==> queue.list[i] in old(queue.list) || fresh(queue.list[i])
      ensures old(queue.items) <= queue.items
    {
      queued := 0;
      assert resume[..0] == [];
      if sent > 0 {
        var ret;
        ret, queued := QueueOutput(resume, stale, memory, limit);
      }
    }

    /** Send until the queue is empty, the socket is full, or the connection has had its share; `rounds` answers are
      * used. */
    method SendLoop(replies: nat -> Reply, fallbacks: nat -> Reply)
      returns (stop: Stop, totalSent: nat, rounds: nat, ghost front: Item)
      requires queue.Valid() && queue.head != null
      modifies this`bytesSent, queue, queue.list`item, queue.list`refcount
      ensures queue.Valid() && queue.added == old(queue.added) && totalSent <= WRITE_LIMIT
      ensures totalSent <= |old(Unsent(queue.items))| &&
        queue.written == old(queue.written) + old(Unsent(queue.items))[..totalSent]
      ensures bytesSent == old(bytesSent) + totalSent
      ensures |queue.list| <= |old(queue.list)| && queue.list == old(queue.list)[|old(queue.list)| - |queue.list|..]
      ensures 0 < rounds <= totalSent + 1 && totalSent <= Granted(replies, fallbacks, rounds)
      ensures stop == Empty ==> queue.head == null
      ensures stop == Exhausted ==> queue.head != null
      ensures stop == Exhausted ==> totalSent == WRITE_LIMIT
      ensures stop == Failed ==> Broken(replies(rounds - 1)) || Broken(fallbacks(rounds - 1))
      ensures stop == WouldBlock ==> TryLater(replies(rounds - 1)) || TryLater(fallbacks(rounds - 1))
      ensures stop == Stuck ==> Refused(replies, rounds) || FileCutShort(queue.items)
      ensures stop == Failed || stop == WouldBlock ==> Refused(replies, rounds)
      ensures stop == Judged(Verdict(front, replies(rounds - 1), fallbacks(rounds - 1)), queue.head == null, totalSent)
      ensures stop == Failed || stop == WouldBlock || stop == Stuck ==> AtFront(front, queue.items)
    {
      hide Queue.Valid, Unsent, AllOk, Offer, Verdict, Answer, Taken, FileCutShort, Broken, TryLater, Gives, Linked,
        Gift, Granted, SameFront, AtFront;
      totalSent := 0;
      rounds := 0;
      NothingGranted(replies, fallbacks);
      queue.Balance();
      while true
        invariant queue.Valid() && queue.added == old(queue.added) && queue.head != null
        invariant totalSent < WRITE_LIMIT && bytesSent == old(bytesSent) + totalSent
        invariant totalSent <= |old(Unsent(queue.items))| &&
          queue.written == old(queue.written) + old(Unsent(queue.items))[..totalSent]
        invariant |queue.list| <= |old(queue.list)| && queue.list == old(queue.list)[|old(queue.list)| - |queue.list|..]
        invariant rounds <= totalSent <= Granted(replies, fallbacks, rounds)
        decreases WRITE_LIMIT - totalSent
      {
        queue.Balance();
        SendOutcome(queue.items, WRITE_LIMIT - totalSent, replies(rounds), fallbacks(rounds));
        Continued(old(queue.written), old(Unsent(queue.items)), totalSent, queue.written, Unsent(queue.items));
        MoreGranted(replies, fallbacks, rounds);
        ghost var before := queue.items;
        front := before[0];
        var ret, sent := queue.Send(WRITE_LIMIT - totalSent, replies(rounds), fallbacks(rounds));
        queue.Balance();
        AtFrontStill(front, before, queue.items, sent);
        rounds := rounds + 1;
        totalSent := totalSent + sent;
        bytesSent := bytesSent + sent;
        if ret < 0 && ret != -2 {
          return Failed, totalSent, rounds, front;
        }
        if ret == -2 {
          return WouldBlock, totalSent, rounds, front;
        }
        if queue.head == null {
          return Empty, totalSent, rounds, front;
        }
        if totalSent >= WRITE_LIMIT {
          return Exhausted, totalSent, rounds, front;
        }
        if sent == 0 {
          return Stuck, totalSent, rounds, front;
        }
      }
    }

    /** Drain the queue and say what to wait for. `replies` are the answers of the kernel in turn, `rounds` how many of
      * them were used, and `resume` is what the stream queues once told that data was taken. */
    method HandleWrite(replies: nat -> Reply, fallbacks: nat -> Reply,
                       resume: seq<Byte>, stale: seq<Byte>, memory: nat -> bool, limit: nat -> nat)
      returns (status: WriteStatus, ghost queued: nat, rounds: nat, ghost why: Stop, ghost front: Option<Item>)
      requires queue.Valid() && |stale| == BUFFER_SIZE
      modifies this, queue, queue.list`item, queue.list`refcount, queue.list`next
      ensures queue.Valid() && queued <= |resume| && queue.added == old(queue.added) + resume[..queued]
      ensures old(bytesSent) <= bytesSent <= old(bytesSent) + Granted(replies, fallbacks, rounds) &&
        rounds <= bytesSent - old(bytesSent) + 1
      ensures bytesSent - old(bytesSent) <= |old(Unsent(queue.items))| && bytesSent - old(bytesSent) <= WRITE_LIMIT
      ensures queue.written == old(queue.written) + old(Unsent(queue.items))[..bytesSent - old(bytesSent)]
      ensures status == Idle ==> queue.written == old(queue.added) && !old(closing) && !watching
      ensures status == Pending ==> bytesSent == old(bytesSent) + WRITE_LIMIT && !watching
      ensures status == Blocked ==> watching && (Refused(replies, rounds) || FileCutShort(queue.items))
      ensures status == Closed ==> closing && !watching && queued == 0
      ensures status == Closed ==> (old(closing) && queue.written == old(queue.added)) || Refused(replies, rounds)
      ensures status != Closed ==> closing == old(closing)
      ensures status == Idle && queue.head != null ==> scheduled
      ensures bytesSent == old(bytesSent) ==> queued == 0
      ensures old(queue.head) == null ==> rounds == 0 && why == Empty
      ensures scheduled ==> old(scheduled) || (why == Empty && queue.head != null) || queue.totalBytes >= BATCH_BYTES
      ensures status == Told(why, old(closing))
      ensures old(queue.head) != null ==>
        rounds > 0 && front.Some? && var verdict := Verdict(front.value, replies(rounds - 1), fallbacks(rounds - 1));
        (why == Failed <==> verdict == -1) && (why == WouldBlock <==> verdict == -2)
      ensures why == Failed || why == WouldBlock || why == Stuck ==>
        front.Some? && AtFront(front.value, queue.items)
      ensures bytesSent > old(bytesSent) && status != Closed ==>
        (queued == |resume| <==> RoomForAll(Without(queue.memoryBytes, queued), |resume|, memory, limit))
      ensures forall i :: 0 <= i < |queue.list| ==> queue.list[i] in old(queue.list) || fresh(queue.list[i])
    {
      hide Queue.Valid, Unsent, AllOk, FileCutShort, Broken, TryLater, Gives, Linked, Granted, Refused, RoomForAll,
        Chunks,
        Without;
      hide AtFront, Verdict, Item.Ok, Queue.Chain, Queue.Mirror, Queue.Tally, Queue.Stream;
      queued, rounds := 0, 0;
      queue.Balance();
      assert resume[..0] == [];
      NothingGranted(replies, fallbacks);
      if queue.head == null {
        WatchWritable(false);
        return if closing then Closed else Idle, 0, 0, Empty, None;
      }
      var stop, totalSent;
      ghost var last;
      stop, totalSent, rounds, last := SendLoop(replies, fallbacks);
      why, front := stop, Some(last);
      queue.Balance();
      status := Settle(stop);
      if status == Closed {
        return status, 0, rounds, why, front;
      }
      queued := Refill(stop, totalSent, resume, stale, memory, limit);
    }

    /** What the stream queues next is to be written later when nothing else is left. */
    method Refill(stop: Stop, sent: nat, resume: seq<Byte>, stale: seq<Byte>, memory: nat -> bool, limit: nat -> nat)
      returns (ghost queued: nat)
      requires queue.Valid() && |stale| == BUFFER_SIZE
      modifies this`scheduled, this`droppedPackets, this`droppedBytes, this`bytesHighwater, this`buffersHighwater
      modifies queue, queue.list`next
      ensures queue.Valid() && queue.written == old(queue.written) && (old(scheduled) ==> scheduled)
      ensures queued <= |resume| && queue.added == old(queue.added) + resume[..queued] && (sent == 0 ==> queued == 0)
      ensures sent > 0 ==> (queued == |resume| <==> RoomForAll(old(queue.memoryBytes), |resume|, memory, limit))
      ensures old(queue.memoryBytes) == Without(queue.memoryBytes, queued)
      ensures forall i :: 0 <= i < |queue.list| ==> queue.list[i] in old(queue.list) || fresh(queue.list[i])
      ensures old(FileCutShort(queue.items)) ==> FileCutShort(queue.items)
      ensures forall front :: old(AtFront(front, queue.items)) ==> AtFront(front, queue.items)
      ensures stop == Empty && queue.head != null ==> scheduled || watching
      ensures scheduled ==> old(scheduled) || (stop == Empty && queue.head != null) || queue.totalBytes >= BATCH_BYTES
    {
      hide Queue.Valid, FileCutShort, RoomForAll, Chunks, AtFront;
      ghost var items := queue.items;
      queued := OnDrain(sent, resume, stale, memory, limit);
      StillCutShort(items, queue.items);
      if stop == Empty && queue.head != null {
        ScheduleWrite();
      }
    }

    /** Watch the socket when it has to be waited for, and only then. */
    method Settle(stop: Stop) returns (status: WriteStatus)
      modifies this`closing, this`watching
      ensures closing == (old(closing) || stop == Failed) && watching == (stop == WouldBlock || stop == Stuck)
      ensures status == Told(stop, old(closing))
    {
      match stop {
        case Failed =>
          closing := true;
          WatchWritable(false);
          return Closed;
        case WouldBlock | Stuck =>
          WatchWritable(true);
          return Blocked;
        case Empty =>
          WatchWritable(false);
          return if closing then Closed else Idle;
        case Exhausted =>
          WatchWritable(false);
          return Pending;
      }
    }
  }

  function Max(a: nat, b: nat): nat { if a < b then b else a }

  /** The kernel takes something. */
  predicate Gives(reply: Reply) {
    reply.Sent? && reply.count > 0
  }

  /** The last of the first n answers takes nothing. */
  predicate Refused(replies: nat -> Reply, n: nat) {
    n > 0 && !Gives(replies(n - 1))
  }

  /** The socket cannot take more for now. */
  predicate TryLater(reply: Reply) {
    reply.Fault? && (reply.errno == Again || reply.errno == NoBuffers || reply.errno == Interrupted)
  }

  /** The answer ends the connection; of a file, the kernel took nothing or failed for any reason but a full socket. */
  predicate Broken(reply: Reply) {
    if reply.Sent? then reply.count == 0 else reply.errno != Again
  }

  /** How much the kernel is ready to take in one round. */
  function Gift(reply: Reply, fallback: Reply): nat {
    if reply.Sent? then reply.count
    else if reply == Fault(Unsupported) && fallback.Sent? then fallback.count
    else 0
  }

  /** How much it is ready to take in the first n rounds. */
  function Granted(replies: nat -> Reply, fallbacks: nat -> Reply, n: nat): nat {
    if n == 0 then 0 else Granted(replies, fallbacks, n - 1) + Gift(replies(n - 1), fallbacks(n - 1))
  }

  lemma MoreGranted(replies: nat -> Reply, fallbacks: nat -> Reply, n: nat)
    ensures Granted(replies, fallbacks, n + 1) == Granted(replies, fallbacks, n) + Gift(replies(n), fallbacks(n))
  {
  }

  lemma NothingGranted(replies: nat -> Reply, fallbacks: nat -> Reply)
    ensures Granted(replies, fallbacks, 0) == 0
  {
  }

  /** A file leads the queue, and it is shorter than it was said to be. */
  ghost predicate FileCutShort(items: seq<Item>) {
    items != [] && items[0].File? && items[0].Ok() && items[0].Rest() == []
  }

  /** Such a file holds up the queue: whatever the kernel is ready to take, nothing goes out and nothing fails. */
  lemma CutShortBlocks(items: seq<Item>, maxBytes: nat, reply: Reply, fallback: Reply)
    requires AllOk(items) && FileCutShort(items) && maxBytes > 0 && Gives(reply)
    ensures Verdict(items[0], reply, fallback) == 0 && Answer(items[0], reply, fallback) == reply &&
      Taken(reply, Offer(items, maxBytes, reply)) == 0
  {
  }

  /** Why sending stops, by how the last send ended: 0, -1 for failure, -2 when the socket would block. */
  ghost function Judged(verdict: int, empty: bool, totalSent: nat): Stop {
    if verdict == -1 then Failed
    else if verdict == -2 then WouldBlock
    else if empty then Empty
    else if totalSent == 256 * 1024 then Exhausted
    else Stuck
  }

  /** What the connection waits for after that. */
  ghost function Told(stop: Stop, closing: bool): WriteStatus {
    match stop
    case Failed => Closed
    case WouldBlock => Blocked
    case Stuck => Blocked
    case Empty => if closing then Closed else Idle
    case Exhausted => Pending
  }

  /** The item leads the queue, with or without its snapshot. */
  ghost predicate AtFront(front: Item, items: seq<Item>) {
    items != [] && (items[0] == front || (front.Memory? && items[0] == Plain(front)))
  }

  lemma AtFrontStill(front: Item, before: seq<Item>, after: seq<Item>, sent: nat)
    requires before != [] && front == before[0] && (sent == 0 ==> after != [] && SameFront(before, after))
    ensures sent == 0 ==> AtFront(front, after) && (FileCutShort(before) ==> FileCutShort(after))
  {
  }

  lemma StillCutShort(items: seq<Item>, more: seq<Item>)
    requires items <= more
    ensures FileCutShort(items) ==> FileCutShort(more)
    ensures forall front :: AtFront(front, items) ==> AtFront(front, more)
  {
  }

  /** What one send can mean. */
  lemma SendOutcome(items: seq<Item>, maxBytes: nat, reply: Reply, fallback: Reply)
    requires AllOk(items) && items != [] && maxBytes > 0
    ensures var ret, answer := Verdict(items[0], reply, fallback), Answer(items[0], reply, fallback);
      var sent := if answer.Sent? then Taken(answer, Offer(items, maxBytes, reply)) else 0;
      (ret == 0 || ret == -1 || ret == -2) && sent <= Gift(reply, fallback) && sent <= maxBytes &&
      (ret == -1 ==> Broken(reply) || Broken(fallback)) && (ret == -2 ==> TryLater(reply) || TryLater(fallback)) &&
      (ret != 0 ==> !Gives(reply)) && (ret == 0 && sent == 0 ==> !Gives(reply) || FileCutShort(items)) &&
      (FileCutShort(items) ==> items[0].File?) && (ret != 0 ==> sent == 0)
  {
    KernelDecides(items, maxBytes, if reply.Sent? then reply else Sent(0));
    BufferOfferFits(items, maxBytes, MAX_IOVECS);
    if items[0].Memory? {
      BufferOfferFits(items[0 := Plain(items[0])], maxBytes, MAX_IOVECS);
    }
  }

  /** Bytes taken after others were taken. */
  lemma Continued(start: seq<Byte>, all: seq<Byte>, n: nat, now: seq<Byte>, left: seq<Byte>)
    requires n <= |all| && now == start + all[..n] && now + left == start + all
    ensures left == all[n..] && forall k: nat :: k <= |left| ==> now + left[..k] == start + all[..n + k]
  {
    assert start + all == start + all[..n] + all[n..];
    assert left == (now + left)[|now|..];
    forall k: nat | k <= |left| ensures now + left[..k] == start + all[..n + k] {
      assert all[..n] + all[n..][..k] == all[..n + k];
    }
  }

  /** What the queue retains besides the chunks of so much data. */
  ghost function Without(retained: nat, n: nat): nat {
    if retained >= Chunks(n) * BUFFER_SIZE then retained - Chunks(n) * BUFFER_SIZE else 0
  }

  /** A buffer can be had for every chunk, and the queue may retain it. */
  ghost predicate RoomForAll(retained: nat, n: nat, memory: nat -> bool, limit: nat -> nat) {
    forall i: nat :: i < Chunks(n) ==> memory(i) && Room(retained, i, limit)
  }

  /** The queue may retain one more buffer after i others. */
  predicate Room(retained: nat, i: nat, limit: nat -> nat) {
    retained + (i + 1) * BUFFER_SIZE <= limit(i)
  }
}
