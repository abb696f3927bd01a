/** Reference-counted buffers in a segmented pool with a free list. */
module BufferPool {

  import opened Sequences

  /** A stretch of buffers allocated together. */
  class Segment {
    var bufs: seq<Buffer>
    var numFree: nat

    constructor ()
      ensures bufs == [] && numFree == 0
    {
      bufs, numFree := [], 0;
    }
  }

  /** A buffer of the pool, or a view that shares the data of one. */
  class Buffer {
    const owner: Buffer?
    const segment: Segment?
    var refcount: int
    var dataSize: nat
    var dataOffset: nat

    /** References held directly, as opposed to by views. */
    ghost var holders: nat

    constructor (owner: Buffer?, segment: Segment?)
      ensures this.owner == owner && this.segment == segment
      ensures refcount == 0 && holders == 0 && dataSize == 0 && dataOffset == 0
    {
      this.owner, this.segment := owner, segment;
      refcount, dataSize, dataOffset, holders := 0, 0, 0, 0;
    }
  }

  /** A free list holds distinct buffers of the pool. */
  ghost predicate ListOf(free: seq<Buffer>, bufs: set<Buffer>) {
    Distinct(free) && forall b :: b in free ==> b in bufs
  }

  /** The free buffers are those that nobody references. */
  ghost predicate UnusedOf(free: seq<Buffer>, bufs: set<Buffer>)
    reads bufs`refcount
  {
    forall b :: b in bufs ==> (b in free <==> b.refcount == 0)
  }

  /** The count of a buffer is its direct holders plus its live views, and one more while it is being dropped. */
  ghost predicate CountsOf(bufs: set<Buffer>, views: map<Buffer, Buffer>, dropping: Buffer?)
    reads bufs`refcount, bufs`holders
  {
    forall b :: b in bufs ==> b.refcount == b.holders + |ViewsOf(views, b)| + if b == dropping then 1 else 0
  }

  /** Buffers of the pool are nobody's view, and what a view shares is one of them, never another view. */
  ghost predicate OwnedOf(bufs: set<Buffer>, views: map<Buffer, Buffer>) {
    (forall b :: b in bufs ==> b.owner == null) &&
    forall v :: v in views ==> v.owner == views[v] && v.owner in bufs
  }

  /** Every buffer belongs to one segment. */
  ghost predicate MembersOf(segments: seq<Segment>, bufs: set<Buffer>)
    reads segments`bufs
  {
    Distinct(segments) &&
    (forall s :: s in segments ==> Distinct(s.bufs)) &&
    (forall s, b :: s in segments && b in s.bufs ==> b in bufs && b.segment == s) &&
    forall b :: b in bufs ==> b.segment != null && b.segment in segments && b in b.segment.bufs
  }

  /** Each segment knows how many of its buffers are free. */
  ghost predicate SegmentCountsOf(segments: seq<Segment>, free: seq<Buffer>)
    reads segments`numFree, segments`bufs
  {
    forall s :: s in segments ==> s.numFree == InSegment(free, s.bufs)
  }

  class Pool {
    var freeList: seq<Buffer>
    var segments: seq<Segment>
    var numBuffers: nat
    var numFree: nat
    const bufferSize: nat
    const maxBuffers: nat
    const expandSize: nat
    const lowWatermark: nat
    const highWatermark: nat

    ghost var bufs: set<Buffer>

    /** The live views, each with the buffer it shares. */
    ghost var views: map<Buffer, Buffer>

    ghost predicate Chain()
      reads this`freeList, this`bufs, this`numFree
    {
      numFree == |freeList| && ListOf(freeList, bufs)
    }

    ghost predicate FreeIsUnused()
      reads this`freeList, this`bufs, bufs`refcount
    {
      UnusedOf(freeList, bufs)
    }

    ghost predicate Counts(dropping: Buffer?)
      reads this`bufs, this`views, bufs`refcount, bufs`holders
    {
      CountsOf(bufs, views, dropping)
    }

    ghost predicate Owned()
      reads this`bufs, this`views
    {
      OwnedOf(bufs, views)
    }

    ghost predicate ViewCounts()
      reads this`views, views.Keys`refcount, views.Keys`holders
    {
      forall v :: v in views ==> v.refcount == v.holders > 0
    }

    ghost predicate Members()
      reads this`segments, this`bufs, this`numBuffers, segments`bufs
    {
      numBuffers == Total(segments) && MembersOf(segments, bufs)
    }

    ghost predicate SegmentCounts()
      reads this`segments, this`freeList, segments`numFree, segments`bufs
    {
      SegmentCountsOf(segments, freeList)
    }

    ghost predicate Valid()
      reads this, bufs, views.Keys, segments
    {
      Chain() && FreeIsUnused() && Counts(null) && Owned() && ViewCounts() && Members() && SegmentCounts()
    }

    /** A pool with one segment, or none when memory runs out. */
    constructor (bufferSize: nat, initial: nat, maxBuffers: nat, expandSize: nat, lowWatermark: nat, highWatermark: nat,
      memory: bool)
      ensures Valid() && views == map[] && numBuffers == numFree == if memory then initial else 0
      ensures fresh(bufs) && forall s :: s in segments ==> fresh(s)
      ensures this.bufferSize == bufferSize && this.maxBuffers == maxBuffers && this.expandSize == expandSize
      ensures this.lowWatermark == lowWatermark && this.highWatermark == highWatermark
    {
      this.bufferSize, this.maxBuffers, this.expandSize := bufferSize, maxBuffers, expandSize;
      this.lowWatermark, this.highWatermark := lowWatermark, highWatermark;
      freeList, segments, numBuffers, numFree, bufs, views := [], [], 0, 0, {}, map[];
      new;
      hide Counts, Owned, ViewCounts, Members, ListOf, UnusedOf, SegmentCountsOf, Reversed;
      NothingIsRight();
      var segment := SegmentCreate(initial, memory);
      if segment != null {
        Attach(segment, []);
      }
    }

    /** A pool without segments. */
    lemma NothingIsRight()
      requires freeList == [] && segments == [] && numBuffers == numFree == 0 && bufs == {} && views == map[]
      ensures Valid() && Counts(null) && Owned() && ViewCounts() && Members()
      ensures ListOf([], bufs) && UnusedOf([], bufs) && SegmentCountsOf(segments, [])
    {
    }

    /** Take one more reference. */
    method Get(ref: Buffer)
      requires Valid() && (ref in bufs || ref in views) && ref.refcount > 0
      modifies ref`refcount, ref`holders
      ensures Valid() && ref.refcount == old(ref.refcount) + 1 && ref.holders == old(ref.holders) + 1
    {
      assert ref in bufs ==> ref !in views;
      hide Chain, Owned, Members, SegmentCounts, ViewsOf;
      ref.refcount := ref.refcount + 1;
      ref.holders := ref.holders + 1;
    }

    /** A new view of a buffer, or of what the buffer itself is a view of. */
    method View(ref: Buffer) returns (view: Buffer)
      requires Valid() && (ref in bufs || ref in views) && ref.refcount > 0
      modifies this`views, bufs`refcount
      ensures Valid() && fresh(view) && view.holders == 1
      ensures views == old(views)[view := if ref.owner == null then ref else ref.owner]
      ensures view.dataSize == ref.dataSize && view.dataOffset == ref.dataOffset
    {
      hide Chain, FreeIsUnused, Counts, Members, SegmentCounts;
      var owner := if ref.owner != null then ref.owner else ref;
      OwnerUsed(ref);
      view := new Buffer(owner, null);
      view.dataSize := ref.dataSize;
      view.dataOffset := ref.dataOffset;
      view.refcount := 1;
      view.holders := 1;
      CountUp(owner);
      Register(owner, view);
    }

    /** A buffer with a reference, or the owner of a view, is in use. */
    lemma OwnerUsed(ref: Buffer)
      requires Owned() && Counts(null) && (ref in bufs || ref in views) && ref.refcount > 0
      ensures ref.owner != null ==> ref in views && ref.owner in bufs && ref.owner.refcount > 0
      ensures ref.owner == null ==> ref in bufs
    {
      if ref.owner != null {
        assert ref in ViewsOf(views, ref.owner);
      }
    }

    /** Count a reference that is about to be attributed. */
    method CountUp(ref: Buffer)
      requires FreeIsUnused() && Counts(null) && ref in bufs && ref.refcount > 0
      modifies ref`refcount
      ensures FreeIsUnused() && Counts(ref) && ref.refcount == old(ref.refcount) + 1
    {
      hide ViewsOf;
      ref.refcount := ref.refcount + 1;
    }

    /** Attribute the counted reference to a new view. */
    ghost method Register(owner: Buffer, view: Buffer)
      requires Counts(owner) && Owned() && ViewCounts() && owner in bufs && view !in views
      requires view.owner == owner && view.refcount == view.holders == 1
      modifies this`views
      ensures Counts(null) && Owned() && ViewCounts() && views == old(views)[view := owner]
    {
      forall b ensures |ViewsOf(views[view := owner], b)| == |ViewsOf(views, b)| + if b == owner then 1 else 0 {
        ViewsAdded(views, view, owner, b);
      }
      hide ViewsOf;
      views := views[view := owner];
    }

    /** Take a dead view off the books; the reference it held remains to be dropped. */
    ghost method Unregister(view: Buffer)
      requires Counts(null) && Owned() && view in views &&
        forall v :: v in views && v != view ==> v.refcount == v.holders > 0
      modifies this`views
      ensures Counts(view.owner) && Owned() && ViewCounts() && views == old(views) - {view}
    {
      forall b ensures |ViewsOf(views, b)| == |ViewsOf(views - {view}, b)| + if b == view.owner then 1 else 0 {
        ViewsRemoved(views, view, b);
      }
      hide ViewsOf;
      views := views - {view};
    }

    /** Drop one reference; the last one of a view releases its owner, the last one of a buffer frees it. */
    method Put(ref: Buffer)
      requires Valid() && (ref in bufs || ref in views) && ref.holders > 0
      modifies this`views, this`freeList, this`numFree, bufs`refcount, segments`numFree, ref`refcount, ref`holders
      ensures Valid()
      ensures ref.refcount == old(ref.refcount) - 1 && ref.holders == old(ref.holders) - 1
      ensures ref in old(views) ==> views == if ref.refcount == 0 then old(views) - {ref} else old(views)
      ensures ref in old(views) && ref.refcount == 0 ==> ref.owner.refcount == old(ref.owner.refcount) - 1
      ensures ref in old(bufs) ==>
        views == old(views) && freeList == if ref.refcount == 0 then [ref] + old(freeList) else old(freeList)
    {
      if ref.owner == null {
        PutBuffer(ref);
      } else {
        PutView(ref);
      }
    }

    method PutBuffer(ref: Buffer)
      requires Chain() && FreeIsUnused() && Counts(null) && Owned() && ViewCounts() && Members() && SegmentCounts()
      requires ref in bufs && ref.holders > 0
      modifies this`freeList, this`numFree, ref`refcount, ref`holders, segments`numFree
      ensures Chain() && FreeIsUnused() && Counts(null) && Owned() && ViewCounts() && Members() && SegmentCounts()
      ensures ref.refcount == old(ref.refcount) - 1 && ref.holders == old(ref.holders) - 1
      ensures freeList == if ref.refcount == 0 then [ref] + old(freeList) else old(freeList)
    {
      hide Chain, Members, SegmentCounts, Owned, FreeIsUnused, ViewsOf, Counts, ViewCounts;
      NotView(ref);
      Disown(ref);
      Drop(ref);
    }

    lemma NotView(ref: Buffer)
      requires Owned() && ref in bufs
      ensures ref !in views
    {
    }

    lemma ViewHasOwner(view: Buffer)
      requires Owned() && view in views
      ensures view !in bufs && view.owner == views[view] && view.owner in bufs && view.owner !in views
    {
    }

    /** A direct holder lets go; its reference remains to be dropped. */
    ghost method Disown(ref: Buffer)
      requires Counts(null) && ref in bufs && ref.holders > 0
      modifies ref`holders
      ensures Counts(ref) && ref.holders == old(ref.holders) - 1
    {
      hide ViewsOf;
      ref.holders := ref.holders - 1;
    }

    method PutView(ref: Buffer)
      requires Chain() && FreeIsUnused() && Counts(null) && Owned() && ViewCounts() && Members() && SegmentCounts()
      requires ref in views
      modifies this`views, this`freeList, this`numFree, bufs`refcount, segments`numFree, ref`refcount, ref`holders
      ensures Chain() && FreeIsUnused() && Counts(null) && Owned() && ViewCounts() && Members() && SegmentCounts()
      ensures ref.refcount == old(ref.refcount) - 1 && ref.holders == old(ref.holders) - 1
      ensures views == if ref.refcount == 0 then old(views) - {ref} else old(views)
      ensures ref.refcount == 0 ==> ref.owner.refcount == old(ref.owner.refcount) - 1
    {
      hide Chain, Members, SegmentCounts, ViewsOf, Counts, FreeIsUnused, Owned;
      ViewHasOwner(ref);
      Release(ref);
      if ref.refcount <= 0 {
        FreeView(ref);
      }
    }

    /** A view without references goes, and its owner loses one. */
    method FreeView(view: Buffer)
      requires Chain() && FreeIsUnused() && Counts(null) && Owned() && Members() && SegmentCounts()
      requires view in views && forall v :: v in views && v != view ==> v.refcount == v.holders > 0
      modifies this`views, this`freeList, this`numFree, view.owner`refcount, segments`numFree
      ensures Chain() && FreeIsUnused() && Counts(null) && Owned() && ViewCounts() && Members() && SegmentCounts()
      ensures views == old(views) - {view} && view.owner.refcount == old(view.owner.refcount) - 1
    {
      hide Chain, Members, SegmentCounts, ViewsOf, Counts, FreeIsUnused, Owned;
      ViewHasOwner(view);
      var owner := view.owner;
      Unregister(view);
      hide ViewCounts;
      Drop(owner);
    }

    /** A holder of a view lets go. */
    method Release(view: Buffer)
      requires ViewCounts() && FreeIsUnused() && Counts(null) && view in views && view !in bufs
      modifies view`refcount, view`holders
      ensures FreeIsUnused() && Counts(null) && view.refcount == view.holders == old(view.holders) - 1
      ensures forall v :: v in views && v != view ==> v.refcount == v.holders > 0
    {
      hide ViewsOf;
      view.holders := view.holders - 1;
      view.refcount := view.refcount - 1;
    }

    /** The count of a buffer goes down by one; at zero it returns to the free list. */
    method Drop(ref: Buffer)
      requires Chain() && FreeIsUnused() && Counts(ref) && Members() && SegmentCounts() && ref in bufs
      modifies this`freeList, this`numFree, ref`refcount, segments`numFree
      ensures Chain() && FreeIsUnused() && Counts(null) && Members() && SegmentCounts()
      ensures ref.refcount == old(ref.refcount) - 1
      ensures freeList == if ref.refcount == 0 then [ref] + old(freeList) else old(freeList)
    {
      assert ref !in freeList && ref.refcount > 0;
      hide ViewsOf;
      ref.refcount := ref.refcount - 1;
      if ref.refcount <= 0 {
        Recycle(ref);
      }
    }

    /** Push an unused buffer onto the free list. */
    method Recycle(ref: Buffer)
      requires Chain() && Members() && SegmentCounts() && ref in bufs && ref !in freeList
      modifies this`freeList, this`numFree, segments`numFree
      ensures Chain() && SegmentCounts() && freeList == [ref] + old(freeList)
    {
      ref.segment.numFree := ref.segment.numFree + 1;
      freeList := [ref] + freeList;
      numFree := numFree + 1;
      assert freeList[1..] == old(freeList);
    }

    /** A segment of unused buffers, pushed onto the free list one by one; null when memory runs out. */
    method SegmentCreate(n: nat, memory: bool) returns (segment: Segment?)
      modifies this`freeList
      ensures segment == null <==> !memory
      ensures segment == null ==> freeList == old(freeList)
      ensures segment != null ==> fresh(segment) && |segment.bufs| == segment.numFree == n && Unused(segment)
      ensures segment != null ==> fresh(ToSet(segment.bufs)) && fresh(Reversed(segment.bufs))
      ensures segment != null ==> freeList == Reversed(segment.bufs) + old(freeList)
    {
      if !memory {
        return null;
      }
      hide Reversed;
      segment := new Segment();
      segment.numFree := n;
      NoneReversed();
      for i := 0 to n
        invariant |segment.bufs| == i && segment.numFree == n && Unused(segment) &&
          forall b :: b in segment.bufs ==> fresh(b)
        invariant freeList == Reversed(segment.bufs) + old(freeList)
      {
        Supply(segment, old(freeList));
      }
      ReversedAmong(segment.bufs);
    }

    /** One buffer more for a new segment. */
    method Supply(segment: Segment, ghost rest: seq<Buffer>)
      requires Unused(segment) && freeList == Reversed(segment.bufs) + rest
      modifies segment`bufs, this`freeList
      ensures Unused(segment) && |segment.bufs| == |old(segment.bufs)| + 1 && freeList == Reversed(segment.bufs) + rest
      ensures forall b :: b in segment.bufs ==> b in old(segment.bufs) || fresh(b)
    {
      hide Reversed;
      var ref := new Buffer(null, segment);
      OneReversed(segment.bufs, ref);
      segment.bufs := segment.bufs + [ref];
      freeList := [ref] + freeList;
    }

    /** The number of buffers after growing by one segment. */
    function Grow(n: nat): nat {
      if n + expandSize > maxBuffers then maxBuffers else n + expandSize
    }

    /** Grow by one segment, never past the maximum. */
    method Expand(memory: bool) returns (ok: bool, ghost added: seq<Buffer>)
      requires Valid()
      modifies this`freeList, this`segments, this`numBuffers, this`numFree, this`bufs
      ensures Valid() && ok == (old(numBuffers) < maxBuffers && memory)
      ensures !ok ==>
        freeList == old(freeList) && segments == old(segments) && numBuffers == old(numBuffers) && bufs == old(bufs)
      ensures ok ==> numBuffers == Grow(old(numBuffers)) <= maxBuffers
      ensures ok ==> numBuffers <= old(numBuffers) + expandSize
      ensures ok ==> numBuffers == maxBuffers || numBuffers == old(numBuffers) + expandSize
      ensures ok ==> |segments| > 0 && segments[1..] == old(segments) && fresh(segments[0])
      ensures old(bufs) <= bufs && fresh(bufs - old(bufs))
      ensures freeList == added + old(freeList) && |added| == numBuffers - old(numBuffers) && fresh(added)
    {
      hide ListOf, UnusedOf, CountsOf, OwnedOf, MembersOf, SegmentCountsOf, Unused, ToSet, Reversed;
      if numBuffers >= maxBuffers {
        return false, [];
      }
      var toAdd := expandSize;
      if numBuffers + toAdd > maxBuffers {
        toAdd := maxBuffers - numBuffers;
      }
      var segment := SegmentCreate(toAdd, memory);
      if segment == null {
        return false, [];
      }
      Attach(segment, old(freeList));
      return true, Reversed(segment.bufs);
    }

    /** Put a new segment, whose buffers lead the free list, in front of the others. */
    method Attach(segment: Segment, ghost free: seq<Buffer>)
      requires numFree == |free| && ListOf(free, bufs) && UnusedOf(free, bufs) && SegmentCountsOf(segments, free)
      requires Counts(null) && Owned() && ViewCounts() && Members() && freeList == Reversed(segment.bufs) + free
      requires Unused(segment) && segment !in segments && segment.numFree == |segment.bufs|
      modifies this`segments, this`numBuffers, this`numFree, this`bufs
      ensures Valid() && numBuffers == old(numBuffers) + |segment.bufs|
      ensures segments == [segment] + old(segments) && bufs == old(bufs) + ToSet(segment.bufs)
    {
      hide ListOf, UnusedOf, CountsOf, OwnedOf, MembersOf, SegmentCountsOf, Unused, ToSet, Reversed;
      Grown(free, segments, bufs, views, segment);
      segments := [segment] + segments;
      numBuffers := numBuffers + |segment.bufs|;
      numFree := numFree + |segment.bufs|;
      bufs := bufs + ToSet(segment.bufs);
      assert segments[1..] == old(segments);
      hide Total;
    }

    /** Grow when few buffers are free; fails only when none is free afterwards. */
    method Replenish(memory: bool) returns (ok: bool, ghost added: seq<Buffer>)
      requires Valid()
      modifies this`freeList, this`segments, this`numBuffers, this`numFree, this`bufs
      ensures Valid() && ok == (freeList != [])
      ensures numBuffers == if memory && old(numFree) <= lowWatermark && old(numBuffers) < maxBuffers then
        Grow(old(numBuffers)) else old(numBuffers)
      ensures freeList == added + old(freeList) && |added| == numBuffers - old(numBuffers) && fresh(added)
      ensures segments == old(segments) || (|segments| > 0 && segments[1..] == old(segments) && fresh(segments[0]))
      ensures old(bufs) <= bufs && fresh(bufs - old(bufs))
    {
      assert numFree == |freeList|;
      added := [];
      hide Valid;
      if freeList == [] {
        ok, added := Expand(memory);
        if !ok {
          return false, [];
        }
        if freeList == [] {
          return false, [];
        }
      } else if numFree <= lowWatermark && numBuffers < maxBuffers {
        ok, added := Expand(memory);
      }
      ok := true;
    }

    /** The first free buffer, after growing when few are left; null when there is none and the pool cannot grow. */
    method AllocFrom(memory: bool) returns (ref: Buffer?)
      requires Valid()
      modifies this`freeList, this`segments, this`numBuffers, this`numFree, this`bufs, segments`numFree, freeList
      ensures Valid()
      ensures numBuffers == if memory && old(numFree) <= lowWatermark && old(numBuffers) < maxBuffers then
        Grow(old(numBuffers)) else old(numBuffers)
      ensures ref == null <==> old(freeList) == [] && numBuffers == old(numBuffers)
      ensures old(numBuffers) <= maxBuffers ==> numBuffers <= maxBuffers
      ensures ref != null ==> (ref in old(freeList) || fresh(ref)) && ref in bufs && ref !in freeList
      ensures ref != null ==> ref.refcount == ref.holders == 1 && ref.dataSize == ref.dataOffset == 0
      ensures numBuffers == old(numBuffers) && ref != null ==> [ref] + freeList == old(freeList)
      ensures ref != null ==> |freeList| + 1 == |old(freeList)| + numBuffers - old(numBuffers)
      ensures old(bufs) <= bufs && fresh(bufs - old(bufs)) && (ref in old(bufs) || ref == null || fresh(ref))
      ensures segments == old(segments) || (|segments| > 0 && segments[1..] == old(segments) && fresh(segments[0]))
      ensures forall b :: b in old(bufs) && b != ref ==> unchanged(b)
    {
      hide Valid;
      var ok, added := Replenish(memory);
      if !ok {
        return null;
      }
      ref := freeList[0];
      assert ref == if added != [] then added[0] else old(freeList)[0];
      Take(ref);
    }

    /** Hand out the first free buffer. */
    method Take(ref: Buffer)
      requires Valid() && freeList != [] && ref == freeList[0]
      modifies this`freeList, this`numFree, segments`numFree, ref
      ensures Valid() && freeList == old(freeList[1..]) && ref in bufs && ref !in freeList
      ensures ref.refcount == ref.holders == 1 && ref.dataSize == ref.dataOffset == 0
    {
      hide Chain, FreeIsUnused, Counts, Owned, ViewCounts, Members, SegmentCounts;
      HandOut(ref);
    }

    method HandOut(ref: Buffer)
      requires Chain() && FreeIsUnused() && Counts(null) && Owned() && ViewCounts() && Members() && SegmentCounts()
      requires freeList != [] && ref == freeList[0]
      modifies this`freeList, this`numFree, segments`numFree
      modifies ref
      ensures Chain() && FreeIsUnused() && Counts(null) && Owned() && ViewCounts() && Members() && SegmentCounts()
      ensures freeList == old(freeList[1..]) && ref in bufs && ref !in freeList
      ensures ref.refcount == ref.holders == 1 && ref.dataSize == ref.dataOffset == 0
    {
      assert ref in bufs && ref !in views;
      assert ref !in freeList[1..];
      hide ListOf, UnusedOf, CountsOf, OwnedOf, MembersOf, SegmentCountsOf;
      Pop(ref);
      hide Chain, Members, Owned, ViewCounts, SegmentCounts;
      Claim(ref);
    }

    /** Unlink the first node of the free list. */
    method Pop(ref: Buffer)
      requires Chain() && Members() && SegmentCounts() && freeList != [] && ref == freeList[0]
      modifies this`freeList, this`numFree, segments`numFree
      ensures Chain() && Members() && SegmentCounts() && freeList == old(freeList[1..])
    {
      freeList := freeList[1..];
      numFree := numFree - 1;
      ref.segment.numFree := ref.segment.numFree - 1;
    }

    /** The first reference to a buffer that nobody held. */
    method Claim(ref: Buffer)
      requires UnusedOf([ref] + freeList, bufs) && Counts(null) && ref in bufs && ref !in freeList
      modifies ref
      ensures FreeIsUnused() && Counts(null)
      ensures ref.refcount == ref.holders == 1 && ref.dataSize == ref.dataOffset == 0
    {
      assert ref in [ref] + freeList;
      hide ViewsOf;
      ref.refcount := 1;
      ref.dataOffset := 0;
      ref.dataSize := 0;
      ref.holders := 1;
    }

    /** Return segments nobody uses to the system, as long as more than the high watermark is free. */
    method TryShrink(minBuffers: nat)
      requires Valid()
      modifies this`freeList, this`segments, this`numBuffers, this`numFree, this`bufs
      ensures Valid() && bufs <= old(bufs)
      ensures old(numBuffers) >= minBuffers ==> numBuffers >= minBuffers
      ensures forall b :: b in old(bufs) && b !in bufs ==> b.refcount == 0
      ensures old(numFree) - numFree == old(numBuffers) - numBuffers
      ensures old(numFree) <= highWatermark ==> bufs == old(bufs) && freeList == old(freeList)
      ensures numFree <= highWatermark || forall s :: s in segments ==> !Idle(s, minBuffers)
      ensures numFree < old(numFree) ==> exists s ::
        s in old(segments) && s !in segments && numFree + |s.bufs| > highWatermark
    {
      assert numBuffers == Total(segments);
      if numFree <= highWatermark || numBuffers <= minBuffers {
        forall s | s in segments ensures |s.bufs| <= numBuffers {
          TotalBounds(segments, s);
        }
        return;
      }
      hide Valid;
      var i := 0;
      ghost var last: Segment? := null;
      while i < |segments|
        invariant numFree > highWatermark && (forall s :: s in segments ==> s in old(segments))
        invariant numFree < old(numFree) ==> last != null && last in old(segments) && last !in segments
        invariant Valid() && i <= |segments| && bufs <= old(bufs) && numBuffers >= minBuffers
        invariant forall b :: b in old(bufs) && b !in bufs ==> b.refcount == 0
        invariant old(numFree) - numFree == old(numBuffers) - numBuffers
        invariant forall k :: 0 <= k < i ==> !Idle(segments[k], minBuffers)
        decreases |segments| - i
      {
        var seg := segments[i];
        Room(seg);
        Separate();
        if seg.numFree == |seg.bufs| && numBuffers - |seg.bufs| >= minBuffers {
          FreeSegment(i);
          last := seg;
          if numFree <= highWatermark {
            break;
          }
        } else {
          i := i + 1;
        }
      }
    }

    /** The segment could be given back: all of its buffers are free, and enough buffers remain without it. */
    ghost predicate Idle(s: Segment, minBuffers: nat)
      reads this`numBuffers, s
    {
      |s.bufs| > 0 && s.numFree == |s.bufs| && numBuffers - |s.bufs| >= minBuffers
    }

    lemma Room(seg: Segment)
      requires Valid() && seg in segments
      ensures |seg.bufs| <= numBuffers
    {
      TotalBounds(segments, seg);
    }

    lemma Separate()
      requires Valid()
      ensures Distinct(segments)
    {
    }

    /** Give one free segment back. */
    method FreeSegment(i: nat)
      requires Valid() && i < |segments| && segments[i].numFree == |segments[i].bufs|
      modifies this`freeList, this`segments, this`numBuffers, this`numFree, this`bufs
      ensures Valid() && segments == old(segments[..i] + segments[i + 1..])
      ensures bufs == old(bufs) - ToSet(old(segments[i]).bufs) &&
        forall b :: b in old(segments[i]).bufs ==> b.refcount == 0
      ensures numBuffers == old(numBuffers) - |old(segments[i]).bufs| &&
        numFree == old(numFree) - |old(segments[i]).bufs|
    {
      ghost var free := freeList;
      hide ListOf, UnusedOf, CountsOf, OwnedOf, MembersOf, SegmentCountsOf, Without, Total, InSegment, ToSet;
      var removed := Unlink(segments[i]);
      Detach(i, removed, free);
    }

    /** Drop a segment from the books once its buffers are off the free list. */
    method Detach(i: nat, removed: nat, ghost free: seq<Buffer>)
      requires numFree == |free| && ListOf(free, bufs) && UnusedOf(free, bufs) && SegmentCountsOf(segments, free)
      requires Counts(null) && Owned() && ViewCounts() && Members()
      requires i < |segments| && segments[i].numFree == |segments[i].bufs|
      requires freeList == Without(free, segments[i].bufs) && removed == InSegment(free, segments[i].bufs)
      modifies this`segments, this`numBuffers, this`numFree, this`bufs
      ensures Valid() && segments == old(segments[..i] + segments[i + 1..])
      ensures bufs == old(bufs) - ToSet(old(segments[i]).bufs) &&
        forall b :: b in old(segments[i]).bufs ==> b.refcount == 0
      ensures numBuffers == old(numBuffers) - |old(segments[i]).bufs| &&
        numFree == old(numFree) - |old(segments[i]).bufs|
    {
      hide ListOf, UnusedOf, CountsOf, OwnedOf, MembersOf, SegmentCountsOf, Without, Total, InSegment, ToSet;
      Shrunk(free, segments, bufs, views, i);
      TotalWithout(segments, i);
      WithoutLength(free, segments[i].bufs);
      numBuffers := numBuffers - |segments[i].bufs|;
      numFree := numFree - removed;
      bufs := bufs - ToSet(segments[i].bufs);
      segments := segments[..i] + segments[i + 1..];
    }

    /** Take the buffers of a segment off the free list. */
    method Unlink(seg: Segment) returns (removed: nat)
      modifies this`freeList
      ensures freeList == Without(old(freeList), seg.bufs) && removed == InSegment(old(freeList), seg.bufs)
    {
      var j := 0;
      removed := 0;
      while j < |freeList|
        invariant j <= |freeList|
        invariant freeList[..j] + Without(freeList[j..], seg.bufs) == Without(old(freeList), seg.bufs)
        invariant removed + InSegment(freeList[j..], seg.bufs) == InSegment(old(freeList), seg.bufs)
        decreases |freeList| - j
      {
        assert freeList[j..][1..] == freeList[j + 1..];
        if freeList[j] in seg.bufs {
          ghost var rest := freeList[j + 1..];
          freeList := freeList[..j] + freeList[j + 1..];
          assert freeList[j..] == rest;
          removed := removed + 1;
        } else {
          j := j + 1;
        }
      }
    }
  }

  ghost function ViewsOf(views: map<Buffer, Buffer>, b: Buffer): set<Buffer> {
    set v | v in views && views[v] == b
  }

  lemma ViewsAdded(views: map<Buffer, Buffer>, v: Buffer, owner: Buffer, b: Buffer)
    requires v !in views
    ensures |ViewsOf(views[v := owner], b)| == |ViewsOf(views, b)| + if b == owner then 1 else 0
  {
    if b == owner {
      assert ViewsOf(views[v := owner], b) == ViewsOf(views, b) + {v};
    } else {
      assert ViewsOf(views[v := owner], b) == ViewsOf(views, b);
    }
  }

  lemma ViewsRemoved(views: map<Buffer, Buffer>, v: Buffer, b: Buffer)
    requires v in views
    ensures |ViewsOf(views, b)| == |ViewsOf(views - {v}, b)| + if b == views[v] then 1 else 0
  {
    if b == views[v] {
      assert ViewsOf(views, b) == ViewsOf(views - {v}, b) + {v};
    } else {
      assert ViewsOf(views - {v}, b) == ViewsOf(views, b);
    }
  }

  ghost function Total(segments: seq<Segment>): nat
    reads segments`bufs
  {
    if segments == [] then 0 else |segments[0].bufs| + Total(segments[1..])
  }

  /** How many of the listed buffers are among bufs. */
  ghost function InSegment(free: seq<Buffer>, bufs: seq<Buffer>): nat {
    if free == [] then 0 else (if free[0] in bufs then 1 else 0) + InSegment(free[1..], bufs)
  }

  ghost function Reversed(s: seq<Buffer>): (r: seq<Buffer>)
    ensures |r| == |s|
  {
    if s == [] then [] else [s[|s| - 1]] + Reversed(s[..|s| - 1])
  }

  lemma NoneReversed()
    ensures Reversed([]) == []
  {
  }

  lemma OneReversed(s: seq<Buffer>, b: Buffer)
    ensures Reversed(s + [b]) == [b] + Reversed(s)
  {
    assert (s + [b])[..|s|] == s;
  }

  lemma {:induction false} ReversedAmong(s: seq<Buffer>)
    ensures forall i :: 0 <= i < |Reversed(s)| ==> Reversed(s)[i] in s
  {
    if s != [] {
      ReversedAmong(s[..|s| - 1]);
      assert Reversed(s)[1..] == Reversed(s[..|s| - 1]);
    }
  }

  /** A segment as it was created: distinct buffers of its own that nobody references. */
  ghost predicate Unused(s: Segment)
    reads s`bufs, s.bufs`refcount, s.bufs`holders
  {
    Distinct(s.bufs) && forall b :: b in s.bufs ==> b.segment == s && b.owner == null && b.refcount == b.holders == 0
  }

  lemma ReversedFacts(s: seq<Buffer>)
    ensures forall i :: 0 <= i < |s| ==> Reversed(s)[i] == s[|s| - 1 - i]
    ensures forall i :: 0 <= i < |s| ==> s[i] in Reversed(s)
  {
    forall i | 0 <= i < |s| ensures Reversed(s)[i] == s[|s| - 1 - i] {
      ReversedAt(s, i);
    }
    forall i | 0 <= i < |s| ensures s[i] in Reversed(s) {
      ReversedAt(s, |s| - 1 - i);
    }
  }

  lemma {:induction false} ReversedAt(s: seq<Buffer>, i: nat)
    requires i < |s|
    ensures Reversed(s)[i] == s[|s| - 1 - i]
  {
    if i > 0 {
      ReversedAt(s[..|s| - 1], i - 1);
    }
  }

  /** Every part of the invariant survives an added segment. */
  lemma Grown(free: seq<Buffer>, segments: seq<Segment>, bufs: set<Buffer>, views: map<Buffer, Buffer>, s: Segment)
    requires ListOf(free, bufs) && UnusedOf(free, bufs) && CountsOf(bufs, views, null) && OwnedOf(bufs, views)
    requires MembersOf(segments, bufs) && SegmentCountsOf(segments, free)
    requires Unused(s) && s !in segments && s.numFree == |s.bufs|
    ensures ListOf(Reversed(s.bufs) + free, bufs + ToSet(s.bufs)) &&
      UnusedOf(Reversed(s.bufs) + free, bufs + ToSet(s.bufs))
    ensures CountsOf(bufs + ToSet(s.bufs), views, null) && OwnedOf(bufs + ToSet(s.bufs), views)
    ensures MembersOf([s] + segments, bufs + ToSet(s.bufs)) && SegmentCountsOf([s] + segments, Reversed(s.bufs) + free)
  {
    hide *;
    ListGrown(free, segments, bufs, s);
    UnusedGrown(free, segments, bufs, s);
    CountsGrown(segments, bufs, views, s);
    OwnedGrown(bufs, views, s);
    MembersGrown(segments, bufs, s);
    SegmentCountsGrown(free, segments, bufs, s);
  }

  lemma ListGrown(free: seq<Buffer>, segments: seq<Segment>, bufs: set<Buffer>, s: Segment)
    requires ListOf(free, bufs) && MembersOf(segments, bufs) && Unused(s) && s !in segments
    ensures ListOf(Reversed(s.bufs) + free, bufs + ToSet(s.bufs))
  {
    ReversedFacts(s.bufs);
    var r := Reversed(s.bufs);
    forall i, j | 0 <= i < j < |r + free| ensures (r + free)[i] != (r + free)[j] {
      if i < |r| <= j {
        assert r[i] in s.bufs && free[j - |r|] in bufs;
      }
    }
  }

  lemma UnusedGrown(free: seq<Buffer>, segments: seq<Segment>, bufs: set<Buffer>, s: Segment)
    requires ListOf(free, bufs) && UnusedOf(free, bufs) && MembersOf(segments, bufs) && Unused(s) && s !in segments
    ensures UnusedOf(Reversed(s.bufs) + free, bufs + ToSet(s.bufs))
  {
    ReversedFacts(s.bufs);
  }

  lemma CountsGrown(segments: seq<Segment>, bufs: set<Buffer>, views: map<Buffer, Buffer>, s: Segment)
    requires CountsOf(bufs, views, null) && OwnedOf(bufs, views) && MembersOf(segments, bufs) && Unused(s) &&
      s !in segments
    ensures CountsOf(bufs + ToSet(s.bufs), views, null)
  {
    forall b | b in s.bufs ensures ViewsOf(views, b) == {} {
    }
  }

  lemma OwnedGrown(bufs: set<Buffer>, views: map<Buffer, Buffer>, s: Segment)
    requires OwnedOf(bufs, views) && Unused(s)
    ensures OwnedOf(bufs + ToSet(s.bufs), views)
  {
  }

  lemma MembersGrown(segments: seq<Segment>, bufs: set<Buffer>, s: Segment)
    requires MembersOf(segments, bufs) && Unused(s) && s !in segments
    ensures MembersOf([s] + segments, bufs + ToSet(s.bufs))
  {
  }

  lemma SegmentCountsGrown(free: seq<Buffer>, segments: seq<Segment>, bufs: set<Buffer>, s: Segment)
    requires SegmentCountsOf(segments, free) && ListOf(free, bufs) && MembersOf(segments, bufs)
    requires Unused(s) && s !in segments && s.numFree == |s.bufs|
    ensures SegmentCountsOf([s] + segments, Reversed(s.bufs) + free)
  {
    var r := Reversed(s.bufs);
    ReversedFacts(s.bufs);
    forall t | t in segments ensures InSegment(r + free, t.bufs) == InSegment(free, t.bufs) {
      forall b | b in r ensures b !in t.bufs {
        assert b in s.bufs && b.segment == s;
      }
      NoneInSegment(r, t.bufs);
      InSegmentSplit(r, free, t.bufs);
    }
    AllInSegment(r, s.bufs);
    NoneInSegment(free, s.bufs);
    InSegmentSplit(r, free, s.bufs);
  }

  lemma {:induction false} InSegmentSplit(front: seq<Buffer>, back: seq<Buffer>, bufs: seq<Buffer>)
    ensures InSegment(front + back, bufs) == InSegment(front, bufs) + InSegment(back, bufs)
  {
    if front == [] {
      assert front + back == back;
    } else {
      assert (front + back)[1..] == front[1..] + back;
      InSegmentSplit(front[1..], back, bufs);
    }
  }

  lemma {:induction false} NoneInSegment(free: seq<Buffer>, bufs: seq<Buffer>)
    requires forall b :: b in free ==> b !in bufs
    ensures InSegment(free, bufs) == 0
  {
    if free != [] {
      NoneInSegment(free[1..], bufs);
    }
  }

  lemma {:induction false} AllInSegment(free: seq<Buffer>, bufs: seq<Buffer>)
    requires forall b :: b in free ==> b in bufs
    ensures InSegment(free, bufs) == |free|
  {
    if free != [] {
      AllInSegment(free[1..], bufs);
    }
  }

  /** The list without the buffers of a segment. */
  ghost function Without(free: seq<Buffer>, bufs: seq<Buffer>): seq<Buffer> {
    if free == [] then [] else (if free[0] in bufs then [] else [free[0]]) + Without(free[1..], bufs)
  }

  lemma {:induction false} WithoutLength(free: seq<Buffer>, bufs: seq<Buffer>)
    ensures |Without(free, bufs)| == |free| - InSegment(free, bufs)
  {
    if free != [] {
      WithoutLength(free[1..], bufs);
    }
  }

  lemma {:induction false} WithoutMembers(free: seq<Buffer>, bufs: seq<Buffer>, b: Buffer)
    ensures b in Without(free, bufs) <==> b in free && b !in bufs
  {
    if free != [] {
      WithoutMembers(free[1..], bufs, b);
      assert b in free <==> b == free[0] || b in free[1..];
    }
  }

  lemma {:induction false} WithoutDistinct(free: seq<Buffer>, bufs: seq<Buffer>)
    requires Distinct(free)
    ensures Distinct(Without(free, bufs))
  {
    if free != [] {
      WithoutDistinct(free[1..], bufs);
      WithoutMembers(free[1..], bufs, free[0]);
    }
  }

  lemma {:induction false} WithoutCount(free: seq<Buffer>, bufs: seq<Buffer>, other: seq<Buffer>)
    requires forall k :: 0 <= k < |free| && free[k] in bufs ==> free[k] !in other
    ensures InSegment(Without(free, bufs), other) == InSegment(free, other)
  {
    if free != [] {
      WithoutCount(free[1..], bufs, other);
      var rest := Without(free[1..], bufs);
      if free[0] !in bufs {
        assert ([free[0]] + rest)[1..] == rest;
      } else {
        assert [] + rest == rest;
      }
    }
  }

  lemma {:induction false} TotalBounds(segments: seq<Segment>, s: Segment)
    requires s in segments
    ensures |s.bufs| <= Total(segments)
  {
    if segments[0] != s {
      TotalBounds(segments[1..], s);
    }
  }

  lemma {:induction false} TotalWithout(segments: seq<Segment>, i: nat)
    requires i < |segments|
    ensures Total(segments) == Total(segments[..i] + segments[i + 1..]) + |segments[i].bufs|
  {
    if i == 0 {
      assert segments[..0] + segments[1..] == segments[1..];
    } else {
      TotalWithout(segments[1..], i - 1);
      assert (segments[..i] + segments[i + 1..])[1..] == segments[1..][..i - 1] + segments[1..][i..];
    }
  }

  /** Of a list without repetition, as many as bufs has are in bufs only when all of bufs is listed. */
  lemma AllFree(free: seq<Buffer>, bufs: seq<Buffer>)
    requires Distinct(free) && Distinct(bufs) && InSegment(free, bufs) == |bufs|
    ensures forall b :: b in bufs ==> b in free
  {
    InSegmentCard(free, bufs);
    DistinctCard(bufs);
    var both := ToSet(free) * ToSet(bufs);
    assert |ToSet(bufs) - both| == |ToSet(bufs)| - |both|;
    forall b | b in bufs ensures b in free {
      assert b !in ToSet(bufs) - both;
    }
  }

  lemma {:induction false} InSegmentCard(free: seq<Buffer>, bufs: seq<Buffer>)
    requires Distinct(free)
    ensures InSegment(free, bufs) == |ToSet(free) * ToSet(bufs)|
  {
    if free != [] {
      assert Distinct(free[1..]) && free[0] !in free[1..];
      hide Distinct;
      InSegmentCard(free[1..], bufs);
      assert ToSet(free) == ToSet(free[1..]) + {free[0]};
      OneMore(ToSet(free[1..]), free[0], ToSet(bufs));
    }
  }

  lemma OneMore(a: set<Buffer>, x: Buffer, b: set<Buffer>)
    requires x !in a
    ensures |(a + {x}) * b| == |a * b| + if x in b then 1 else 0
  {
    assert (a + {x}) * b == if x in b then (a * b) + {x} else a * b;
  }

  /** Every part of the invariant survives the removal of a segment whose buffers are all free. */
  lemma Shrunk(free: seq<Buffer>, segments: seq<Segment>, bufs: set<Buffer>, views: map<Buffer, Buffer>, i: nat)
    requires ListOf(free, bufs) && UnusedOf(free, bufs) && CountsOf(bufs, views, null) && OwnedOf(bufs, views)
    requires MembersOf(segments, bufs) && SegmentCountsOf(segments, free)
    requires i < |segments| && segments[i].numFree == |segments[i].bufs|
    ensures var s := segments[i].bufs; var rest := segments[..i] + segments[i + 1..];
      ListOf(Without(free, s), bufs - ToSet(s)) && UnusedOf(Without(free, s), bufs - ToSet(s)) &&
      CountsOf(bufs - ToSet(s), views, null) && OwnedOf(bufs - ToSet(s), views) &&
      MembersOf(rest, bufs - ToSet(s)) && SegmentCountsOf(rest, Without(free, s)) &&
      InSegment(free, s) == |s| && forall b :: b in s ==> b.refcount == 0
  {
    AllUnused(free, segments, bufs, segments[i]);
    hide *;
    ListShrunk(free, bufs, segments[i].bufs);
    UnusedShrunk(free, bufs, segments[i].bufs);
    CountsShrunk(bufs, views, segments, segments[i]);
    MembersShrunk(segments, bufs, i);
    SegmentCountsShrunk(free, segments, bufs, i);
  }

  lemma AllUnused(free: seq<Buffer>, segments: seq<Segment>, bufs: set<Buffer>, s: Segment)
    requires ListOf(free, bufs) && UnusedOf(free, bufs) && MembersOf(segments, bufs) && SegmentCountsOf(segments, free)
    requires s in segments && s.numFree == |s.bufs|
    ensures InSegment(free, s.bufs) == |s.bufs| && forall b :: b in s.bufs ==> b.refcount == 0
  {
    AllFree(free, s.bufs);
  }

  lemma ListShrunk(free: seq<Buffer>, bufs: set<Buffer>, s: seq<Buffer>)
    requires ListOf(free, bufs)
    ensures ListOf(Without(free, s), bufs - ToSet(s))
  {
    WithoutDistinct(free, s);
    forall b | b in Without(free, s) ensures b in bufs - ToSet(s) {
      WithoutMembers(free, s, b);
    }
  }

  lemma UnusedShrunk(free: seq<Buffer>, bufs: set<Buffer>, s: seq<Buffer>)
    requires UnusedOf(free, bufs)
    ensures UnusedOf(Without(free, s), bufs - ToSet(s))
  {
    forall b | b in bufs - ToSet(s) ensures b in Without(free, s) <==> b.refcount == 0 {
      WithoutMembers(free, s, b);
    }
  }

  /** A buffer that nobody references has no view. */
  lemma CountsShrunk(bufs: set<Buffer>, views: map<Buffer, Buffer>, segments: seq<Segment>, s: Segment)
    requires CountsOf(bufs, views, null) && OwnedOf(bufs, views) && MembersOf(segments, bufs) && s in segments
    requires forall b :: b in s.bufs ==> b.refcount == 0
    ensures CountsOf(bufs - ToSet(s.bufs), views, null) && OwnedOf(bufs - ToSet(s.bufs), views)
  {
    forall v | v in views ensures v.owner in bufs - ToSet(s.bufs) {
      assert v in ViewsOf(views, v.owner);
    }
  }

  lemma RestMember(segments: seq<Segment>, i: nat, t: Segment)
    requires Distinct(segments) && i < |segments| && t in segments[..i] + segments[i + 1..]
    ensures t in segments && t != segments[i]
  {
  }

  lemma MembersShrunk(segments: seq<Segment>, bufs: set<Buffer>, i: nat)
    requires MembersOf(segments, bufs) && i < |segments|
    ensures MembersOf(segments[..i] + segments[i + 1..], bufs - ToSet(segments[i].bufs))
  {
    var rest := segments[..i] + segments[i + 1..];
    forall t | t in segments && t != segments[i] ensures t in rest {
      var k :| 0 <= k < |segments| && segments[k] == t;
      assert rest[if k < i then k else k - 1] == t;
    }
    forall t | t in rest ensures t in segments && t != segments[i] {
      RestMember(segments, i, t);
    }
    var s := segments[i];
    forall b | b in bufs - ToSet(s.bufs) ensures b.segment in rest {
      assert b in b.segment.bufs;
    }
    forall t, b | t in rest && b in t.bufs ensures b in bufs - ToSet(s.bufs) {
      assert b.segment == t;
    }
  }

  lemma SegmentCountsShrunk(free: seq<Buffer>, segments: seq<Segment>, bufs: set<Buffer>, i: nat)
    requires SegmentCountsOf(segments, free) && MembersOf(segments, bufs) && i < |segments|
    ensures SegmentCountsOf(segments[..i] + segments[i + 1..], Without(free, segments[i].bufs))
  {
    var rest := segments[..i] + segments[i + 1..];
    forall t | t in rest ensures t.numFree == InSegment(Without(free, segments[i].bufs), t.bufs) {
      RestMember(segments, i, t);
      assert forall b :: b in t.bufs ==> b.segment == t;
      WithoutCount(free, segments[i].bufs, t.bufs);
    }
  }

  /** What each segment counts as free adds up to the free list. */
  lemma {:induction false} FreeAddsUp(segments: seq<Segment>, free: seq<Buffer>, bufs: set<Buffer>)
    requires MembersOf(segments, bufs) && SegmentCountsOf(segments, free) && ListOf(free, bufs)
    ensures SumFree(segments) == |free|
  {
    SumCounts(segments, free);
    OncePerSegment(segments, free, bufs);
  }

  ghost function SumFree(segments: seq<Segment>): nat
    reads segments`numFree
  {
    if segments == [] then 0 else segments[0].numFree + SumFree(segments[1..])
  }

  ghost function SumIn(segments: seq<Segment>, free: seq<Buffer>): nat
    reads segments`bufs
  {
    if segments == [] then 0 else InSegment(free, segments[0].bufs) + SumIn(segments[1..], free)
  }

  lemma {:induction false} SumCounts(segments: seq<Segment>, free: seq<Buffer>)
    requires SegmentCountsOf(segments, free)
    ensures SumFree(segments) == SumIn(segments, free)
  {
    if segments != [] {
      SumCounts(segments[1..], free);
    }
  }

  lemma {:induction false} OncePerSegment(segments: seq<Segment>, free: seq<Buffer>, bufs: set<Buffer>)
    requires MembersOf(segments, bufs) && forall b :: b in free ==> b in bufs
    ensures SumIn(segments, free) == |free|
  {
    if free == [] {
      SumNone(segments);
    } else {
      OncePerSegment(segments, free[1..], bufs);
      SumOne(segments, free, bufs);
    }
  }

  lemma {:induction false} SumNone(segments: seq<Segment>)
    ensures SumIn(segments, []) == 0
  {
    if segments != [] {
      SumNone(segments[1..]);
    }
  }

  lemma {:induction false} SumOne(segments: seq<Segment>, free: seq<Buffer>, bufs: set<Buffer>)
    requires Distinct(segments) && free != [] && forall s :: s in segments && free[0] in s.bufs ==> s == free[0].segment
    requires forall s :: s in segments && s == free[0].segment ==> free[0] in s.bufs
    ensures SumIn(segments, free) == SumIn(segments, free[1..]) + if free[0].segment in segments then 1 else 0
  {
    if segments != [] {
      SumOne(segments[1..], free, bufs);
    }
  }
}
