/** The table of forward-error-correction groups and its cached earliest end. */
module FecGroups {

  import opened ReorderModel
  import Sequences
  import FecReorder

  const MAX_GROUPS: nat := 32

  datatype Group = Inactive | Active(begin: Seq16, end: Seq16, k: nat, m: nat, rtpLen: Seq16)

  /** How far a number lies ahead of an origin. */
  function Ahead(x: Seq16, origin: Seq16): nat { (x - origin) % 65536 }

  /** All active groups end within half the sequence space, counted from some origin. */
  ghost predicate Within(groups: seq<Group>, origin: Seq16) {
    forall i :: 0 <= i < |groups| && groups[i].Active? ==> Ahead(groups[i].end, origin) < 32768
  }

  ghost function Count(groups: seq<Group>): nat {
    if groups == [] then 0 else Count(groups[..|groups| - 1]) + if groups[|groups| - 1].Active? then 1 else 0
  }

  ghost predicate NoneEarlier(groups: seq<Group>, min: Seq16) {
    forall i :: 0 <= i < |groups| && groups[i].Active? ==> Diff(groups[i].end, min) >= 0
  }

  ghost predicate EndOf(groups: seq<Group>, min: Seq16) {
    exists i :: 0 <= i < |groups| && groups[i].Active? && groups[i].end == min
  }

  ghost predicate NoneActive(groups: seq<Group>) {
    forall i :: 0 <= i < |groups| ==> groups[i].Inactive?
  }

  /** The cached minimum is the earliest end of the active groups, and is valid exactly when there are some. */
  ghost predicate Cached(groups: seq<Group>, valid: bool, min: Seq16) {
    if valid then EndOf(groups, min) && NoneEarlier(groups, min) else NoneActive(groups)
  }

  /** The cached minimum is at worst too early: it lies before every end, within the same half of the sequence space. */
  ghost predicate Cautious(groups: seq<Group>, valid: bool, min: Seq16, origin: Seq16) {
    if valid then NoneEarlier(groups, min) && Ahead(min, origin) < 32768 else NoneActive(groups)
  }

  lemma CachedIsCautious(groups: seq<Group>, valid: bool, min: Seq16, origin: Seq16)
    requires Cached(groups, valid, min) && Within(groups, origin)
    ensures Cautious(groups, valid, min, origin)
  {
  }

  predicate Expired(g: Group, base: Seq16) {
    g.Active? && Diff(base, g.end) > 0
  }

  /** Within half the sequence space the signed difference agrees with the distance from the origin. */
  lemma DiffIsDistance(a: Seq16, b: Seq16, origin: Seq16)
    requires Ahead(a, origin) < 32768 && Ahead(b, origin) < 32768
    ensures Diff(a, b) == Ahead(a, origin) - Ahead(b, origin)
  {
    assert Ahead(a, origin) == if a >= origin then a - origin else a - origin + 65536;
    assert Ahead(b, origin) == if b >= origin then b - origin else b - origin + 65536;
  }

  /** The active group that ends furthest after the earliest end. */
  ghost predicate IsLast(groups: seq<Group>, last: nat, min: Seq16) {
    last < |groups| && groups[last].Active? &&
    forall i :: 0 <= i < |groups| && groups[i].Active? ==> Ahead(groups[i].end, min) <= Ahead(groups[last].end, min)
  }

  /** Some group has expired. */
  ghost predicate SomeExpired(groups: seq<Group>, base: Seq16) {
    exists i :: 0 <= i < |groups| && Expired(groups[i], base)
  }

  /** One comparison with the cached minimum tells whether any group has expired, unless the base is half the sequence
    * space or more past the earliest end and less than that past the latest. */
  lemma FiresExactly(groups: seq<Group>, valid: bool, min: Seq16, base: Seq16, last: nat)
    requires Cached(groups, valid, min) && (valid ==> IsLast(groups, last, min))
    ensures (valid && Diff(base, min) > 0 <==> SomeExpired(groups, base)) <==>
      !(valid && 32768 <= Ahead(base, min) < 32768 + Ahead(groups[last].end, min))
  {
    if valid {
      FiresOfSome(groups, min, base, last);
    }
  }

  lemma FiresOfSome(groups: seq<Group>, min: Seq16, base: Seq16, last: nat)
    requires Cached(groups, true, min) && IsLast(groups, last, min)
    ensures (Diff(base, min) > 0 <==> SomeExpired(groups, base)) <==>
      !(32768 <= Ahead(base, min) < 32768 + Ahead(groups[last].end, min))
  {
    var j :| 0 <= j < |groups| && groups[j].Active? && groups[j].end == min;
    forall i | 0 <= i < |groups| && groups[i].Active?
      ensures Expired(groups[i], base) <==> PastEnd(Ahead(base, min), Ahead(groups[i].end, min))
    {
      PastExactly(base, groups[i].end, min);
    }
    PastExactly(base, min, min);
    hide Diff, Ahead;
    if SomeExpired(groups, base) {
      var i :| 0 <= i < |groups| && Expired(groups[i], base);
      assert Ahead(groups[i].end, min) <= Ahead(groups[last].end, min);
    }
    assert Expired(groups[j], base) ==> SomeExpired(groups, base);
    assert Expired(groups[last], base) ==> SomeExpired(groups, base);
    assert Ahead(min, min) == 0 by { AheadOfItself(min); }
  }

  /** Distances from the earliest end for which the signed difference is positive. */
  predicate PastEnd(base: nat, end: nat) {
    end < base < end + 32768
  }

  lemma PastExactly(base: Seq16, end: Seq16, min: Seq16)
    requires Diff(end, min) >= 0
    ensures Diff(base, end) > 0 <==> PastEnd(Ahead(base, min), Ahead(end, min))
    ensures Ahead(end, min) < 32768 && Ahead(base, min) < 65536
  {
    AheadIs(end, min);
    AheadIs(base, min);
    DiffIs(end, min);
    DiffIs(base, end);
    hide Diff, Ahead;
  }

  lemma AheadIs(a: Seq16, origin: Seq16)
    ensures Ahead(a, origin) == if a >= origin then a - origin else a - origin + 65536
  {
  }

  /** The signed difference without a remainder. */
  lemma DiffIs(a: Seq16, b: Seq16)
    ensures Diff(a, b) == if a - b >= 32768 then a - b - 65536 else if a - b < -32768 then a - b + 65536 else a - b
  {
  }

  lemma AheadOfItself(min: Seq16)
    ensures Ahead(min, min) == 0
  {
  }

  /** A base more than half the space past the earliest end can defeat it: a later group has expired, and it does not
    * fire. */
  lemma SpreadTooWide(groups: seq<Group>, last: nat)
    requires Cached(groups, true, 0) && IsLast(groups, last, 0) && groups[last].end == 30000
    ensures SomeExpired(groups, 40000) && !(Diff(40000, 0) > 0)
  {
    FiresExactly(groups, true, 0, 40000, last);
    assert Diff(40000, 0) == 40000 - 65536;
  }

  /** Two jumps of the numbers take the base there without a comparison on the way: 32767 comes when 0 is due, and 40031
    * after it. */
  lemma JumpsReach(r: FecReorder.Ring, a: Buffer, b: Buffer)
    requires r == FecReorder.Ring(32, 0, 0, map[])
    ensures Unwrap(Window(32, 2, 0, map[], 0), 32767) == 32767 && Unwrap(Window(32, 2, 32736, map[], 0), 40031) == 40031
    ensures var first := FecReorder.InsertKeeping(r, 32767, a, Sequences.None);
      first.ring.base == 32736 && first.ring.size == 32 &&
      FecReorder.InsertKeeping(first.ring, 40031, b, Sequences.None).ring.base == 40000
  {
    hide FecReorder.ForceKeeping, FecReorder.Stored, FecReorder.Duplicate;
    FecReorder.MakesRoom(r, 32767);
    var first := FecReorder.InsertKeeping(r, 32767, a, Sequences.None).ring;
    FecReorder.StoredStays(FecReorder.ForceKeeping(r, 32767).ring, 32767, a);
    FecReorder.MakesRoom(first, 40031);
    FecReorder.StoredStays(FecReorder.ForceKeeping(first, 40031).ring, 40031, b);
  }

  /** The earliest end of one group more. */
  lemma Earlier(groups: seq<Group>, i: nat, valid: bool, min: Seq16, origin: Seq16)
    requires i < |groups| && Within(groups, origin) && Cached(groups[..i], valid, min)
    ensures var g := groups[i];
      if g.Active? && (!valid || Diff(g.end, min) < 0) then Cached(groups[..i] + [g], true, g.end)
      else Cached(groups[..i] + [g], valid, min)
  {
    var g, before := groups[i], groups[..i];
    var after := before + [g];
    forall j | 0 <= j < i && groups[j].Active? && g.Active? && valid
      ensures Diff(g.end, min) < 0 ==> Diff(groups[j].end, g.end) >= 0
    {
      var k :| 0 <= k < i && before[k].Active? && before[k].end == min;
      assert groups[k].Active? && before[j] == groups[j];
      DiffIsDistance(g.end, min, origin);
      DiffIsDistance(groups[j].end, min, origin);
      DiffIsDistance(groups[j].end, g.end, origin);
    }
    if g.Active? {
      assert after[i].end == g.end && Diff(g.end, g.end) == 0;
    }
    if valid {
      var k :| 0 <= k < i && before[k].Active? && before[k].end == min;
      assert after[k].end == min;
    }
  }

  /** What becomes of the cached minimum when a slot is given to another group. */
  lemma Replaced(groups: seq<Group>, slot: nat, g: Group, valid: bool, min: Seq16, origin: Seq16)
    requires slot < |groups| && g.Active? && Cautious(groups, valid, min, origin) && Within(groups, origin) &&
      Ahead(g.end, origin) < 32768
    ensures Within(groups[slot := g], origin) && Within(groups[slot := Inactive], origin)
    ensures !valid || Diff(g.end, min) < 0 ==> Cached(groups[slot := g], true, g.end)
    ensures valid && Diff(g.end, min) >= 0 ==> Cautious(groups[slot := g], true, min, origin)
    ensures valid ==> Cautious(groups[slot := Inactive], true, min, origin)
    ensures groups[slot].Inactive? ==> groups[slot := Inactive] == groups
  {
    var after := groups[slot := g];
    assert after[slot].end == g.end && Diff(g.end, g.end) == 0;
    if valid {
      DiffIsDistance(g.end, min, origin);
      forall j | 0 <= j < |groups| && groups[j].Active?
        ensures Diff(groups[j].end, g.end) == Ahead(groups[j].end, origin) - Ahead(g.end, origin)
        ensures Diff(groups[j].end, min) == Ahead(groups[j].end, origin) - Ahead(min, origin)
      {
        DiffIsDistance(groups[j].end, g.end, origin);
        DiffIsDistance(groups[j].end, min, origin);
      }
    }
  }

  /** The earliest end stays exact when a group is added behind it. */
  lemma AddedBehind(groups: seq<Group>, slot: nat, g: Group, min: Seq16)
    requires slot < |groups| && groups[slot].Inactive? && g.Active? && Cached(groups, true, min) &&
      Diff(g.end, min) >= 0
    ensures Cached(groups[slot := g], true, min)
  {
    var after := groups[slot := g];
    var k :| 0 <= k < |groups| && groups[k].Active? && groups[k].end == min;
    assert after[k].end == min;
  }

  lemma {:induction false} CountUpdate(groups: seq<Group>, i: nat, g: Group)
    requires i < |groups|
    ensures Count(groups[i := g]) == Count(groups) - (if groups[i].Active? then 1 else 0) + if g.Active? then 1 else 0
  {
    var last := |groups| - 1;
    if i < last {
      CountUpdate(groups[..last], i, g);
      assert groups[i := g][..last] == groups[..last][i := g];
    } else {
      assert groups[i := g][..last] == groups[..last];
    }
  }

  lemma {:induction false} CountNone(groups: seq<Group>)
    requires NoneActive(groups)
    ensures Count(groups) == 0
  {
    if groups != [] {
      CountNone(groups[..|groups| - 1]);
    }
  }

  class Context {
    var groups: array?<Group>
    var groupCount: int
    var minEnd: Seq16
    var minEndValid: bool

    constructor ()
      ensures Valid() && Table() == [] && groupCount == 0
    {
      groups, groupCount, minEnd, minEndValid := null, 0, 0, false;
    }

    ghost function Table(): seq<Group>
      reads this, groups
    {
      if groups == null then [] else groups[..]
    }

    /** The counter is the number of active groups. */
    ghost predicate Counted()
      reads this, groups
    {
      (groups != null ==> groups.Length == MAX_GROUPS) && groupCount == Count(Table())
    }

    ghost predicate Valid()
      reads this, groups
    {
      Counted() && Cached(Table(), minEndValid, minEnd)
    }

    /** Find the earliest end again. */
    method RecalcMinEndSeq(ghost origin: Seq16)
      requires groups != null && Within(groups[..], origin)
      modifies this`minEnd, this`minEndValid
      ensures Cached(groups[..], minEndValid, minEnd)
    {
      minEndValid := false;
      for i := 0 to groups.Length
        invariant Cached(groups[..i], minEndValid, minEnd)
      {
        assert groups[..i + 1] == groups[..i] + [groups[i]];
        Earlier(groups[..], i, minEndValid, minEnd, origin);
        hide Cached, Within;
        if groups[i].Active? {
          if !minEndValid || Diff(groups[i].end, minEnd) < 0 {
            minEnd := groups[i].end;
            minEndValid := true;
          }
        }
      }
      assert groups[..groups.Length] == groups[..];
    }

    /** The active group of exactly this range, or -1. */
    method FindExisting(begin: Seq16, end: Seq16) returns (slot: int)
      requires groups != null
      ensures -1 <= slot < groups.Length
      ensures slot >= 0 ==> Covers(groups[slot], begin, end)
      ensures slot < 0 ==> forall i :: 0 <= i < groups.Length ==> !Covers(groups[i], begin, end)
    {
      for i := 0 to groups.Length
        invariant forall j :: 0 <= j < i ==> !Covers(groups[j], begin, end)
      {
        if Covers(groups[i], begin, end) {
          return i;
        }
      }
      return -1;
    }

    /** The first slot without a group, or -1. */
    method FindEmpty() returns (slot: int)
      requires groups != null
      ensures -1 <= slot < groups.Length
      ensures slot >= 0 ==> groups[slot].Inactive? && forall i :: 0 <= i < slot ==> groups[i].Active?
      ensures slot < 0 ==> forall i :: 0 <= i < groups.Length ==> groups[i].Active?
    {
      for i := 0 to groups.Length
        invariant forall j :: 0 <= j < i ==> groups[j].Active?
      {
        if groups[i].Inactive? {
          return i;
        }
      }
      return -1;
    }

    /** The group that begins furthest before the new one, or the first when none begins before it. */
    method Oldest(begin: Seq16) returns (slot: nat)
      requires groups != null && groups.Length > 0 && forall i :: 0 <= i < groups.Length ==> groups[i].Active?
      ensures slot < groups.Length && OldestAt(groups[..], begin, slot)
    {
      slot := 0;
      var maxDiff := 0;
      for i := 0 to groups.Length
        invariant slot < groups.Length && maxDiff >= 0
        invariant if maxDiff == 0 then slot == 0 else Diff(begin, groups[slot].begin) == maxDiff
        invariant forall j :: 0 <= j < i ==> Diff(begin, groups[j].begin) <= maxDiff
      {
        var diff := Diff(begin, groups[i].begin);
        if diff > maxDiff {
          maxDiff := diff;
          slot := i;
        }
      }
    }

    /** Find the group of a range or make one, in place of the oldest if the table is full. A range that has already
      * been delivered gets none. `table` and `slots` tell whether memory is available for the table and for the parity
      * slots. */
    method FindOrCreate(reorder: bool, base: Seq16, begin: Seq16, end: Seq16, k: nat, m: nat, rtpLen: Seq16,
                        table: bool, slots: bool, ghost origin: Seq16) returns (slot: int)
      requires Counted() && Within(Table(), origin) && Cautious(Table(), minEndValid, minEnd, origin) &&
        Ahead(end, origin) < 32768
      modifies this, groups
      ensures Counted() && Within(Table(), origin) && Cautious(Table(), minEndValid, minEnd, origin)
      ensures old(Valid()) && (slots || !Full(old(Table()))) ==> Valid()
      ensures 0 <= slot < |old(Table())| && Full(old(Table())) && !Covers(old(Table())[slot], begin, end) ==> Valid()
      ensures reorder && Diff(base, end) > 0 ==> slot == -1 && Table() == old(Table())
      ensures slot >= 0 ==> slot < |Table()| && Covers(Table()[slot], begin, end)
      ensures slot >= 0 ==> var g := Table()[slot]; g.Active? && g.begin == begin && g.end == end
      ensures slot >= 0 ==> forall i :: 0 <= i < |Table()| && i != slot ==>
        Table()[i] == if old(groups) == null then Inactive else old(Table())[i]
      ensures slot >= -1
      ensures slot >= 0 <==>
        !(reorder && Diff(base, end) > 0) &&
        (Known(old(Table()), begin, end) || ((table || old(groups) != null) && slots))
      ensures slot >= 0 && Known(old(Table()), begin, end) ==> groups == old(groups) && Table() == old(Table())
      ensures slot >= 0 && !Known(old(Table()), begin, end) ==> Table()[slot] == Active(begin, end, k, m, rtpLen)
      ensures slot >= 0 && !Known(old(Table()), begin, end) ==>
        if old(groups) == null then slot == 0
        else if Full(old(Table())) then OldestAt(old(Table()), begin, slot)
        else FirstEmpty(old(Table()), slot)
      ensures slot < 0 ==> (reorder && Diff(base, end) > 0) || (groups == null && !table) || !slots
      ensures slot < 0 && !(reorder && Diff(base, end) > 0) && Full(old(Table())) ==>
        exists v: nat :: OldestAt(old(Table()), begin, v) && Table() == old(Table())[v := Inactive]
      ensures slot < 0 && !Full(old(Table())) ==>
        Table() == old(Table()) || (old(groups) == null && NoneActive(Table()))
      ensures groups == old(groups) || (old(groups) == null && fresh(groups))
    {
      hide EndOf;
      if reorder && Diff(base, end) > 0 {
        return -1;
      }
      if groups == null {
        if !table {
          return -1;
        }
        MakeTable();
      }
      slot := FindExisting(begin, end);
      if slot >= 0 {
        return;
      }
      slot := FindEmpty();
      assert old(groups) == null ==> groups[0].Inactive? && slot == 0;
      var evicted := false;
      if slot < 0 {
        slot := Oldest(begin);
        evicted := true;
      }
      var ok := Install(slot, Active(begin, end, k, m, rtpLen), evicted, slots, origin);
      if !ok {
        return -1;
      }
    }

    /** Put a group into a slot, dropping the one that was there, and keep the cached minimum. */
    method Install(slot: nat, g: Group, evicted: bool, slots: bool, ghost origin: Seq16) returns (ok: bool)
      requires Counted() && groups != null && Cautious(groups[..], minEndValid, minEnd, origin) &&
        slot < groups.Length && evicted == groups[slot].Active?
      requires g.Active? && Within(groups[..], origin) && Ahead(g.end, origin) < 32768
      modifies this, groups
      ensures groups == old(groups) && Counted() && ok == slots && Cautious(groups[..], minEndValid, minEnd, origin)
      ensures (old(Valid()) && (slots || !evicted)) || (slots && evicted) ==> Valid()
      ensures groups[..] == old(groups[..])[slot := if slots then g else Inactive] && Within(groups[..], origin)
    {
      ghost var before := groups[..];
      if Valid() && !evicted && minEndValid && Diff(g.end, minEnd) >= 0 {
        AddedBehind(before, slot, g, minEnd);
      }
      CountUpdate(before, slot, if slots then g else Inactive);
      Replaced(before, slot, g, minEndValid, minEnd, origin);
      if evicted {
        groupCount := groupCount - 1;
      }
      groups[slot] := Inactive;
      if !slots {
        assert groups[..] == before[slot := Inactive];
        return false;
      }
      groups[slot] := g;
      groupCount := groupCount + 1;
      assert groups[..] == before[slot := g];
      if !minEndValid || Diff(g.end, minEnd) < 0 {
        minEnd := g.end;
        minEndValid := true;
        CachedIsCautious(groups[..], true, g.end, origin);
      } else if evicted {
        RecalcMinEndSeq(origin);
        CachedIsCautious(groups[..], minEndValid, minEnd, origin);
      }
      return true;
    }

    method MakeTable()
      requires Counted() && groups == null
      modifies this`groups
      ensures Counted() && (old(Valid()) ==> Valid())
      ensures groups != null && fresh(groups) && forall i :: 0 <= i < groups.Length ==> groups[i].Inactive?
    {
      groups := new Group[MAX_GROUPS](_ => Inactive);
      CountNone(groups[..]);
    }

    /** Drop every group that ends before the base. */
    method ReleaseExpired(base: Seq16, ghost origin: Seq16)
      requires Counted() && Within(Table(), origin)
      modifies this, groups
      ensures groups == old(groups) && Counted() && (groups != null ==> Valid()) && (old(Valid()) ==> Valid())
      ensures |Table()| == |old(Table())|
      ensures forall i :: 0 <= i < |Table()| ==>
        Table()[i] == if Expired(old(Table())[i], base) then Inactive else old(Table())[i]
    {
      if groups == null {
        return;
      }
      for i := 0 to groups.Length
        invariant groups == old(groups) && groupCount == Count(groups[..])
        invariant forall j :: 0 <= j < i ==>
          groups[j] == if Expired(old(groups[..])[j], base) then Inactive else old(groups[..])[j]
        invariant forall j :: i <= j < groups.Length ==> groups[j] == old(groups[..])[j]
      {
        if Expired(groups[i], base) {
          ghost var before := groups[..];
          CountUpdate(before, i, Inactive);
          groups[i] := Inactive;
          groupCount := groupCount - 1;
          assert groups[..] == before[i := Inactive];
        }
      }
      RecalcMinEndSeq(origin);
    }
  }

  /** A table that misses an expired group, reached from a new one: groups that end at 0 and at 30000 are announced
    * while 0 is due, and then the base is at 40000. */
  method SpreadReached() returns (context: Context)
    ensures fresh(context) && context.Valid() && context.minEndValid
    ensures !(Diff(40000, context.minEnd) > 0)
    ensures exists i: nat :: i < |context.Table()| && Expired(context.Table()[i], 40000)
  {
    context := new Context();
    var first := context.FindOrCreate(true, 0, 0, 0, 1, 1, 12, true, true, 0);
    assert Diff(0, 0) == 0 && Diff(0, 30000) == -30000;
    ghost var before := context.Table();
    assert |before| == MAX_GROUPS && before[if first == 0 then 1 else 0].Inactive?;
    var second := context.FindOrCreate(true, 0, 30000, 30000, 1, 1, 12, true, true, 0);
    ghost var table := context.Table();
    assert second != first && table[first] == before[first];
    SpreadTooWide(table, second);
  }

  predicate Covers(g: Group, begin: Seq16, end: Seq16) {
    g.Active? && g.begin == begin && g.end == end
  }

  /** The range has a group already. */
  ghost predicate Known(groups: seq<Group>, begin: Seq16, end: Seq16) {
    exists i :: 0 <= i < |groups| && Covers(groups[i], begin, end)
  }

  predicate Full(groups: seq<Group>) {
    |groups| > 0 && forall i :: 0 <= i < |groups| ==> groups[i].Active?
  }

  predicate FirstEmpty(groups: seq<Group>, slot: nat) {
    slot < |groups| && groups[slot].Inactive? && forall i :: 0 <= i < slot ==> groups[i].Active?
  }

  /** The slot of the group that begins furthest before the given number; the first slot when none begins before it. */
  predicate OldestAt(groups: seq<Group>, begin: Seq16, slot: nat) {
    slot < |groups| && (forall i :: 0 <= i < |groups| ==> groups[i].Active?) &&
    (forall i :: 0 <= i < |groups| ==>
      Diff(begin, groups[i].begin) <= 0 || Diff(begin, groups[i].begin) <= Diff(begin, groups[slot].begin)) &&
    (slot == 0 || Diff(begin, groups[slot].begin) > 0)
  }
}
