/** Scatter/gather copy between sequences of memory regions. */
module BufferCopy {
  import opened Rounding
  import opened ByteStream

  /** A view of the bytes of a region from an offset on. */
  datatype Buffer = Buffer(memory: array<Byte>, offset: nat, size: nat) {
    ghost predicate Valid() {
      offset + size <= memory.Length
    }

    /** `operator+`: the same region without its first bytes, or an empty buffer. */
    function Plus(start: nat): (b: Buffer)
      requires Valid()
      ensures b.Valid()
    {
      if start > size then Buffer(memory, offset, 0) else Buffer(memory, offset + start, size - start)
    }

    /** `buffer(b, max)`: at most the first `max` bytes. */
    function Limit(max: nat): (b: Buffer)
      requires Valid()
      ensures b.Valid()
    {
      Buffer(memory, offset, if size < max then size else max)
    }

    ghost function Bytes(): (bs: seq<Byte>)
      requires Valid()
      reads memory
      ensures |bs| == size
    {
      memory[offset..offset + size]
    }
  }

  function Flatten<T>(parts: seq<seq<T>>): seq<T> {
    if parts == [] then [] else Flatten(parts[..|parts| - 1]) + parts[|parts| - 1]
  }

  lemma {:induction false} FlattenPart<T>(parts: seq<seq<T>>, i: nat)
    requires i < |parts|
    ensures Flatten(parts[..i + 1]) == Flatten(parts[..i]) + parts[i]
    ensures Flatten(parts[..i + 1]) <= Flatten(parts)
    decreases |parts|
  {
    assert parts[..i + 1][..i] == parts[..i];
    if i + 1 == |parts| {
      assert parts[..i + 1] == parts;
    } else {
      var front := parts[..|parts| - 1];
      FlattenPart(front, i);
      assert front[..i + 1] == parts[..i + 1];
    }
  }

  lemma PartInside<T>(parts: seq<seq<T>>, i: nat)
    requires i < |parts|
    ensures var before := |Flatten(parts[..i])|;
            before + |parts[i]| <= |Flatten(parts)|
            && Flatten(parts)[before..before + |parts[i]|] == parts[i]
  {
    FlattenPart(parts, i);
    var before := |Flatten(parts[..i])|;
    var upTo := Flatten(parts[..i + 1]);
    assert upTo == Flatten(parts)[..|upTo|];
    assert upTo[before..] == parts[i];
  }

  // ---- Places: an iterator and an offset into the region it points at ----

  datatype Place = Place(region: nat, offset: nat)

  /** The place after `n` more elements of a region of `size` elements: the next region as soon as
      this one is used up. */
  function After(p: Place, size: nat, n: nat): Place {
    if n == size - p.offset then Place(p.region + 1, 0) else Place(p.region, p.offset + n)
  }

  /** `p` is element `total` of the flattened sequence. */
  ghost predicate At<T>(parts: seq<seq<T>>, p: Place, total: nat) {
    p.region <= |parts|
    && p.offset <= (if p.region < |parts| then |parts[p.region]| else 0)
    && total == |Flatten(parts[..p.region])| + p.offset
  }

  /** `n` more elements of its region lie behind `p`. */
  predicate Room<T>(parts: seq<seq<T>>, p: Place, n: nat) {
    p.region < |parts| && p.offset + n <= |parts[p.region]|
  }

  function Taken<T>(parts: seq<seq<T>>, p: Place, n: nat): (chunk: seq<T>)
    requires Room(parts, p, n)
    ensures |chunk| == n
  {
    parts[p.region][p.offset..p.offset + n]
  }

  lemma AtIsInside<T>(parts: seq<seq<T>>, p: Place, total: nat)
    requires At(parts, p, total)
    ensures total <= |Flatten(parts)|
    ensures p.region == |parts| ==> total == |Flatten(parts)|
  {
    if p.region < |parts| { PartInside(parts, p.region); } else { assert parts[..p.region] == parts; }
  }

  lemma AtAdvances<T>(parts: seq<seq<T>>, p: Place, total: nat, n: nat)
    requires At(parts, p, total) && Room(parts, p, n)
    ensures At(parts, After(p, |parts[p.region]|, n), total + n)
  {
    FlattenPart(parts, p.region);
  }

  lemma SliceOfSlice<T>(t: seq<T>, before: nat, size: nat, offset: nat, n: nat)
    requires before + size <= |t| && offset + n <= size
    ensures t[before..before + size][offset..offset + n] == t[before + offset..before + offset + n]
  {
    var read, expected := t[before..before + size][offset..offset + n], t[before + offset..before + offset + n];
    assert forall k :: 0 <= k < n ==> read[k] == expected[k];
  }

  lemma PrefixGrows<T>(t: seq<T>, total: nat, n: nat)
    requires total + n <= |t|
    ensures t[..total] + t[total..total + n] == t[..total + n]
  {
  }

  lemma TakenFlat<T>(parts: seq<seq<T>>, p: Place, total: nat, n: nat)
    requires At(parts, p, total) && Room(parts, p, n)
    ensures total + n <= |Flatten(parts)|
    ensures Flatten(parts)[..total] + Taken(parts, p, n) == Flatten(parts)[..total + n]
  {
    PartInside(parts, p.region);
    SliceOfSlice(Flatten(parts), |Flatten(parts[..p.region])|, |parts[p.region]|, p.offset, n);
    PrefixGrows(Flatten(parts), total, n);
  }

  // ---- Slots: the places in memory that a copy writes, in order ----

  datatype Slot = Slot(memory: array<Byte>, index: nat)

  function Range(memory: array<Byte>, from: nat, n: nat): (slots: seq<Slot>)
    ensures |slots| == n
    ensures forall k :: 0 <= k < n ==> slots[k] == Slot(memory, from + k)
  {
    seq(n, k requires 0 <= k < n => Slot(memory, from + k))
  }

  function SlotParts(bufs: seq<Buffer>): (parts: seq<seq<Slot>>)
    ensures |parts| == |bufs|
    ensures forall i :: 0 <= i < |bufs| ==> parts[i] == Range(bufs[i].memory, bufs[i].offset, bufs[i].size)
  {
    seq(|bufs|, i requires 0 <= i < |bufs| => Range(bufs[i].memory, bufs[i].offset, bufs[i].size))
  }

  function Slots(bufs: seq<Buffer>): seq<Slot> {
    Flatten(SlotParts(bufs))
  }

  /** What is in slot `at`, where `was` was, after writing the bytes to the slots in order: the last
      byte written there. */
  ghost function Written(was: Byte, slots: seq<Slot>, bytes: seq<Byte>, at: Slot): Byte
    requires |slots| == |bytes|
  {
    var n := |slots|;
    if n == 0 then was
    else if slots[n - 1] == at then bytes[n - 1]
    else Written(was, slots[..n - 1], bytes[..n - 1], at)
  }

  lemma {:induction false} WrittenMore(was: Byte, slots: seq<Slot>, bytes: seq<Byte>, memory: array<Byte>, from: nat,
      chunk: seq<Byte>, at: Slot)
    requires |slots| == |bytes|
    ensures Written(was, slots + Range(memory, from, |chunk|), bytes + chunk, at) ==
            if at.memory == memory && from <= at.index < from + |chunk| then chunk[at.index - from]
            else Written(was, slots, bytes, at)
    decreases |chunk|
  {
    var n := |chunk|;
    var all, allBytes := slots + Range(memory, from, n), bytes + chunk;
    if n == 0 {
      assert all == slots && allBytes == bytes;
    } else {
      var front := chunk[..n - 1];
      WrittenMore(was, slots, bytes, memory, from, front, at);
      assert all[..|all| - 1] == slots + Range(memory, from, n - 1);
      assert allBytes[..|all| - 1] == bytes + front;
      assert all[|all| - 1] == Slot(memory, from + (n - 1));
    }
  }

  lemma {:induction false} WrittenNowhere(was: Byte, slots: seq<Slot>, bytes: seq<Byte>, at: Slot)
    requires |slots| == |bytes| && at !in slots
    ensures Written(was, slots, bytes, at) == was
  {
    if slots != [] { WrittenNowhere(was, slots[..|slots| - 1], bytes[..|slots| - 1], at); }
  }

  ghost predicate Distinct(slots: seq<Slot>) {
    forall i, j :: 0 <= i < j < |slots| ==> slots[i] != slots[j]
  }

  lemma {:induction false} WrittenOnce(was: Byte, slots: seq<Slot>, bytes: seq<Byte>, j: nat)
    requires |slots| == |bytes| && Distinct(slots) && j < |slots|
    ensures Written(was, slots, bytes, slots[j]) == bytes[j]
  {
    var n := |slots| - 1;
    if j < n { WrittenOnce(was, slots[..n], bytes[..n], j); }
  }

  // ---- Sequences of buffers ----

  /** Two buffers share no byte. */
  ghost predicate Separate(a: Buffer, b: Buffer) {
    a.memory != b.memory || a.offset + a.size <= b.offset || b.offset + b.size <= a.offset
  }

  /** The regions of a sequence do not overlap one another. */
  ghost predicate Disjoint(bufs: seq<Buffer>) {
    forall i, j :: 0 <= i < j < |bufs| ==> Separate(bufs[i], bufs[j])
  }

  /** No target region overlaps a source region: `memcpy` demands it. */
  ghost predicate Apart(target: seq<Buffer>, source: seq<Buffer>) {
    forall i, j :: 0 <= i < |target| && 0 <= j < |source| ==> Separate(target[i], source[j])
  }

  ghost predicate AllValid(bufs: seq<Buffer>) {
    forall i :: 0 <= i < |bufs| ==> bufs[i].Valid()
  }

  ghost function Memories(bufs: seq<Buffer>): set<object> {
    set i | 0 <= i < |bufs| :: bufs[i].memory
  }

  /** The contents of the buffers, one part each. */
  ghost predicate Holds(bufs: seq<Buffer>, parts: seq<seq<Byte>>)
    requires AllValid(bufs)
    reads Memories(bufs)
  {
    |parts| == |bufs| && forall i :: 0 <= i < |bufs| ==> bufs[i].Bytes() == parts[i]
  }

  ghost function Parts(bufs: seq<Buffer>): (parts: seq<seq<Byte>>)
    requires AllValid(bufs)
    reads Memories(bufs)
    ensures Holds(bufs, parts)
  {
    if bufs == [] then [] else Parts(bufs[..|bufs| - 1]) + [bufs[|bufs| - 1].Bytes()]
  }

  lemma HoldsOnce(bufs: seq<Buffer>, parts: seq<seq<Byte>>)
    requires AllValid(bufs) && Holds(bufs, parts)
    ensures Parts(bufs) == parts
  {
    assert forall i :: 0 <= i < |bufs| ==> Parts(bufs)[i] == parts[i];
  }

  ghost function Flat(bufs: seq<Buffer>): seq<Byte>
    requires AllValid(bufs)
    reads Memories(bufs)
  {
    Flatten(Parts(bufs))
  }

  /** The whole regions the buffers are views of. */
  ghost function Regions(bufs: seq<Buffer>): (regions: seq<seq<Byte>>)
    reads Memories(bufs)
    ensures |regions| == |bufs| && forall i :: 0 <= i < |bufs| ==> regions[i] == bufs[i].memory[..]
  {
    if bufs == [] then [] else Regions(bufs[..|bufs| - 1]) + [bufs[|bufs| - 1].memory[..]]
  }

  /** `now` is what became of the region `m`, which held `was`, when the bytes were written to the
      slots in order. */
  ghost predicate Shows(m: array<Byte>, now: seq<Byte>, was: seq<Byte>, slots: seq<Slot>, bytes: seq<Byte>)
    requires |slots| == |bytes|
  {
    |now| == |was| && forall k :: 0 <= k < |now| ==> now[k] == Written(was[k], slots, bytes, Slot(m, k))
  }

  /** The regions of the buffers, which held `regions`, show the bytes written to the slots in order,
      and are otherwise unchanged. */
  ghost predicate AllShow(bufs: seq<Buffer>, regions: seq<seq<Byte>>, slots: seq<Slot>, bytes: seq<Byte>)
    requires |regions| == |bufs| && |slots| == |bytes|
    reads Memories(bufs)
  {
    forall i :: 0 <= i < |bufs| ==> Shows(bufs[i].memory, bufs[i].memory[..], regions[i], slots, bytes)
  }

  lemma {:induction false} SlotOfBuffer(bufs: seq<Buffer>, at: Slot)
    requires at in Slots(bufs)
    ensures exists i :: 0 <= i < |bufs| && bufs[i].memory == at.memory
              && bufs[i].offset <= at.index < bufs[i].offset + bufs[i].size
    decreases |bufs|
  {
    if bufs != [] {
      var n := |bufs| - 1;
      assert SlotParts(bufs)[..n] == SlotParts(bufs[..n]);
      if at in Slots(bufs[..n]) {
        SlotOfBuffer(bufs[..n], at);
      } else {
        assert at in Range(bufs[n].memory, bufs[n].offset, bufs[n].size);
      }
    }
  }

  lemma {:induction false} DisjointSlots(bufs: seq<Buffer>)
    requires Disjoint(bufs)
    ensures Distinct(Slots(bufs))
    decreases |bufs|
  {
    if bufs != [] {
      var n := |bufs| - 1;
      var front, last := Slots(bufs[..n]), Range(bufs[n].memory, bufs[n].offset, bufs[n].size);
      assert SlotParts(bufs)[..n] == SlotParts(bufs[..n]);
      DisjointSlots(bufs[..n]);
      forall at | at in front
        ensures at !in last
      {
        SlotOfBuffer(bufs[..n], at);
        var i :| 0 <= i < n && bufs[i].memory == at.memory
          && bufs[i].offset <= at.index < bufs[i].offset + bufs[i].size;
        assert Separate(bufs[i], bufs[n]);
      }
      DistinctConcat(front, last);
    }
  }

  lemma DistinctConcat(a: seq<Slot>, b: seq<Slot>)
    requires Distinct(a) && Distinct(b) && forall at :: at in a ==> at !in b
    ensures Distinct(a + b)
  {
    forall i, j | 0 <= i < j < |a + b|
      ensures (a + b)[i] != (a + b)[j]
    {
      if i < |a| <= j { assert a[i] in a && b[j - |a|] in b; }
    }
  }

  /** The byte that is in a slot. */
  ghost predicate InSlot(at: Slot, byte: Byte)
    reads at.memory
  {
    at.index < at.memory.Length && at.memory[at.index] == byte
  }

  ghost predicate InSlots(slots: seq<Slot>, bytes: seq<Byte>)
    reads set at | at in slots :: at.memory
  {
    |slots| == |bytes| && forall j :: 0 <= j < |slots| ==> InSlot(slots[j], bytes[j])
  }

  lemma InSlotsConcat(a: seq<Slot>, x: seq<Byte>, b: seq<Slot>, y: seq<Byte>)
    requires InSlots(a, x) && InSlots(b, y)
    ensures InSlots(a + b, x + y)
  {
  }

  lemma BytesInSlots(b: Buffer)
    requires b.Valid()
    ensures InSlots(Range(b.memory, b.offset, b.size), b.Bytes())
  {
  }

  /** The flattened contents are the contents of the slots. */
  lemma {:induction false} FlatBySlots(bufs: seq<Buffer>)
    requires AllValid(bufs)
    ensures InSlots(Slots(bufs), Flat(bufs))
    decreases |bufs|
  {
    if bufs != [] {
      var n := |bufs| - 1;
      FlatBySlots(bufs[..n]);
      BytesInSlots(bufs[n]);
      InSlotsConcat(Slots(bufs[..n]), Flat(bufs[..n]),
        Range(bufs[n].memory, bufs[n].offset, bufs[n].size), bufs[n].Bytes());
      assert SlotParts(bufs)[..n] == SlotParts(bufs[..n]);
      assert Parts(bufs)[..n] == Parts(bufs[..n]);
    }
  }

  datatype MaxBytes = Unlimited | AtMost(bytes: nat)

  /** What is copied of `available` bytes if there may be a limit. */
  function Allowed(max: MaxBytes, available: nat): nat {
    if max.AtMost? then Min(max.bytes, available) else available
  }

  // ---- One copy ----

  /** `buffer_copy` between single buffers: a memcpy of the smaller size. */
  method CopyBuffer(target: Buffer, source: Buffer) returns (n: nat)
    requires target.Valid() && source.Valid() && Separate(target, source)
    modifies target.memory
    ensures n == Min(target.size, source.size)
    ensures forall k :: target.offset <= k < target.offset + n
              ==> target.memory[k] == old(source.memory[source.offset + (k - target.offset)])
    ensures forall k :: 0 <= k < target.memory.Length && !(target.offset <= k < target.offset + n)
              ==> target.memory[k] == old(target.memory[k])
  {
    n := if target.size < source.size then target.size else source.size;
    for k := 0 to n
      invariant forall j :: target.offset <= j < target.offset + k
                  ==> target.memory[j] == old(source.memory[source.offset + (j - target.offset)])
      invariant forall j :: source.offset <= j < source.offset + source.size
                  ==> source.memory[j] == old(source.memory[j])
      invariant forall j :: 0 <= j < target.memory.Length && !(target.offset <= j < target.offset + k)
                  ==> target.memory[j] == old(target.memory[j])
    {
      target.memory[target.offset + k] := source.memory[source.offset + k];
    }
  }

  /** `now` is `was` with `chunk` written over it from `from` on. */
  ghost predicate Overwritten(now: seq<Byte>, was: seq<Byte>, from: nat, chunk: seq<Byte>) {
    |now| == |was| && from + |chunk| <= |was|
    && forall k :: 0 <= k < |now| ==> now[k] == if from <= k < from + |chunk| then chunk[k - from] else was[k]
  }

  /** The copy of one turn of the loop, from byte `sOffset` of one region, which holds `bytes`, to byte
      `tOffset` of another. */
  method CopyRegion(target: Buffer, source: Buffer, tOffset: nat, sOffset: nat, max: nat, ghost bytes: seq<Byte>)
    returns (n: nat)
    requires target.Valid() && source.Valid() && Separate(target, source)
    requires tOffset <= target.size && sOffset <= source.size && source.Bytes() == bytes
    modifies target.memory
    ensures n == Min(max, Min(target.size - tOffset, |bytes| - sOffset))
    ensures Overwritten(target.memory[..], old(target.memory[..]), target.offset + tOffset, bytes[sOffset..sOffset + n])
  {
    n := CopyBuffer(target.Plus(tOffset), source.Plus(sOffset).Limit(max));
  }

  /** A source region has kept its bytes when only a region apart from it was written. */
  lemma SourceKept(b: Buffer, source: Buffer, was: seq<Byte>, from: nat, chunk: seq<Byte>)
    requires source.Valid() && Separate(b, source) && source.memory == b.memory
    requires b.offset <= from && from + |chunk| <= b.offset + b.size
    requires Overwritten(b.memory[..], was, from, chunk)
    ensures source.Bytes() == was[source.offset..source.offset + source.size]
  {
    var now, expected := source.Bytes(), was[source.offset..source.offset + source.size];
    forall k | 0 <= k < source.size
      ensures now[k] == expected[k]
    {
      assert now[k] == b.memory[..][source.offset + k];
    }
  }

  lemma ShowsMore(m: array<Byte>, before: seq<Byte>, after: seq<Byte>, was: seq<Byte>, slots: seq<Slot>,
      bytes: seq<Byte>, written: array<Byte>, from: nat, chunk: seq<Byte>)
    requires |slots| == |bytes| && Shows(m, before, was, slots, bytes)
    requires if m == written then Overwritten(after, before, from, chunk) else after == before
    ensures Shows(m, after, was, slots + Range(written, from, |chunk|), bytes + chunk)
  {
    forall k | 0 <= k < |after|
      ensures after[k] == Written(was[k], slots + Range(written, from, |chunk|), bytes + chunk, Slot(m, k))
    {
      WrittenMore(was[k], slots, bytes, written, from, chunk, Slot(m, k));
    }
  }

  /** The copy of one turn of the loop: the source keeps its contents. */
  method CopyTaken(target: seq<Buffer>, source: seq<Buffer>, t: Place, u: Place, max: nat, ghost sp: seq<seq<Byte>>)
    returns (n: nat)
    requires AllValid(target) && AllValid(source) && Apart(target, source) && Holds(source, sp)
    requires t.region < |target| && t.offset <= target[t.region].size && Room(sp, u, 0)
    modifies target[t.region].memory
    ensures n == Min(max, Min(target[t.region].size - t.offset, |sp[u.region]| - u.offset))
    ensures Holds(source, sp)
    ensures var b := target[t.region];
            Overwritten(b.memory[..], old(b.memory[..]), b.offset + t.offset, Taken(sp, u, n))
  {
    var b := target[t.region];
    ghost var was := b.memory[..];
    assert Separate(b, source[u.region]);
    n := CopyRegion(b, source[u.region], t.offset, u.offset, max, sp[u.region]);
    forall j | 0 <= j < |source|
      ensures source[j].Bytes() == sp[j]
    {
      assert Separate(b, source[j]);
      if source[j].memory == b.memory { SourceKept(b, source[j], was, b.offset + t.offset, Taken(sp, u, n)); }
    }
  }

  /** And the bytes taken are written to the next slots of the target. */
  method CopyAt(target: seq<Buffer>, source: seq<Buffer>, t: Place, u: Place, max: nat, ghost sp: seq<seq<Byte>>,
      ghost regions: seq<seq<Byte>>, ghost slots: seq<Slot>, ghost bytes: seq<Byte>)
    returns (n: nat)
    requires AllValid(target) && AllValid(source) && Apart(target, source) && Holds(source, sp)
    requires |regions| == |target| && |slots| == |bytes| && AllShow(target, regions, slots, bytes)
    requires t.region < |target| && t.offset <= target[t.region].size && Room(sp, u, 0)
    modifies target[t.region].memory
    ensures n == Min(max, Min(target[t.region].size - t.offset, |sp[u.region]| - u.offset))
    ensures Holds(source, sp)
    ensures AllShow(target, regions, slots + Range(target[t.region].memory, target[t.region].offset + t.offset, n),
                    bytes + Taken(sp, u, n))
  {
    var b := target[t.region];
    ghost var was, from := b.memory[..], b.offset + t.offset;
    n := CopyTaken(target, source, t, u, max, sp);
    ghost var chunk := Taken(sp, u, n);
    forall j | 0 <= j < |target|
      ensures Shows(target[j].memory, target[j].memory[..], regions[j], slots + Range(b.memory, from, n), bytes + chunk)
    {
      var m := target[j].memory;
      assert old(Shows(m, m[..], regions[j], slots, bytes));
      ShowsMore(m, if m == b.memory then was else m[..], m[..], regions[j], slots, bytes, b.memory, from, chunk);
    }
  }

  // ---- The loop ----

  /** Both iterators stand at element `total`, which both sequences have. */
  ghost predicate Progress(target: seq<seq<Slot>>, source: seq<seq<Byte>>, t: Place, u: Place, total: nat) {
    At(target, t, total) && At(source, u, total)
    && total <= |Flatten(target)| && total <= |Flatten(source)|
  }

  lemma ProgressBounds(target: seq<seq<Slot>>, source: seq<seq<Byte>>, t: Place, u: Place, total: nat)
    requires Progress(target, source, t, u, total)
    ensures if t.region < |target| then Room(target, t, 0) else t.region == |target| && total == |Flatten(target)|
    ensures if u.region < |source| then Room(source, u, 0) else u.region == |source| && total == |Flatten(source)|
  {
    AtIsInside(target, t, total);
    AtIsInside(source, u, total);
  }

  /** A turn of the loop went from the places `t` and `u` to the given next ones, and something has
      advanced. */
  ghost predicate Turned(target: seq<seq<Slot>>, source: seq<seq<Byte>>, t: Place, u: Place, total: nat,
      tNext: Place, uNext: Place, copied: nat) {
    Progress(target, source, tNext, uNext, copied)
    && t.region <= tNext.region <= |target| && u.region <= uNext.region <= |source| && total <= copied
    && (total < copied || t.region < tNext.region || u.region < uNext.region)
  }

  /** One turn moves as many elements as both regions and the limit allow, extends what has been copied
      by exactly these, and always advances, over empty regions too. */
  lemma TurnAdvances(target: seq<seq<Slot>>, source: seq<seq<Byte>>, t: Place, u: Place, total: nat, max: nat, n: nat,
      copied: nat)
    requires Progress(target, source, t, u, total) && Room(target, t, n) && Room(source, u, n)
    requires n == Min(max, Min(|target[t.region]| - t.offset, |source[u.region]| - u.offset)) && max > 0
    requires copied == total + n
    ensures copied <= total + max
    ensures Turned(target, source, t, u, total,
                   After(t, |target[t.region]|, n), After(u, |source[u.region]|, n), copied)
    ensures Flatten(target)[..total] + Taken(target, t, n) == Flatten(target)[..copied]
    ensures Flatten(source)[..total] + Taken(source, u, n) == Flatten(source)[..copied]
  {
    TakenFlat(target, t, total, n);
    TakenFlat(source, u, total, n);
    AtAdvances(target, t, total, n);
    AtAdvances(source, u, total, n);
  }

  /** No more is copied than both sides hold and the limit allows, and one of the three is met. */
  predicate StopsRight(max: MaxBytes, total: nat, sourceSize: nat, targetSize: nat) {
    total <= sourceSize && total <= targetSize && (max.AtMost? ==> total <= max.bytes)
    && ((max.AtMost? && total == max.bytes) || total == sourceSize || total == targetSize)
  }

  /** The loop stops where the limit is met or one side is used up. */
  lemma StopsAt(max: MaxBytes, total: nat, sourceSize: nat, targetSize: nat)
    requires StopsRight(max, total, sourceSize, targetSize)
    ensures total == Allowed(max, Min(sourceSize, targetSize))
  {
  }

  lemma TakenRange(target: seq<Buffer>, t: Place, n: nat)
    requires Room(SlotParts(target), t, n)
    ensures Taken(SlotParts(target), t, n) == Range(target[t.region].memory, target[t.region].offset + t.offset, n)
  {
  }

  /** The body of the loop, with what is left of the limit. */
  method Turn(target: seq<Buffer>, source: seq<Buffer>, max: nat, t: Place, u: Place, total: nat,
      ghost sp: seq<seq<Byte>>, ghost regions: seq<seq<Byte>>)
    returns (copied: nat, tNext: Place, uNext: Place)
    requires AllValid(target) && AllValid(source) && Apart(target, source) && Holds(source, sp)
    requires t.region < |target| && u.region < |source| && Progress(SlotParts(target), sp, t, u, total) && max > 0
    requires |regions| == |target| && AllShow(target, regions, Slots(target)[..total], Flatten(sp)[..total])
    modifies target[t.region].memory
    ensures copied <= total + max && Turned(SlotParts(target), sp, t, u, total, tNext, uNext, copied)
    ensures Holds(source, sp) && AllShow(target, regions, Slots(target)[..copied], Flatten(sp)[..copied])
  {
    ProgressBounds(SlotParts(target), sp, t, u, total);
    var targetSize, sourceSize := target[t.region].size, source[u.region].size;
    var n := CopyAt(target, source, t, u, max, sp, regions, Slots(target)[..total], Flatten(sp)[..total]);
    tNext, uNext := After(t, targetSize, n), After(u, sourceSize, n);
    copied := total + n;
    TakenRange(target, t, n);
    TurnAdvances(SlotParts(target), sp, t, u, total, max, n, copied);
  }

  /** The loop of `BufferCopy`, on the source's contents `sp`. */
  method CopyLoop(target: seq<Buffer>, source: seq<Buffer>, max: MaxBytes, ghost sp: seq<seq<Byte>>,
      ghost regions: seq<seq<Byte>>)
    returns (total: nat)
    requires AllValid(target) && AllValid(source) && Apart(target, source) && Holds(source, sp)
    requires |regions| == |target| && AllShow(target, regions, [], [])
    modifies Memories(target)
    ensures total == Allowed(max, Min(|Flatten(sp)|, |Slots(target)|))
    ensures Holds(source, sp) && LastWritten(target, regions, Flatten(sp), total)
  {
    ghost var slots := SlotParts(target);
    total := 0;
    var t, u := Place(0, 0), Place(0, 0);
    ProgressBounds(slots, sp, t, u, total);
    while !(max.AtMost? && total == max.bytes) && t.region < |target| && u.region < |source|
      invariant Progress(slots, sp, t, u, total)
      invariant Holds(source, sp) && AllShow(target, regions, Slots(target)[..total], Flatten(sp)[..total])
      invariant max.AtMost? ==> total <= max.bytes
      invariant t.region <= |target| && u.region <= |source|
      decreases |Slots(target)| - total, |target| - t.region, |source| - u.region
    {
      var limit := if max.AtMost? then max.bytes - total else target[t.region].size + 1;
      total, t, u := Turn(target, source, limit, t, u, total, sp, regions);
    }
    ProgressBounds(slots, sp, t, u, total);
    StopsAt(max, total, |Flatten(sp)|, |Slots(target)|);
  }

  /** The first `total` bytes of `s` have been written to the first `total` slots, in order. */
  ghost predicate LastWritten(target: seq<Buffer>, regions: seq<seq<Byte>>, s: seq<Byte>, total: nat)
    reads Memories(target)
  {
    |regions| == |target| && total <= |Slots(target)| && total <= |s|
    && AllShow(target, regions, Slots(target)[..total], s[..total])
  }

  /** Every byte that belongs to none of the buffers is as in `regions`. */
  ghost predicate RestKept(bufs: seq<Buffer>, regions: seq<seq<Byte>>)
    requires |regions| == |bufs|
    reads Memories(bufs)
  {
    forall i, k :: 0 <= i < |bufs| && 0 <= k < bufs[i].memory.Length && Slot(bufs[i].memory, k) !in Slots(bufs) ==>
      k < |regions[i]| && bufs[i].memory[k] == regions[i][k]
  }

  lemma OnlySlotsChange(target: seq<Buffer>, regions: seq<seq<Byte>>, bytes: seq<Byte>, total: nat)
    requires LastWritten(target, regions, bytes, total)
    ensures RestKept(target, regions)
  {
    forall i, k | 0 <= i < |target| && 0 <= k < target[i].memory.Length && Slot(target[i].memory, k) !in Slots(target)
      ensures k < |regions[i]| && target[i].memory[k] == regions[i][k]
    {
      var m := target[i].memory;
      assert Shows(m, m[..], regions[i], Slots(target)[..total], bytes[..total]);
      WrittenNowhere(regions[i][k], Slots(target)[..total], bytes[..total], Slot(m, k));
      assert m[..][k] == m[k];
    }
  }

  /** The bytes `t0` were in the slots when the regions held `regions`. */
  ghost predicate HeldBy(target: seq<Buffer>, regions: seq<seq<Byte>>, t0: seq<Byte>)
    requires |regions| == |target|
  {
    |t0| == |Slots(target)|
    && forall i, j :: 0 <= i < |target| && 0 <= j < |t0| && Slots(target)[j].memory == target[i].memory ==>
         Slots(target)[j].index < |regions[i]| && t0[j] == regions[i][Slots(target)[j].index]
  }

  lemma HeldAtFirst(target: seq<Buffer>)
    requires AllValid(target)
    ensures HeldBy(target, Regions(target), Flat(target))
  {
    FlatBySlots(target);
    forall i, j | 0 <= i < |target| && 0 <= j < |Flat(target)| && Slots(target)[j].memory == target[i].memory
      ensures Slots(target)[j].index < |Regions(target)[i]|
              && Flat(target)[j] == Regions(target)[i][Slots(target)[j].index]
    {
      assert InSlot(Slots(target)[j], Flat(target)[j]);
    }
  }

  /** For a target without overlaps: the flattened target is a prefix of the source and its old rest. */
  lemma DisjointCopy(target: seq<Buffer>, regions: seq<seq<Byte>>, t0: seq<Byte>, s: seq<Byte>, total: nat)
    requires AllValid(target) && Disjoint(target) && |regions| == |target| && HeldBy(target, regions, t0)
    requires LastWritten(target, regions, s, total)
    ensures PrefixCopied(Flat(target), t0, s, total)
  {
    var slots := Slots(target);
    FlatBySlots(target);
    DisjointSlots(target);
    forall j | 0 <= j < |slots|
      ensures Flat(target)[j] == if j < total then s[j] else t0[j]
    {
      SlotOfBuffer(target, slots[j]);
      assert InSlot(slots[j], Flat(target)[j]);
      var i :| 0 <= i < |target| && target[i].memory == slots[j].memory;
      CopiedSlot(target, regions, t0, s, total, i, j);
    }
  }

  lemma CopiedSlot(target: seq<Buffer>, regions: seq<seq<Byte>>, t0: seq<Byte>, s: seq<Byte>, total: nat, i: nat,
      j: nat)
    requires |regions| == |target| && HeldBy(target, regions, t0) && Distinct(Slots(target))
    requires total <= |Slots(target)| && total <= |s| && i < |target| && j < |Slots(target)|
    requires target[i].memory == Slots(target)[j].memory && Slots(target)[j].index < target[i].memory.Length
    requires Shows(target[i].memory, target[i].memory[..], regions[i], Slots(target)[..total], s[..total])
    ensures Slots(target)[j].memory[Slots(target)[j].index] == if j < total then s[j] else t0[j]
  {
    var done, at, m := Slots(target)[..total], Slots(target)[j], target[i].memory;
    assert m[..][at.index] == m[at.index];
    if j < total {
      WrittenOnce(regions[i][at.index], done, s[..total], j);
    } else {
      assert at !in done;
      WrittenNowhere(regions[i][at.index], done, s[..total], at);
    }
  }

  ghost predicate PrefixCopied(now: seq<Byte>, was: seq<Byte>, s: seq<Byte>, total: nat) {
    total <= |s| && total <= |was| && now == s[..total] + was[total..]
  }

  /** Copies from one sequence of buffers to another: exactly as many bytes as both hold and the
      limit allows, in order. The target's regions show the last byte written to each of their slots
      and are otherwise unchanged, also when target buffers overlap; if they do not, the flattened
      target is the copied prefix of the source followed by its own old rest. */
  method BufferCopy(target: seq<Buffer>, source: seq<Buffer>, max: MaxBytes) returns (total: nat)
    requires AllValid(target) && AllValid(source) && Apart(target, source)
    modifies Memories(target)
    ensures total == Allowed(max, Min(|Flat(source)|, |Flat(target)|))
    ensures StopsRight(max, total, |Flat(source)|, |Flat(target)|)
    ensures LastWritten(target, old(Regions(target)), Flat(source), total)
    ensures RestKept(target, old(Regions(target)))
    ensures Disjoint(target) ==> PrefixCopied(Flat(target), old(Flat(target)), Flat(source), total)
    ensures Flat(source) == old(Flat(source))
  {
    ghost var sp, regions, t0 := Parts(source), Regions(target), Flat(target);
    HeldAtFirst(target);
    total := CopyLoop(target, source, max, sp, regions);
    HoldsOnce(source, sp);
    FlatBySlots(target);
    OnlySlotsChange(target, regions, Flatten(sp), total);
    if Disjoint(target) { DisjointCopy(target, regions, t0, Flatten(sp), total); }
  }
}
