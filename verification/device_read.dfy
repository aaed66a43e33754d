/** lvm2_device_read: read an arbitrary byte range of the medium into the
    caller's I/O buffer, going through a block-aligned scratch buffer
    (kext/lvm2_osal_iokit.cpp:158-239). */
module DeviceRead {
  import opened CTypes
  import opened Memory
  import opened Align
  import opened IoBuffer
  import opened Device

  datatype ReadResult = ReadResult(err: int, world: World)

  /** What the source relies on when it is called: a live device with a
      usable block size and a live I/O buffer. Block size 0 is ruled out
      here because creation does not rule it out (line 115) and line 175
      would divide by it. */
  predicate ReadReady(w: World, dev: Ptr, inBuf: Ptr) {
    Good(w) && IsDevice(w, dev) && 0 < BlockSize(w, dev) && IsIoBuffer(w, inBuf)
  }

  /** What every read leaves behind: no object allocated or freed for good,
      no session opened or closed, nothing changed but the bytes of the
      caller's descriptor, every scratch descriptor released exactly once,
      and the caller's descriptor never released. */
  ghost predicate Tidy(w: World, w2: World, inBuf: Ptr)
    requires IsIoBuffer(w, inBuf)
  {
    var dest := DescriptorOf(w, inBuf);
    && Good(w2) && w.log <= w2.log
    && w2.sessions == w.sessions
    && dest in w2.live && w2.live == w.live[dest := w2.live[dest]]
    && w2.live[dest].Descriptor? && |w2.live[dest].bytes| == |Bytes(w, dest)|
    && ReleasesWhatItCreates(NewEvents(w, w2))
    && multiset(NewEvents(w, w2))[DescriptorReleased(dest)] == 0
  }

  /** The caller's buffer now begins with `count` bytes of the medium from
      offset `start` (as many as the buffer holds); the rest is as it was. */
  predicate Delivered(w: World, w2: World, inBuf: Ptr, m: Medium, start: nat, count: nat)
    requires IsIoBuffer(w, inBuf) && IsIoBuffer(w2, inBuf)
  {
    var n := Min(count, |GetBytes(w, inBuf)|);
    GetBytes(w2, inBuf) == Slice(m, start, n) + GetBytes(w, inBuf)[n..]
  }

  /** Creating one descriptor, doing things that neither create nor release
      descriptors, and releasing it again is balanced. */
  lemma {:induction false} ScratchEventsBalanced(s: nat, mid: seq<Event>, other: nat)
    requires forall e :: e in mid ==> !e.DescriptorCreated? && !e.DescriptorReleased?
    requires other != s
    ensures var ev := [DescriptorCreated(s)] + mid + [DescriptorReleased(s)];
            && ReleasesWhatItCreates(ev) && multiset(ev)[DescriptorCreated(s)] == 1
            && multiset(ev)[DescriptorReleased(other)] == 0
  {
    var ev := [DescriptorCreated(s)] + mid + [DescriptorReleased(s)];
    assert multiset(ev) == multiset{DescriptorCreated(s)} + multiset(mid) + multiset{DescriptorReleased(s)};
    forall a
      ensures multiset(mid)[DescriptorCreated(a)] == 0 && multiset(mid)[DescriptorReleased(a)] == 0
    {
      assert DescriptorCreated(a) !in mid;
      assert DescriptorReleased(a) !in mid;
    }
  }

  /** A read that created and released one scratch descriptor `s` and
      otherwise only changed the bytes of the caller's descriptor is tidy. */
  lemma ScratchTidy(w: World, w2: World, inBuf: Ptr, mid: seq<Event>)
    requires Good(w) && IsIoBuffer(w, inBuf)
    requires w2.next == w.next + 1 && w2.sessions == w.sessions
    requires var dest := DescriptorOf(w, inBuf);
             && dest in w2.live && w2.live == w.live[dest := w2.live[dest]]
             && w2.live[dest].Descriptor? && |w2.live[dest].bytes| == |Bytes(w, dest)|
    requires forall e :: e in mid ==> !e.DescriptorCreated? && !e.DescriptorReleased?
    requires w2.log == w.log + [DescriptorCreated(w.next)] + mid + [DescriptorReleased(w.next)]
    ensures Tidy(w, w2, inBuf) && IsIoBuffer(w2, inBuf)
    ensures multiset(NewEvents(w, w2))[DescriptorCreated(w.next)] == 1
  {
    assert NewEvents(w, w2) == [DescriptorCreated(w.next)] + mid + [DescriptorReleased(w.next)];
    ScratchEventsBalanced(w.next, mid, DescriptorOf(w, inBuf));
  }

  /** Lines 214-236 once the scratch descriptor `s` exists: read the
      aligned range into it, on success copy `inCount` bytes from its byte
      `from` into the caller's descriptor `dest`, then release it. */
  function FillAndRelease(w: World, m: Medium, s: nat, dest: nat, alignedPos: nat,
                          from: nat, inCount: nat, readOk: bool): (r: World)
    requires Good(w) && IsDescriptor(w, s) && IsDescriptor(w, dest) && s != dest
    requires from + inCount <= |Bytes(w, s)|
    ensures Good(r) && r.sessions == w.sessions && r.next == w.next
    ensures dest in r.live && r.live == (w.live - {s})[dest := r.live[dest]]
    ensures var n := Min(inCount, |Bytes(w, dest)|);
            r.live[dest] == if readOk then Descriptor(Slice(m, alignedPos + from, n) + Bytes(w, dest)[n..])
                            else w.live[dest]
    ensures r.log == w.log + [Transferred(alignedPos, s, |Bytes(w, s)|)]
                    + (if readOk then [Copied(dest, s, Min(inCount, |Bytes(w, dest)|))] else [])
                    + [DescriptorReleased(s)]
  {
    var w2 := MediaRead(w, m, alignedPos, s, readOk);
    // On success the data is copied back; a short copy is only logged.
    var w3 := if readOk then WriteBytes(w2, dest, s, from, inCount).1 else w2;
    SliceOfSlice(m, alignedPos, |Bytes(w, s)|, from, Min(inCount, |Bytes(w, dest)|));
    ReleaseDescriptor(w3, s)
  }

  /** The ledger after the scratch path has allocated its descriptor (at
      `w.next`) and run to the end. */
  function AfterScratch(w: World, inBuf: Ptr, m: Medium, alignedPos: nat, alignedCount: nat,
                        inCount: nat, from: nat, readOk: bool): World
    requires Good(w) && IsIoBuffer(w, inBuf) && from + inCount <= alignedCount
  {
    var w1 := NewDescriptor(w, alignedCount, true).1;
    FillAndRelease(w1, m, w.next, DescriptorOf(w, inBuf), alignedPos, from, inCount, readOk)
  }

  /** The events of the scratch path between creating and releasing its
      descriptor: the transfer, then the copy when the transfer succeeded. */
  function ScratchMiddle(w: World, inBuf: Ptr, alignedPos: nat, alignedCount: nat,
                         inCount: nat, readOk: bool): seq<Event>
    requires IsIoBuffer(w, inBuf)
  {
    var dest := DescriptorOf(w, inBuf);
    [Transferred(alignedPos, w.next, alignedCount)]
    + (if readOk then [Copied(dest, w.next, Min(inCount, |Bytes(w, dest)|))] else [])
  }

  /** What the scratch path does to the ledger, step by step summed up. */
  lemma AfterScratchShape(w: World, inBuf: Ptr, m: Medium, alignedPos: nat, alignedCount: nat,
                          inCount: nat, from: nat, readOk: bool)
    requires Good(w) && IsIoBuffer(w, inBuf) && from + inCount <= alignedCount
    ensures var w2 := AfterScratch(w, inBuf, m, alignedPos, alignedCount, inCount, from, readOk);
            var dest := DescriptorOf(w, inBuf);
            && w2.next == w.next + 1 && w2.sessions == w.sessions
            && dest in w2.live && w2.live == w.live[dest := w2.live[dest]]
            && w2.live[dest].Descriptor? && |w2.live[dest].bytes| == |Bytes(w, dest)|
            && w2.log == w.log + [DescriptorCreated(w.next)]
                         + ScratchMiddle(w, inBuf, alignedPos, alignedCount, inCount, readOk)
                         + [DescriptorReleased(w.next)]
  {
    var dest := DescriptorOf(w, inBuf);
    var w2 := AfterScratch(w, inBuf, m, alignedPos, alignedCount, inCount, from, readOk);
    assert w2.live == w.live[dest := w2.live[dest]];
  }

  /** The scratch path leaves the ledger tidy, having created, filled and
      released exactly one scratch descriptor. */
  lemma AfterScratchTidy(w: World, inBuf: Ptr, m: Medium, alignedPos: nat, alignedCount: nat,
                         inCount: nat, from: nat, readOk: bool)
    requires Good(w) && IsIoBuffer(w, inBuf) && from + inCount <= alignedCount
    ensures var w2 := AfterScratch(w, inBuf, m, alignedPos, alignedCount, inCount, from, readOk);
            && Tidy(w, w2, inBuf) && IsIoBuffer(w2, inBuf)
            && multiset(NewEvents(w, w2))[DescriptorCreated(w.next)] == 1
            && NewEvents(w, w2) == [DescriptorCreated(w.next)]
                 + ScratchMiddle(w, inBuf, alignedPos, alignedCount, inCount, readOk)
                 + [DescriptorReleased(w.next)]
  {
    var w2 := AfterScratch(w, inBuf, m, alignedPos, alignedCount, inCount, from, readOk);
    var mid := ScratchMiddle(w, inBuf, alignedPos, alignedCount, inCount, readOk);
    AfterScratchShape(w, inBuf, m, alignedPos, alignedCount, inCount, from, readOk);
    ScratchTidy(w, w2, inBuf, mid);
    assert NewEvents(w, w2) == [DescriptorCreated(w.next)] + mid + [DescriptorReleased(w.next)];
  }

  /** The scratch path transfers the whole aligned range into its
      descriptor, and copies nothing back when that transfer fails. */
  lemma AfterScratchEvents(w: World, inBuf: Ptr, m: Medium, alignedPos: nat, alignedCount: nat,
                           inCount: nat, from: nat, readOk: bool)
    requires Good(w) && IsIoBuffer(w, inBuf) && from + inCount <= alignedCount
    ensures var w2 := AfterScratch(w, inBuf, m, alignedPos, alignedCount, inCount, from, readOk);
            && w.log <= w2.log
            && Transferred(alignedPos, w.next, alignedCount) in NewEvents(w, w2)
            && (!readOk ==> forall e :: e in NewEvents(w, w2) ==> !e.Copied?)
  {
    var w2 := AfterScratch(w, inBuf, m, alignedPos, alignedCount, inCount, from, readOk);
    AfterScratchTidy(w, inBuf, m, alignedPos, alignedCount, inCount, from, readOk);
    var ev := NewEvents(w, w2);
    assert ev[1] == Transferred(alignedPos, w.next, alignedCount);
  }

  /** A successful scratch path delivers `inCount` bytes of the scratch
      descriptor from its byte `from` on. A failed one changes nothing. */
  lemma AfterScratchContents(w: World, inBuf: Ptr, m: Medium, alignedPos: nat, alignedCount: nat,
                             inCount: nat, from: nat, readOk: bool)
    requires Good(w) && IsIoBuffer(w, inBuf) && from + inCount <= alignedCount
    ensures var w2 := AfterScratch(w, inBuf, m, alignedPos, alignedCount, inCount, from, readOk);
            && IsIoBuffer(w2, inBuf)
            && (readOk ==> Delivered(w, w2, inBuf, m, alignedPos + from, inCount))
            && (!readOk ==> w2.live == w.live)
  {
    var dest := DescriptorOf(w, inBuf);
    var w2 := AfterScratch(w, inBuf, m, alignedPos, alignedCount, inCount, from, readOk);
    assert w2.live == w.live[dest := w2.live[dest]];
  }

  /** The scratch path (lines 182-206, 214-236): allocate a descriptor of
      `alignedCount` bytes, read the aligned range into it, copy `inCount`
      bytes from its byte `from` into the caller's descriptor, release it. */
  function ScratchRead(w: World, inBuf: Ptr, m: Medium, alignedPos: nat, alignedCount: nat,
                       inCount: nat, from: nat, allocOk: bool, readOk: bool): (r: ReadResult)
    requires Good(w) && IsIoBuffer(w, inBuf) && from + inCount <= alignedCount
    ensures Tidy(w, r.world, inBuf) && IsIoBuffer(r.world, inBuf)
    ensures r.err == ENOMEM <==> !allocOk
    ensures r.err == EIO <==> allocOk && !readOk
    ensures r.err == 0 <==> allocOk && readOk
    ensures r.err == ENOMEM ==> r.world == w
    ensures r.err == EIO ==> r.world.live == w.live && forall e :: e in NewEvents(w, r.world) ==> !e.Copied?
    ensures r.err == 0 ==> Delivered(w, r.world, inBuf, m, alignedPos + from, inCount)
    ensures allocOk ==>
              && multiset(NewEvents(w, r.world))[DescriptorCreated(w.next)] == 1
              && NewEvents(w, r.world) == [DescriptorCreated(w.next)]
                   + ScratchMiddle(w, inBuf, alignedPos, alignedCount, inCount, readOk)
                   + [DescriptorReleased(w.next)]
  {
    var (scratch, w1) := NewDescriptor(w, alignedCount, allocOk);
    if scratch.Null? then
      ReadResult(ENOMEM, w1)
    else
      AfterScratchTidy(w, inBuf, m, alignedPos, alignedCount, inCount, from, readOk);
      AfterScratchEvents(w, inBuf, m, alignedPos, alignedCount, inCount, from, readOk);
      AfterScratchContents(w, inBuf, m, alignedPos, alignedCount, inCount, from, readOk);
      var w4 := FillAndRelease(w1, m, scratch.addr, DescriptorOf(w, inBuf), alignedPos, from, inCount, readOk);
      ReadResult(if readOk then 0 else EIO, w4)
  }

  /** The scratch path's delivery, as a fact about one call. */
  lemma ScratchReadDelivers(w: World, inBuf: Ptr, m: Medium, alignedPos: nat, alignedCount: nat,
                            inCount: nat, from: nat, allocOk: bool, readOk: bool)
    requires Good(w) && IsIoBuffer(w, inBuf) && from + inCount <= alignedCount
    ensures var r := ScratchRead(w, inBuf, m, alignedPos, alignedCount, inCount, from, allocOk, readOk);
            r.err == 0 ==> Delivered(w, r.world, inBuf, m, alignedPos + from, inCount)
  {
  }

  /** The direct path (lines 209-214): read straight into the caller's
      descriptor, which the request fills exactly. */
  function DirectRead(w: World, inPos: nat, inBuf: Ptr, m: Medium, readOk: bool): (r: ReadResult)
    requires Good(w) && IsIoBuffer(w, inBuf)
    ensures Tidy(w, r.world, inBuf) && IsIoBuffer(r.world, inBuf)
    ensures r.err == 0 <==> readOk
    ensures r.err != 0 ==> r.err == EIO && r.world.live == w.live
    ensures r.err == 0 ==> Delivered(w, r.world, inBuf, m, inPos, |GetBytes(w, inBuf)|)
    ensures NewEvents(w, r.world) == [Transferred(inPos, DescriptorOf(w, inBuf), |GetBytes(w, inBuf)|)]
  {
    var w1 := MediaRead(w, m, inPos, DescriptorOf(w, inBuf), readOk);
    ReadResult(if readOk then 0 else EIO, w1)
  }

  /** Lines 179-238, once the range check has passed and the alignment `p`
      is known: either read straight into the caller's descriptor or go
      through a scratch descriptor of `p.alignedCount` bytes, copying the
      write-back from byte `from` of the scratch. `allocOk` is the scratch
      allocation's outcome and `readOk` the transfer's. */
  function Transact(w: World, dev: Ptr, inPos: u64, inCount: u64, inBuf: Ptr, m: Medium,
                    p: Alignment, from: nat, allocOk: bool, readOk: bool): (r: ReadResult)
    requires ReadReady(w, dev, inBuf) && inCount <= SSIZE_MAX
    requires Frames(p, inPos, inCount) && from <= p.leadIn
    ensures Tidy(w, r.world, inBuf) && IsIoBuffer(r.world, inBuf)
    ensures var scratch := UsesScratch(p, inCount, |GetBytes(w, inBuf)|);
            && (r.err == ENOMEM <==> scratch && !allocOk)
            && (r.err == EIO <==> (!scratch || allocOk) && !readOk)
            && (r.err == 0 <==> (!scratch || allocOk) && readOk)
    ensures r.err == ENOMEM ==> r.world == w
    ensures r.err == EIO ==> r.world.live == w.live && forall e :: e in NewEvents(w, r.world) ==> !e.Copied?
  {
    if UsesScratch(p, inCount, |GetBytes(w, inBuf)|) then
      ScratchRead(w, inBuf, m, p.alignedPos, p.alignedCount, inCount, from, allocOk, readOk)
    else
      DirectRead(w, inPos, inBuf, m, readOk)
  }

  /** A successful transaction delivers the medium's bytes from byte `from`
      of the aligned range on; on the direct path that is `inPos` itself. */
  lemma TransactDelivers(w: World, dev: Ptr, inPos: u64, inCount: u64, inBuf: Ptr, m: Medium,
                         p: Alignment, from: nat, allocOk: bool, readOk: bool)
    requires ReadReady(w, dev, inBuf) && inCount <= SSIZE_MAX
    requires Frames(p, inPos, inCount) && from <= p.leadIn
    ensures var r := Transact(w, dev, inPos, inCount, inBuf, m, p, from, allocOk, readOk);
            r.err == 0 ==> Delivered(w, r.world, inBuf, m, p.alignedPos + from, inCount)
  {
    var r := Transact(w, dev, inPos, inCount, inBuf, m, p, from, allocOk, readOk);
    if UsesScratch(p, inCount, |GetBytes(w, inBuf)|) {
      ScratchReadDelivers(w, inBuf, m, p.alignedPos, p.alignedCount, inCount, from, allocOk, readOk);
      assert r == ScratchRead(w, inBuf, m, p.alignedPos, p.alignedCount, inCount, from, allocOk, readOk);
    } else {
      assert from == 0 && p.alignedPos == inPos && inCount == |GetBytes(w, inBuf)|;
      assert r == DirectRead(w, inPos, inBuf, m, readOk);
      var start, count := p.alignedPos + from, inCount;
      assert start == inPos && count == |GetBytes(w, inBuf)|;
      assert r.err == 0 ==> Delivered(w, r.world, inBuf, m, start, count);
    }
  }

  /** The scratch path, once its allocation succeeds, does exactly this:
      create one descriptor at `w.next`, transfer the whole aligned range
      into it, copy back when the transfer succeeded, release it. The direct
      path transfers the request into the caller's descriptor and does
      nothing else. */
  lemma TransactEvents(w: World, dev: Ptr, inPos: u64, inCount: u64, inBuf: Ptr, m: Medium,
                       p: Alignment, from: nat, allocOk: bool, readOk: bool)
    requires ReadReady(w, dev, inBuf) && inCount <= SSIZE_MAX
    requires Frames(p, inPos, inCount) && from <= p.leadIn
    ensures var r := Transact(w, dev, inPos, inCount, inBuf, m, p, from, allocOk, readOk);
            && w.log <= r.world.log
            && (UsesScratch(p, inCount, |GetBytes(w, inBuf)|) && allocOk ==>
                  NewEvents(w, r.world) == [DescriptorCreated(w.next)]
                    + ScratchMiddle(w, inBuf, p.alignedPos, p.alignedCount, inCount, readOk)
                    + [DescriptorReleased(w.next)])
            && (!UsesScratch(p, inCount, |GetBytes(w, inBuf)|) ==>
                  NewEvents(w, r.world) == [Transferred(inPos, DescriptorOf(w, inBuf), inCount)])
  {
    var r := Transact(w, dev, inPos, inCount, inBuf, m, p, from, allocOk, readOk);
    if UsesScratch(p, inCount, |GetBytes(w, inBuf)|) {
      assert r == ScratchRead(w, inBuf, m, p.alignedPos, p.alignedCount, inCount, from, allocOk, readOk);
    } else {
      assert r == DirectRead(w, inPos, inBuf, m, readOk);
    }
  }

  /** lvm2_device_read as written, with one correction: line 187 adds the
      requested `in_count`, not the local `count` that has not been assigned
      yet. Counts above SSIZE_MAX are refused before anything happens. Since
      lead_out is never 0 the scratch path is always taken, so every read
      needs the scratch allocation, and the write-back copies from byte 0 of
      the scratch descriptor. */
  function Read(w: World, dev: Ptr, inPos: u64, inCount: u64, inBuf: Ptr, m: Medium,
                allocOk: bool, readOk: bool): (r: ReadResult)
    requires ReadReady(w, dev, inBuf)
    ensures Tidy(w, r.world, inBuf) && IsIoBuffer(r.world, inBuf)
    ensures r.err == ERANGE <==> inCount > SSIZE_MAX
    ensures r.err == ENOMEM <==> inCount <= SSIZE_MAX && !allocOk
    ensures r.err == EIO <==> inCount <= SSIZE_MAX && allocOk && !readOk
    ensures r.err == 0 <==> inCount <= SSIZE_MAX && allocOk && readOk
    ensures r.err == ERANGE || r.err == ENOMEM ==> r.world == w
    ensures r.err == EIO ==> r.world.live == w.live && forall e :: e in NewEvents(w, r.world) ==> !e.Copied?
  {
    if inCount > SSIZE_MAX then
      ReadResult(ERANGE, w)
    else
      var bs := BlockSize(w, dev);
      var p := Plan(inPos, inCount, bs);
      DirectPathUnreachable(inPos, inCount, bs, |GetBytes(w, inBuf)|);
      // The write-back copies from byte 0 of the scratch (lines 221-222).
      Transact(w, dev, inPos, inCount, inBuf, m, p, 0, allocOk, readOk)
  }

  /** As written, a successful read delivers the medium's bytes from the
      start of the block holding `inPos`, not from `inPos`. */
  lemma ReadDelivers(w: World, dev: Ptr, inPos: u64, inCount: u64, inBuf: Ptr, m: Medium,
                     allocOk: bool, readOk: bool)
    requires ReadReady(w, dev, inBuf) && inCount <= SSIZE_MAX
    ensures var r := Read(w, dev, inPos, inCount, inBuf, m, allocOk, readOk);
            r.err == 0 ==> Delivered(w, r.world, inBuf, m, inPos - inPos % BlockSize(w, dev), inCount)
  {
    var p := Plan(inPos, inCount, BlockSize(w, dev));
    PlanStart(inPos, inCount, BlockSize(w, dev));
    TransactDelivers(w, dev, inPos, inCount, inBuf, m, p, 0, allocOk, readOk);
  }

  /** As written, every read whose allocation succeeds does exactly this:
      create one scratch descriptor, transfer the whole aligned range into
      it, copy back when the transfer succeeded, release it. */
  lemma ReadAlwaysUsesScratch(w: World, dev: Ptr, inPos: u64, inCount: u64, inBuf: Ptr, m: Medium,
                              readOk: bool)
    requires ReadReady(w, dev, inBuf) && inCount <= SSIZE_MAX
    ensures var r := Read(w, dev, inPos, inCount, inBuf, m, true, readOk);
            var p := Plan(inPos, inCount, BlockSize(w, dev));
            && w.log <= r.world.log
            && NewEvents(w, r.world) == [DescriptorCreated(w.next)]
                 + ScratchMiddle(w, inBuf, p.alignedPos, p.alignedCount, inCount, readOk)
                 + [DescriptorReleased(w.next)]
  {
    var p := Plan(inPos, inCount, BlockSize(w, dev));
    DirectPathUnreachable(inPos, inCount, BlockSize(w, dev), |GetBytes(w, inBuf)|);
    TransactEvents(w, dev, inPos, inCount, inBuf, m, p, 0, true, readOk);
  }

  /** The read as it is evidently meant: lead_out is 0 when the range ends
      on a boundary, so an aligned request that fills the caller's buffer is
      read straight into it, and the write-back copies from byte lead_in of
      the scratch. A request needs no scratch exactly when `TightDirectPath`
      says so. */
  function ReadCorrected(w: World, dev: Ptr, inPos: u64, inCount: u64, inBuf: Ptr, m: Medium,
                         allocOk: bool, readOk: bool): (r: ReadResult)
    requires ReadReady(w, dev, inBuf)
    ensures Tidy(w, r.world, inBuf) && IsIoBuffer(r.world, inBuf)
    ensures r.err == ERANGE <==> inCount > SSIZE_MAX
    ensures r.err == ERANGE ==> r.world == w
    ensures var direct := inCount <= SSIZE_MAX
                          && !UsesScratch(TightPlan(inPos, inCount, BlockSize(w, dev)), inCount, |GetBytes(w, inBuf)|);
            && (r.err == ENOMEM <==> inCount <= SSIZE_MAX && !direct && !allocOk)
            && (r.err == EIO <==> inCount <= SSIZE_MAX && (direct || allocOk) && !readOk)
            && (r.err == 0 <==> inCount <= SSIZE_MAX && (direct || allocOk) && readOk)
    ensures r.err == ENOMEM ==> r.world == w
    ensures r.err == EIO ==> r.world.live == w.live && forall e :: e in NewEvents(w, r.world) ==> !e.Copied?
  {
    if inCount > SSIZE_MAX then
      ReadResult(ERANGE, w)
    else
      var p := TightPlan(inPos, inCount, BlockSize(w, dev));
      Transact(w, dev, inPos, inCount, inBuf, m, p, p.leadIn, allocOk, readOk)
  }

  /** Corrected, a successful read delivers exactly the bytes asked for. */
  lemma ReadCorrectedDelivers(w: World, dev: Ptr, inPos: u64, inCount: u64, inBuf: Ptr, m: Medium,
                              allocOk: bool, readOk: bool)
    requires ReadReady(w, dev, inBuf) && inCount <= SSIZE_MAX
    ensures var r := ReadCorrected(w, dev, inPos, inCount, inBuf, m, allocOk, readOk);
            r.err == 0 ==> Delivered(w, r.world, inBuf, m, inPos, inCount)
  {
    var p := TightPlan(inPos, inCount, BlockSize(w, dev));
    TransactDelivers(w, dev, inPos, inCount, inBuf, m, p, p.leadIn, allocOk, readOk);
  }

  /** Corrected, a request on block boundaries that fills the caller's
      buffer is one transfer straight into the caller's descriptor: no
      scratch descriptor, no allocation that could fail. */
  lemma ReadCorrectedDirect(w: World, dev: Ptr, inPos: u64, inCount: u64, inBuf: Ptr, m: Medium,
                            allocOk: bool, readOk: bool)
    requires ReadReady(w, dev, inBuf) && inCount <= SSIZE_MAX
    requires inPos % BlockSize(w, dev) == 0 && inCount % BlockSize(w, dev) == 0
    requires inCount == |GetBytes(w, inBuf)|
    ensures var r := ReadCorrected(w, dev, inPos, inCount, inBuf, m, allocOk, readOk);
            && (r.err == 0 <==> readOk) && (r.err != 0 ==> r.err == EIO)
            && w.log <= r.world.log
            && NewEvents(w, r.world) == [Transferred(inPos, DescriptorOf(w, inBuf), inCount)]
  {
    var p := TightPlan(inPos, inCount, BlockSize(w, dev));
    TightDirectPath(inPos, inCount, BlockSize(w, dev), |GetBytes(w, inBuf)|);
    TransactEvents(w, dev, inPos, inCount, inBuf, m, p, p.leadIn, allocOk, readOk);
  }

  /** Lines 221-222 copy from byte 0 of the scratch descriptor, not from
      byte lead_in. Whenever `inPos` is not on a block boundary and the
      medium's byte at the block start differs from its byte at `inPos`, the
      first byte the caller receives is the wrong one; the corrected read
      delivers the right one. */
  lemma ReadMisplacesUnalignedBytes(w: World, dev: Ptr, inPos: u64, inCount: u64, inBuf: Ptr, m: Medium)
    requires ReadReady(w, dev, inBuf) && 0 < inCount <= SSIZE_MAX && 0 < |GetBytes(w, inBuf)|
    requires m(inPos - inPos % BlockSize(w, dev)) != m(inPos)
    ensures var r := Read(w, dev, inPos, inCount, inBuf, m, true, true);
            r.err == 0 && GetBytes(r.world, inBuf)[0] != m(inPos)
    ensures var r := ReadCorrected(w, dev, inPos, inCount, inBuf, m, true, true);
            r.err == 0 && GetBytes(r.world, inBuf)[0] == m(inPos)
  {
    ReadDelivers(w, dev, inPos, inCount, inBuf, m, true, true);
    ReadCorrectedDelivers(w, dev, inPos, inCount, inBuf, m, true, true);
  }

  /** A request inside the first block that fills the caller's buffer:
      as written the caller receives the medium's first `inCount` bytes,
      read through one scratch block from offset 0, and the read does
      nothing else. */
  lemma FirstBlockRead(w: World, dev: Ptr, inPos: u64, inCount: u64, inBuf: Ptr, m: Medium)
    requires ReadReady(w, dev, inBuf) && 0 < inCount && inPos + inCount < BlockSize(w, dev)
    requires inCount == |GetBytes(w, inBuf)|
    ensures var r := Read(w, dev, inPos, inCount, inBuf, m, true, true);
            && r.err == 0 && w.log <= r.world.log
            && NewEvents(w, r.world) == [DescriptorCreated(w.next), Transferred(0, w.next, BlockSize(w, dev)),
                                         Copied(DescriptorOf(w, inBuf), w.next, inCount),
                                         DescriptorReleased(w.next)]
            && GetBytes(r.world, inBuf) == Slice(m, 0, inCount)
  {
    FirstBlockPlan(inPos, inCount, BlockSize(w, dev));
    ReadDelivers(w, dev, inPos, inCount, inBuf, m, true, true);
    ReadAlwaysUsesScratch(w, dev, inPos, inCount, inBuf, m, true);
  }

  /** The same request, corrected: the caller receives bytes `inPos` to
      `inPos + inCount` of the medium. */
  lemma FirstBlockReadCorrected(w: World, dev: Ptr, inPos: u64, inCount: u64, inBuf: Ptr, m: Medium)
    requires ReadReady(w, dev, inBuf) && 0 < inCount && inPos + inCount < BlockSize(w, dev)
    requires inCount == |GetBytes(w, inBuf)|
    ensures var r := ReadCorrected(w, dev, inPos, inCount, inBuf, m, true, true);
            r.err == 0 && GetBytes(r.world, inBuf) == Slice(m, inPos, inCount)
  {
    FirstBlockTightPlan(inPos, inCount, BlockSize(w, dev));
    ReadCorrectedDelivers(w, dev, inPos, inCount, inBuf, m, true, true);
  }

  /** One whole block at offset `bs` into a buffer of `bs` bytes: as written
      a scratch descriptor of two blocks is created, read and released. */
  lemma WholeBlockRead(w: World, dev: Ptr, inBuf: Ptr, m: Medium)
    requires ReadReady(w, dev, inBuf) && |GetBytes(w, inBuf)| == BlockSize(w, dev)
    ensures var bs := BlockSize(w, dev);
            var r := Read(w, dev, bs, bs, inBuf, m, true, true);
            && r.err == 0 && w.log <= r.world.log
            && NewEvents(w, r.world) == [DescriptorCreated(w.next), Transferred(bs, w.next, 2 * bs),
                                         Copied(DescriptorOf(w, inBuf), w.next, bs),
                                         DescriptorReleased(w.next)]
  {
    var bs := BlockSize(w, dev);
    WholeBlockPlan(bs);
    ReadAlwaysUsesScratch(w, dev, bs, bs, inBuf, m, true);
  }

  /** The same request, corrected: one transfer straight into the caller's
      descriptor and nothing else. */
  lemma WholeBlockReadCorrected(w: World, dev: Ptr, inBuf: Ptr, m: Medium)
    requires ReadReady(w, dev, inBuf) && |GetBytes(w, inBuf)| == BlockSize(w, dev)
    ensures var bs := BlockSize(w, dev);
            var r := ReadCorrected(w, dev, bs, bs, inBuf, m, true, true);
            r.err == 0 && r.world.log == w.log + [Transferred(bs, DescriptorOf(w, inBuf), bs)]
  {
    var bs := BlockSize(w, dev);
    WholeBlockPlan(bs);
    TransactEvents(w, dev, bs, bs, inBuf, m, TightPlan(bs, bs, bs), 0, true, true);
  }
}
