/** The block-alignment arithmetic of the read path: how an arbitrary byte
    range [pos, pos + count) is widened to whole blocks of the medium. */
module Align {
  import opened CTypes

  /** The aligned range the read path settles on, and how it was padded. */
  datatype Alignment = Alignment(leadIn: u32, leadOut: u32, alignedPos: u64, alignedCount: u64)

  /** `p` starts `leadIn` bytes before `pos` and ends `leadOut` bytes after
      `pos + count`. */
  predicate Frames(p: Alignment, pos: int, count: int) {
    && p.leadIn <= pos
    && p.alignedPos == pos - p.leadIn
    && p.alignedCount == p.leadIn + count + p.leadOut
  }

  /** `p` contains the requested range. */
  predicate Covers(p: Alignment, pos: int, count: int) {
    p.alignedPos <= pos && pos + count <= p.alignedPos + p.alignedCount
  }

  /** `p` starts and ends on block boundaries. */
  predicate BlockAligned(p: Alignment, bs: int)
    requires 0 < bs
  {
    p.alignedPos % bs == 0 && p.alignedCount % bs == 0
  }

  /** The test at lines 179-180: the read path takes its scratch buffer
      unless the request is aligned at both ends and exactly fills the
      caller's buffer. A definition only; `DeviceRead.Transact` branches on
      it and `DirectPathUnreachable` / `TightDirectPath` state its value. */
  predicate UsesScratch(p: Alignment, count: int, destLen: int) {
    p.leadIn != 0 || p.leadOut != 0 || count != destLen
  }

  // ---- Euclidean division facts -------------------------------------------

  lemma Fundamental(a: int, bs: int)
    requires 0 < bs
    ensures a == (a / bs) * bs + a % bs
    ensures 0 <= a % bs < bs
  {}

  lemma MulAtLeast(d: int, bs: int)
    requires 1 <= d && 0 < bs
    ensures d * bs >= bs
  {}

  lemma MulDistributes(q: int, q0: int, bs: int)
    ensures (q - q0) * bs == q * bs - q0 * bs
  {}

  /** Euclidean division is unique: a quotient and a remainder in [0, bs)
      that rebuild `a` are the ones `/` and `%` produce. */
  lemma DivModUnique(a: int, bs: int, q: int, r: int)
    requires 0 < bs && 0 <= r < bs && a == q * bs + r
    ensures a / bs == q && a % bs == r
  {
    var q0 := a / bs;
    Fundamental(a, bs);
    MulDistributes(q, q0, bs);
    if q > q0 {
      MulAtLeast(q - q0, bs);
      assert false;
    } else if q < q0 {
      MulDistributes(q0, q, bs);
      MulAtLeast(q0 - q, bs);
      assert false;
    }
  }

  /** Adding `a`'s distance to the next boundary lands on that boundary. */
  lemma PadToBoundary(a: int, bs: int)
    requires 0 < bs
    ensures (a + (bs - a % bs)) % bs == 0
    ensures (a - a % bs) % bs == 0
  {
    Fundamental(a, bs);
    DivModUnique(a + (bs - a % bs), bs, a / bs + 1, 0);
    DivModUnique(a - a % bs, bs, a / bs, 0);
  }

  // ---- The source's arithmetic (kext/lvm2_osal_iokit.cpp:175-187) ----------

  /** lead_in: the distance from the start of the block holding `pos` back
      to `pos`. The u64 remainder is below the block size, so the cast to
      u32 keeps it whole. */
  function LeadIn(pos: u64, bs: u32): (r: u32)
    requires 0 < bs
    ensures r < bs && r <= pos
    ensures (pos - r) % bs == 0
  {
    PadToBoundary(pos, bs);
    pos % bs
  }

  /** lead_out as the source computes it: block size minus the remainder of
      the padded end. The sum `leadIn + count` is taken in 64 bits; because
      the caller has already refused counts above SSIZE_MAX it cannot wrap.
      The result is never 0: an end already on a boundary gets a whole extra
      block. */
  function LeadOut(leadIn: u32, count: u64, bs: u32): (r: u32)
    requires 0 < bs && count <= SSIZE_MAX
    ensures 1 <= r <= bs
    ensures (leadIn + count + r) % bs == 0
    ensures r == bs <==> (leadIn + count) % bs == 0
  {
    PadToBoundary(leadIn + count, bs);
    bs - (leadIn + count) % bs
  }

  /** lead_out as it is evidently meant: the distance to the next boundary,
      0 when the end already lies on one. */
  function TightLeadOut(leadIn: u32, count: u64, bs: u32): (r: u32)
    requires 0 < bs && count <= SSIZE_MAX
    ensures r < bs
    ensures (leadIn + count + r) % bs == 0
    ensures r == 0 <==> (leadIn + count) % bs == 0
  {
    var out := LeadOut(leadIn, count, bs);
    if out == bs then 0 else out
  }

  /** The length of the scratch transfer, `lead_in + n + lead_out`, in size_t
      arithmetic. The source adds its local `count` here (line 187) before
      that local is ever assigned; `n` is whatever value is added. A
      definition only; `Plan` and `StaleCountShortensScratch` state what it
      yields. */
  function AlignedCount(leadIn: u32, n: u64, leadOut: u32): int {
    leadIn + n + leadOut
  }

  /** The aligned range the source settles on, with line 187 corrected to add
      the requested `in_count` rather than the uninitialised local. Its end
      is the first block boundary strictly past the requested range. */
  function Plan(pos: u64, count: u64, bs: u32): (p: Alignment)
    requires 0 < bs && count <= SSIZE_MAX
    ensures Frames(p, pos, count) && Covers(p, pos, count) && BlockAligned(p, bs)
    ensures p.leadIn < bs && 1 <= p.leadOut <= bs
    ensures pos + count < p.alignedPos + p.alignedCount <= pos + count + bs
  {
    var leadIn := LeadIn(pos, bs);
    var leadOut := LeadOut(leadIn, count, bs);
    // Correction: line 187 adds the uninitialised local `count`; in_count is meant.
    var n := AlignedCount(leadIn, count, leadOut);
    Alignment(leadIn, leadOut, pos - leadIn, n)
  }

  /** The minimal aligned range, as the read path evidently intends: its end
      is the first block boundary at or past the requested range. */
  function TightPlan(pos: u64, count: u64, bs: u32): (p: Alignment)
    requires 0 < bs && count <= SSIZE_MAX
    ensures Frames(p, pos, count) && Covers(p, pos, count) && BlockAligned(p, bs)
    ensures p.leadIn < bs && p.leadOut < bs
    ensures pos + count <= p.alignedPos + p.alignedCount < pos + count + bs
  {
    var leadIn := LeadIn(pos, bs);
    var leadOut := TightLeadOut(leadIn, count, bs);
    var n := AlignedCount(leadIn, count, leadOut);
    Alignment(leadIn, leadOut, pos - leadIn, n)
  }

  // ---- Consequences -------------------------------------------------------

  /** Both plans start at the start of the block holding `pos`. */
  lemma PlanStart(pos: u64, count: u64, bs: u32)
    requires 0 < bs && count <= SSIZE_MAX
    ensures Plan(pos, count, bs).alignedPos == pos - pos % bs
    ensures TightPlan(pos, count, bs).alignedPos == pos - pos % bs
  {
    var p := Plan(pos, count, bs);
    Fundamental(p.alignedPos, bs);
    DivModUnique(pos, bs, p.alignedPos / bs, p.leadIn);
  }

  /** As written, lead_out is never 0, so the test at lines 179-180 always
      holds and the direct branch (lines 208-211) is dead: every read, even
      one aligned at both ends into a buffer of exactly its length, goes
      through a scratch buffer one block longer than needed. */
  lemma DirectPathUnreachable(pos: u64, count: u64, bs: u32, destLen: nat)
    requires 0 < bs && count <= SSIZE_MAX
    ensures UsesScratch(Plan(pos, count, bs), count, destLen)
    ensures (pos + count) % bs == 0 ==> Plan(pos, count, bs).alignedPos + Plan(pos, count, bs).alignedCount == pos + count + bs
  {
    var p := Plan(pos, count, bs);
    if (pos + count) % bs == 0 {
      Fundamental(pos + count, bs);
      Fundamental(p.alignedPos, bs);
      var k, m := (pos + count) / bs, p.alignedPos / bs;
      MulDistributes(k, m, bs);
      DivModUnique(p.leadIn + count, bs, k - m, 0);
      assert p.leadOut == LeadOut(p.leadIn, count, bs);
    }
  }

  /** With the tight lead_out the direct branch is taken exactly when the
      request starts and ends on block boundaries and fills the caller's
      buffer. */
  lemma TightDirectPath(pos: u64, count: u64, bs: u32, destLen: nat)
    requires 0 < bs && count <= SSIZE_MAX
    ensures !UsesScratch(TightPlan(pos, count, bs), count, destLen)
        <==> pos % bs == 0 && count % bs == 0 && count == destLen
  {
    var p := TightPlan(pos, count, bs);
    Fundamental(pos, bs);
    DivModUnique(pos, bs, p.alignedPos / bs, p.leadIn);
    if p.leadIn == 0 {
      assert count % bs == 0 <==> (p.leadIn + count) % bs == 0;
    }
  }

  /** Line 187 as written adds a `count` that has not been assigned. When
      that stale value is small the scratch buffer is shorter than the
      `in_count` bytes the write-back later copies out of it. */
  lemma StaleCountShortensScratch(pos: u64, count: u64, bs: u32, stale: u64)
    requires 0 < bs && count <= SSIZE_MAX && stale + 2 * bs <= count
    ensures var p := Plan(pos, count, bs); AlignedCount(p.leadIn, stale, p.leadOut) < count
  {}

  /** A range inside the first block starts lead_in bytes into it. */
  lemma LeadInFirstBlock(pos: u64, bs: u32)
    requires pos < bs
    ensures LeadIn(pos, bs) == pos
  {}

  /** A range that starts and ends inside the first block is padded out to
      exactly that block. */
  lemma FirstBlockPlan(pos: u64, count: u64, bs: u32)
    requires 0 < bs && pos + count < bs && 0 < pos + count
    ensures Plan(pos, count, bs) == Alignment(pos, bs - pos - count, 0, bs)
  {
    LeadInFirstBlock(pos, bs);
    DivModUnique(pos + count, bs, 0, pos + count);
    assert LeadOut(pos, count, bs) == bs - pos - count;
  }

  /** The same range under the tight lead_out: nothing changes, since its
      end is not on a boundary. */
  lemma FirstBlockTightPlan(pos: u64, count: u64, bs: u32)
    requires 0 < bs && pos + count < bs && 0 < pos + count
    ensures TightPlan(pos, count, bs) == Alignment(pos, bs - pos - count, 0, bs)
  {
    LeadInFirstBlock(pos, bs);
    DivModUnique(pos + count, bs, 0, pos + count);
    assert TightLeadOut(pos, count, bs) == bs - pos - count;
  }

  /** bs 512, pos 100, count 50: one block from offset 0, with or without
      the tight lead_out. */
  lemma UnalignedExample()
    ensures Plan(100, 50, 512) == Alignment(100, 362, 0, 512)
    ensures TightPlan(100, 50, 512) == Alignment(100, 362, 0, 512)
  {
    FirstBlockPlan(100, 50, 512);
    FirstBlockTightPlan(100, 50, 512);
  }

  /** A padded end already on a boundary gets a whole extra block. */
  lemma LeadOutOnBoundary(leadIn: u32, count: u64, bs: u32)
    requires 0 < bs && count <= SSIZE_MAX && (leadIn + count) % bs == 0
    ensures LeadOut(leadIn, count, bs) == bs
    ensures TightLeadOut(leadIn, count, bs) == 0
  {}

  /** One whole block at offset `bs`: the source pads a second block, the
      tight plan is the block itself. */
  lemma WholeBlockPlan(bs: u32)
    requires 0 < bs
    ensures Plan(bs, bs, bs) == Alignment(0, bs, bs, 2 * bs)
    ensures TightPlan(bs, bs, bs) == Alignment(0, 0, bs, bs)
  {
    DivModUnique(bs, bs, 1, 0);
    assert LeadIn(bs, bs) == 0;
    LeadOutOnBoundary(0, bs, bs);
  }
}
