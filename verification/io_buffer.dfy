/** The I/O buffer: a small allocated record that owns one buffer
    descriptor (kext/lvm2_osal_iokit.cpp:52-99). */
module IoBuffer {
  import opened CTypes
  import opened Memory

  /** sizeof(struct lvm2_io_buffer): a single pointer on LP64. */
  const BUFFER_STRUCT_SIZE: nat := 8

  /** `p` is a live I/O buffer record whose descriptor is live. */
  predicate IsIoBuffer(w: World, p: Ptr) {
    && IsBlock(w, p, BUFFER_STRUCT_SIZE)
    && w.live[p.addr].fields.IoBufferFields?
    && IsDescriptor(w, w.live[p.addr].fields.buffer)
  }

  /** The descriptor the record owns. */
  function DescriptorOf(w: World, p: Ptr): nat
    requires IsIoBuffer(w, p)
  {
    w.live[p.addr].fields.buffer
  }

  /** lvm2_io_buffer_get_bytes: the descriptor's bytes, without a copy. */
  function GetBytes(w: World, p: Ptr): seq<byte>
    requires IsIoBuffer(w, p)
  {
    Bytes(w, DescriptorOf(w, p))
  }

  /** lvm2_io_buffer_create: allocate the record, then a descriptor of
      `size` bytes. `mallocOk` and `descOk` are the two allocations'
      outcomes. On failure nothing stays allocated and `*out_buf` keeps
      `outBuf`. */
  function Create(w: World, size: u64, mallocOk: bool, descOk: bool, outBuf: Ptr): (r: Created)
    requires Good(w)
    ensures Good(r.world) && r.world.sessions == w.sessions && w.log <= r.world.log
    ensures r.err == 0 <==> mallocOk && descOk
    ensures r.err != 0 ==> r.err == ENOMEM && r.out == outBuf && r.world.live == w.live
    ensures r.err == 0 ==>
              && IsIoBuffer(r.world, r.out)
              && |GetBytes(r.world, r.out)| == size
              && r.out.addr !in w.live && DescriptorOf(r.world, r.out) !in w.live
              && r.world.live.Keys == w.live.Keys + {r.out.addr, DescriptorOf(r.world, r.out)}
              && Keeps(w, r.world)
  {
    var m := Malloc(w, BUFFER_STRUCT_SIZE, mallocOk, Null);
    if m.err != 0 then
      Created(m.err, outBuf, m.world)
    else
      var (desc, w1) := NewDescriptor(m.world, size, descOk);
      if desc.Null? then
        // The record is freed again; the error is ENOMEM.
        var (_, w2) := Free(w1, m.ptr, BUFFER_STRUCT_SIZE);
        assert w2.live == w.live;
        Created(ENOMEM, outBuf, w2)
      else
        var rec := Block(BUFFER_STRUCT_SIZE, IoBufferFields(desc.addr));
        Created(0, m.ptr, w1.(live := w1.live[m.ptr.addr := rec]))
  }

  /** lvm2_io_buffer_destroy: drop the descriptor, free the record and
      clear the caller's pointer. */
  function Destroy(w: World, p: Ptr): (r: (Ptr, World))
    requires IsIoBuffer(w, p)
    ensures r.0 == Null
    ensures r.1.live == w.live - {p.addr, DescriptorOf(w, p)}
    ensures r.1.next == w.next && r.1.sessions == w.sessions
    ensures r.1.log == w.log + [DescriptorReleased(DescriptorOf(w, p)), Freed(p.addr)]
  {
    var w1 := ReleaseDescriptor(w, DescriptorOf(w, p));
    Free(w1, p, BUFFER_STRUCT_SIZE)
  }

  /** Destroying a freshly created buffer leaves the live objects as they
      were before it was created. */
  lemma DestroyUndoesCreate(w: World, size: u64, outBuf: Ptr)
    requires Good(w)
    ensures var c := Create(w, size, true, true, outBuf);
            c.err == 0 && Destroy(c.world, c.out).1.live == w.live
  {
    var c := Create(w, size, true, true, outBuf);
    var d := Destroy(c.world, c.out).1;
    assert d.live.Keys == w.live.Keys;
  }
}
