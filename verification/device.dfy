/** The device record and its lifecycle: creation opens a reader session
    on the storage object, destruction closes it
    (kext/lvm2_osal_iokit.cpp:101-156). */
module Device {
  import opened CTypes
  import opened Memory

  /** sizeof(struct lvm2_device) on LP64: two pointers and a u32, padded. */
  const DEVICE_STRUCT_SIZE: nat := 24

  /** `p` is a live device record. */
  predicate IsDevice(w: World, p: Ptr) {
    IsBlock(w, p, DEVICE_STRUCT_SIZE) && w.live[p.addr].fields.DeviceFields?
  }

  function BlockSize(w: World, p: Ptr): u32
    requires IsDevice(w, p)
  {
    w.live[p.addr].fields.blockSize
  }

  function StorageOf(w: World, p: Ptr): nat
    requires IsDevice(w, p)
  {
    w.live[p.addr].fields.storage
  }

  /** lvm2_unix_device_create. `mediaBlockSize` is the medium's preferred
      block size, `openOk` the storage object's answer to the open, and
      `mallocOk` the record allocation's outcome. A block size above
      U32_MAX is refused before anything is opened; a session that was
      opened is closed again on every failure. A block size of 0 is
      accepted. */
  function Create(w: World, storage: nat, media: nat, mediaBlockSize: u64,
                  openOk: bool, mallocOk: bool, outDev: Ptr): (r: Created)
    requires Good(w)
    ensures Good(r.world) && w.log <= r.world.log
    ensures r.err == EINVAL <==> mediaBlockSize > U32_MAX
    ensures r.err == EACCES <==> mediaBlockSize <= U32_MAX && !openOk
    ensures r.err == ENOMEM <==> mediaBlockSize <= U32_MAX && openOk && !mallocOk
    ensures r.err == 0 <==> mediaBlockSize <= U32_MAX && openOk && mallocOk
    ensures r.err == EINVAL || r.err == EACCES ==> r.world == w
    ensures r.err == ENOMEM ==> NewEvents(w, r.world) == [Opened(storage), Closed(storage)]
    ensures r.err != 0 ==> r.out == outDev && r.world.live == w.live && r.world.sessions == w.sessions
    ensures r.err == 0 ==>
              && IsDevice(r.world, r.out) && r.out.addr !in w.live
              && BlockSize(r.world, r.out) == mediaBlockSize
              && StorageOf(r.world, r.out) == storage
              && r.world.live.Keys == w.live.Keys + {r.out.addr} && Keeps(w, r.world)
              && r.world.sessions == w.sessions + multiset{storage}
  {
    if mediaBlockSize > U32_MAX then
      Created(EINVAL, outDev, w)
    else
      var w1 := OpenStorage(w, storage, openOk);
      if !openOk then
        Created(EACCES, outDev, w1)
      else
        // lvm2_malloc writes the local `dev` (lines 131-132), not *out_dev.
        var m := Malloc(w1, DEVICE_STRUCT_SIZE, mallocOk, Null);
        if m.err == 0 then
          var rec := Block(DEVICE_STRUCT_SIZE, DeviceFields(storage, media, mediaBlockSize));
          Created(0, m.ptr, m.world.(live := m.world.live[m.ptr.addr := rec]))
        else
          var w2 := CloseStorage(m.world, storage);
          assert w2.sessions == w.sessions;
          Created(m.err, outDev, w2)
  }

  /** lvm2_unix_device_destroy: close the device's session, free the record
      and clear the caller's pointer. */
  function Destroy(w: World, p: Ptr): (r: (Ptr, World))
    requires IsDevice(w, p) && StorageOf(w, p) in w.sessions
    ensures r.0 == Null
    ensures r.1.live == w.live - {p.addr} && r.1.next == w.next
    ensures r.1.sessions == w.sessions - multiset{StorageOf(w, p)}
    ensures r.1.log == w.log + [Closed(StorageOf(w, p)), Freed(p.addr)]
  {
    var w1 := CloseStorage(w, StorageOf(w, p));
    Free(w1, p, DEVICE_STRUCT_SIZE)
  }

  /** Destroying a freshly created device closes the one session creation
      opened and frees its record: the ledger is back where it started. */
  lemma DestroyUndoesCreate(w: World, storage: nat, media: nat, mediaBlockSize: u64, outDev: Ptr)
    requires Good(w) && mediaBlockSize <= U32_MAX
    ensures var c := Create(w, storage, media, mediaBlockSize, true, true, outDev);
            && c.err == 0 && StorageOf(c.world, c.out) in c.world.sessions
            && var d := Destroy(c.world, c.out).1;
               d.live == w.live && d.sessions == w.sessions
  {
    var c := Create(w, storage, media, mediaBlockSize, true, true, outDev);
    var d := Destroy(c.world, c.out).1;
    assert d.live.Keys == w.live.Keys;
  }

  /** Creation as it is evidently meant: a block size of 0 is refused like
      one that does not fit in 32 bits, so every device it produces can be
      read from. */
  function CreateChecked(w: World, storage: nat, media: nat, mediaBlockSize: u64,
                         openOk: bool, mallocOk: bool, outDev: Ptr): (r: Created)
    requires Good(w)
    ensures Good(r.world) && w.log <= r.world.log
    ensures r.err == EINVAL <==> mediaBlockSize == 0 || mediaBlockSize > U32_MAX
    ensures r.err == EINVAL ==> r.world == w && r.out == outDev
    ensures r.err == 0 ==> IsDevice(r.world, r.out) && 0 < BlockSize(r.world, r.out) == mediaBlockSize
    ensures r.err == 0 <==> 0 < mediaBlockSize <= U32_MAX && openOk && mallocOk
    ensures r.err != 0 ==> r.world.live == w.live && r.world.sessions == w.sessions
  {
    if mediaBlockSize == 0 then Created(EINVAL, outDev, w)
    else Create(w, storage, media, mediaBlockSize, openOk, mallocOk, outDev)
  }

  /** As written, creation hands out a device whose block size is 0; the
      first read on it would divide by zero at line 175. */
  lemma CreateAcceptsZeroBlockSize(w: World, storage: nat, media: nat)
    requires Good(w)
    ensures var c := Create(w, storage, media, 0, true, true, Null);
            c.err == 0 && IsDevice(c.world, c.out) && BlockSize(c.world, c.out) == 0
  {}
}
