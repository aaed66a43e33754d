/** The kernel resources the device layer touches, as a ledger: blocks from
    the kernel allocator, I/O buffer descriptors, open sessions on storage
    objects, and a log of every resource event. The framework calls
    (IOMalloc/IOFree, the descriptor class, the medium's read) are modelled
    here by their observable effect only; their outcomes are parameters. */
module Memory {
  import opened CTypes

  datatype Ptr = Null | At(addr: nat)

  /** What a block obtained from the allocator currently holds. */
  datatype Fields =
    | Raw
    | IoBufferFields(buffer: nat)
    | DeviceFields(storage: nat, media: nat, blockSize: u32)

  datatype Object =
    | Block(size: nat, fields: Fields)
    | Descriptor(bytes: seq<byte>)

  datatype Event =
    | Allocated(addr: nat, size: nat)
    | Freed(addr: nat)
    | DescriptorCreated(addr: nat)
    | DescriptorReleased(addr: nat)
    | Opened(storage: nat)
    | Closed(storage: nat)
    | Transferred(pos: nat, target: nat, len: nat)
    | Copied(target: nat, source: nat, len: nat)

  /** Live objects by address, the next fresh address, the open reader
      sessions per storage object, and everything that has happened. */
  datatype World = World(live: map<nat, Object>, next: nat, sessions: multiset<nat>, log: seq<Event>)

  /** The medium's contents, byte offset to byte. */
  type Medium = nat -> byte

  /** Every live address was handed out before `next`. */
  predicate Good(w: World) {
    forall a :: a in w.live ==> a < w.next
  }

  /** Everything live in `w` is still live, and unchanged, in `w2`. */
  predicate Keeps(w: World, w2: World) {
    forall a :: a in w.live ==> a in w2.live && w2.live[a] == w.live[a]
  }

  /** The events `w2` added to `w`'s log. */
  function NewEvents(w: World, w2: World): seq<Event>
    requires w.log <= w2.log
  {
    w2.log[|w.log|..]
  }

  /** Every descriptor created during `ev` is released exactly once in it,
      and no other descriptor is released. */
  ghost predicate ReleasesWhatItCreates(ev: seq<Event>) {
    forall a :: multiset(ev)[DescriptorReleased(a)] == multiset(ev)[DescriptorCreated(a)] <= 1
  }

  predicate IsDescriptor(w: World, a: nat) {
    a in w.live && w.live[a].Descriptor?
  }

  predicate IsBlock(w: World, p: Ptr, size: nat) {
    p.At? && p.addr in w.live && w.live[p.addr].Block? && w.live[p.addr].size == size
  }

  function Bytes(w: World, a: nat): seq<byte>
    requires IsDescriptor(w, a)
  {
    w.live[a].bytes
  }

  /** `n` bytes of the medium starting at offset `pos`. */
  function Slice(m: Medium, pos: nat, n: nat): (s: seq<byte>)
    ensures |s| == n
    ensures forall i :: 0 <= i < n ==> s[i] == m(pos + i)
  {
    seq(n, i requires 0 <= i < n => m(pos + i))
  }

  /** Part of a slice of the medium is a slice of the medium. */
  lemma SliceOfSlice(m: Medium, pos: nat, len: nat, from: nat, n: nat)
    requires from + n <= len
    ensures Slice(m, pos, len)[from..from + n] == Slice(m, pos + from, n)
  {}

  // ---- kext/lvm2_osal_iokit.cpp:30-48 -------------------------------------

  datatype Allocation = Allocation(err: int, ptr: Ptr, world: World)

  /** What the create operations return: an error number, the caller's
      out-pointer afterwards, and the ledger. */
  datatype Created = Created(err: int, out: Ptr, world: World)

  /** lvm2_malloc: ask the allocator for `size` bytes; `ok` is its answer.
      On failure the caller's pointer `outPtr` is left as it was. */
  function Malloc(w: World, size: nat, ok: bool, outPtr: Ptr): (r: Allocation)
    requires Good(w)
    ensures Good(r.world) && r.world.sessions == w.sessions && Keeps(w, r.world)
    ensures r.err == 0 <==> ok
    ensures r.err != 0 ==> r.err == ENOMEM && r.ptr == outPtr && r.world == w
    ensures r.err == 0 ==>
              && r.ptr.At? && r.ptr.addr !in w.live
              && r.world.live == w.live[r.ptr.addr := Block(size, Raw)]
              && r.world.log == w.log + [Allocated(r.ptr.addr, size)]
  {
    if ok then
      var a := w.next;
      Allocation(0, At(a), w.(live := w.live[a := Block(size, Raw)], next := a + 1,
                              log := w.log + [Allocated(a, size)]))
    else
      Allocation(ENOMEM, outPtr, w)
  }

  /** lvm2_free: give a block back to the allocator, with the size it was
      allocated with, and clear the caller's pointer. */
  function Free(w: World, p: Ptr, size: nat): (r: (Ptr, World))
    requires IsBlock(w, p, size)
    ensures r.0 == Null
    ensures r.1.live == w.live - {p.addr} && r.1.next == w.next && r.1.sessions == w.sessions
    ensures r.1.log == w.log + [Freed(p.addr)]
  {
    (Null, w.(live := w.live - {p.addr}, log := w.log + [Freed(p.addr)]))
  }

  /** Freeing what was just allocated leaves the live objects as they were. */
  lemma FreeUndoesMalloc(w: World, size: nat, outPtr: Ptr)
    requires Good(w)
    ensures var m := Malloc(w, size, true, outPtr);
            IsBlock(m.world, m.ptr, size) && Free(m.world, m.ptr, size).1.live == w.live
  {
    var m := Malloc(w, size, true, outPtr);
    assert m.world.live - {m.ptr.addr} == w.live;
  }

  // ---- The framework's descriptor and medium, by effect --------------------

  /** A new zero-filled descriptor of `capacity` bytes, or Null when the
      framework's allocation fails (`ok` false). */
  function NewDescriptor(w: World, capacity: nat, ok: bool): (r: (Ptr, World))
    requires Good(w)
    ensures Good(r.1) && r.1.sessions == w.sessions && Keeps(w, r.1)
    ensures !ok ==> r.0 == Null && r.1 == w
    ensures ok ==>
              && r.0 == At(w.next) && w.next !in w.live
              && r.1.live == w.live[w.next := Descriptor(seq(capacity, _ => 0))]
              && r.1.log == w.log + [DescriptorCreated(w.next)]
  {
    if ok then
      var a := w.next;
      (At(a), w.(live := w.live[a := Descriptor(seq(capacity, _ => 0))], next := a + 1,
                 log := w.log + [DescriptorCreated(a)]))
    else
      (Null, w)
  }

  /** Dropping the last reference to a descriptor frees it. */
  function ReleaseDescriptor(w: World, a: nat): (r: World)
    requires IsDescriptor(w, a)
    ensures r.live == w.live - {a} && r.next == w.next && r.sessions == w.sessions
    ensures r.log == w.log + [DescriptorReleased(a)]
  {
    w.(live := w.live - {a}, log := w.log + [DescriptorReleased(a)])
  }

  /** The medium's read: fill the whole of descriptor `target` from byte
      `pos` on. `ok` is the transfer's status; a failed transfer leaves the
      target as it was. */
  function MediaRead(w: World, m: Medium, pos: nat, target: nat, ok: bool): (r: World)
    requires IsDescriptor(w, target)
    ensures r.live.Keys == w.live.Keys && r.next == w.next && r.sessions == w.sessions
    ensures forall a :: a in w.live && a != target ==> r.live[a] == w.live[a]
    ensures r.live[target] == if ok then Descriptor(Slice(m, pos, |Bytes(w, target)|)) else w.live[target]
    ensures r.log == w.log + [Transferred(pos, target, |Bytes(w, target)|)]
  {
    var len := |Bytes(w, target)|;
    var filled := if ok then Descriptor(Slice(m, pos, len)) else w.live[target];
    w.(live := w.live[target := filled], log := w.log + [Transferred(pos, target, len)])
  }

  /** The descriptor's writeBytes at offset 0: copy `len` bytes taken from
      byte `from` of `source` into the front of `target`, as many as
      `target` holds, and answer how many were copied. */
  function WriteBytes(w: World, target: nat, source: nat, from: nat, len: nat): (r: (nat, World))
    requires IsDescriptor(w, target) && IsDescriptor(w, source) && target != source
    requires from + Min(len, |Bytes(w, target)|) <= |Bytes(w, source)|
    ensures r.0 == Min(len, |Bytes(w, target)|)
    ensures r.1.live == w.live[target := Descriptor(Bytes(w, source)[from..from + r.0] + Bytes(w, target)[r.0..])]
    ensures r.1.next == w.next && r.1.sessions == w.sessions
    ensures r.1.log == w.log + [Copied(target, source, r.0)]
  {
    var n := Min(len, |Bytes(w, target)|);
    var old_ := Bytes(w, target);
    var bytes := Bytes(w, source)[from..from + n] + old_[n..];
    (n, w.(live := w.live[target := Descriptor(bytes)], log := w.log + [Copied(target, source, n)]))
  }

  /** The storage object's open for reading; `ok` is its answer. */
  function OpenStorage(w: World, storage: nat, ok: bool): (r: World)
    ensures r.live == w.live && r.next == w.next
    ensures ok ==> r.sessions == w.sessions + multiset{storage} && r.log == w.log + [Opened(storage)]
    ensures !ok ==> r == w
  {
    if ok then w.(sessions := w.sessions + multiset{storage}, log := w.log + [Opened(storage)])
    else w
  }

  /** The storage object's close of one reader session. */
  function CloseStorage(w: World, storage: nat): (r: World)
    requires storage in w.sessions
    ensures r.live == w.live && r.next == w.next
    ensures r.sessions == w.sessions - multiset{storage}
    ensures r.log == w.log + [Closed(storage)]
  {
    w.(sessions := w.sessions - multiset{storage}, log := w.log + [Closed(storage)])
  }
}
