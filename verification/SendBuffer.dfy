/** The GIOP send buffer: scatter/gather vectors over recycled chunks and caller memory, denoting one
    flat message. */
module SendBuffer {
  import opened Cdr

  const CHUNK_SIZE: nat := 2048

  /** A stretch of memory; addresses are indices into `mem`. */
  datatype IoVec = IoVec(base: nat, len: nat)

  ghost predicate Apart(a: IoVec, b: IoVec) {
    a.len == 0 || b.len == 0 || a.base + a.len <= b.base || b.base + b.len <= a.base
  }

  ghost predicate InBounds(mem: seq<Byte>, v: IoVec) {
    v.base + v.len <= |mem|
  }

  ghost predicate AllInBounds(mem: seq<Byte>, vecs: seq<IoVec>) {
    forall k :: 0 <= k < |vecs| ==> InBounds(mem, vecs[k])
  }

  ghost predicate AllApart(vecs: seq<IoVec>, v: IoVec) {
    forall k :: 0 <= k < |vecs| ==> Apart(vecs[k], v)
  }

  ghost function At(mem: seq<Byte>, v: IoVec): (r: seq<Byte>)
    requires InBounds(mem, v)
    ensures |r| == v.len
  {
    mem[v.base..v.base + v.len]
  }

  /** The byte string that writev sends. */
  ghost function Flat(mem: seq<Byte>, vecs: seq<IoVec>): seq<Byte>
    requires AllInBounds(mem, vecs)
  {
    if vecs == [] then []
    else Flat(mem, vecs[..|vecs| - 1]) + At(mem, vecs[|vecs| - 1])
  }

  /** memcpy (&mem[a], s, |s|). */
  function Write(mem: seq<Byte>, a: nat, s: seq<Byte>): (r: seq<Byte>)
    requires a + |s| <= |mem|
    ensures |r| == |mem|
  {
    mem[..a] + s + mem[a + |s|..]
  }

  lemma {:induction false} FlatAppend(mem: seq<Byte>, vecs: seq<IoVec>, v: IoVec)
    requires AllInBounds(mem, vecs) && InBounds(mem, v)
    ensures AllInBounds(mem, vecs + [v]) && Flat(mem, vecs + [v]) == Flat(mem, vecs) + At(mem, v)
  {
    assert (vecs + [v])[..|vecs|] == vecs;
  }

  /** A last vector that grows. */
  lemma FlatGrow(mem: seq<Byte>, vecs: seq<IoVec>, len: nat)
    requires vecs != [] && AllInBounds(mem, vecs)
    requires InBounds(mem, IoVec(vecs[|vecs| - 1].base + vecs[|vecs| - 1].len, len))
    ensures
      var last := vecs[|vecs| - 1];
      var vecs' := vecs[|vecs| - 1 := IoVec(last.base, last.len + len)];
      && AllInBounds(mem, vecs')
      && Flat(mem, vecs') == Flat(mem, vecs) + At(mem, IoVec(last.base + last.len, len))
  {
    var last := vecs[|vecs| - 1];
    var vecs' := vecs[|vecs| - 1 := IoVec(last.base, last.len + len)];
    assert vecs'[..|vecs| - 1] == vecs[..|vecs| - 1];
    assert At(mem, IoVec(last.base, last.len + len)) == At(mem, last) + At(mem, IoVec(last.base + last.len, len));
  }

  /** Memory that no vector refers to may change, and memory may grow. */
  lemma {:induction false} FlatFrame(mem: seq<Byte>, mem': seq<Byte>, vecs: seq<IoVec>, v: IoVec)
    requires AllInBounds(mem, vecs) && |mem| <= |mem'| && AllApart(vecs, v)
    requires forall a :: 0 <= a < |mem| && !(v.base <= a < v.base + v.len) ==> mem'[a] == mem[a]
    ensures AllInBounds(mem', vecs) && Flat(mem', vecs) == Flat(mem, vecs)
  {
    if vecs != [] {
      FlatFrame(mem, mem', vecs[..|vecs| - 1], v);
      var last := vecs[|vecs| - 1];
      assert Apart(last, v);
      assert At(mem', last) == At(mem, last);
    }
  }

  lemma FlatLonger(mem: seq<Byte>, more: seq<Byte>, vecs: seq<IoVec>)
    requires AllInBounds(mem, vecs)
    ensures AllInBounds(mem + more, vecs) && Flat(mem + more, vecs) == Flat(mem, vecs)
  {
    FlatFrame(mem, mem + more, vecs, IoVec(|mem|, 0));
  }

  ghost function Length(vecs: seq<IoVec>): nat {
    if vecs == [] then 0 else Length(vecs[..|vecs| - 1]) + vecs[|vecs| - 1].len
  }

  lemma {:induction false} FlatLength(mem: seq<Byte>, vecs: seq<IoVec>)
    requires AllInBounds(mem, vecs)
    ensures |Flat(mem, vecs)| == Length(vecs)
  {
    if vecs != [] {
      FlatLength(mem, vecs[..|vecs| - 1]);
    }
  }

  /** Vector k is the only one that holds the n bytes at address a, and they are bytes p.. of the message. */
  ghost predicate HeldBy(vecs: seq<IoVec>, k: nat, a: nat, p: nat, n: nat)
    requires k < |vecs|
  {
    && vecs[k].base <= a && a + n <= vecs[k].base + vecs[k].len
    && p == Length(vecs[..k]) + (a - vecs[k].base)
    && forall j :: 0 <= j < |vecs| && j != k ==> Apart(vecs[j], IoVec(a, n))
  }

  ghost predicate Held(vecs: seq<IoVec>, a: nat, p: nat, n: nat) {
    exists k :: 0 <= k < |vecs| && HeldBy(vecs, k, a, p, n)
  }

  lemma HeldAppend(vecs: seq<IoVec>, v: IoVec, a: nat, p: nat, n: nat)
    requires Held(vecs, a, p, n) && Apart(v, IoVec(a, n))
    ensures Held(vecs + [v], a, p, n)
  {
    var k :| 0 <= k < |vecs| && HeldBy(vecs, k, a, p, n);
    assert (vecs + [v])[..k] == vecs[..k];
    assert HeldBy(vecs + [v], k, a, p, n);
  }

  lemma HeldGrow(vecs: seq<IoVec>, len: nat, a: nat, p: nat, n: nat)
    requires vecs != [] && Held(vecs, a, p, n)
    requires Apart(IoVec(vecs[|vecs| - 1].base + vecs[|vecs| - 1].len, len), IoVec(a, n))
    ensures
      var last := vecs[|vecs| - 1];
      Held(vecs[|vecs| - 1 := IoVec(last.base, last.len + len)], a, p, n)
  {
    var last := vecs[|vecs| - 1];
    var vecs' := vecs[|vecs| - 1 := IoVec(last.base, last.len + len)];
    var k :| 0 <= k < |vecs| && HeldBy(vecs, k, a, p, n);
    assert vecs'[..k] == vecs[..k];
    assert HeldBy(vecs', k, a, p, n);
  }

  /** Writing at a held address changes exactly those bytes of the message. */
  lemma {:induction false} FlatPatch(mem: seq<Byte>, vecs: seq<IoVec>, a: nat, p: nat, s: seq<Byte>)
    requires AllInBounds(mem, vecs) && a + |s| <= |mem| && Held(vecs, a, p, |s|)
    ensures AllInBounds(Write(mem, a, s), vecs)
    ensures p + |s| <= |Flat(mem, vecs)|
    ensures Flat(Write(mem, a, s), vecs) == Write(Flat(mem, vecs), p, s)
  {
    var k :| 0 <= k < |vecs| && HeldBy(vecs, k, a, p, |s|);
    FlatPatchAt(mem, vecs, k, a, p, s);
  }

  lemma {:induction false} FlatPatchAt(mem: seq<Byte>, vecs: seq<IoVec>, k: nat, a: nat, p: nat, s: seq<Byte>)
    requires k < |vecs| && AllInBounds(mem, vecs) && a + |s| <= |mem| && HeldBy(vecs, k, a, p, |s|)
    ensures AllInBounds(Write(mem, a, s), vecs)
    ensures p + |s| <= |Flat(mem, vecs)|
    ensures Flat(Write(mem, a, s), vecs) == Write(Flat(mem, vecs), p, s)
    decreases |vecs|
  {
    var init, last := vecs[..|vecs| - 1], vecs[|vecs| - 1];
    if k == |vecs| - 1 {
      FlatPatchLast(mem, vecs, a, p, s);
    } else {
      assert init[..k] == vecs[..k];
      assert HeldBy(init, k, a, p, |s|);
      FlatPatchAt(mem, init, k, a, p, s);
      WriteApart(mem, a, s, last);
    }
  }

  lemma FlatPatchLast(mem: seq<Byte>, vecs: seq<IoVec>, a: nat, p: nat, s: seq<Byte>)
    requires vecs != [] && AllInBounds(mem, vecs) && a + |s| <= |mem| && HeldBy(vecs, |vecs| - 1, a, p, |s|)
    ensures AllInBounds(Write(mem, a, s), vecs)
    ensures p + |s| <= |Flat(mem, vecs)|
    ensures Flat(Write(mem, a, s), vecs) == Write(Flat(mem, vecs), p, s)
  {
    var mem' := Write(mem, a, s);
    var init, last := vecs[..|vecs| - 1], vecs[|vecs| - 1];
    FlatLength(mem, init);
    FlatFrame(mem, mem', init, IoVec(a, |s|));
    assert At(mem', last) == Write(At(mem, last), a - last.base, s);
    WriteAppend(Flat(mem, init), At(mem, last), a - last.base, s);
  }

  lemma WriteAppend(x: seq<Byte>, y: seq<Byte>, off: nat, s: seq<Byte>)
    requires off + |s| <= |y|
    ensures x + Write(y, off, s) == Write(x + y, |x| + off, s)
  {
  }

  lemma WriteApart(mem: seq<Byte>, a: nat, s: seq<Byte>, v: IoVec)
    requires a + |s| <= |mem| && InBounds(mem, v) && Apart(v, IoVec(a, |s|))
    ensures At(Write(mem, a, s), v) == At(mem, v)
  {
    if s == [] {
      assert Write(mem, a, s) == mem;
    }
  }

  /** The message `flat`, behind a header of `headerSize` bytes, is what `out` promises. */
  ghost predicate Denotes(flat: seq<Byte>, out: seq<Cell>, headerSize: nat) {
    && |out| == headerSize + |flat|
    && (forall i :: 0 <= i < headerSize ==> out[i] == Pad)
    && forall i :: 0 <= i < |flat| && out[headerSize + i].Data? ==> flat[i] == out[headerSize + i].b
  }

  lemma DenotesAppend(flat: seq<Byte>, out: seq<Cell>, h: nat, s: seq<Byte>, cells: seq<Cell>)
    requires Denotes(flat, out, h) && |cells| == |s|
    requires forall i :: 0 <= i < |s| && cells[i].Data? ==> s[i] == cells[i].b
    ensures Denotes(flat + s, out + cells, h)
  {
  }

  lemma DenotesSize(flat: seq<Byte>, out: seq<Cell>, h: nat)
    requires Denotes(flat, out, h)
    ensures |out| >= h
  {
  }

  lemma DenotesPatch(flat: seq<Byte>, out: seq<Cell>, h: nat, p: nat, s: seq<Byte>)
    requires Denotes(flat, out, h) && p + |s| <= |flat|
    ensures Denotes(Write(flat, p, s), out[..h + p] + Cells(s) + out[h + p + |s|..], h)
  {
  }

  /** giop_send_buffer_append_real's choice: the last vector grows when the new memory follows it. */
  function AppendVec(vecs: seq<IoVec>, lastptr: int, v: IoVec): seq<IoVec> {
    if vecs != [] && v.base == lastptr then
      var last := vecs[|vecs| - 1];
      vecs[|vecs| - 1 := IoVec(last.base, last.len + v.len)]
    else vecs + [v]
  }

  lemma AppendVecFlat(mem: seq<Byte>, vecs: seq<IoVec>, lastptr: int, v: IoVec)
    requires AllInBounds(mem, vecs) && InBounds(mem, v)
    requires vecs != [] ==> lastptr == vecs[|vecs| - 1].base + vecs[|vecs| - 1].len
    ensures
      var vecs' := AppendVec(vecs, lastptr, v);
      && AllInBounds(mem, vecs') && Flat(mem, vecs') == Flat(mem, vecs) + At(mem, v)
      && vecs' != [] && v.base + v.len == vecs'[|vecs'| - 1].base + vecs'[|vecs'| - 1].len
  {
    hide Flat;
    if vecs != [] && v.base == lastptr {
      FlatGrow(mem, vecs, v.len);
    } else {
      FlatAppend(mem, vecs, v);
    }
  }

  lemma AppendVecApart(vecs: seq<IoVec>, lastptr: int, v: IoVec, x: IoVec)
    requires vecs != [] ==> lastptr == vecs[|vecs| - 1].base + vecs[|vecs| - 1].len
    requires AllApart(vecs, x) && Apart(v, x)
    ensures AllApart(AppendVec(vecs, lastptr, v), x)
  {
    if vecs != [] {
      assert Apart(vecs[|vecs| - 1], x);
    }
  }

  lemma AppendVecHeld(vecs: seq<IoVec>, lastptr: int, v: IoVec, a: nat, p: nat, n: nat)
    requires vecs != [] ==> lastptr == vecs[|vecs| - 1].base + vecs[|vecs| - 1].len
    requires Held(vecs, a, p, n) && Apart(v, IoVec(a, n))
    ensures Held(AppendVec(vecs, lastptr, v), a, p, n)
  {
    if vecs != [] && v.base == lastptr {
      HeldGrow(vecs, v.len, a, p, n);
    } else {
      HeldAppend(vecs, v, a, p, n);
    }
  }

  /** A freshly appended stretch is held at the end of the message. */
  lemma AppendVecHolds(vecs: seq<IoVec>, lastptr: int, v: IoVec)
    requires vecs != [] ==> lastptr == vecs[|vecs| - 1].base + vecs[|vecs| - 1].len
    requires AllApart(vecs, v)
    ensures Held(AppendVec(vecs, lastptr, v), v.base, Length(vecs), v.len)
  {
    var vecs' := AppendVec(vecs, lastptr, v);
    var k := |vecs'| - 1;
    if vecs != [] && v.base == lastptr {
      assert vecs'[..k] == vecs[..k];
    } else {
      assert vecs'[..k] == vecs;
    }
    assert HeldBy(vecs', k, v.base, Length(vecs), v.len);
  }

  datatype Chunk = Chunk(ptr: nat, size: nat)

  function Area(c: Chunk): IoVec { IoVec(c.ptr, c.size) }

  /** Memory the buffer does not hand out any more: apart from the rest `cur` of the current chunk and
      from every unused chunk. */
  ghost predicate Settled(v: IoVec, cur: IoVec, chunks: seq<Chunk>, used: nat) {
    Apart(v, cur) && forall i :: used <= i < |chunks| ==> Apart(v, Area(chunks[i]))
  }

  ghost predicate InChunk(chunks: seq<Chunk>, a: nat) {
    exists i :: 0 <= i < |chunks| && Covers(chunks[i], a)
  }

  ghost predicate Covers(c: Chunk, a: nat) {
    c.ptr <= a && a + 4 <= c.ptr + c.size
  }

  /** The marker at address `a` is the four bytes at position `p` after the header, and nothing else
      will be written there. */
  ghost predicate MarkOk(a: nat, p: int, vecs: seq<IoVec>, cur: IoVec, chunks: seq<Chunk>, used: nat) {
    p >= 0 && Held(vecs, a, p, 4) && Settled(IoVec(a, 4), cur, chunks, used) && InChunk(chunks, a)
  }

  ghost predicate ChunksOk(size: nat, cur: IoVec, chunks: seq<Chunk>, used: nat) {
    && used <= |chunks|
    && (forall i :: 0 <= i < |chunks| ==> chunks[i].size >= CHUNK_SIZE && chunks[i].ptr + chunks[i].size <= size)
    && (forall i, j :: 0 <= i < j < |chunks| ==> Apart(Area(chunks[i]), Area(chunks[j])))
    && (used == 0 ==> cur.len == 0)
    && (used > 0 ==> chunks[used - 1].ptr <= cur.base && cur.base + cur.len == chunks[used - 1].ptr + chunks[used - 1].size)
  }

  lemma ChunksNew(size: nat, cur: IoVec, chunks: seq<Chunk>, used: nat, c: Chunk, size': nat)
    requires ChunksOk(size, cur, chunks, used) && size <= c.ptr && c.ptr + c.size <= size' && c.size >= CHUNK_SIZE
    ensures ChunksOk(size', cur, chunks + [c], used)
  {
    forall i | 0 <= i < |chunks| + 1
      ensures (chunks + [c])[i].size >= CHUNK_SIZE && (chunks + [c])[i].ptr + (chunks + [c])[i].size <= size'
    {
      assert (chunks + [c])[i] == if i < |chunks| then chunks[i] else c;
    }
    assert used > 0 ==> (chunks + [c])[used - 1] == chunks[used - 1];
  }

  lemma VecsNew(mem: seq<Byte>, vecs: seq<IoVec>, chunks: seq<Chunk>, used: nat, c: Chunk)
    requires AllInBounds(mem, vecs) && |mem| <= c.ptr && used <= |chunks|
    requires forall i :: used <= i < |chunks| ==> AllApart(vecs, Area(chunks[i]))
    ensures forall i :: used <= i < |chunks| + 1 ==> AllApart(vecs, Area((chunks + [c])[i]))
  {
    forall k | 0 <= k < |vecs| ensures Apart(vecs[k], Area(c)) {
      assert InBounds(mem, vecs[k]);
    }
    forall i | used <= i < |chunks| + 1 ensures AllApart(vecs, Area((chunks + [c])[i])) {
      assert (chunks + [c])[i] == if i < |chunks| then chunks[i] else c;
    }
  }

  lemma MarkNewChunk(a: nat, p: int, vecs: seq<IoVec>, cur: IoVec, chunks: seq<Chunk>, used: nat, c: Chunk, size: nat)
    requires MarkOk(a, p, vecs, cur, chunks, used) && ChunksOk(size, cur, chunks, used) && c.ptr >= size
    ensures MarkOk(a, p, vecs, cur, chunks + [c], used)
  {
    var i :| 0 <= i < |chunks| && Covers(chunks[i], a);
    assert Covers((chunks + [c])[i], a);
  }

  lemma MarkUseChunk(a: nat, p: int, vecs: seq<IoVec>, cur: IoVec, chunks: seq<Chunk>, used: nat)
    requires MarkOk(a, p, vecs, cur, chunks, used) && used < |chunks|
    ensures MarkOk(a, p, vecs, Area(chunks[used]), chunks, used + 1)
  {
  }

  lemma MarkAppend(a: nat, p: int, vecs: seq<IoVec>, lastptr: int, cur: IoVec, chunks: seq<Chunk>, used: nat, v: IoVec, cur': IoVec)
    requires MarkOk(a, p, vecs, cur, chunks, used) && Apart(v, IoVec(a, 4))
    requires vecs != [] ==> lastptr == vecs[|vecs| - 1].base + vecs[|vecs| - 1].len
    requires cur.base <= cur'.base && cur'.base + cur'.len <= cur.base + cur.len
    ensures MarkOk(a, p, AppendVec(vecs, lastptr, v), cur', chunks, used)
  {
    AppendVecHeld(vecs, lastptr, v, a, p, 4);
  }

  const NO_PTR: int := -1

  class Buffer {
    var mem: seq<Byte>
    var iovecs: seq<IoVec>          // the vectors after the header's
    var lastptr: int
    var indirect: nat
    var indirectLeft: nat
    var indirects: seq<Chunk>
    var numIndirectsUsed: nat
    var messageSize: nat            // the header's size field
    var headerSize: nat             // 12, or 0 when the header's vector has been dropped
    var minor: Byte                 // the header's GIOP minor version
    var messageType: Byte           // the header's message type
    const order: Order              // the byte order of this machine, announced by the header's flags

    ghost var out: seq<Cell>        // the message so far, header included
    ghost var marks: map<nat, nat>  // addresses of markers still to be filled in, with their position in `out`

    ghost function Current(): IoVec
      reads this
    {
      IoVec(indirect, indirectLeft)
    }

    /** Memory of the caller's: no part of any chunk. */
    ghost predicate Foreign(v: IoVec)
      reads this
    {
      InBounds(mem, v) && forall i :: 0 <= i < |indirects| ==> Apart(v, Area(indirects[i]))
    }

    ghost predicate VecsValid()
      reads this
    {
      && AllInBounds(mem, iovecs)
      && (iovecs != [] ==> lastptr == iovecs[|iovecs| - 1].base + iovecs[|iovecs| - 1].len)
      && AllApart(iovecs, Current())
      && forall i :: numIndirectsUsed <= i < |indirects| ==> AllApart(iovecs, Area(indirects[i]))
    }

    ghost predicate MarksValid()
      reads this
    {
      forall a :: a in marks ==> MarkOk(a, marks[a] - headerSize, iovecs, Current(), indirects, numIndirectsUsed)
    }

    /** The vectors denote the message `out`, and the size field is the number of bytes after the header. */
    ghost predicate Valid()
      reads this
    {
      && ChunksOk(|mem|, Current(), indirects, numIndirectsUsed) && VecsValid() && MarksValid()
      && headerSize in {0, 12}
      && Denotes(Flat(mem, iovecs), out, headerSize)
      && messageSize == |out| - headerSize
    }

    ghost function Header(): (h: seq<Byte>)
      reads this
      ensures |h| == 12
    {
      [71, 73, 79, 80, 1, minor, OrderFlag(order), messageType] + Store(order, 4, messageSize)
    }

    /** What writev sends: the header's vector, unless it was dropped, and the others. */
    ghost function Contents(): seq<Byte>
      requires Valid()
      reads this
    {
      (if headerSize == 12 then Header() else []) + Flat(mem, iovecs)
    }

    /** No message in progress, some chunks kept. */
    ghost predicate Recycled()
      reads this
    {
      ChunksOk(|mem|, IoVec(0, 0), indirects, 0)
    }

    /** A started message: just the header. */
    ghost predicate Started(version: Byte)
      reads this
    {
      Valid() && headerSize == 12 && out == Pads(12) && marks == map[] && minor == version && messageSize == 0
    }

    /** A new buffer, as giop_send_buffer_use allocates it when no old one is waiting. */
    constructor (order: Order, version: Byte)
      ensures this.order == order && Started(version) && Recycled()
    {
      this.order := order;
      mem, iovecs, lastptr, indirect, indirectLeft := [], [], NO_PTR, 0, 0;
      indirects, numIndirectsUsed, messageSize, headerSize := [], 0, 0, 12;
      minor, messageType := version, 0;
      out, marks := Pads(12), map[];
    }

    /** giop_send_buffer_use on a buffer from the list: it starts a message exactly as a new buffer does. */
    method Reuse(version: Byte)
      requires Recycled()
      modifies this
      ensures Started(version) && messageType == old(messageType)
    {
      iovecs, indirectLeft := [], 0;
      numIndirectsUsed := 0;
      minor := version;
      messageSize, headerSize := 0, 12;
      out, marks := Pads(12), map[];
    }

    /** giop_send_buffer_unuse: oversized chunks shrink back to the standard size. */
    method Unuse()
      requires Valid()
      modifies this`indirects
      ensures Recycled()
      ensures |indirects| == |old(indirects)|
      ensures forall i :: 0 <= i < numIndirectsUsed ==> indirects[i] == Chunk(old(indirects)[i].ptr, CHUNK_SIZE)
      ensures forall i :: numIndirectsUsed <= i < |indirects| ==> indirects[i] == old(indirects)[i]
    {
      ghost var chunks := indirects;
      var i := 0;
      while i < numIndirectsUsed
        invariant i <= numIndirectsUsed <= |indirects| == |chunks|
        invariant ChunksOk(|mem|, Current(), chunks, numIndirectsUsed)
        invariant forall k :: 0 <= k < i ==> indirects[k] == Chunk(chunks[k].ptr, CHUNK_SIZE)
        invariant forall k :: i <= k < |chunks| ==> indirects[k] == chunks[k]
      {
        if indirects[i].size > CHUNK_SIZE {
          indirects := indirects[i := Chunk(indirects[i].ptr, CHUNK_SIZE)];
        }
        i := i + 1;
      }
      ChunksShrunk(|mem|, Current(), chunks, numIndirectsUsed, indirects);
    }

    /** The reset CORBA_ORB_object_to_string does: the header's vector is dropped. */
    method DropHeader()
      requires exists v :: Started(v)
      modifies this
      ensures Valid() && headerSize == 0 && out == [] && marks == map[]
    {
      headerSize, lastptr, iovecs, messageSize := 0, NO_PTR, [], 0;
      out := [];
    }

    /** msg.header.message_size. */
    method Size() returns (n: nat)
      requires Valid()
      ensures n == messageSize == |out| - headerSize
    {
      n := messageSize;
    }

    lemma SomeChunk()
      requires Valid()
      ensures indirectLeft > 0 ==> numIndirectsUsed > 0
    {
    }

    /** giop_send_buffer_append_copy. Only short stretches are copied, so a chunk always has room. */
    method AppendCopy(data: seq<Byte>)
      requires Valid() && |data| <= CHUNK_SIZE && (data == [] ==> numIndirectsUsed > 0)
      modifies this
      ensures Valid() && out == old(out) + Cells(data) && marks == old(marks) && headerSize == old(headerSize)
      ensures numIndirectsUsed > 0
    {
      hide Valid, Store, LowBytes, Reverse;
      SomeChunk();
      if indirectLeft < |data| {
        NextIndirect(|data|);
      }
      CopyIn(0, data);
      TakeIndirect(|data|, Cells(data));
    }

    /** giop_send_buffer_append. Short stretches are copied; long ones are sent from where they are. */
    method Append(base: nat, len: nat)
      requires Valid() && InBounds(mem, IoVec(base, len)) && (len > 32 ==> Foreign(IoVec(base, len)))
      requires len == 0 ==> numIndirectsUsed > 0
      modifies this
      ensures Valid() && out == old(out) + Cells(old(mem[base..base + len]))
      ensures marks == old(marks) && headerSize == old(headerSize)
      ensures len <= 32 ==> numIndirectsUsed > 0
    {
      if len <= 32 {
        AppendCopy(mem[base..base + len]);
      } else {
        AppendForeign(IoVec(base, len));
      }
    }

    method AppendForeign(v: IoVec)
      requires Valid() && Foreign(v)
      modifies this`iovecs, this`lastptr, this`messageSize, this`out
      ensures Valid() && out == old(out) + Cells(mem[v.base..v.base + v.len])
    {
      hide Flat, Denotes, Held, AllApart, ChunksOk, MarkOk, Apart;
      ForeignVecs(|mem|, iovecs, lastptr, Current(), indirects, numIndirectsUsed, v);
      forall a | a in marks
        ensures MarkOk(a, marks[a] - headerSize, AppendVec(iovecs, lastptr, v), Current(), indirects, numIndirectsUsed)
      {
        ForeignMark(a, marks[a] - headerSize, iovecs, lastptr, Current(), indirects, numIndirectsUsed, v);
      }
      AppendReal(v, Cells(mem[v.base..v.base + v.len]));
    }

    /** The caller's memory holding `data`, wherever that is. */
    method CallerMemory(data: seq<Byte>) returns (base: nat)
      requires Valid()
      modifies this`mem
      ensures Valid() && Foreign(IoVec(base, |data|)) && mem[base..base + |data|] == data
      ensures old(mem) <= mem
    {
      hide Flat, Denotes, Held, AllApart, MarkOk;
      base := |mem|;
      FlatLonger(mem, data, iovecs);
      ChunksLonger(|mem|, Current(), indirects, numIndirectsUsed, |data|);
      mem := mem + data;
    }

    method AppendBytes(data: seq<Byte>)
      requires Valid() && (data == [] ==> numIndirectsUsed > 0)
      modifies this
      ensures Valid() && out == old(out) + Cells(data) && marks == old(marks) && headerSize == old(headerSize)
      ensures |data| <= 32 ==> numIndirectsUsed > 0
    {
      var base := CallerMemory(data);
      Append(base, |data|);
    }

    /** giop_send_buffer_align: the padding is whatever the chunk holds. */
    method AlignTo(boundary: nat)
      requires Valid() && 0 < boundary <= CHUNK_SIZE
      modifies this
      ensures Valid() && out == old(out) + Pads(Align(|old(out)|, boundary) - |old(out)|)
      ensures marks == old(marks) && headerSize == old(headerSize)
    {
      hide MarkOk, Flat, Denotes, AllApart, Held, Apart, Pow256;
      var ms := messageSize + headerSize;
      var alignAmt := Align(ms, boundary) - ms;
      if alignAmt != 0 {
        if indirectLeft < alignAmt {
          NextIndirect(0);
        }
        TakeIndirect(alignAmt, Pads(alignAmt));
      }
    }

    /** giop_send_buffer_append_aligned. With no data it leaves room, and the returned address can be
        written later. */
    method AppendAligned(data: Source, alignLen: nat) returns (p: nat)
      requires Valid() && 0 < alignLen <= CHUNK_SIZE && (data.Bytes? ==> |data.bytes| == alignLen)
      modifies this
      ensures Valid() && headerSize == old(headerSize)
      ensures out == old(out) + Pads(Align(|old(out)|, alignLen) - |old(out)|)
                   + if data.Bytes? then Cells(data.bytes) else Pads(alignLen)
      ensures marks == if alignLen == 4 then old(marks)[p := |out| - 4] else old(marks)
      ensures alignLen == 4 ==> p !in old(marks)
      ensures numIndirectsUsed > 0
    {
      hide Valid, Store, LowBytes, Reverse;
      AlignTo(alignLen);
      SomeChunk();
      if indirectLeft < alignLen {
        NextIndirect(0);
      }
      p := indirect;
      if data.Bytes? {
        CopyIn(0, data.bytes);
      }
      TakeMarked(alignLen, if data.Bytes? then Cells(data.bytes) else Pads(alignLen));
    }

    /** The last stretch taken from the current chunk becomes a marker. */
    method TakeMarked(len: nat, ghost cells: seq<Cell>)
      requires Valid() && len <= indirectLeft && numIndirectsUsed > 0
      requires |cells| == len && forall i :: 0 <= i < len && cells[i].Data? ==> mem[indirect + i] == cells[i].b
      modifies this
      ensures Valid() && out == old(out) + cells && headerSize == old(headerSize)
      ensures marks == if len == 4 then old(marks)[old(indirect) := |old(out)|] else old(marks)
      ensures len == 4 ==> old(indirect) !in old(marks)
      ensures numIndirectsUsed == old(numIndirectsUsed)
    {
      hide MarkOk, Flat, Denotes, AllApart, Held, Apart, ChunksOk;
      ghost var a, p, chunks, used := indirect, |out| - headerSize, indirects, numIndirectsUsed;
      ghost var cur := Current();
      assert ChunksOk(|mem|, cur, chunks, used);
      if a in marks && len == 4 {
        MarkNotCurrent(a, marks[a] - headerSize, iovecs, cur, chunks, used);
      }
      TakeIndirect(len, cells);
      if len == 4 {
        NewMark(|mem|, iovecs, cur, Current(), chunks, used, a, p);
        marks := marks[a := p + headerSize];
      }
    }

    /** memcpy (marker, s, 4): exactly the marked bytes of the message change. */
    method FillIn(a: nat, s: seq<Byte>)
      requires Valid() && a in marks && |s| == 4
      modifies this`mem, this`out
      ensures Valid() && marks[a] + 4 <= |old(out)|
      ensures out == old(out)[..marks[a]] + Cells(s) + old(out)[marks[a] + 4..]
    {
      hide MarkOk, ChunksOk, AllApart, Flat, Held, Apart;
      MarkHeld(|mem|, a, marks[a] - headerSize, iovecs, Current(), indirects, numIndirectsUsed);
      FlatPatch(mem, iovecs, a, marks[a] - headerSize, s);
      DenotesPatch(Flat(mem, iovecs), out, headerSize, marks[a] - headerSize, s);
      mem := Write(mem, a, s);
      out := out[..marks[a]] + Cells(s) + out[marks[a] + 4..];
    }

    /** giop_send_buffer_append_string. */
    method AppendString(str: CStr)
      requires Valid()
      modifies this
      ensures Valid() && marks == old(marks) && headerSize == old(headerSize)
      ensures out == old(out) + Pads(Align(|old(out)|, 4) - |old(out)|) + Cells(Store(order, 4, |str| + 1)) + Cells(str + [0])
    {
      hide Valid, Store, LowBytes, Reverse;
      var len := |str| + 1;
      AlignTo(4);
      SomeChunk();
      if indirectLeft >= 4 + len {
        CopyIn(0, Store(order, 4, len));
        CopyIn(4, str + [0]);
        TakeIndirect(4 + len, Cells(Store(order, 4, len)) + Cells(str + [0]));
      } else {
        AppendCopy(Store(order, 4, len));
        AppendBytes(str + [0]);
      }
    }

    /** The bytes sent are the promised message, and the header's size field counts those after it. */
    lemma ContentsFit()
      requires Valid()
      ensures |Contents()| == |out| && Fits(Contents(), out)
      ensures headerSize == 12 && messageSize < 0x1_0000_0000 ==> Load(order, Contents()[8..12]) == |Contents()| - 12
    {
      if headerSize == 12 {
        assert Contents()[8..12] == Store(order, 4, messageSize);
        LoadStore(order, 4, messageSize);
        Pow256Values();
      }
      forall i | 0 <= i < |out| && out[i].Data? ensures Contents()[i] == out[i].b {
        assert i >= headerSize && out[headerSize + (i - headerSize)].Data?;
      }
    }

    /** giop_send_buffer_append_real: the memory `v` joins the message by reference. */
    method AppendReal(v: IoVec, ghost cells: seq<Cell>)
      requires AllInBounds(mem, iovecs) && InBounds(mem, v)
      requires iovecs != [] ==> lastptr == iovecs[|iovecs| - 1].base + iovecs[|iovecs| - 1].len
      requires Denotes(Flat(mem, iovecs), out, headerSize) && messageSize == |out| - headerSize
      requires |cells| == v.len && forall i :: 0 <= i < v.len && cells[i].Data? ==> mem[v.base + i] == cells[i].b
      modifies this`iovecs, this`lastptr, this`messageSize, this`out
      ensures iovecs == AppendVec(old(iovecs), old(lastptr), v) && lastptr == v.base + v.len
      ensures out == old(out) + cells && messageSize == |out| - headerSize
      ensures AllInBounds(mem, iovecs) && Denotes(Flat(mem, iovecs), out, headerSize)
    {
      hide Flat, Denotes, AllInBounds;
      AppendVecFlat(mem, iovecs, lastptr, v);
      DenotesAppend(Flat(mem, iovecs), out, headerSize, At(mem, v), cells);
      DenotesSize(Flat(mem, iovecs), out, headerSize);
      if iovecs != [] && v.base == lastptr {
        var last := iovecs[|iovecs| - 1];
        iovecs := iovecs[|iovecs| - 1 := IoVec(last.base, last.len + v.len)];
      } else {
        iovecs := iovecs + [v];
      }
      messageSize := messageSize + v.len;
      lastptr := v.base + v.len;
      out := out + cells;
    }

    /** get_next_indirect: makes another chunk current, reusing one kept from an earlier message if possible. */
    method NextIndirect(sizeHint: nat)
      requires Valid()
      modifies this`mem, this`indirects, this`indirect, this`indirectLeft, this`numIndirectsUsed
      ensures Valid() && numIndirectsUsed == old(numIndirectsUsed) + 1
      ensures indirectLeft >= CHUNK_SIZE
      ensures old(numIndirectsUsed) == |old(indirects)| ==> indirectLeft >= sizeHint
    {
      var max := numIndirectsUsed;
      if max >= |indirects| {
        var newSize := CHUNK_SIZE;
        if sizeHint != 0 {
          newSize := RoundUp8(sizeHint);
          if newSize < CHUNK_SIZE {
            newSize := CHUNK_SIZE;
          }
        }
        NewChunk(newSize);
      }
      UseChunk();
    }

    /** A chunk that no earlier message has used. */
    method NewChunk(size: nat)
      requires Valid() && numIndirectsUsed == |indirects| && size >= CHUNK_SIZE
      modifies this`mem, this`indirects
      ensures Valid() && |indirects| == |old(indirects)| + 1 && indirects[|old(indirects)|].size == size
    {
      hide MarkOk, ChunksOk, AllApart, Denotes, Flat;
      var ptr := Align(|mem|, 8);
      var added := AnyBytes(ptr + size - |mem|);
      ghost var c := Chunk(ptr, size);
      FlatLonger(mem, added, iovecs);
      ChunksNew(|mem|, Current(), indirects, numIndirectsUsed, c, |mem| + |added|);
      VecsNew(mem, iovecs, indirects, numIndirectsUsed, c);
      forall a | a in marks
        ensures MarkOk(a, marks[a] - headerSize, iovecs, Current(), indirects + [c], numIndirectsUsed)
      {
        MarkNewChunk(a, marks[a] - headerSize, iovecs, Current(), indirects, numIndirectsUsed, c, |mem|);
      }
      mem := mem + added;
      indirects := indirects + [Chunk(ptr, size)];
    }

    method UseChunk()
      requires Valid() && numIndirectsUsed < |indirects|
      modifies this`indirect, this`indirectLeft, this`numIndirectsUsed
      ensures Valid() && numIndirectsUsed == old(numIndirectsUsed) + 1
      ensures indirectLeft == indirects[old(numIndirectsUsed)].size >= CHUNK_SIZE
    {
      hide MarkOk, Flat, Denotes, AllApart, AllInBounds;
      forall a | a in marks
        ensures MarkOk(a, marks[a] - headerSize, iovecs, Area(indirects[numIndirectsUsed]), indirects, numIndirectsUsed + 1)
      {
        MarkUseChunk(a, marks[a] - headerSize, iovecs, Current(), indirects, numIndirectsUsed);
      }
      indirect := indirects[numIndirectsUsed].ptr;
      indirectLeft := indirects[numIndirectsUsed].size;
      numIndirectsUsed := numIndirectsUsed + 1;
    }

    /** Memory from the current chunk joins the message: `cells` is what the message promises about it. */
    method TakeIndirect(len: nat, ghost cells: seq<Cell>)
      requires Valid() && len <= indirectLeft && numIndirectsUsed > 0
      requires |cells| == len && forall i :: 0 <= i < len && cells[i].Data? ==> mem[indirect + i] == cells[i].b
      modifies this`iovecs, this`lastptr, this`messageSize, this`out, this`indirect, this`indirectLeft
      ensures Valid() && out == old(out) + cells
      ensures AllApart(old(iovecs), IoVec(old(indirect), len))
      ensures Held(iovecs, old(indirect), |old(out)| - headerSize, len)
      ensures indirect == old(indirect) + len && indirectLeft == old(indirectLeft) - len
    {
      hide Flat, Denotes, Held, AllApart, ChunksOk, MarkOk, Apart;
      ghost var v := IoVec(indirect, len);
      ghost var cur := IoVec(indirect + len, indirectLeft - len);
      TakeVec(|mem|, iovecs, lastptr, Current(), indirects, numIndirectsUsed, v, cur);
      forall a | a in marks
        ensures MarkOk(a, marks[a] - headerSize, AppendVec(iovecs, lastptr, v), cur, indirects, numIndirectsUsed)
      {
        MarkTake(a, marks[a] - headerSize, iovecs, lastptr, Current(), indirects, numIndirectsUsed, v, cur);
      }
      AppendVecHolds(iovecs, lastptr, v);
      DenotesLength(mem, iovecs, out, headerSize);
      AppendReal(IoVec(indirect, len), cells);
      indirect := indirect + len;
      indirectLeft := indirectLeft - len;
    }

    /** memcpy into the unclaimed part of the current chunk. */
    method CopyIn(offset: nat, data: seq<Byte>)
      requires Valid() && offset + |data| <= indirectLeft && numIndirectsUsed > 0
      modifies this`mem
      ensures Valid() && indirect + offset + |data| <= |mem| == |old(mem)|
      ensures forall i :: 0 <= i < |data| ==> mem[indirect + offset + i] == data[i]
      ensures forall a :: 0 <= a < indirect + offset ==> mem[a] == old(mem)[a]
    {
      hide Flat, Denotes, AllApart, ChunksOk, MarkOk;
      CurrentInBounds(|mem|, Current(), indirects, numIndirectsUsed);
      FlatWrite(mem, iovecs, Current(), indirect + offset, data);
      mem := Write(mem, indirect + offset, data);
    }
  }

  datatype Source = Null | Bytes(bytes: seq<Byte>)

  lemma ChunksShrunk(size: nat, cur: IoVec, chunks: seq<Chunk>, used: nat, chunks': seq<Chunk>)
    requires ChunksOk(size, cur, chunks, used) && |chunks'| == |chunks|
    requires forall k :: 0 <= k < used ==> chunks'[k] == Chunk(chunks[k].ptr, CHUNK_SIZE)
    requires forall k :: used <= k < |chunks| ==> chunks'[k] == chunks[k]
    ensures ChunksOk(size, IoVec(0, 0), chunks', 0)
  {
    forall i | 0 <= i < |chunks| ensures chunks'[i].ptr == chunks[i].ptr && CHUNK_SIZE <= chunks'[i].size <= chunks[i].size {
    }
    forall i, j | 0 <= i < j < |chunks'| ensures Apart(Area(chunks'[i]), Area(chunks'[j])) {
      assert Apart(Area(chunks[i]), Area(chunks[j]));
    }
  }

  lemma ChunksLonger(size: nat, cur: IoVec, chunks: seq<Chunk>, used: nat, more: nat)
    requires ChunksOk(size, cur, chunks, used)
    ensures ChunksOk(size + more, cur, chunks, used)
    ensures forall i :: 0 <= i < |chunks| ==> Apart(IoVec(size, more), Area(chunks[i]))
  {
    forall i | 0 <= i < |chunks| ensures Apart(IoVec(size, more), Area(chunks[i])) {
      assert chunks[i].ptr + chunks[i].size <= size;
    }
  }

  lemma ForeignVecs(size: nat, vecs: seq<IoVec>, lastptr: int, cur: IoVec, chunks: seq<Chunk>, used: nat, v: IoVec)
    requires ChunksOk(size, cur, chunks, used)
    requires vecs != [] ==> lastptr == vecs[|vecs| - 1].base + vecs[|vecs| - 1].len
    requires AllApart(vecs, cur) && forall i :: used <= i < |chunks| ==> AllApart(vecs, Area(chunks[i]))
    requires forall i :: 0 <= i < |chunks| ==> Apart(v, Area(chunks[i]))
    ensures AllApart(AppendVec(vecs, lastptr, v), cur)
    ensures forall i :: used <= i < |chunks| ==> AllApart(AppendVec(vecs, lastptr, v), Area(chunks[i]))
  {
    if used > 0 {
      assert Apart(v, Area(chunks[used - 1]));
    }
    AppendVecApart(vecs, lastptr, v, cur);
    forall i | used <= i < |chunks| ensures AllApart(AppendVec(vecs, lastptr, v), Area(chunks[i])) {
      AppendVecApart(vecs, lastptr, v, Area(chunks[i]));
    }
  }

  lemma ForeignMark(a: nat, p: int, vecs: seq<IoVec>, lastptr: int, cur: IoVec, chunks: seq<Chunk>, used: nat, v: IoVec)
    requires MarkOk(a, p, vecs, cur, chunks, used)
    requires vecs != [] ==> lastptr == vecs[|vecs| - 1].base + vecs[|vecs| - 1].len
    requires forall i :: 0 <= i < |chunks| ==> Apart(v, Area(chunks[i]))
    ensures MarkOk(a, p, AppendVec(vecs, lastptr, v), cur, chunks, used)
  {
    var i :| 0 <= i < |chunks| && Covers(chunks[i], a);
    assert Apart(v, Area(chunks[i]));
    MarkAppend(a, p, vecs, lastptr, cur, chunks, used, v, cur);
  }

  lemma MarkNotCurrent(a: nat, p: int, vecs: seq<IoVec>, cur: IoVec, chunks: seq<Chunk>, used: nat)
    requires MarkOk(a, p, vecs, cur, chunks, used) && cur.len >= 4
    ensures a != cur.base
  {
  }

  lemma NewMark(size: nat, vecs: seq<IoVec>, cur: IoVec, cur': IoVec, chunks: seq<Chunk>, used: nat, a: nat, p: nat)
    requires ChunksOk(size, cur, chunks, used) && used > 0 && cur.len >= 4 && a == cur.base
    requires cur' == IoVec(cur.base + 4, cur.len - 4) && Held(vecs, a, p, 4)
    ensures MarkOk(a, p, vecs, cur', chunks, used)
  {
    assert Covers(chunks[used - 1], a);
    forall i | used <= i < |chunks| ensures Apart(IoVec(a, 4), Area(chunks[i])) {
      assert Apart(Area(chunks[used - 1]), Area(chunks[i]));
    }
  }

  lemma MarkHeld(size: nat, a: nat, p: int, vecs: seq<IoVec>, cur: IoVec, chunks: seq<Chunk>, used: nat)
    requires MarkOk(a, p, vecs, cur, chunks, used) && ChunksOk(size, cur, chunks, used)
    ensures p >= 0 && Held(vecs, a, p, 4) && a + 4 <= size
  {
    var i :| 0 <= i < |chunks| && Covers(chunks[i], a);
    assert chunks[i].ptr + chunks[i].size <= size;
  }

  lemma CurrentInBounds(size: nat, cur: IoVec, chunks: seq<Chunk>, used: nat)
    requires ChunksOk(size, cur, chunks, used) && used > 0
    ensures cur.base + cur.len <= size
  {
    assert chunks[used - 1].ptr + chunks[used - 1].size <= size;
  }

  lemma TakeVec(size: nat, vecs: seq<IoVec>, lastptr: int, cur: IoVec, chunks: seq<Chunk>, used: nat, v: IoVec, cur': IoVec)
    requires ChunksOk(size, cur, chunks, used) && used > 0
    requires vecs != [] ==> lastptr == vecs[|vecs| - 1].base + vecs[|vecs| - 1].len
    requires AllApart(vecs, cur) && forall i :: used <= i < |chunks| ==> AllApart(vecs, Area(chunks[i]))
    requires v.base == cur.base && v.len <= cur.len && cur' == IoVec(cur.base + v.len, cur.len - v.len)
    ensures v.base + v.len <= size && AllApart(vecs, v) && ChunksOk(size, cur', chunks, used)
    ensures AllApart(AppendVec(vecs, lastptr, v), cur')
    ensures forall i :: used <= i < |chunks| ==> AllApart(AppendVec(vecs, lastptr, v), Area(chunks[i]))
  {
    CurrentInBounds(size, cur, chunks, used);
    AppendVecApart(vecs, lastptr, v, cur');
    forall i | used <= i < |chunks| ensures AllApart(AppendVec(vecs, lastptr, v), Area(chunks[i])) {
      assert Apart(Area(chunks[used - 1]), Area(chunks[i]));
      AppendVecApart(vecs, lastptr, v, Area(chunks[i]));
    }
  }

  lemma MarkTake(a: nat, p: int, vecs: seq<IoVec>, lastptr: int, cur: IoVec, chunks: seq<Chunk>, used: nat, v: IoVec, cur': IoVec)
    requires MarkOk(a, p, vecs, cur, chunks, used)
    requires vecs != [] ==> lastptr == vecs[|vecs| - 1].base + vecs[|vecs| - 1].len
    requires v.base == cur.base && v.len <= cur.len && cur' == IoVec(cur.base + v.len, cur.len - v.len)
    ensures MarkOk(a, p, AppendVec(vecs, lastptr, v), cur', chunks, used)
  {
    MarkAppend(a, p, vecs, lastptr, cur, chunks, used, v, cur');
  }

  lemma FlatWrite(mem: seq<Byte>, vecs: seq<IoVec>, cur: IoVec, a: nat, s: seq<Byte>)
    requires AllInBounds(mem, vecs) && AllApart(vecs, cur) && cur.base <= a && a + |s| <= cur.base + cur.len <= |mem|
    ensures AllInBounds(Write(mem, a, s), vecs) && Flat(Write(mem, a, s), vecs) == Flat(mem, vecs)
  {
    FlatFrame(mem, Write(mem, a, s), vecs, cur);
  }

  lemma DenotesLength(mem: seq<Byte>, vecs: seq<IoVec>, out: seq<Cell>, h: nat)
    requires AllInBounds(mem, vecs) && Denotes(Flat(mem, vecs), out, h)
    ensures Length(vecs) == |out| - h
  {
    FlatLength(mem, vecs);
  }

  function RoundUp8(n: nat): (r: nat)
    ensures r >= n
  {
    (n + 7) / 8 * 8
  }

  /** malloc does not say what is in the memory. */
  method AnyBytes(n: nat) returns (s: seq<Byte>)
    ensures |s| == n
  {
    s := [];
    while |s| < n
      invariant |s| <= n
    {
      var b: Byte := *;
      s := s + [b];
    }
  }

  // ----- whole messages -----

  /** One call on the buffer. `Reserve` is giop_send_buffer_append_aligned without data; `Fill` writes
      over the n-th reserved stretch. */
  datatype Op =
    | OpAppend(bytes: seq<Byte>)
    | OpAlign(boundary: nat)
    | OpAligned(bytes: seq<Byte>)
    | OpString(str: CStr)
    | Reserve
    | Fill(n: nat, bytes: seq<Byte>)

  /** The flat message a run of calls asks for, and the positions it has reserved. */
  datatype Message = Message(out: seq<Cell>, reserved: seq<nat>)

  function AlignCells(out: seq<Cell>, boundary: nat): seq<Cell>
    requires boundary > 0
  {
    out + Pads(Align(|out|, boundary) - |out|)
  }

  predicate OpOk(m: Message, op: Op) {
    match op
    case OpAppend(bytes) => bytes != []
    case OpAlign(boundary) => 0 < boundary <= CHUNK_SIZE
    case OpAligned(bytes) => 0 < |bytes| <= CHUNK_SIZE
    case OpString(_) => true
    case Reserve => true
    case Fill(n, bytes) => n < |m.reserved| && |bytes| == 4 && m.reserved[n] + 4 <= |m.out|
  }

  function Apply(m: Message, op: Op, order: Order): Message
    requires OpOk(m, op)
  {
    match op
    case OpAppend(bytes) => m.(out := m.out + Cells(bytes))
    case OpAlign(boundary) => m.(out := AlignCells(m.out, boundary))
    case OpAligned(bytes) => m.(out := AlignCells(m.out, |bytes|) + Cells(bytes))
    case OpString(str) => m.(out := AlignCells(m.out, 4) + Cells(Store(order, 4, |str| + 1)) + Cells(str + [0]))
    case Reserve =>
      var out := AlignCells(m.out, 4) + Pads(4);
      Message(out, m.reserved + [|out| - 4])
    case Fill(n, bytes) => m.(out := m.out[..m.reserved[n]] + Cells(bytes) + m.out[m.reserved[n] + 4..])
  }

  ghost predicate RunOk(m: Message, ops: seq<Op>, order: Order)
    decreases |ops|
  {
    ops == [] || (OpOk(m, ops[0]) && RunOk(Apply(m, ops[0], order), ops[1..], order))
  }

  ghost function ApplyAll(m: Message, ops: seq<Op>, order: Order): Message
    requires RunOk(m, ops, order)
    decreases |ops|
  {
    if ops == [] then m else ApplyAll(Apply(m, ops[0], order), ops[1..], order)
  }

  /** The addresses of the reserved stretches are live markers. */
  ghost predicate MarksMatch(marks: map<nat, nat>, addrs: seq<nat>, reserved: seq<nat>) {
    |addrs| == |reserved| && forall i :: 0 <= i < |addrs| ==> addrs[i] in marks && marks[addrs[i]] == reserved[i]
  }

  /** Any run of calls on a started message: what writev sends is the flat message, and the size in the
      header is its length. */
  method RunMessage(buf: Buffer, ops: seq<Op>)
    requires exists v :: buf.Started(v)
    requires RunOk(Message(Pads(12), []), ops, buf.order)
    modifies buf
    ensures buf.Valid() && Fits(buf.Contents(), ApplyAll(Message(Pads(12), []), ops, buf.order).out)
    ensures 12 <= |buf.Contents()| == |ApplyAll(Message(Pads(12), []), ops, buf.order).out|
    ensures 12 <= |buf.Contents()| < 0x1_0000_0000 + 12
         ==> Load(buf.order, buf.Contents()[8..12]) == |buf.Contents()| - 12
  {
    var addrs: seq<nat> := [];
    ghost var m := Message(Pads(12), []);
    var k := 0;
    while k < |ops|
      invariant k <= |ops| && buf.Valid() && buf.headerSize == 12 && buf.out == m.out
      invariant MarksMatch(buf.marks, addrs, m.reserved)
      invariant RunOk(m, ops[k..], buf.order)
      invariant ApplyAll(m, ops[k..], buf.order) == ApplyAll(Message(Pads(12), []), ops, buf.order)
    {
      assert ops[k..][0] == ops[k] && ops[k..][1..] == ops[k + 1..];
      ghost var next := Apply(m, ops[k], buf.order);
      addrs := Perform(buf, ops[k], addrs, m);
      m := next;
      k := k + 1;
    }
    assert ops[k..] == [];
    buf.ContentsFit();
  }

  method Perform(buf: Buffer, op: Op, addrs0: seq<nat>, ghost m: Message) returns (addrs: seq<nat>)
    requires buf.Valid() && buf.out == m.out && OpOk(m, op) && MarksMatch(buf.marks, addrs0, m.reserved)
    modifies buf
    ensures buf.Valid() && buf.headerSize == old(buf.headerSize)
    ensures buf.out == Apply(m, op, buf.order).out && MarksMatch(buf.marks, addrs, Apply(m, op, buf.order).reserved)
  {
    hide Buffer.Valid;
    addrs := addrs0;
    match op {
      case OpAppend(bytes) => buf.AppendBytes(bytes);
      case OpAlign(boundary) => buf.AlignTo(boundary);
      case OpAligned(bytes) => var _ := buf.AppendAligned(Bytes(bytes), |bytes|);
      case OpString(str) => buf.AppendString(str);
      case Reserve =>
        var p := buf.AppendAligned(Null, 4);
        addrs := addrs + [p];
      case Fill(n, bytes) => buf.FillIn(addrs[n], bytes);
    }
  }
}
