/** Reading from a GIOP receive buffer. */
module RecvBuffer {
  import opened Cdr
  import opened TypeCodes

  /** `mem` is the memory, in which the message starts at the aligned address 0; `body` is where this
      buffer's own message or encapsulation starts. */
  class Input {
    const mem: seq<Byte>
    const body: nat
    const end: nat
    const order: Order    // announced by the flags of the message or encapsulation
    const native: Order   // the byte order of this machine
    const wide: bool      // does this machine have 64-bit pointers?
    var cur: nat

    constructor (mem: seq<Byte>, body: nat, cur: nat, end: nat, order: Order, native: Order, wide: bool)
      requires body <= cur && end <= |mem| < 0x1_0000_0000
      ensures Valid() && Window() == Win(mem, end, order, body, wide) && this.cur == cur
      ensures this.mem == mem && this.body == body && this.end == end && this.native == native && this.wide == wide
    {
      this.mem, this.body, this.end, this.order, this.native, this.wide, this.cur := mem, body, end, order, native, wide, cur;
    }

    ghost predicate Valid()
      reads this
    {
      body <= cur && end <= |mem| < 0x1_0000_0000
    }

    ghost function Window(): RawWindow {
      Win(mem, end, order, body, wide)
    }

    predicate ConversionNeeded() {
      order != native
    }

    /** CDR_get: the machine's own load, and a swap if the sender's byte order is the other one. */
    method Get(n: nat) returns (err: bool, v: nat)
      requires Valid() && n in {1, 2, 4, 8}
      modifies this
      ensures Valid() && cur >= old(cur) && (!err ==> v < Pow256(n) && cur % n == 0)
      ensures forall prior, next ::
        GetInt(Window(), n, Dec(old(cur), prior, next)) == if err then Fail else Ok(v, Dec(cur, prior, next))
    {
      hide SwapBytes, Load, Align, Pow256;
      cur := Align(cur, n);
      if cur + n > end {
        return true, 0;
      }
      NativeLoad(native, order, mem[cur..cur + n]);
      AfterAligned(cur, n);
      v := Load(native, mem[cur..cur + n]);
      if n != 1 && ConversionNeeded() {
        v := SwapBytes(n, v);
      }
      cur := cur + n;
      err := false;
    }

    /** CDR_get_const_string. */
    method GetStr() returns (err: bool, s: CStr)
      requires Valid()
      modifies this
      ensures Valid() && cur >= old(cur)
      ensures forall prior, next ::
        GetString(Window(), Dec(old(cur), prior, next)) == if err then Fail else Ok(s, Dec(cur, prior, next))
    {
      hide GetInt;
      var len;
      err, len := Get(4);
      if err {
        assert GetInt(Window(), 4, Dec(old(cur), map[], 0)) == Fail;
        return true, [];
      }
      if cur + len > end {
        return true, [];
      }
      s := CString(mem[cur..cur + len]);
      cur := cur + len;
    }
  }

  /** The machine's load, swapped when the sender's order is the other one, is the sender's integer. */
  lemma NativeLoad(native: Order, order: Order, s: seq<Byte>)
    ensures Load(order, s) == if |s| != 1 && order != native then SwapBytes(|s|, Load(native, s)) else Load(native, s)
    ensures Load(order, s) < Pow256(|s|)
  {
    FromLowBound(s);
    FromLowBound(Reverse(s));
    if order != native {
      LoadSwapped(native, order, s);
      if |s| == 1 {
        assert Reverse(s) == s;
      }
    }
  }

  lemma AfterAligned(p: nat, n: nat)
    requires n in {1, 2, 4, 8} && p % n == 0
    ensures (p + n) % n == 0
  {
  }
}
