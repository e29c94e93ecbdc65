/** The text form of object references: `IOR:` and the bytes of an encapsulation in hexadecimal digits. */
module IorText {
  import opened Cdr
  import opened TypeCodes
  import opened SendBuffer
  import opened Ior
  import opened IorCodec

  /** num2hexdigit. */
  function HexDigit(n: nat): char
    requires n < 16
  {
    if n > 9 then 'a' + (n - 10) as char else '0' + n as char
  }

  /** g_ascii_xdigit_value: -1 for other characters. */
  function DigitValue(c: char): (v: int)
    ensures -1 <= v < 16
  {
    if '0' <= c <= '9' then (c - '0') as int
    else if 'a' <= c <= 'f' then (c - 'a') as int + 10
    else if 'A' <= c <= 'F' then (c - 'A') as int + 10
    else -1
  }

  lemma DigitBack(n: nat)
    requires n < 16
    ensures DigitValue(HexDigit(n)) == n
  {
  }

  function HexText(s: seq<Byte>): (t: string)
    ensures |t| == 2 * |s|
  {
    if s == [] then [] else [HexDigit(s[0] / 16), HexDigit(s[0] % 16)] + HexText(s[1..])
  }

  /** The byte that (v << 4) | w gives when it is cut to eight bits. */
  function TwoDigits(v: int, w: int): Byte
    requires -1 <= v < 16 && -1 <= w < 16
  {
    if w < 0 then 255 else if v < 0 then 0xF0 + w else 16 * v + w
  }

  function ParseHex(t: string): seq<Byte>
    requires |t| % 2 == 0
  {
    if t == [] then [] else [TwoDigits(DigitValue(t[0]), DigitValue(t[1]))] + ParseHex(t[2..])
  }

  /** The text up to its last hexadecimal digit. */
  function TrimText(t: string): (r: string)
    ensures r <= t
  {
    if t == [] || DigitValue(t[|t| - 1]) >= 0 then t else TrimText(t[..|t| - 1])
  }

  lemma {:induction false} ParseHexText(s: seq<Byte>)
    ensures ParseHex(HexText(s)) == s
  {
    if s != [] {
      DigitBack(s[0] / 16);
      DigitBack(s[0] % 16);
      assert HexText(s)[2..] == HexText(s[1..]);
      ParseHexText(s[1..]);
    }
  }

  lemma {:induction false} HexTextDigits(s: seq<Byte>)
    ensures forall i :: 0 <= i < |HexText(s)| ==> DigitValue(HexText(s)[i]) >= 0
  {
    if s != [] {
      DigitBack(s[0] / 16);
      DigitBack(s[0] % 16);
      HexTextDigits(s[1..]);
      assert forall i :: 2 <= i < |HexText(s)| ==> HexText(s)[i] == HexText(s[1..])[i - 2];
    }
  }

  /** Anything but digits behind the text, such as a newline, is ignored. */
  lemma {:induction false} TrimJunk(s: seq<Byte>, junk: string)
    requires forall i :: 0 <= i < |junk| ==> DigitValue(junk[i]) < 0
    ensures TrimText(HexText(s) + junk) == HexText(s)
    decreases |junk|
  {
    if junk == [] {
      HexTextDigits(s);
      assert HexText(s) + junk == HexText(s);
    } else {
      assert (HexText(s) + junk)[..|HexText(s) + junk| - 1] == HexText(s) + junk[..|junk| - 1];
      TrimJunk(s, junk[..|junk| - 1]);
    }
  }

  /** The loops of CORBA_ORB_object_to_string over the vectors of the send buffer. */
  method WriteText(mem: seq<Byte>, iovecs: seq<IoVec>) returns (out: string)
    requires AllInBounds(mem, iovecs)
    ensures out == HexText(Flat(mem, iovecs))
  {
    out := [];
    assert iovecs[..0] == [];
    for i := 0 to |iovecs|
      invariant out == HexText(Flat(mem, iovecs[..i]))
    {
      var base, len := iovecs[i].base, iovecs[i].len;
      assert InBounds(mem, iovecs[i]);
      var part := WriteBytes(mem[base..base + len]);
      HexTextConcat(Flat(mem, iovecs[..i]), mem[base..base + len]);
      assert iovecs[..i + 1][..i] == iovecs[..i];
      out := out + part;
    }
    assert iovecs[..|iovecs|] == iovecs;
  }

  lemma {:induction false} HexTextConcat(a: seq<Byte>, b: seq<Byte>)
    ensures HexText(a + b) == HexText(a) + HexText(b)
  {
    if a == [] {
      assert a + b == b;
    } else {
      assert (a + b)[1..] == a[1..] + b;
      HexTextConcat(a[1..], b);
    }
  }

  method WriteBytes(s: seq<Byte>) returns (out: string)
    ensures out == HexText(s)
  {
    out := [];
    assert s[0..] == s;
    for j := 0 to |s|
      invariant out + HexText(s[j..]) == HexText(s)
    {
      assert s[j..][1..] == s[j + 1..];
      out := out + [HexDigit(s[j] / 16), HexDigit(s[j] % 16)];
    }
    assert s[|s|..] == [];
  }

  const PREFIX: string := "IOR:"

  /** CORBA_ORB_object_to_string: the buffer is used without its header. */
  method ObjectToString(buf: Buffer, typeId: CStr, key: seq<Byte>, ps: seq<Profile>) returns (text: string, ghost sent: seq<Byte>)
    requires exists v :: buf.Started(v)
    modifies buf
    ensures text == PREFIX + HexText(sent)
    ensures Fits(sent, TextCells(buf.order, typeId, key, ps)) && |sent| == |TextCells(buf.order, typeId, key, ps)|
  {
    buf.DropHeader();
    buf.AppendBytes([OrderFlag(buf.order)]);
    assert [] + Cells([OrderFlag(buf.order)]) == Cells([OrderFlag(buf.order)]);
    MarshalObject(buf, typeId, key, ps);
    var hex := WriteText(buf.mem, buf.iovecs);
    sent := Flat(buf.mem, buf.iovecs);
    buf.ContentsFit();
    assert buf.Contents() == [] + sent == sent;
    text := PREFIX + hex;
  }

  /** What the text promises: an encapsulation with the reference. */
  ghost function TextCells(o: Order, typeId: CStr, key: seq<Byte>, ps: seq<Profile>): seq<Cell> {
    PutObject(Enc(Cells([OrderFlag(o)]), map[]), o, typeId, key, ps).out
  }

  datatype Parse = NotAnIor | NilReference | BadReference | Found(reference: Reference)

  /** The `IOR:` branch of CORBA_ORB_string_to_object. */
  method StringToObject(text: string) returns (r: Parse)
    ensures !(PREFIX <= text) ==> r == NotAnIor
    ensures PREFIX <= text ==> r == ParseReference(TrimText(text[|PREFIX|..]))
  {
    if !(PREFIX <= text) {
      return NotAnIor;
    }
    var digits := Trim(text[|PREFIX|..]);
    if |digits| % 2 != 0 {
      return NilReference;
    }
    var tmpbuf := ReadBytes(digits);
    r := DemarshalText(tmpbuf);
  }

  method Trim(s: string) returns (t: string)
    ensures t == TrimText(s)
  {
    var len := |s|;
    assert s[..len] == s;
    while len > 0 && DigitValue(s[len - 1]) < 0
      invariant len <= |s| && TrimText(s[..len]) == TrimText(s)
    {
      assert s[..len][..len - 1] == s[..len - 1];
      len := len - 1;
    }
    t := s[..len];
  }

  method ReadBytes(s: string) returns (bytes: seq<Byte>)
    requires |s| % 2 == 0
    ensures bytes == ParseHex(s)
  {
    hide DigitValue, TwoDigits;
    bytes := [];
    var i := 0;
    assert s[0..] == s;
    while i < |s|
      invariant i <= |s| && i % 2 == 0
      invariant bytes + ParseHex(s[i..]) == ParseHex(s)
    {
      assert s[i..][2..] == s[i + 2..];
      bytes := bytes + [TwoDigits(DigitValue(s[i]), DigitValue(s[i + 1]))];
      i := i + 2;
    }
    assert s[|s|..] == [];
  }

  function ParseReference(digits: string): Parse {
    if |digits| % 2 != 0 then NilReference else DemarshalText(ParseHex(digits))
  }

  /** giop_recv_buffer_use_encaps and MateCORBA_demarshal_object. */
  function DemarshalText(bytes: seq<Byte>): Parse {
    if bytes == [] then BadReference
    else
      match GetReference(Win(bytes, |bytes|, FlagOrder(bytes[0]), 0, false), Dec(1, map[], 0))
      case Fail => BadReference
      case Ok(reference, _) => Found(reference)
  }

  /** Stringifying a reference and reading the text gives the type id and the profiles, whatever follows the
      last digit. */
  lemma TextComesBack(o: Order, typeId: CStr, key: seq<Byte>, ps: seq<Profile>, sent: seq<Byte>, junk: string)
    requires ps != [] && |ps| < 0x1_0000_0000 && forall i :: 0 <= i < |ps| ==> Sendable(ps[i])
    requires Fits(sent, TextCells(o, typeId, key, ps)) && |sent| == |TextCells(o, typeId, key, ps)| < 0x1_0000_0000
    requires forall i :: 0 <= i < |junk| ==> DigitValue(junk[i]) < 0
    ensures ParseReference(TrimText(HexText(sent) + junk)) == Found(Object(typeId, SeenProfiles(ps, key)))
  {
    hide *;
    TrimJunk(sent, junk);
    ParseHexText(sent);
    TextDemarshals(o, typeId, key, ps, sent);
    EvenText(HexText(sent));
  }

  lemma EvenText(t: string)
    requires |t| % 2 == 0
    ensures ParseReference(t) == DemarshalText(ParseHex(t))
  {
  }

  lemma TextDemarshals(o: Order, typeId: CStr, key: seq<Byte>, ps: seq<Profile>, sent: seq<Byte>)
    requires ps != [] && |ps| < 0x1_0000_0000 && forall i :: 0 <= i < |ps| ==> Sendable(ps[i])
    requires Fits(sent, TextCells(o, typeId, key, ps)) && |sent| == |TextCells(o, typeId, key, ps)| < 0x1_0000_0000
    ensures DemarshalText(sent) == Found(Object(typeId, SeenProfiles(ps, key)))
  {
    hide PutObject, GetReference, Sendable, Fits, SeenProfiles, PREFIX, HexText;
    var e := Enc(Cells([OrderFlag(o)]), map[]);
    FlagFits(sent, e.out, PutObject(e, o, typeId, key, ps).out, o);
    ReadObject(Win(sent, |sent|, o, 0, false), e, typeId, key, ps, Dec(1, map[], 0));
  }

  lemma FlagFits(sent: seq<Byte>, flag: seq<Cell>, all: seq<Cell>, o: Order)
    requires flag == Cells([OrderFlag(o)]) && flag <= all && Fits(sent, all)
    ensures |sent| > 0 && FlagOrder(sent[0]) == o
  {
    assert all[0] == flag[0] == Data(OrderFlag(o));
  }

  /** The whole way: the type id and one key come back, and exactly the restorable profiles as they were. */
  lemma ReferenceComesBack(o: Order, typeId: CStr, key: seq<Byte>, ps: seq<Profile>, sent: seq<Byte>, junk: string)
    returns (seen: seq<Profile>)
    requires ps != [] && |ps| < 0x1_0000_0000 && forall i :: 0 <= i < |ps| ==> Sendable(ps[i])
    requires Fits(sent, TextCells(o, typeId, key, ps)) && |sent| == |TextCells(o, typeId, key, ps)| < 0x1_0000_0000
    requires forall i :: 0 <= i < |junk| ==> DigitValue(junk[i]) < 0
    ensures ParseReference(TrimText(HexText(sent) + junk)) == Found(Object(typeId, seen))
    ensures AbsorbAll(Sync(NoKey, true), AllKeys(seen)) == Sync(if AnyKeyed(ps) then SomeKey(key) else NoKey, true)
    ensures |seen| == |ps| && forall i :: 0 <= i < |ps| ==> (Cleared(seen[i]) == ps[i] <==> Restorable(ps[i], key))
  {
    hide ParseReference, TrimText, HexText, TextCells, Fits, Sendable, DigitValue, Restorable, Cleared, SeenProfile, AllKeys, AbsorbAll;
    TextComesBack(o, typeId, key, ps, sent, junk);
    seen := SeenProfiles(ps, key);
    KeyComesBack(ps, key);
    forall i | 0 <= i < |ps| ensures Cleared(seen[i]) == ps[i] <==> Restorable(ps[i], key) {
      ProfileComesBack(ps[i], key);
    }
  }
}
