/** Conversions between host and network byte order, on hosts of either order. */
module Endian {
  type byte = bv8

  /** Byte order of the machine. */
  datatype Host = Little | Big

  // ---------------------------------------------------------------- reference: bytes of a value

  function Byte16(v: bv16, k: bv16): byte requires k < 2 { ((v >> (k * 8)) & 0xFF) as bv8 }
  function Byte32(v: bv32, k: bv32): byte requires k < 4 { ((v >> (k * 8)) & 0xFF) as bv8 }
  function Byte64(v: bv64, k: bv64): byte requires k < 8 { ((v >> (k * 8)) & 0xFF) as bv8 }

  /** Network order: most significant byte first (Appendix B of RFC 791). */
  function Wire16(v: bv16): (w: seq<byte>) ensures |w| == 2 { [Byte16(v, 1), Byte16(v, 0)] }
  function Wire32(v: bv32): (w: seq<byte>) ensures |w| == 4 { [Byte32(v, 3), Byte32(v, 2), Byte32(v, 1), Byte32(v, 0)] }
  function Wire64(v: bv64): (w: seq<byte>) ensures |w| == 8 {
    [Byte64(v, 7), Byte64(v, 6), Byte64(v, 5), Byte64(v, 4), Byte64(v, 3), Byte64(v, 2), Byte64(v, 1), Byte64(v, 0)]
  }

  function Reverse(s: seq<byte>): (r: seq<byte>)
    ensures |r| == |s|
  {
    if s == [] then [] else Reverse(s[1..]) + [s[0]]
  }

  // ---------------------------------------------------------------- what the host does

  /** Bytes of an object in memory, lowest address first. */
  function Memory16(h: Host, v: bv16): seq<byte> { if h.Big? then Wire16(v) else [Byte16(v, 0), Byte16(v, 1)] }
  function Memory32(h: Host, v: bv32): seq<byte> {
    if h.Big? then Wire32(v) else [Byte32(v, 0), Byte32(v, 1), Byte32(v, 2), Byte32(v, 3)]
  }
  function Memory64(h: Host, v: bv64): seq<byte> {
    if h.Big? then Wire64(v)
    else [Byte64(v, 0), Byte64(v, 1), Byte64(v, 2), Byte64(v, 3), Byte64(v, 4), Byte64(v, 5), Byte64(v, 6), Byte64(v, 7)]
  }

  /** The value whose bytes, most significant first, are the arguments. */
  function Compose16(a: byte, b: byte): bv16 { ((a as bv16) << 8) | (b as bv16) }
  function Compose32(a: byte, b: byte, c: byte, d: byte): bv32 {
    ((a as bv32) << 24) | ((b as bv32) << 16) | ((c as bv32) << 8) | (d as bv32)
  }
  function Compose64(hi: bv32, lo: bv32): bv64 { ((hi as bv64) << 32) | (lo as bv64) }

  /** Reading an integer object whose bytes lie at increasing addresses. */
  function Load16(h: Host, m: seq<byte>): bv16
    requires |m| == 2
  {
    if h.Big? then Compose16(m[0], m[1]) else Compose16(m[1], m[0])
  }
  function Load32(h: Host, m: seq<byte>): bv32
    requires |m| == 4
  {
    if h.Big? then Compose32(m[0], m[1], m[2], m[3]) else Compose32(m[3], m[2], m[1], m[0])
  }
  function Load64(h: Host, m: seq<byte>): bv64
    requires |m| == 8
  {
    if h.Big? then Compose64(Compose32(m[0], m[1], m[2], m[3]), Compose32(m[4], m[5], m[6], m[7]))
    else Compose64(Compose32(m[7], m[6], m[5], m[4]), Compose32(m[3], m[2], m[1], m[0]))
  }

  function Swap16(v: bv16): bv16 { (v << 8) | (v >> 8) }
  function Swap32(v: bv32): bv32 { (v << 24) | ((v & 0xFF00) << 8) | ((v >> 8) & 0xFF00) | (v >> 24) }

  /** The two-halves form: swap each 32-bit half and exchange the halves. */
  function Swap64(v: bv64): bv64 {
    ((Swap32((v & 0xFFFF_FFFF) as bv32) as bv64) << 32) | (Swap32((v >> 32) as bv32) as bv64)
  }

  function HostToNetwork16(h: Host, v: bv16): bv16 { if h.Big? then v else Swap16(v) }
  function HostToNetwork32(h: Host, v: bv32): bv32 { if h.Big? then v else Swap32(v) }
  function HostToNetwork64(h: Host, v: bv64): bv64 { if h.Big? then v else Swap64(v) }
  function NetworkToHost16(h: Host, v: bv16): bv16 { if h.Big? then v else Swap16(v) }
  function NetworkToHost32(h: Host, v: bv32): bv32 { if h.Big? then v else Swap32(v) }
  function NetworkToHost64(h: Host, v: bv64): bv64 { if h.Big? then v else Swap64(v) }

  // ---------------------------------------------------------------- bit-level facts

  lemma Bits16(v: bv16, a: byte, b: byte)
    ensures Byte16(Swap16(v), 0) == Byte16(v, 1) && Byte16(Swap16(v), 1) == Byte16(v, 0)
    ensures Compose16(Byte16(v, 1), Byte16(v, 0)) == v
    ensures Byte16(Compose16(a, b), 1) == a && Byte16(Compose16(a, b), 0) == b
    ensures Swap16(Compose16(b, a)) == Compose16(a, b)
  {
  }

  lemma Bits32(v: bv32, a: byte, b: byte, c: byte, d: byte)
    ensures Byte32(Swap32(v), 0) == Byte32(v, 3) && Byte32(Swap32(v), 1) == Byte32(v, 2)
    ensures Byte32(Swap32(v), 2) == Byte32(v, 1) && Byte32(Swap32(v), 3) == Byte32(v, 0)
    ensures Compose32(Byte32(v, 3), Byte32(v, 2), Byte32(v, 1), Byte32(v, 0)) == v
    ensures Byte32(Compose32(a, b, c, d), 3) == a && Byte32(Compose32(a, b, c, d), 2) == b
    ensures Byte32(Compose32(a, b, c, d), 1) == c && Byte32(Compose32(a, b, c, d), 0) == d
    ensures Swap32(Compose32(d, c, b, a)) == Compose32(a, b, c, d)
  {
  }

  lemma Recompose64(v: bv64)
    ensures Compose64(Compose32(Byte64(v, 7), Byte64(v, 6), Byte64(v, 5), Byte64(v, 4)),
                      Compose32(Byte64(v, 3), Byte64(v, 2), Byte64(v, 1), Byte64(v, 0))) == v
  {
  }

  lemma Halves64(hi: bv32, lo: bv32)
    ensures Byte64(Compose64(hi, lo), 7) == Byte32(hi, 3) && Byte64(Compose64(hi, lo), 6) == Byte32(hi, 2)
    ensures Byte64(Compose64(hi, lo), 5) == Byte32(hi, 1) && Byte64(Compose64(hi, lo), 4) == Byte32(hi, 0)
    ensures Byte64(Compose64(hi, lo), 3) == Byte32(lo, 3) && Byte64(Compose64(hi, lo), 2) == Byte32(lo, 2)
    ensures Byte64(Compose64(hi, lo), 1) == Byte32(lo, 1) && Byte64(Compose64(hi, lo), 0) == Byte32(lo, 0)
    ensures Swap64(Compose64(hi, lo)) == Compose64(Swap32(lo), Swap32(hi))
  {
  }

  lemma Bits64(v: bv64)
    ensures Byte64(Swap64(v), 0) == Byte64(v, 7) && Byte64(Swap64(v), 1) == Byte64(v, 6)
    ensures Byte64(Swap64(v), 2) == Byte64(v, 5) && Byte64(Swap64(v), 3) == Byte64(v, 4)
    ensures Byte64(Swap64(v), 4) == Byte64(v, 3) && Byte64(Swap64(v), 5) == Byte64(v, 2)
    ensures Byte64(Swap64(v), 6) == Byte64(v, 1) && Byte64(Swap64(v), 7) == Byte64(v, 0)
    ensures Swap64(Swap64(v)) == v
  {
    var hi, lo := (v >> 32) as bv32, (v & 0xFFFF_FFFF) as bv32;
    assert Compose64(hi, lo) == v;
    Halves64(hi, lo);
    Halves64(Swap32(lo), Swap32(hi));
    Bits32(hi, 0, 0, 0, 0);
    Bits32(lo, 0, 0, 0, 0);
    SwapTwice32(hi);
    SwapTwice32(lo);
    hide Byte64, Byte32, Swap64, Swap32, Compose64, Compose32;
  }

  lemma SwapTwice32(v: bv32)
    ensures Swap32(Swap32(v)) == v
  {
  }

  // ---------------------------------------------------------------- what the conversions mean

  lemma ReverseEight(m: seq<byte>)
    requires |m| == 8
    ensures Reverse(m) == [m[7], m[6], m[5], m[4], m[3], m[2], m[1], m[0]]
  {
    var m1, m2, m3, m4 := m[1..], m[2..], m[3..], m[4..];
    assert m1[1..] == m2 && m2[1..] == m3 && m3[1..] == m4;
    var m5, m6, m7 := m[5..], m[6..], m[7..];
    assert m4[1..] == m5 && m5[1..] == m6 && m6[1..] == m7;
    assert Reverse(m7) == [m[7]];
    assert Reverse(m6) == [m[7], m[6]];
    assert Reverse(m5) == [m[7], m[6], m[5]];
    assert Reverse(m4) == [m[7], m[6], m[5], m[4]];
    assert Reverse(m3) == [m[7], m[6], m[5], m[4], m[3]];
    assert Reverse(m2) == [m[7], m[6], m[5], m[4], m[3], m[2]];
    assert Reverse(m1) == [m[7], m[6], m[5], m[4], m[3], m[2], m[1]];
  }

  /** The two-halves form is the reversal of all eight bytes, and undoes itself. */
  lemma Swap64Reverses(v: bv64)
    ensures Memory64(Little, Swap64(v)) == Reverse(Memory64(Little, v))
    ensures Swap64(Swap64(v)) == v
  {
    Bits64(v);
    hide Byte64, Swap64;
    ReverseEight(Memory64(Little, v));
  }

  /** On either host the object handed to `write` is the network-order encoding. */
  lemma WireFormat(h: Host, v16: bv16, v32: bv32, v64: bv64)
    ensures Memory16(h, HostToNetwork16(h, v16)) == Wire16(v16)
    ensures Memory32(h, HostToNetwork32(h, v32)) == Wire32(v32)
    ensures Memory64(h, HostToNetwork64(h, v64)) == Wire64(v64)
  {
    Bits16(v16, 0, 0);
    Bits32(v32, 0, 0, 0, 0);
    Bits64(v64);
    hide Byte16, Byte32, Byte64, Swap16, Swap32, Swap64;
  }

  /** On either host the value read is the one whose network-order encoding lies in memory. */
  lemma Read16(h: Host, m: seq<byte>)
    requires |m| == 2
    ensures Wire16(NetworkToHost16(h, Load16(h, m))) == m
  {
    Bits16(0, m[0], m[1]);
    hide Byte16, Swap16, Compose16;
  }

  lemma Read32(h: Host, m: seq<byte>)
    requires |m| == 4
    ensures Wire32(NetworkToHost32(h, Load32(h, m))) == m
  {
    Bits32(0, m[0], m[1], m[2], m[3]);
    hide Byte32, Swap32, Compose32;
  }

  lemma Read64(h: Host, m: seq<byte>)
    requires |m| == 8
    ensures Wire64(NetworkToHost64(h, Load64(h, m))) == m
  {
    var v := Compose64(Compose32(m[0], m[1], m[2], m[3]), Compose32(m[4], m[5], m[6], m[7]));
    Bits32(0, m[0], m[1], m[2], m[3]);
    Bits32(0, m[4], m[5], m[6], m[7]);
    Halves64(Compose32(m[0], m[1], m[2], m[3]), Compose32(m[4], m[5], m[6], m[7]));
    Halves64(Compose32(m[7], m[6], m[5], m[4]), Compose32(m[3], m[2], m[1], m[0]));
    assert NetworkToHost64(h, Load64(h, m)) == v by {
      hide Byte64, Byte32, Swap64, Swap32, Compose64, Compose32;
    }
    assert Byte64(v, 7) == m[0] && Byte64(v, 6) == m[1] && Byte64(v, 5) == m[2] && Byte64(v, 4) == m[3];
    assert Byte64(v, 3) == m[4] && Byte64(v, 2) == m[5] && Byte64(v, 1) == m[6] && Byte64(v, 0) == m[7];
    hide Byte64, Byte32, Swap64, Swap32, Compose64, Compose32, Load64, NetworkToHost64;
  }

  /** Different values have different encodings, so reading back what was written gives it back. */
  lemma Injective16(v: bv16, w: bv16)
    requires Wire16(v) == Wire16(w)
    ensures v == w
  {
    Bits16(v, 0, 0);
    Bits16(w, 0, 0);
    hide Byte16, Swap16, Compose16;
    assert Wire16(v)[0] == Wire16(w)[0] && Wire16(v)[1] == Wire16(w)[1];
  }

  lemma Injective32(v: bv32, w: bv32)
    requires Wire32(v) == Wire32(w)
    ensures v == w
  {
    Bits32(v, 0, 0, 0, 0);
    Bits32(w, 0, 0, 0, 0);
    hide Byte32, Swap32, Compose32;
    assert forall i | 0 <= i < 4 :: Wire32(v)[i] == Wire32(w)[i];
    assert Wire32(v)[0] == Wire32(w)[0] && Wire32(v)[1] == Wire32(w)[1];
    assert Wire32(v)[2] == Wire32(w)[2] && Wire32(v)[3] == Wire32(w)[3];
  }

  lemma Injective64(v: bv64, w: bv64)
    requires Wire64(v) == Wire64(w)
    ensures v == w
  {
    Recompose64(v);
    Recompose64(w);
    hide Byte64, Swap64, Compose64, Compose32;
    assert Wire64(v)[0] == Wire64(w)[0] && Wire64(v)[1] == Wire64(w)[1];
    assert Wire64(v)[2] == Wire64(w)[2] && Wire64(v)[3] == Wire64(w)[3];
    assert Wire64(v)[4] == Wire64(w)[4] && Wire64(v)[5] == Wire64(w)[5];
    assert Wire64(v)[6] == Wire64(w)[6] && Wire64(v)[7] == Wire64(w)[7];
  }

  /** Which byte comes first: the most significant one. */
  lemma MostSignificantFirst()
    ensures Wire16(0x0102) == [1, 2]
    ensures Wire32(0x0102_0304) == [1, 2, 3, 4]
    ensures Wire64(0x0102_0304_0506_0708) == [1, 2, 3, 4, 5, 6, 7, 8]
  {
  }
}
