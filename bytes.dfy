/**
 * Fixed-width unsigned integers and the byte orders used on the wire.
 * The netlink envelope is written and read with Go's binary.LittleEndian;
 * attribute payloads are read with binary.BigEndian. Readers take the
 * offset at which the field starts.
 */
module Bytes {

  type u8 = x: int | 0 <= x < 0x100
  type u16 = x: int | 0 <= x < 0x1_0000
  type u32 = x: int | 0 <= x < 0x1_0000_0000
  type u64 = x: int | 0 <= x < 0x1_0000_0000_0000_0000
  type i64 = x: int | -0x8000_0000_0000_0000 <= x < 0x8000_0000_0000_0000

  // ---- little endian (binary.LittleEndian) ----

  function LE16(v: u16): (b: seq<u8>)
    ensures |b| == 2
  {
    [v % 0x100, v / 0x100]
  }

  function LE32(v: u32): (b: seq<u8>)
    ensures |b| == 4
  {
    LE16(v % 0x1_0000) + LE16(v / 0x1_0000)
  }

  function ReadLE16(b: seq<u8>, at: nat): u16
    requires at + 2 <= |b|
  {
    b[at] as int + 0x100 * b[at + 1] as int
  }

  function ReadLE32(b: seq<u8>, at: nat): u32
    requires at + 4 <= |b|
  {
    ReadLE16(b, at) + 0x1_0000 * ReadLE16(b, at + 2)
  }

  // ---- big endian (binary.BigEndian) ----

  function BE16(v: u16): (b: seq<u8>)
    ensures |b| == 2
  {
    [v / 0x100, v % 0x100]
  }

  function BE32(v: u32): (b: seq<u8>)
    ensures |b| == 4
  {
    BE16(v / 0x1_0000) + BE16(v % 0x1_0000)
  }

  function BE64(v: u64): (b: seq<u8>)
    ensures |b| == 8
  {
    BE32(v / 0x1_0000_0000) + BE32(v % 0x1_0000_0000)
  }

  function ReadBE16(b: seq<u8>, at: nat): u16
    requires at + 2 <= |b|
  {
    0x100 * b[at] as int + b[at + 1] as int
  }

  function ReadBE32(b: seq<u8>, at: nat): u32
    requires at + 4 <= |b|
  {
    0x1_0000 * ReadBE16(b, at) + ReadBE16(b, at + 2)
  }

  function ReadBE64(b: seq<u8>, at: nat): u64
    requires at + 8 <= |b|
  {
    0x1_0000_0000 * ReadBE32(b, at) + ReadBE32(b, at + 4)
  }

  // ---- two's complement view of 64 bits (Go's int64) ----

  function AsInt64(u: u64): (x: i64)
    ensures x % 0x1_0000_0000_0000_0000 == u
  {
    if u < 0x8000_0000_0000_0000 then u else u - 0x1_0000_0000_0000_0000
  }

  function AsUint64(x: i64): (u: u64)
    ensures AsInt64(u) == x
  {
    if x >= 0 then x else x + 0x1_0000_0000_0000_0000
  }

  /** The byte swap of a 16-bit value (htons on a little-endian host). */
  function Htons(v: u16): (r: u16)
    ensures LE16(r) == BE16(v)
  {
    (v % 0x100) * 0x100 + v / 0x100
  }

  /** What follows a prefix after it is dropped. */
  lemma DropFront<T>(a: seq<T>, b: seq<T>)
    ensures (a + b)[|a|..] == b
  {
  }

  lemma AppendAssoc<T>(a: seq<T>, b: seq<T>, c: seq<T>)
    ensures a + (b + c) == a + b + c
  {
  }

  // ---- round trips: a field written at offset |a| reads back at that offset ----

  lemma LE16At(a: seq<u8>, v: u16, rest: seq<u8>)
    ensures ReadLE16(a + LE16(v) + rest, |a|) == v
  {
    var b := a + LE16(v) + rest;
    assert b[|a|] == v % 0x100 && b[|a| + 1] == v / 0x100;
  }

  lemma {:induction false} LE32At(a: seq<u8>, v: u32, rest: seq<u8>)
    ensures ReadLE32(a + LE32(v) + rest, |a|) == v
  {
    var lo, hi := LE16(v % 0x1_0000), LE16(v / 0x1_0000);
    assert a + LE32(v) + rest == a + lo + hi + rest;
    LE16At(a, v % 0x1_0000, hi + rest);
    assert a + lo + hi + rest == a + lo + (hi + rest);
    LE16At(a + lo, v / 0x1_0000, rest);
  }

  lemma BE16At(a: seq<u8>, v: u16, rest: seq<u8>)
    ensures ReadBE16(a + BE16(v) + rest, |a|) == v
  {
    var b := a + BE16(v) + rest;
    assert b[|a|] == v / 0x100 && b[|a| + 1] == v % 0x100;
  }

  lemma {:induction false} BE32At(a: seq<u8>, v: u32, rest: seq<u8>)
    ensures ReadBE32(a + BE32(v) + rest, |a|) == v
  {
    var hi, lo := BE16(v / 0x1_0000), BE16(v % 0x1_0000);
    assert a + BE32(v) + rest == a + hi + lo + rest;
    BE16At(a, v / 0x1_0000, lo + rest);
    assert a + hi + lo + rest == a + hi + (lo + rest);
    BE16At(a + hi, v % 0x1_0000, rest);
  }

  lemma {:induction false} BE64At(a: seq<u8>, v: u64, rest: seq<u8>)
    ensures ReadBE64(a + BE64(v) + rest, |a|) == v
  {
    var hi, lo := BE32(v / 0x1_0000_0000), BE32(v % 0x1_0000_0000);
    assert a + BE64(v) + rest == a + hi + lo + rest;
    BE32At(a, v / 0x1_0000_0000, lo + rest);
    assert a + hi + lo + rest == a + hi + (lo + rest);
    BE32At(a + hi, v % 0x1_0000_0000, rest);
  }

  /** A value written on its own reads back from offset 0. */
  lemma BE16Of(v: u16)
    ensures ReadBE16(BE16(v), 0) == v
  {
    BE16At([], v, []);
    assert [] + BE16(v) + [] == BE16(v);
  }

  lemma BE32Of(v: u32)
    ensures ReadBE32(BE32(v), 0) == v
  {
    BE32At([], v, []);
    assert [] + BE32(v) + [] == BE32(v);
  }

  /** Reading a little-endian 16-bit field and swapping it is reading it big-endian. */
  lemma HtonsOfLE16IsBE16(b: seq<u8>, at: nat)
    requires at + 2 <= |b|
    ensures Htons(ReadLE16(b, at)) == ReadBE16(b, at)
  {
    var lo, hi := b[at] as int, b[at + 1] as int;
    assert ReadLE16(b, at) == lo + 0x100 * hi;
    assert (lo + 0x100 * hi) % 0x100 == lo && (lo + 0x100 * hi) / 0x100 == hi;
  }

  lemma HtonsInvolution(v: u16)
    ensures Htons(Htons(v)) == v
  {
  }
}
