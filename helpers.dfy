/**
 * Round-up to a multiple of four (helpers.go). The source computes
 * `(v + 3) & mask` in unsigned arithmetic of the given width; masking off
 * the two low bits of w is w - w % 4, and the addition wraps.
 */
module Helpers {
  import opened Bytes

  function Align4_32(v: u32): (r: u32)
    ensures r % 4 == 0
    ensures v <= 0xFFFF_FFFC ==> v <= r < v + 4
    ensures v > 0xFFFF_FFFC ==> r == 0
    ensures r == v <==> v % 4 == 0
  {
    var w := (v + 3) % 0x1_0000_0000;
    w - w % 4
  }

  function Align4_16(v: u16): (r: u16)
    ensures r % 4 == 0
    ensures v <= 0xFFFC ==> v <= r < v + 4
    ensures v > 0xFFFC ==> r == 0
    ensures r == v <==> v % 4 == 0
  {
    var w := (v + 3) % 0x1_0000;
    w - w % 4
  }

  lemma Align4Idempotent(v: u32, w: u16)
    ensures Align4_32(Align4_32(v)) == Align4_32(v)
    ensures Align4_16(Align4_16(w)) == Align4_16(w)
  {
  }

  /** Below the wrap-around point the two widths agree. */
  lemma Align4WidthsAgree(v: u16)
    requires v <= 0xFFFC
    ensures Align4_16(v) == Align4_32(v)
  {
  }
}
