/** The CHAN_CTRL read-modify-write of `ranging_radio_choose_channel`
    (software/firmware/src/peripherals/src/ranging.c): the register's field
    masks and offsets are header constants, so they are parameters here, and
    the update is stated over them.  The bit facts are named predicates over
    bare masks, so that each proof step either matches them or works on a
    handful of words. */
module Dw3000ChanCtrl {
  import opened Common

  /** Masks and offsets of the CHAN_CTRL register fields (header constants). */
  datatype ChanCtrlLayout = ChanCtrlLayout(rfChan: bv32, sfdMask: bv32, sfdOffset: bv32,
                                           txPcodeMask: bv32, txPcodeOffset: bv32,
                                           rxPcodeMask: bv32, rxPcodeOffset: bv32)

  /** `r` is a non-empty mask sharing no bit with `c`. */
  predicate Apart(r: bv32, c: bv32) {
    r != 0 && r & c == 0
  }

  /** Every set bit of `x` lies inside the mask `m`. */
  predicate Inside(x: bv32, m: bv32) {
    x & !m == 0
  }

  /** No bit of the mask lies below its offset, so the field can be read
      back by shifting right. */
  predicate StartsAt(mask: bv32, offset: bv32) {
    offset < 32 && (mask >> offset) << offset == mask
  }

  /** The register layout: every offset is a shift the word allows, the three
      code fields are pairwise disjoint, and the RF channel bit is a
      non-empty field apart from all of them. */
  predicate WellFormedLayout(l: ChanCtrlLayout) {
    l.sfdOffset < 32 && l.txPcodeOffset < 32 && l.rxPcodeOffset < 32 &&
    l.rxPcodeMask & l.txPcodeMask == 0 && l.rxPcodeMask & l.sfdMask == 0 &&
    l.txPcodeMask & l.sfdMask == 0 &&
    Apart(l.rfChan, l.rxPcodeMask | l.txPcodeMask | l.sfdMask)
  }

  /** `w` has the whole mask `r` set and agrees with `prev` outside `all`. */
  predicate MaskSet(r: bv32, all: bv32, prev: bv32, w: bv32) {
    w & r == r && w & !all == prev & !all
  }

  /** `w` has none of the mask `r` set and agrees with `prev` outside `all`. */
  predicate MaskClear(r: bv32, all: bv32, prev: bv32, w: bv32) {
    w & r == 0 && w & !all == prev & !all
  }

  /** Three configuration values, each shifted to its offset and cut to its
      field as `MASK & ((uint32_t)value << OFFSET)`, combined. */
  function PlacedCodes(ma: bv32, mb: bv32, mc: bv32, oa: bv32, ob: bv32, oc: bv32,
                       va: bv8, vb: bv8, vc: bv8): bv32
    requires oa < 32 && ob < 32 && oc < 32
  {
    (ma & ((va as bv32) << oa)) | (mb & ((vb as bv32) << ob)) | (mc & ((vc as bv32) << oc))
  }

  /** Within the field `mask`, the word `w` carries `value` shifted to `offset`
      (the bits of the value that do not fit the field are dropped). */
  predicate FieldHolds(mask: bv32, offset: bv32, value: bv8, w: bv32) {
    offset < 32 && w & mask == ((value as bv32) << offset) & mask
  }

  /** The three code fields of `w` hold the RX preamble code, the TX preamble
      code and the SFD type. */
  predicate CodesHeld(l: ChanCtrlLayout, rxCode: bv8, txCode: bv8, sfdType: bv8, w: bv32) {
    FieldHolds(l.rxPcodeMask, l.rxPcodeOffset, rxCode, w) &&
    FieldHolds(l.txPcodeMask, l.txPcodeOffset, txCode, w) &&
    FieldHolds(l.sfdMask, l.sfdOffset, sfdType, w)
  }

  /** A word rewritten over the code fields `c` and the RF channel mask `r`:
      on `c` it is exactly `codes`, the RF channel mask is set when `on` and
      clear otherwise, and outside the fields it keeps the bits of `prev`. */
  predicate WordProgrammed(r: bv32, c: bv32, codes: bv32, on: bool, prev: bv32, w: bv32) {
    w & c == codes &&
    (on ==> MaskSet(r, c | r, prev, w)) &&
    (!on ==> MaskClear(r, c | r, prev, w))
  }

  /** The CHAN_CTRL word after a change to `channel`: the code fields hold the
      placed RX code, TX code and SFD type, the RF channel bit is set for
      channel 9 and clear otherwise, and every other bit is as read. */
  predicate ChanCtrlProgrammed(l: ChanCtrlLayout, rxCode: bv8, txCode: bv8, sfdType: bv8,
                               channel: u8, prev: bv32, w: bv32)
    requires WellFormedLayout(l)
  {
    WordProgrammed(l.rfChan, l.rxPcodeMask | l.txPcodeMask | l.sfdMask,
                   PlacedCodes(l.rxPcodeMask, l.txPcodeMask, l.sfdMask, l.rxPcodeOffset, l.txPcodeOffset,
                               l.sfdOffset, rxCode, txCode, sfdType),
                   channel == 9, prev, w)
  }

  /** A configuration value shifted into its field and masked to it: nothing
      spills outside the field, and inside it sits the shifted value. */
  method PlaceField(mask: bv32, value: bv8, offset: bv32) returns (f: bv32)
    requires offset < 32
    ensures f == mask & ((value as bv32) << offset)
    ensures Inside(f, mask) && FieldHolds(mask, offset, value, f)
  {
    f := mask & ((value as bv32) << offset);
  }

  /** The preamble codes and SFD type of the configuration placed in their
      fields and combined: the result lies within the code fields. */
  method PlaceCodes(l: ChanCtrlLayout, rxCode: bv8, txCode: bv8, sfdType: bv8) returns (codes: bv32)
    requires WellFormedLayout(l)
    ensures codes == PlacedCodes(l.rxPcodeMask, l.txPcodeMask, l.sfdMask, l.rxPcodeOffset,
                                 l.txPcodeOffset, l.sfdOffset, rxCode, txCode, sfdType)
    ensures Inside(codes, l.rxPcodeMask | l.txPcodeMask | l.sfdMask)
  {
    codes := PlaceThree(l.rxPcodeMask, l.txPcodeMask, l.sfdMask, l.rxPcodeOffset, l.txPcodeOffset,
                        l.sfdOffset, rxCode, txCode, sfdType);
  }

  /** Three values placed in their fields and combined. */
  method PlaceThree(ma: bv32, mb: bv32, mc: bv32, oa: bv32, ob: bv32, oc: bv32, va: bv8, vb: bv8, vc: bv8)
    returns (codes: bv32)
    requires oa < 32 && ob < 32 && oc < 32
    ensures codes == PlacedCodes(ma, mb, mc, oa, ob, oc, va, vb, vc)
    ensures Inside(codes, ma | mb | mc)
  {
    var a := PlaceField(ma, va, oa);
    var b := PlaceField(mb, vb, ob);
    var c := PlaceField(mc, vc, oc);
    codes := a | b | c;
    PlacedCodesInside(ma, mb, mc, oa, ob, oc, va, vb, vc);
  }

  lemma PlacedCodesInside(ma: bv32, mb: bv32, mc: bv32, oa: bv32, ob: bv32, oc: bv32, va: bv8, vb: bv8, vc: bv8)
    requires oa < 32 && ob < 32 && oc < 32
    ensures Inside(PlacedCodes(ma, mb, mc, oa, ob, oc, va, vb, vc), ma | mb | mc)
  {
    MaskedInside(ma, mb, mc, (va as bv32) << oa, (vb as bv32) << ob, (vc as bv32) << oc);
  }

  lemma MaskedInside(ma: bv32, mb: bv32, mc: bv32, sa: bv32, sb: bv32, sc: bv32)
    ensures Inside((ma & sa) | (mb & sb) | (mc & sc), ma | mb | mc)
  {
  }

  /** Every code field of the placed codes holds its own value: the other two
      values never reach it. */
  lemma PlacedCodesHold(ma: bv32, mb: bv32, mc: bv32, oa: bv32, ob: bv32, oc: bv32, va: bv8, vb: bv8, vc: bv8)
    requires oa < 32 && ob < 32 && oc < 32
    requires ma & mb == 0 && ma & mc == 0 && mb & mc == 0
    ensures var u := PlacedCodes(ma, mb, mc, oa, ob, oc, va, vb, vc);
            FieldHolds(ma, oa, va, u) && FieldHolds(mb, ob, vb, u) && FieldHolds(mc, oc, vc, u)
  {
    FirstFieldHolds(ma, mb, mc, oa, ob, oc, va, vb, vc);
    FirstFieldHolds(mb, ma, mc, ob, oa, oc, vb, va, vc);
    FirstFieldHolds(mc, ma, mb, oc, oa, ob, vc, va, vb);
    assert PlacedCodes(mb, ma, mc, ob, oa, oc, vb, va, vc) == PlacedCodes(ma, mb, mc, oa, ob, oc, va, vb, vc);
    assert PlacedCodes(mc, ma, mb, oc, oa, ob, vc, va, vb) == PlacedCodes(ma, mb, mc, oa, ob, oc, va, vb, vc);
  }

  lemma FirstFieldHolds(ma: bv32, mb: bv32, mc: bv32, oa: bv32, ob: bv32, oc: bv32, va: bv8, vb: bv8, vc: bv8)
    requires oa < 32 && ob < 32 && oc < 32
    requires ma & mb == 0 && ma & mc == 0
    ensures FieldHolds(ma, oa, va, PlacedCodes(ma, mb, mc, oa, ob, oc, va, vb, vc))
  {
    FieldOfUnion(ma, mb, mc, oa, va, (vb as bv32) << ob, (vc as bv32) << oc);
  }

  /** Values cut to fields apart from `ma` do not change what `ma` holds. */
  lemma FieldOfUnion(ma: bv32, mb: bv32, mc: bv32, oa: bv32, va: bv8, sb: bv32, sc: bv32)
    requires oa < 32 && ma & mb == 0 && ma & mc == 0
    ensures FieldHolds(ma, oa, va, (ma & ((va as bv32) << oa)) | (mb & sb) | (mc & sc))
  {
  }

  /** Read-modify-write of CHAN_CTRL for a channel change. */
  method ChanCtrlUpdate(l: ChanCtrlLayout, rxCode: bv8, txCode: bv8, sfdType: bv8, channel: u8, prev: bv32)
    returns (w: bv32)
    requires WellFormedLayout(l)
    ensures ChanCtrlProgrammed(l, rxCode, txCode, sfdType, channel, prev, w)
  {
    var codes := PlaceCodes(l, rxCode, txCode, sfdType);
    var c := l.rxPcodeMask | l.txPcodeMask | l.sfdMask;
    w := MaskedUpdate(l.rfChan, c, channel == 9, prev, codes);
  }

  /** The update over the masks alone: the four fields cleared, the RF
      channel mask `r` set when `on`, and the placed codes filled in. */
  method MaskedUpdate(r: bv32, c: bv32, on: bool, prev: bv32, codes: bv32) returns (w: bv32)
    requires Apart(r, c) && Inside(codes, c)
    ensures WordProgrammed(r, c, codes, on, prev, w)
  {
    var all := c | r;
    if on {
      w := ((prev & !all) | r) | codes;
      RfChannelSet(r, c, all, codes, prev);
      CodesKept(prev & !all, r, c, codes);
    } else {
      w := (prev & !all) | codes;
      RfChannelClear(r, c, all, codes, prev);
      CodesKept(prev & !all, 0, c, codes);
      assert (prev & !all) | 0 == prev & !all;
    }
  }

  lemma RfChannelSet(r: bv32, c: bv32, all: bv32, codes: bv32, prev: bv32)
    requires Apart(r, c) && Inside(codes, c) && all == c | r
    ensures MaskSet(r, all, prev, ((prev & !all) | r) | codes)
  {
  }

  lemma RfChannelClear(r: bv32, c: bv32, all: bv32, codes: bv32, prev: bv32)
    requires Apart(r, c) && Inside(codes, c) && all == c | r
    ensures MaskClear(r, all, prev, (prev & !all) | codes)
  {
  }

  /** Bits cleared outside the fields and an RF bit apart from the codes do
      not reach the code fields: there the word is exactly `codes`. */
  lemma CodesKept(outside: bv32, r: bv32, c: bv32, codes: bv32)
    requires outside & c == 0 && r & c == 0 && Inside(codes, c)
    ensures ((outside | r) | codes) & c == codes
  {
  }

  /** A programmed word holds the configured RX code, TX code and SFD type in
      their fields. */
  lemma ProgrammedHoldsCodes(l: ChanCtrlLayout, rxCode: bv8, txCode: bv8, sfdType: bv8,
                             channel: u8, prev: bv32, w: bv32)
    requires WellFormedLayout(l) && ChanCtrlProgrammed(l, rxCode, txCode, sfdType, channel, prev, w)
    ensures CodesHeld(l, rxCode, txCode, sfdType, w)
  {
    WordHoldsCodes(l.rfChan, l.rxPcodeMask, l.txPcodeMask, l.sfdMask, l.rxPcodeOffset, l.txPcodeOffset,
                   l.sfdOffset, rxCode, txCode, sfdType, l.rxPcodeMask | l.txPcodeMask | l.sfdMask,
                   PlacedCodes(l.rxPcodeMask, l.txPcodeMask, l.sfdMask, l.rxPcodeOffset, l.txPcodeOffset,
                             l.sfdOffset, rxCode, txCode, sfdType), channel == 9, prev, w);
  }

  lemma WordHoldsCodes(r: bv32, ma: bv32, mb: bv32, mc: bv32, oa: bv32, ob: bv32, oc: bv32,
                       va: bv8, vb: bv8, vc: bv8, c: bv32, codes: bv32, on: bool, prev: bv32, w: bv32)
    requires oa < 32 && ob < 32 && oc < 32
    requires ma & mb == 0 && ma & mc == 0 && mb & mc == 0
    requires c == ma | mb | mc && codes == PlacedCodes(ma, mb, mc, oa, ob, oc, va, vb, vc)
    requires WordProgrammed(r, c, codes, on, prev, w)
    ensures FieldHolds(ma, oa, va, w) && FieldHolds(mb, ob, vb, w) && FieldHolds(mc, oc, vc, w)
  {
    PlacedCodesHold(ma, mb, mc, oa, ob, oc, va, vb, vc);
    assert w & c == codes;
    CodesCarried(ma, mb, mc, oa, ob, oc, va, vb, vc, c, codes, w);
  }

  /** A word that equals `codes` on the three code fields carries every field
      value `codes` carries. */
  lemma CodesCarried(ma: bv32, mb: bv32, mc: bv32, oa: bv32, ob: bv32, oc: bv32,
                     va: bv8, vb: bv8, vc: bv8, c: bv32, codes: bv32, w: bv32)
    requires FieldHolds(ma, oa, va, codes) && FieldHolds(mb, ob, vb, codes) && FieldHolds(mc, oc, vc, codes)
    requires c == ma | mb | mc && w & c == codes
    ensures FieldHolds(ma, oa, va, w) && FieldHolds(mb, ob, vb, w) && FieldHolds(mc, oc, vc, w)
  {
    PartsInside(ma, mb, mc);
    FieldCarried(ma, oa, va, c, codes, w);
    FieldCarried(mb, ob, vb, c, codes, w);
    FieldCarried(mc, oc, vc, c, codes, w);
  }

  lemma PartsInside(a: bv32, b: bv32, c: bv32)
    ensures Inside(a, a | b | c) && Inside(b, a | b | c) && Inside(c, a | b | c)
  {
  }

  lemma FieldCarried(m: bv32, offset: bv32, value: bv8, c: bv32, codes: bv32, w: bv32)
    requires FieldHolds(m, offset, value, codes) && w & c == codes && Inside(m, c)
    ensures FieldHolds(m, offset, value, w)
  {
    SubField(w, c, codes, m);
  }

  lemma SubField(w: bv32, c: bv32, codes: bv32, m: bv32)
    requires w & c == codes && Inside(m, c)
    ensures w & m == codes & m
  {
  }

  /** A field that starts at its offset gives back the value it holds, cut to
      the field's width. */
  lemma FieldReadsBack(mask: bv32, offset: bv32, value: bv8, w: bv32)
    requires StartsAt(mask, offset) && FieldHolds(mask, offset, value, w)
    ensures (w & mask) >> offset == (value as bv32) & (mask >> offset)
  {
  }

  /** With a non-empty RF channel mask, the word tells which case applied:
      some RF channel bit is set exactly when the update turned it on. */
  lemma ProgrammedShowsChannel(r: bv32, c: bv32, codes: bv32, on: bool, prev: bv32, w: bv32)
    requires r != 0 && WordProgrammed(r, c, codes, on, prev, w)
    ensures w & r != 0 <==> on
  {
    if on {
      var all := c | r;
      SetMaskShows(r, all, prev, w);
    }
  }

  lemma SetMaskShows(r: bv32, all: bv32, prev: bv32, w: bv32)
    requires r != 0 && MaskSet(r, all, prev, w)
    ensures w & r != 0
  {
  }
}
