/** How a BC6H block stores its endpoints: each mode scatters the bits of up to twelve numbers over the
    block in its own order, and the scattering loses nothing. */
module Bc6hLayout {
  import opened Bits

  // The endpoints w, x, y, z of the three channels, as places in one list

  const RW := 0
  const RX := 1
  const RY := 2
  const RZ := 3
  const GW := 4
  const GX := 5
  const GY := 6
  const GZ := 7
  const BW := 8
  const BX := 9
  const BY := 10
  const BZ := 11

  /** The fields of a mode in the order in which they are read: the next `width` bits go to the endpoint,
      `shift` bits up, in opposite order for a Flip. */
  datatype Layout =
    | Done
    | Take(slot: nat, width: nat, shift: nat, rest: Layout)
    | Flip(slot: nat, width: nat, shift: nat, rest: Layout)

  // The modes, numbered as in the decoder: 0 to 9 have two subsets, 10 to 13 one.

  /** The bits stored of an endpoint w, and of the others in each channel. */
  datatype Widths = Widths(first: nat, r: nat, g: nat, b: nat)

  function WidthsOf(mode: nat): Widths
    requires mode < 14
  {
    match mode
    case 0 => Widths(10, 5, 5, 5)
    case 1 => Widths(7, 6, 6, 6)
    case 2 => Widths(11, 5, 4, 4)
    case 3 => Widths(11, 4, 5, 4)
    case 4 => Widths(11, 4, 4, 5)
    case 5 => Widths(9, 5, 5, 5)
    case 6 => Widths(8, 6, 5, 5)
    case 7 => Widths(8, 5, 6, 5)
    case 8 => Widths(8, 5, 5, 6)
    case 9 => Widths(6, 6, 6, 6)
    case 10 => Widths(10, 10, 10, 10)
    case 11 => Widths(11, 9, 9, 9)
    case 12 => Widths(12, 8, 8, 8)
    case _ => Widths(16, 4, 4, 4)
  }

  function FirstBits(mode: nat): nat
    requires mode < 14
  {
    WidthsOf(mode).first
  }

  function DeltaBits(mode: nat, channel: nat): nat
    requires mode < 14
  {
    var w := WidthsOf(mode);
    if channel == 0 then w.r else if channel == 1 then w.g else w.b
  }

  function ModeBits(mode: nat): nat {
    if mode < 2 then 2 else 5
  }

  function NumSubsets(mode: nat): nat {
    if mode >= 10 then 1 else 2
  }

  /** How many bits the mode stores of an endpoint. */
  function StoredBits(mode: nat, slot: nat): nat
    requires mode < 14 && slot < 12
  {
    if slot % 4 == 0 then FirstBits(mode)
    else if slot % 4 < 2 * NumSubsets(mode) then DeltaBits(mode, slot / 4)
    else 0
  }

  const MODE0 :=
    Take(GY, 1, 4, Take(BY, 1, 4, Take(BZ, 1, 4, Take(RW, 10, 0, Take(GW, 10, 0, Take(BW, 10, 0, Take(RX, 5, 0,
    Take(GZ, 1, 4, Take(GY, 4, 0, Take(GX, 5, 0, Take(BZ, 1, 0, Take(GZ, 4, 0, Take(BX, 5, 0, Take(BZ, 1, 1,
    Take(BY, 4, 0, Take(RY, 5, 0, Take(BZ, 1, 2, Take(RZ, 5, 0, Take(BZ, 1, 3, Done)))))))))))))))))))

  const MODE1 :=
    Take(GY, 1, 5, Take(GZ, 1, 4, Take(GZ, 1, 5, Take(RW, 7, 0, Take(BZ, 1, 0, Take(BZ, 1, 1, Take(BY, 1, 4,
    Take(GW, 7, 0, Take(BY, 1, 5, Take(BZ, 1, 2, Take(GY, 1, 4, Take(BW, 7, 0, Take(BZ, 1, 3, Take(BZ, 1, 5,
    Take(BZ, 1, 4, Take(RX, 6, 0, Take(GY, 4, 0, Take(GX, 6, 0, Take(GZ, 4, 0, Take(BX, 6, 0, Take(BY, 4, 0,
    Take(RY, 6, 0, Take(RZ, 6, 0, Done)))))))))))))))))))))))

  const MODE2 :=
    Take(RW, 10, 0, Take(GW, 10, 0, Take(BW, 10, 0, Take(RX, 5, 0, Take(RW, 1, 10, Take(GY, 4, 0,
    Take(GX, 4, 0, Take(GW, 1, 10, Take(BZ, 1, 0, Take(GZ, 4, 0, Take(BX, 4, 0, Take(BW, 1, 10, Take(BZ, 1, 1,
    Take(BY, 4, 0, Take(RY, 5, 0, Take(BZ, 1, 2, Take(RZ, 5, 0, Take(BZ, 1, 3, Done))))))))))))))))))

  const MODE3 :=
    Take(RW, 10, 0, Take(GW, 10, 0, Take(BW, 10, 0, Take(RX, 4, 0, Take(RW, 1, 10, Take(GZ, 1, 4,
    Take(GY, 4, 0, Take(GX, 5, 0, Take(GW, 1, 10, Take(GZ, 4, 0, Take(BX, 4, 0, Take(BW, 1, 10, Take(BZ, 1, 1,
    Take(BY, 4, 0, Take(RY, 4, 0, Take(BZ, 1, 0, Take(BZ, 1, 2, Take(RZ, 4, 0, Take(GY, 1, 4, Take(BZ, 1, 3,
    Done))))))))))))))))))))

  const MODE4 :=
    Take(RW, 10, 0, Take(GW, 10, 0, Take(BW, 10, 0, Take(RX, 4, 0, Take(RW, 1, 10, Take(BY, 1, 4,
    Take(GY, 4, 0, Take(GX, 4, 0, Take(GW, 1, 10, Take(BZ, 1, 0, Take(GZ, 4, 0, Take(BX, 5, 0, Take(BW, 1, 10,
    Take(BY, 4, 0, Take(RY, 4, 0, Take(BZ, 1, 1, Take(BZ, 1, 2, Take(RZ, 4, 0, Take(BZ, 1, 4, Take(BZ, 1, 3,
    Done))))))))))))))))))))

  const MODE5 :=
    Take(RW, 9, 0, Take(BY, 1, 4, Take(GW, 9, 0, Take(GY, 1, 4, Take(BW, 9, 0, Take(BZ, 1, 4, Take(RX, 5, 0,
    Take(GZ, 1, 4, Take(GY, 4, 0, Take(GX, 5, 0, Take(BZ, 1, 0, Take(GZ, 4, 0, Take(BX, 5, 0, Take(BZ, 1, 1,
    Take(BY, 4, 0, Take(RY, 5, 0, Take(BZ, 1, 2, Take(RZ, 5, 0, Take(BZ, 1, 3, Done)))))))))))))))))))

  const MODE6 :=
    Take(RW, 8, 0, Take(GZ, 1, 4, Take(BY, 1, 4, Take(GW, 8, 0, Take(BZ, 1, 2, Take(GY, 1, 4, Take(BW, 8, 0,
    Take(BZ, 1, 3, Take(BZ, 1, 4, Take(RX, 6, 0, Take(GY, 4, 0, Take(GX, 5, 0, Take(BZ, 1, 0, Take(GZ, 4, 0,
    Take(BX, 5, 0, Take(BZ, 1, 1, Take(BY, 4, 0, Take(RY, 6, 0, Take(RZ, 6, 0, Done)))))))))))))))))))

  const MODE7 :=
    Take(RW, 8, 0, Take(BZ, 1, 0, Take(BY, 1, 4, Take(GW, 8, 0, Take(GY, 1, 5, Take(GY, 1, 4, Take(BW, 8, 0,
    Take(GZ, 1, 5, Take(BZ, 1, 4, Take(RX, 5, 0, Take(GZ, 1, 4, Take(GY, 4, 0, Take(GX, 6, 0, Take(GZ, 4, 0,
    Take(BX, 5, 0, Take(BZ, 1, 1, Take(BY, 4, 0, Take(RY, 5, 0, Take(BZ, 1, 2, Take(RZ, 5, 0, Take(BZ, 1, 3,
    Done)))))))))))))))))))))

  const MODE8 :=
    Take(RW, 8, 0, Take(BZ, 1, 1, Take(BY, 1, 4, Take(GW, 8, 0, Take(BY, 1, 5, Take(GY, 1, 4, Take(BW, 8, 0,
    Take(BZ, 1, 5, Take(BZ, 1, 4, Take(RX, 5, 0, Take(GZ, 1, 4, Take(GY, 4, 0, Take(GX, 5, 0, Take(BZ, 1, 0,
    Take(GZ, 4, 0, Take(BX, 6, 0, Take(BY, 4, 0, Take(RY, 5, 0, Take(BZ, 1, 2, Take(RZ, 5, 0, Take(BZ, 1, 3,
    Done)))))))))))))))))))))

  const MODE9 :=
    Take(RW, 6, 0, Take(GZ, 1, 4, Take(BZ, 1, 0, Take(BZ, 1, 1, Take(BY, 1, 4, Take(GW, 6, 0, Take(GY, 1, 5,
    Take(BY, 1, 5, Take(BZ, 1, 2, Take(GY, 1, 4, Take(BW, 6, 0, Take(GZ, 1, 5, Take(BZ, 1, 3, Take(BZ, 1, 5,
    Take(BZ, 1, 4, Take(RX, 6, 0, Take(GY, 4, 0, Take(GX, 6, 0, Take(GZ, 4, 0, Take(BX, 6, 0, Take(BY, 4, 0,
    Take(RY, 6, 0, Take(RZ, 6, 0, Done)))))))))))))))))))))))

  const MODE10 :=
    Take(RW, 10, 0, Take(GW, 10, 0, Take(BW, 10, 0, Take(RX, 10, 0, Take(GX, 10, 0, Take(BX, 10, 0, Done))))))

  const MODE11 :=
    Take(RW, 10, 0, Take(GW, 10, 0, Take(BW, 10, 0, Take(RX, 9, 0, Take(RW, 1, 10, Take(GX, 9, 0,
    Take(GW, 1, 10, Take(BX, 9, 0, Take(BW, 1, 10, Done)))))))))

  const MODE12 :=
    Take(RW, 10, 0, Take(GW, 10, 0, Take(BW, 10, 0, Take(RX, 8, 0, Flip(RW, 2, 10, Take(GX, 8, 0,
    Flip(GW, 2, 10, Take(BX, 8, 0, Flip(BW, 2, 10, Done)))))))))

  const MODE13 :=
    Take(RW, 10, 0, Take(GW, 10, 0, Take(BW, 10, 0, Take(RX, 4, 0, Flip(RW, 6, 10, Take(GX, 4, 0,
    Flip(GW, 6, 10, Take(BX, 4, 0, Flip(BW, 6, 10, Done)))))))))

  function LayoutOf(mode: nat): Layout
    requires mode < 14
  {
    match mode
    case 0 => MODE0
    case 1 => MODE1
    case 2 => MODE2
    case 3 => MODE3
    case 4 => MODE4
    case 5 => MODE5
    case 6 => MODE6
    case 7 => MODE7
    case 8 => MODE8
    case 9 => MODE9
    case 10 => MODE10
    case 11 => MODE11
    case 12 => MODE12
    case _ => MODE13
  }

  // Where a bit of an endpoint is

  /** Whether the first field fills bit k of the endpoint. */
  function Hit(layout: Layout, slot: nat, k: nat): nat {
    if !layout.Done? && layout.slot == slot && layout.shift <= k < layout.shift + layout.width then 1 else 0
  }

  /** How many fields fill bit k of the endpoint. */
  function Uses(layout: Layout, slot: nat, k: nat): nat
    decreases layout
  {
    if layout.Done? then 0 else Hit(layout, slot, k) + Uses(layout.rest, slot, k)
  }

  function Next(layout: Layout): Layout {
    if layout.Done? then Done else layout.rest
  }

  function Skip5(layout: Layout): Layout {
    Next(Next(Next(Next(Next(layout)))))
  }

  lemma UsesInFives(layout: Layout, slot: nat, k: nat)
    ensures Uses(layout, slot, k)
            == Hit(layout, slot, k) + Hit(Next(layout), slot, k) + Hit(Next(Next(layout)), slot, k)
               + Hit(Next(Next(Next(layout))), slot, k) + Hit(Next(Next(Next(Next(layout)))), slot, k)
               + Uses(Skip5(layout), slot, k)
  {
  }

  lemma Mode0Fits(slot: nat, k: nat)
    requires slot < 12
    ensures Uses(MODE0, slot, k) == if k < StoredBits(0, slot) then 1 else 0
  {
    UsesInFives(MODE0, slot, k);
    var t5 := Skip5(MODE0);
    UsesInFives(t5, slot, k);
    var t10 := Skip5(t5);
    UsesInFives(t10, slot, k);
    var t15 := Skip5(t10);
    UsesInFives(t15, slot, k);
  }

  lemma Mode1Fits(slot: nat, k: nat)
    requires slot < 12
    ensures Uses(MODE1, slot, k) == if k < StoredBits(1, slot) then 1 else 0
  {
    UsesInFives(MODE1, slot, k);
    var t5 := Skip5(MODE1);
    UsesInFives(t5, slot, k);
    var t10 := Skip5(t5);
    UsesInFives(t10, slot, k);
    var t15 := Skip5(t10);
    UsesInFives(t15, slot, k);
    var t20 := Skip5(t15);
    UsesInFives(t20, slot, k);
  }

  lemma Mode2Fits(slot: nat, k: nat)
    requires slot < 12
    ensures Uses(MODE2, slot, k) == if k < StoredBits(2, slot) then 1 else 0
  {
    UsesInFives(MODE2, slot, k);
    var t5 := Skip5(MODE2);
    UsesInFives(t5, slot, k);
    var t10 := Skip5(t5);
    UsesInFives(t10, slot, k);
    var t15 := Skip5(t10);
    UsesInFives(t15, slot, k);
  }

  lemma Mode3Fits(slot: nat, k: nat)
    requires slot < 12
    ensures Uses(MODE3, slot, k) == if k < StoredBits(3, slot) then 1 else 0
  {
    UsesInFives(MODE3, slot, k);
    var t5 := Skip5(MODE3);
    UsesInFives(t5, slot, k);
    var t10 := Skip5(t5);
    UsesInFives(t10, slot, k);
    var t15 := Skip5(t10);
    UsesInFives(t15, slot, k);
  }

  lemma Mode4Fits(slot: nat, k: nat)
    requires slot < 12
    ensures Uses(MODE4, slot, k) == if k < StoredBits(4, slot) then 1 else 0
  {
    UsesInFives(MODE4, slot, k);
    var t5 := Skip5(MODE4);
    UsesInFives(t5, slot, k);
    var t10 := Skip5(t5);
    UsesInFives(t10, slot, k);
    var t15 := Skip5(t10);
    UsesInFives(t15, slot, k);
  }

  lemma Mode5Fits(slot: nat, k: nat)
    requires slot < 12
    ensures Uses(MODE5, slot, k) == if k < StoredBits(5, slot) then 1 else 0
  {
    UsesInFives(MODE5, slot, k);
    var t5 := Skip5(MODE5);
    UsesInFives(t5, slot, k);
    var t10 := Skip5(t5);
    UsesInFives(t10, slot, k);
    var t15 := Skip5(t10);
    UsesInFives(t15, slot, k);
  }

  lemma Mode6Fits(slot: nat, k: nat)
    requires slot < 12
    ensures Uses(MODE6, slot, k) == if k < StoredBits(6, slot) then 1 else 0
  {
    UsesInFives(MODE6, slot, k);
    var t5 := Skip5(MODE6);
    UsesInFives(t5, slot, k);
    var t10 := Skip5(t5);
    UsesInFives(t10, slot, k);
    var t15 := Skip5(t10);
    UsesInFives(t15, slot, k);
  }

  lemma Mode7Fits(slot: nat, k: nat)
    requires slot < 12
    ensures Uses(MODE7, slot, k) == if k < StoredBits(7, slot) then 1 else 0
  {
    UsesInFives(MODE7, slot, k);
    var t5 := Skip5(MODE7);
    UsesInFives(t5, slot, k);
    var t10 := Skip5(t5);
    UsesInFives(t10, slot, k);
    var t15 := Skip5(t10);
    UsesInFives(t15, slot, k);
    var t20 := Skip5(t15);
    UsesInFives(t20, slot, k);
  }

  lemma Mode8Fits(slot: nat, k: nat)
    requires slot < 12
    ensures Uses(MODE8, slot, k) == if k < StoredBits(8, slot) then 1 else 0
  {
    UsesInFives(MODE8, slot, k);
    var t5 := Skip5(MODE8);
    UsesInFives(t5, slot, k);
    var t10 := Skip5(t5);
    UsesInFives(t10, slot, k);
    var t15 := Skip5(t10);
    UsesInFives(t15, slot, k);
    var t20 := Skip5(t15);
    UsesInFives(t20, slot, k);
  }

  lemma Mode9Fits(slot: nat, k: nat)
    requires slot < 12
    ensures Uses(MODE9, slot, k) == if k < StoredBits(9, slot) then 1 else 0
  {
    UsesInFives(MODE9, slot, k);
    var t5 := Skip5(MODE9);
    UsesInFives(t5, slot, k);
    var t10 := Skip5(t5);
    UsesInFives(t10, slot, k);
    var t15 := Skip5(t10);
    UsesInFives(t15, slot, k);
    var t20 := Skip5(t15);
    UsesInFives(t20, slot, k);
  }

  lemma Mode10Fits(slot: nat, k: nat)
    requires slot < 12
    ensures Uses(MODE10, slot, k) == if k < StoredBits(10, slot) then 1 else 0
  {
  }

  lemma Mode11Fits(slot: nat, k: nat)
    requires slot < 12
    ensures Uses(MODE11, slot, k) == if k < StoredBits(11, slot) then 1 else 0
  {
  }

  lemma Mode12Fits(slot: nat, k: nat)
    requires slot < 12
    ensures Uses(MODE12, slot, k) == if k < StoredBits(12, slot) then 1 else 0
  {
  }

  lemma Mode13Fits(slot: nat, k: nat)
    requires slot < 12
    ensures Uses(MODE13, slot, k) == if k < StoredBits(13, slot) then 1 else 0
  {
  }

  /** The width of the first field, and whether it is one that can be read. */
  function Width(layout: Layout): nat {
    if layout.Done? then 0 else layout.width
  }

  predicate FieldOk(layout: Layout) {
    !layout.Done? ==> layout.slot < 12 && 1 <= layout.width <= 31
  }

  function LayoutBits(layout: Layout): nat
    decreases layout
  {
    if layout.Done? then 0 else layout.width + LayoutBits(layout.rest)
  }

  predicate FieldsOk(layout: Layout)
    decreases layout
  {
    layout.Done? || (FieldOk(layout) && FieldsOk(layout.rest))
  }

  lemma BitsInFives(layout: Layout)
    ensures LayoutBits(layout)
            == Width(layout) + Width(Next(layout)) + Width(Next(Next(layout))) + Width(Next(Next(Next(layout))))
               + Width(Next(Next(Next(Next(layout))))) + LayoutBits(Skip5(layout))
    ensures FieldsOk(layout)
            == (FieldOk(layout) && FieldOk(Next(layout)) && FieldOk(Next(Next(layout))) && FieldOk(Next(Next(Next(layout))))
                && FieldOk(Next(Next(Next(Next(layout))))) && FieldsOk(Skip5(layout)))
  {
  }

  /** The bits a mode's endpoints take. */
  function EndpointBits(mode: nat): nat {
    if mode < 2 then 75 else if mode < 10 then 72 else 60
  }

  lemma Mode0Bits()
    ensures LayoutBits(MODE0) == EndpointBits(0) && FieldsOk(MODE0)
  {
    BitsInFives(MODE0);
    var t5 := Skip5(MODE0);
    BitsInFives(t5);
    var t10 := Skip5(t5);
    BitsInFives(t10);
    var t15 := Skip5(t10);
    BitsInFives(t15);
  }

  lemma Mode1Bits()
    ensures LayoutBits(MODE1) == EndpointBits(1) && FieldsOk(MODE1)
  {
    BitsInFives(MODE1);
    var t5 := Skip5(MODE1);
    BitsInFives(t5);
    var t10 := Skip5(t5);
    BitsInFives(t10);
    var t15 := Skip5(t10);
    BitsInFives(t15);
    var t20 := Skip5(t15);
    BitsInFives(t20);
  }

  lemma Mode2Bits()
    ensures LayoutBits(MODE2) == EndpointBits(2) && FieldsOk(MODE2)
  {
    BitsInFives(MODE2);
    var t5 := Skip5(MODE2);
    BitsInFives(t5);
    var t10 := Skip5(t5);
    BitsInFives(t10);
    var t15 := Skip5(t10);
    BitsInFives(t15);
  }

  lemma Mode3Bits()
    ensures LayoutBits(MODE3) == EndpointBits(3) && FieldsOk(MODE3)
  {
    BitsInFives(MODE3);
    var t5 := Skip5(MODE3);
    BitsInFives(t5);
    var t10 := Skip5(t5);
    BitsInFives(t10);
    var t15 := Skip5(t10);
    BitsInFives(t15);
  }

  lemma Mode4Bits()
    ensures LayoutBits(MODE4) == EndpointBits(4) && FieldsOk(MODE4)
  {
    BitsInFives(MODE4);
    var t5 := Skip5(MODE4);
    BitsInFives(t5);
    var t10 := Skip5(t5);
    BitsInFives(t10);
    var t15 := Skip5(t10);
    BitsInFives(t15);
  }

  lemma Mode5Bits()
    ensures LayoutBits(MODE5) == EndpointBits(5) && FieldsOk(MODE5)
  {
    BitsInFives(MODE5);
    var t5 := Skip5(MODE5);
    BitsInFives(t5);
    var t10 := Skip5(t5);
    BitsInFives(t10);
    var t15 := Skip5(t10);
    BitsInFives(t15);
  }

  lemma Mode6Bits()
    ensures LayoutBits(MODE6) == EndpointBits(6) && FieldsOk(MODE6)
  {
    BitsInFives(MODE6);
    var t5 := Skip5(MODE6);
    BitsInFives(t5);
    var t10 := Skip5(t5);
    BitsInFives(t10);
    var t15 := Skip5(t10);
    BitsInFives(t15);
  }

  lemma Mode7Bits()
    ensures LayoutBits(MODE7) == EndpointBits(7) && FieldsOk(MODE7)
  {
    BitsInFives(MODE7);
    var t5 := Skip5(MODE7);
    BitsInFives(t5);
    var t10 := Skip5(t5);
    BitsInFives(t10);
    var t15 := Skip5(t10);
    BitsInFives(t15);
    var t20 := Skip5(t15);
    BitsInFives(t20);
  }

  lemma Mode8Bits()
    ensures LayoutBits(MODE8) == EndpointBits(8) && FieldsOk(MODE8)
  {
    BitsInFives(MODE8);
    var t5 := Skip5(MODE8);
    BitsInFives(t5);
    var t10 := Skip5(t5);
    BitsInFives(t10);
    var t15 := Skip5(t10);
    BitsInFives(t15);
    var t20 := Skip5(t15);
    BitsInFives(t20);
  }

  lemma Mode9Bits()
    ensures LayoutBits(MODE9) == EndpointBits(9) && FieldsOk(MODE9)
  {
    BitsInFives(MODE9);
    var t5 := Skip5(MODE9);
    BitsInFives(t5);
    var t10 := Skip5(t5);
    BitsInFives(t10);
    var t15 := Skip5(t10);
    BitsInFives(t15);
    var t20 := Skip5(t15);
    BitsInFives(t20);
  }

  lemma Mode10Bits()
    ensures LayoutBits(MODE10) == EndpointBits(10) && FieldsOk(MODE10)
  {
  }

  lemma Mode11Bits()
    ensures LayoutBits(MODE11) == EndpointBits(11) && FieldsOk(MODE11)
  {
  }

  lemma Mode12Bits()
    ensures LayoutBits(MODE12) == EndpointBits(12) && FieldsOk(MODE12)
  {
  }

  lemma Mode13Bits()
    ensures LayoutBits(MODE13) == EndpointBits(13) && FieldsOk(MODE13)
  {
  }

  /** Every mode takes the bits it should. */
  lemma LayoutFills(mode: nat)
    requires mode < 14
    ensures LayoutBits(LayoutOf(mode)) == EndpointBits(mode) && FieldsOk(LayoutOf(mode))
  {
    match mode
    case 0 => Mode0Bits();
    case 1 => Mode1Bits();
    case 2 => Mode2Bits();
    case 3 => Mode3Bits();
    case 4 => Mode4Bits();
    case 5 => Mode5Bits();
    case 6 => Mode6Bits();
    case 7 => Mode7Bits();
    case 8 => Mode8Bits();
    case 9 => Mode9Bits();
    case 10 => Mode10Bits();
    case 11 => Mode11Bits();
    case 12 => Mode12Bits();
    case _ => Mode13Bits();
  }

  /** Every mode stores each bit once. */
  lemma LayoutFits(mode: nat, slot: nat, k: nat)
    requires mode < 14 && slot < 12
    ensures Uses(LayoutOf(mode), slot, k) == if k < StoredBits(mode, slot) then 1 else 0
  {
    match mode
    case 0 => Mode0Fits(slot, k);
    case 1 => Mode1Fits(slot, k);
    case 2 => Mode2Fits(slot, k);
    case 3 => Mode3Fits(slot, k);
    case 4 => Mode4Fits(slot, k);
    case 5 => Mode5Fits(slot, k);
    case 6 => Mode6Fits(slot, k);
    case 7 => Mode7Fits(slot, k);
    case 8 => Mode8Fits(slot, k);
    case 9 => Mode9Fits(slot, k);
    case 10 => Mode10Fits(slot, k);
    case 11 => Mode11Fits(slot, k);
    case 12 => Mode12Fits(slot, k);
    case _ => Mode13Fits(slot, k);
  }
}
