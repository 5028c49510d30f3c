/** Reading the endpoints of a BC6H block and putting them back: the fields of every mode are a
    one-to-one correspondence between the bits of the endpoints and the bits they take in the block. */
module Bc6hFields {
  import opened Bits
  import opened Bc6hLayout

  /** The value of the first field, taken from the block at bit start. */
  function FieldValue(layout: Layout, block: nat, start: nat): nat
    requires !layout.Done?
  {
    var bits := Field(block, start, layout.width);
    if layout.Flip? then Reversed(bits, layout.width) else bits
  }

  /** The endpoint with the first field put in. */
  function PutField(layout: Layout, block: nat, start: nat, slot: nat, value: nat): nat
    requires !layout.Done?
  {
    if layout.slot == slot then Or(value, ShiftLeft(FieldValue(layout, block, start), layout.shift)) else value
  }

  /** The endpoint with all its fields put in, one after the other. */
  function Gather(layout: Layout, block: nat, start: nat, slot: nat, value: nat): nat
    decreases layout
  {
    if layout.Done? then value
    else Gather(layout.rest, block, start + layout.width, slot, PutField(layout, block, start, slot, value))
  }

  /** The endpoint the block stores in the slot. */
  function Stored(layout: Layout, block: nat, start: nat, slot: nat): nat {
    Gather(layout, block, start, slot, 0)
  }

  /** What the first field holds of an endpoint. */
  function FieldOf(layout: Layout, endpoint: nat): nat
    requires !layout.Done?
  {
    var bits := Field(endpoint, layout.shift, layout.width);
    if layout.Flip? then Reversed(bits, layout.width) else bits
  }

  /** The fields of the endpoints, one above the other. */
  function Scatter(layout: Layout, endpoints: seq<nat>): nat
    requires FieldsOk(layout) && |endpoints| == 12
    decreases layout
  {
    if layout.Done? then 0
    else FieldOf(layout, endpoints[layout.slot]) + ShiftLeft(Scatter(layout.rest, endpoints), layout.width)
  }

  // Which bit goes where

  /** Where in the layout the field that fills bit k of the endpoint has it. */
  function Place(layout: Layout, slot: nat, k: nat): nat
    requires Uses(layout, slot, k) > 0
    decreases layout
  {
    if Hit(layout, slot, k) == 0 then layout.width + Place(layout.rest, slot, k)
    else if layout.Flip? then layout.shift + layout.width - 1 - k
    else k - layout.shift
  }

  /** The endpoint, and the bit of it, at a place of the layout. */
  function SlotAt(layout: Layout, p: nat): nat
    requires p < LayoutBits(layout)
    decreases layout
  {
    if p < layout.width then layout.slot else SlotAt(layout.rest, p - layout.width)
  }

  function BitAt(layout: Layout, p: nat): nat
    requires p < LayoutBits(layout)
    decreases layout
  {
    if p >= layout.width then BitAt(layout.rest, p - layout.width)
    else if layout.Flip? then layout.shift + layout.width - 1 - p
    else layout.shift + p
  }

  /** Going to the place of a bit leads back to the bit. */
  lemma {:induction false} PlaceIsThere(layout: Layout, slot: nat, k: nat)
    requires Uses(layout, slot, k) > 0
    ensures Place(layout, slot, k) < LayoutBits(layout)
    ensures SlotAt(layout, Place(layout, slot, k)) == slot && BitAt(layout, Place(layout, slot, k)) == k
    decreases layout
  {
    if Hit(layout, slot, k) == 0 {
      PlaceIsThere(layout.rest, slot, k);
    }
  }

  /** Every place fills a bit, and is the place of that bit if no other one fills it. */
  lemma {:induction false} PlaceIsUsed(layout: Layout, p: nat)
    requires p < LayoutBits(layout)
    ensures Uses(layout, SlotAt(layout, p), BitAt(layout, p)) > 0
    ensures Uses(layout, SlotAt(layout, p), BitAt(layout, p)) == 1 ==> Place(layout, SlotAt(layout, p), BitAt(layout, p)) == p
    decreases layout
  {
    if p >= layout.width {
      PlaceIsUsed(layout.rest, p - layout.width);
    }
  }

  // The bits of what is read and of what is written

  lemma FieldValueBit(layout: Layout, block: nat, start: nat, k: nat)
    requires !layout.Done? && k < layout.width
    ensures Bit(FieldValue(layout, block, start), k)
            == Bit(block, start + if layout.Flip? then layout.width - 1 - k else k)
    ensures FieldValue(layout, block, start) < Pow2(layout.width)
  {
    LowBitsBound(ShiftRight(block, start), layout.width);
    ReversedBound(Field(block, start, layout.width), layout.width);
    FieldBit(block, start, layout.width, k);
    FieldBit(block, start, layout.width, layout.width - 1 - k);
    ReversedBits(Field(block, start, layout.width), layout.width, k);
  }

  lemma PutFieldBit(layout: Layout, block: nat, start: nat, slot: nat, value: nat, k: nat)
    requires !layout.Done?
    ensures Hit(layout, slot, k) == 0 ==> Bit(PutField(layout, block, start, slot, value), k) == Bit(value, k)
    ensures Hit(layout, slot, k) == 1 && Bit(value, k) == 0 ==>
              Bit(PutField(layout, block, start, slot, value), k)
              == Bit(block, start + if layout.Flip? then layout.shift + layout.width - 1 - k else k - layout.shift)
  {
    if layout.slot == slot {
      var field := FieldValue(layout, block, start);
      OrBit(value, ShiftLeft(field, layout.shift), k);
      ShiftLeftBit(field, layout.shift, k);
      if Hit(layout, slot, k) == 1 {
        FieldValueBit(layout, block, start, k - layout.shift);
      } else if k >= layout.shift {
        FieldValueBound(layout, block, start);
        BitsEnd(field, layout.width, k - layout.shift);
      }
    }
  }

  lemma FieldValueBound(layout: Layout, block: nat, start: nat)
    requires !layout.Done?
    ensures FieldValue(layout, block, start) < Pow2(layout.width)
  {
    LowBitsBound(ShiftRight(block, start), layout.width);
    ReversedBound(Field(block, start, layout.width), layout.width);
  }

  /** A bit filled once is read from its place; one filled by no field keeps its value. */
  lemma {:induction false} GatherBit(layout: Layout, block: nat, start: nat, slot: nat, value: nat, k: nat)
    ensures Uses(layout, slot, k) == 0 ==> Bit(Gather(layout, block, start, slot, value), k) == Bit(value, k)
    ensures Uses(layout, slot, k) == 1 && Bit(value, k) == 0 ==>
              Bit(Gather(layout, block, start, slot, value), k) == Bit(block, start + Place(layout, slot, k))
    decreases layout
  {
    if !layout.Done? {
      PutFieldBit(layout, block, start, slot, value, k);
      GatherBit(layout.rest, block, start + layout.width, slot, PutField(layout, block, start, slot, value), k);
    }
  }

  lemma FieldOfBit(layout: Layout, endpoint: nat, p: nat)
    requires !layout.Done?
    ensures FieldOf(layout, endpoint) < Pow2(layout.width)
    ensures p < layout.width ==> Bit(FieldOf(layout, endpoint), p)
                                 == Bit(endpoint, layout.shift + if layout.Flip? then layout.width - 1 - p else p)
  {
    var bits := Field(endpoint, layout.shift, layout.width);
    LowBitsBound(ShiftRight(endpoint, layout.shift), layout.width);
    ReversedBound(bits, layout.width);
    if p < layout.width {
      FieldBit(endpoint, layout.shift, layout.width, p);
      FieldBit(endpoint, layout.shift, layout.width, layout.width - 1 - p);
      ReversedBits(bits, layout.width, p);
    }
  }

  /** What is written at a place is the endpoint bit that belongs there. */
  lemma {:induction false} ScatterBit(layout: Layout, endpoints: seq<nat>, p: nat)
    requires FieldsOk(layout) && |endpoints| == 12
    ensures p < LayoutBits(layout) ==> SlotAt(layout, p) < 12
    ensures Bit(Scatter(layout, endpoints), p)
            == if p < LayoutBits(layout) then Bit(endpoints[SlotAt(layout, p)], BitAt(layout, p)) else 0
    decreases layout
  {
    hide Bit, FieldOf, ShiftLeft, Pow2;
    if layout.Done? {
      ZeroBit(p);
    } else {
      FieldOfBit(layout, endpoints[layout.slot], p);
      SumBit(FieldOf(layout, endpoints[layout.slot]), Scatter(layout.rest, endpoints), layout.width, p);
      if p >= layout.width {
        ScatterBit(layout.rest, endpoints, p - layout.width);
      }
    }
  }

  // The round trips

  /** Endpoints fit the bits a mode has for them. */
  ghost predicate EndpointsFit(mode: nat, endpoints: seq<nat>)
    requires mode < 14
  {
    |endpoints| == 12 && forall slot: nat | slot < 12 :: endpoints[slot] < Pow2(StoredBits(mode, slot))
  }

  /** The endpoints of a block in which they begin at bit start. */
  function ReadEndpoints(mode: nat, block: nat, start: nat): (endpoints: seq<nat>)
    requires mode < 14
    ensures |endpoints| == 12
  {
    seq(12, slot requires 0 <= slot < 12 => Stored(LayoutOf(mode), block, start, slot))
  }

  /** The bits the endpoints take in a block. */
  function WriteEndpoints(mode: nat, endpoints: seq<nat>): nat
    requires mode < 14 && |endpoints| == 12
  {
    LayoutFills(mode);
    Scatter(LayoutOf(mode), endpoints)
  }

  /** What is read fits the bits the mode has for it. */
  lemma StoredFits(mode: nat, block: nat, start: nat, slot: nat)
    requires mode < 14 && slot < 12
    ensures Stored(LayoutOf(mode), block, start, slot) < Pow2(StoredBits(mode, slot))
  {
    var layout := LayoutOf(mode);
    forall k: nat | k >= StoredBits(mode, slot)
      ensures Bit(Stored(layout, block, start, slot), k) == 0
    {
      LayoutFits(mode, slot, k);
      GatherBit(layout, block, start, slot, 0, k);
      ZeroBit(k);
    }
    NoHighBits(Stored(layout, block, start, slot), StoredBits(mode, slot));
  }

  /** Whatever endpoints are written, they are read back, in every mode. */
  lemma ReadBack(mode: nat, endpoints: seq<nat>, block: nat, start: nat)
    requires mode < 14 && EndpointsFit(mode, endpoints)
    requires Field(block, start, EndpointBits(mode)) == WriteEndpoints(mode, endpoints)
    ensures ReadEndpoints(mode, block, start) == endpoints
  {
    hide LayoutOf, StoredBits;
    forall slot: nat | slot < 12
      ensures Stored(LayoutOf(mode), block, start, slot) == endpoints[slot]
    {
      forall k: nat
        ensures Bit(Stored(LayoutOf(mode), block, start, slot), k) == Bit(endpoints[slot], k)
      {
        ReadBackBit(mode, endpoints, block, start, slot, k);
      }
      SameBits(Stored(LayoutOf(mode), block, start, slot), endpoints[slot]);
    }
  }

  lemma ReadBackBit(mode: nat, endpoints: seq<nat>, block: nat, start: nat, slot: nat, k: nat)
    requires mode < 14 && slot < 12 && EndpointsFit(mode, endpoints)
    requires Field(block, start, EndpointBits(mode)) == WriteEndpoints(mode, endpoints)
    ensures Bit(Stored(LayoutOf(mode), block, start, slot), k) == Bit(endpoints[slot], k)
  {
    hide LayoutOf, StoredBits;
    var layout := LayoutOf(mode);
    LayoutFills(mode);
    LayoutFits(mode, slot, k);
    GatherBit(layout, block, start, slot, 0, k);
    ZeroBit(k);
    if k < StoredBits(mode, slot) {
      var p := Place(layout, slot, k);
      PlaceIsThere(layout, slot, k);
      FieldBit(block, start, EndpointBits(mode), p);
      ScatterBit(layout, endpoints, p);
    } else {
      BitsEnd(endpoints[slot], StoredBits(mode, slot), k);
    }
  }

  /** Whatever block is read, writing what is read yields the bits of the block again. */
  lemma WriteBack(mode: nat, block: nat, start: nat)
    requires mode < 14
    ensures EndpointsFit(mode, ReadEndpoints(mode, block, start))
    ensures WriteEndpoints(mode, ReadEndpoints(mode, block, start)) == Field(block, start, EndpointBits(mode))
  {
    hide LayoutOf, StoredBits;
    var endpoints := ReadEndpoints(mode, block, start);
    forall slot: nat | slot < 12
      ensures endpoints[slot] < Pow2(StoredBits(mode, slot))
    {
      StoredFits(mode, block, start, slot);
    }
    forall p: nat
      ensures Bit(WriteEndpoints(mode, endpoints), p) == Bit(Field(block, start, EndpointBits(mode)), p)
    {
      WriteBackBit(mode, block, start, p);
    }
    SameBits(WriteEndpoints(mode, endpoints), Field(block, start, EndpointBits(mode)));
  }

  lemma WriteBackBit(mode: nat, block: nat, start: nat, p: nat)
    requires mode < 14
    ensures Bit(WriteEndpoints(mode, ReadEndpoints(mode, block, start)), p) == Bit(Field(block, start, EndpointBits(mode)), p)
  {
    hide LayoutOf, StoredBits;
    var layout := LayoutOf(mode);
    LayoutFills(mode);
    ScatterBit(layout, ReadEndpoints(mode, block, start), p);
    FieldBit(block, start, EndpointBits(mode), p);
    if p < LayoutBits(layout) {
      var slot, k := SlotAt(layout, p), BitAt(layout, p);
      PlaceIsUsed(layout, p);
      LayoutFits(mode, slot, k);
      ZeroBit(k);
      GatherBit(layout, block, start, slot, 0, k);
    }
  }

  /** What is written fits the bits it takes. */
  lemma WrittenFits(mode: nat, endpoints: seq<nat>)
    requires mode < 14 && |endpoints| == 12
    ensures WriteEndpoints(mode, endpoints) < Pow2(EndpointBits(mode))
  {
    hide LayoutOf;
    LayoutFills(mode);
    forall p: nat | p >= EndpointBits(mode)
      ensures Bit(WriteEndpoints(mode, endpoints), p) == 0
    {
      ScatterBit(LayoutOf(mode), endpoints, p);
    }
    NoHighBits(WriteEndpoints(mode, endpoints), EndpointBits(mode));
  }
}
