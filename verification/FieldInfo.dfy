/** Field descriptors packed into one, two, four or eight 32-bit words, for 16-bit pb_size_t:
    the packing macros, the assertions that guard them, and the decoding of a descriptor. */
module FieldInfo {

  datatype Field = Field(tag: bv32, typ: bv32, dataOffset: bv32, dataSize: bv32, sizeOffset: bv32, arraySize: bv32)

  datatype Width = One | Two | Four | Eight {
    function Words(): nat {
      match this
      case One => 1
      case Two => 2
      case Four => 4
      case Eight => 8
    }
  }

  /** A value narrowed to eight signed bits and widened again. */
  function SignExtend8(x: bv32): bv32 {
    if x & 0x80 != 0 then (x & 0xFF) | 0xFFFF_FF00 else x & 0xFF
  }

  function Pack(w: Width, f: Field): (words: seq<bv32>)
    ensures |words| == w.Words()
  {
    match w
    case One =>
      [((f.tag << 2) & 0xFF) | (f.typ << 8) | ((f.dataOffset & 0xFF) << 16)
       | ((f.sizeOffset & 0x0F) << 24) | ((f.dataSize & 0x0F) << 28)]
    case Two =>
      [1 | ((f.tag << 2) & 0xFF) | (f.typ << 8) | ((f.arraySize & 0xFFF) << 16) | ((f.sizeOffset & 0x0F) << 28),
       (f.dataOffset & 0xFFFF) | ((f.dataSize & 0xFFF) << 16) | ((f.tag & 0x3C0) << 22)]
    case Four =>
      [2 | ((f.tag << 2) & 0xFF) | (f.typ << 8) | ((f.arraySize & 0xFFFF) << 16),
       SignExtend8(f.sizeOffset) | ((f.tag << 2) & 0xFFFF_FF00),
       f.dataOffset, f.dataSize]
    case Eight =>
      [3 | ((f.tag << 2) & 0xFF) | (f.typ << 8),
       SignExtend8(f.sizeOffset) | ((f.tag << 2) & 0xFFFF_FF00),
       f.dataOffset, f.dataSize, f.arraySize, 0, 0, 0]
  }

  /** What the static assertions check before a descriptor of this width is accepted. */
  predicate Asserted(w: Width, f: Field) {
    match w
    case One =>
      f.tag < 0x40 && f.dataOffset < 0x100 && f.sizeOffset < 0x10 && f.dataSize < 0x10 && f.arraySize < 2
    case Two =>
      f.tag < 0x400 && f.dataOffset < 0x1_0000 && f.sizeOffset < 0x10 && f.dataSize < 0x1000 && f.arraySize < 0x1000
    case _ =>
      && f.tag < 0x1_0000 && f.dataOffset < 0x1_0000 && SignExtend8(f.sizeOffset) < 0x100
      && f.dataSize < 0x1_0000 && f.arraySize < 0x1_0000
  }

  // Fields found in the first word at every width

  function WidthOf(word0: bv32): Width {
    if word0 & 3 == 0 then One else if word0 & 3 == 1 then Two else if word0 & 3 == 2 then Four else Eight
  }

  function LowTag(word0: bv32): bv32 {
    (word0 >> 2) & 0x3F
  }

  function TypeOf(word0: bv32): bv32 {
    (word0 >> 8) & 0xFF
  }

  /** Decode the descriptor that starts at words[0]. */
  function Unpack(words: seq<bv32>): Field
    requires |words| >= 1 && |words| >= WidthOf(words[0]).Words()
  {
    var word0 := words[0];
    match WidthOf(word0)
    case One =>
      Field(LowTag(word0), TypeOf(word0), (word0 >> 16) & 0xFF, (word0 >> 28) & 0x0F, (word0 >> 24) & 0x0F, 1)
    case Two =>
      Field(LowTag(word0) | ((words[1] >> 28) << 6), TypeOf(word0),
            words[1] & 0xFFFF, (words[1] >> 16) & 0x0FFF, (word0 >> 28) & 0x0F, (word0 >> 16) & 0x0FFF)
    case Four =>
      Field((LowTag(word0) | ((words[1] >> 8) << 6)) & 0xFFFF, TypeOf(word0),
            words[2], words[3] & 0xFFFF, SignExtend8(words[1] & 0xFF), word0 >> 16)
    case Eight =>
      Field((LowTag(word0) | ((words[1] >> 8) << 6)) & 0xFFFF, TypeOf(word0),
            words[2], words[3] & 0xFFFF, SignExtend8(words[1] & 0xFF), words[4] & 0xFFFF)
  }

  /** What must hold beyond the assertions for a field to survive packing. */
  predicate Survives(w: Width, f: Field) {
    && f.typ < 0x100
    && (w == One ==> f.arraySize == 1)
    && (w == Four || w == Eight ==> f.sizeOffset < 0x80)
  }

  predicate Representable(w: Width, f: Field) {
    Asserted(w, f) && Survives(w, f)
  }

  lemma RoundTripNarrow(w: Width, f: Field)
    requires Asserted(w, f) && (w == One || w == Two) && f.typ < 0x100
    ensures WidthOf(Pack(w, f)[0]) == w
    ensures Unpack(Pack(w, f)) == f <==> Survives(w, f)
  {
  }

  lemma RoundTripWide(w: Width, f: Field)
    requires Asserted(w, f) && (w == Four || w == Eight) && f.typ < 0x100
    ensures WidthOf(Pack(w, f)[0]) == w
    ensures Unpack(Pack(w, f)) == f <==> Survives(w, f)
  {
  }

  lemma WidthSurvives(w: Width, f: Field)
    ensures WidthOf(Pack(w, f)[0]) == w
  {
  }

  /** The type always comes back as eight bits. */
  lemma TypeIsByte(words: seq<bv32>)
    requires |words| >= 1 && |words| >= WidthOf(words[0]).Words()
    ensures Unpack(words).typ < 0x100
  {
  }

  /** A field the assertions accept comes back unchanged exactly when its type has eight bits, a one-word
      field holds one item, and a wide field's size offset is not negative. */
  lemma RoundTrip(w: Width, f: Field)
    requires Asserted(w, f)
    ensures WidthOf(Pack(w, f)[0]) == w
    ensures Unpack(Pack(w, f)) == f <==> Survives(w, f)
  {
    WidthSurvives(w, f);
    TypeIsByte(Pack(w, f));
    if f.typ < 0x100 {
      if w == One || w == Two {
        RoundTripNarrow(w, f);
      } else {
        RoundTripWide(w, f);
      }
    }
  }

  /** The assertions of the narrow widths refuse nothing that would come back unchanged. */
  lemma AssertionsAreNeeded(w: Width, f: Field)
    requires (w == One || w == Two) && f.typ < 0x100
    ensures Unpack(Pack(w, f)) == f <==> Asserted(w, f) && Survives(w, f)
  {
  }

  /** The first word alone tells the low tag bits and the type. */
  lemma FirstWord(w: Width, f: Field)
    requires Representable(w, f)
    ensures LowTag(Pack(w, f)[0]) == f.tag & 0x3F
    ensures TypeOf(Pack(w, f)[0]) == f.typ
  {
  }
}
