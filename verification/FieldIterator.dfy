/** The iterator over a message descriptor's packed field list, and the plain list of fields it
    stands for. */
module FieldIterator {
  import opened FieldInfo

  const LTYPE_MASK: bv32 := 0x0F
  const LTYPE_SUBMESSAGE: bv32 := 0x08
  const LTYPE_SUBMSG_W_CB: bv32 := 0x09
  const LTYPE_EXTENSION: bv32 := 0x0A
  const HTYPE_MASK: bv32 := 0x30
  const HTYPE_REQUIRED: bv32 := 0x00

  predicate IsExtension(typ: bv32) {
    typ & LTYPE_MASK == LTYPE_EXTENSION
  }

  predicate IsSubmsg(typ: bv32) {
    typ & LTYPE_MASK == LTYPE_SUBMESSAGE || typ & LTYPE_MASK == LTYPE_SUBMSG_W_CB
  }

  predicate IsRequired(typ: bv32) {
    typ & HTYPE_MASK == HTYPE_REQUIRED
  }

  /** A type as the generated code composes it of its three parts. */
  ghost predicate Composed(typ: bv32, atype: bv32, htype: bv32, ltype: bv32) {
    && typ == atype | htype | ltype
    && (atype == 0x00 || atype == 0x40 || atype == 0x80)
    && (htype == 0x00 || htype == 0x10 || htype == 0x20 || htype == 0x30)
    && ltype < 0x10
  }

  /** The masks tell the parts of a type apart. */
  lemma ComposedTypes(typ: bv32, atype: bv32, htype: bv32, ltype: bv32)
    requires Composed(typ, atype, htype, ltype)
    ensures typ < 0x100 && typ % 0x10 == ltype
    ensures IsExtension(typ) <==> ltype == 0x0A
    ensures IsSubmsg(typ) <==> ltype == 0x08 || ltype == 0x09
    ensures IsRequired(typ) <==> htype == 0x00
  {
  }

  /** The unsigned value of a word. */
  function Num(x: bv32): nat {
    x as nat
  }

  datatype Option<+T> = None | Some(value: T)

  /** A descriptor as the generated code binds it; a submessage's descriptor is known by number. */
  datatype MsgDesc = MsgDesc(fieldInfo: seq<bv32>, submsgInfo: seq<nat>, fieldCount: nat, largestTag: bv32)

  /** A field together with the width it is packed at. */
  datatype Entry = Entry(width: Width, field: Field)

  // What a descriptor is built from

  /** The first i of the parts, end to end. */
  function Concat(parts: seq<seq<bv32>>, i: nat): seq<bv32>
    requires i <= |parts|
  {
    if i == 0 then [] else Concat(parts, i - 1) + parts[i - 1]
  }

  /** The words of each field. */
  function Packed(fs: seq<Entry>): (parts: seq<seq<bv32>>)
    ensures |parts| == |fs|
  {
    if fs == [] then []
    else
      var last := fs[|fs| - 1];
      Packed(fs[..|fs| - 1]) + [Pack(last.width, last.field)]
  }

  /** Where the words of the i-th field begin. */
  function Offset(fs: seq<Entry>, i: nat): nat
    requires i <= |fs|
  {
    |Concat(Packed(fs), i)|
  }

  /** How many of the first i fields are required. */
  function RequiredBefore(fs: seq<Entry>, i: nat): nat
    requires i <= |fs|
  {
    if i == 0 then 0 else RequiredBefore(fs, i - 1) + (if IsRequired(fs[i - 1].field.typ) then 1 else 0)
  }

  /** How many of the first i fields are submessages. */
  function SubmsgsBefore(fs: seq<Entry>, i: nat): nat
    requires i <= |fs|
  {
    if i == 0 then 0 else SubmsgsBefore(fs, i - 1) + (if IsSubmsg(fs[i - 1].field.typ) then 1 else 0)
  }

  /** The words of d are those of the fields fs in a row, and a zero. */
  ghost predicate LaidOut(d: MsgDesc, fs: seq<Entry>) {
    && d.fieldCount == |fs|
    && |d.fieldInfo| > Offset(fs, |fs|) && d.fieldInfo[Offset(fs, |fs|)] == 0
    && Concat(Packed(fs), |fs|) <= d.fieldInfo
  }

  /** The i-th field survives packing at its width. */
  predicate Fits(fs: seq<Entry>, i: nat)
    requires i < |fs|
  {
    Representable(fs[i].width, fs[i].field)
  }

  predicate TagBefore(fs: seq<Entry>, i: nat, j: nat)
    requires i < |fs| && j < |fs|
  {
    Num(fs[i].field.tag) < Num(fs[j].field.tag)
  }

  ghost predicate AllRepresentable(fs: seq<Entry>) {
    forall i | 0 <= i < |fs| :: Fits(fs, i)
  }

  ghost predicate Ascending(fs: seq<Entry>) {
    forall i, j | 0 <= i < j < |fs| :: TagBefore(fs, i, j)
  }

  /** d is bound to the fields fs, whose tags ascend, and every count fits its 16-bit index. */
  ghost predicate Describes(d: MsgDesc, fs: seq<Entry>) {
    && LaidOut(d, fs) && AllRepresentable(fs) && Ascending(fs)
    && |fs| < 0xFFFF && Offset(fs, |fs|) <= 0xFFFF
    && d.largestTag == (if fs == [] then 0 else fs[|fs| - 1].field.tag)
    && |d.submsgInfo| >= SubmsgsBefore(fs, |fs|)
  }

  lemma {:induction false} CountLaws(fs: seq<Entry>, i: nat, j: nat)
    requires i <= j <= |fs|
    ensures RequiredBefore(fs, i) <= RequiredBefore(fs, j) <= RequiredBefore(fs, i) + (j - i)
    ensures SubmsgsBefore(fs, i) <= SubmsgsBefore(fs, j) <= SubmsgsBefore(fs, i) + (j - i)
    decreases j
  {
    if i < j {
      CountLaws(fs, i, j - 1);
    }
  }

  lemma {:induction false} ConcatPrefix(parts: seq<seq<bv32>>, i: nat, j: nat)
    requires i <= j <= |parts|
    ensures Concat(parts, i) <= Concat(parts, j)
    decreases j
  {
    if i < j {
      ConcatPrefix(parts, i, j - 1);
    }
  }

  lemma PartAt(parts: seq<seq<bv32>>, i: nat, words: seq<bv32>)
    requires i < |parts| && Concat(parts, |parts|) <= words
    ensures
      var o := |Concat(parts, i)|;
      && o + |parts[i]| == |Concat(parts, i + 1)| <= |Concat(parts, |parts|)| <= |words|
      && words[o..o + |parts[i]|] == parts[i]
  {
    ConcatPrefix(parts, i + 1, |parts|);
    var o := |Concat(parts, i)|;
    assert Concat(parts, i + 1)[o..o + |parts[i]|] == parts[i];
    assert words[o..o + |parts[i]|] == Concat(parts, i + 1)[o..o + |parts[i]|];
  }

  lemma {:induction false} PackedAt(fs: seq<Entry>, i: nat)
    requires i < |fs|
    ensures Packed(fs)[i] == Pack(fs[i].width, fs[i].field)
  {
    if i < |fs| - 1 {
      PackedAt(fs[..|fs| - 1], i);
    }
  }

  lemma SliceStarts(words: seq<bv32>, o: nat, n: nat)
    requires n > 0 && o + n <= |words|
    ensures words[o..o + n][0] == words[o]
  {
  }

  /** The words of the descriptor that begins at an offset. */
  function WordsFrom(words: seq<bv32>, o: nat): (part: seq<bv32>)
    requires o < |words| && o + WidthOf(words[o]).Words() <= |words|
    ensures |part| == WidthOf(words[o]).Words() && part[0] == words[o]
  {
    SliceStarts(words, o, WidthOf(words[o]).Words());
    words[o..o + WidthOf(words[o]).Words()]
  }

  /** What the iterator finds at the offset of the i-th field. */
  lemma FieldAt(d: MsgDesc, fs: seq<Entry>, i: nat)
    requires LaidOut(d, fs) && AllRepresentable(fs) && i < |fs|
    ensures
      var o, e := Offset(fs, i), fs[i];
      && o + e.width.Words() == Offset(fs, i + 1) <= Offset(fs, |fs|) < |d.fieldInfo|
      && WidthOf(d.fieldInfo[o]) == e.width
      && Unpack(WordsFrom(d.fieldInfo, o)) == e.field
      && LowTag(d.fieldInfo[o]) == e.field.tag & 0x3F
      && TypeOf(d.fieldInfo[o]) == e.field.typ
  {
    var e := fs[i];
    PartAt(Packed(fs), i, d.fieldInfo);
    PackedAt(fs, i);
    assert Fits(fs, i);
    PackedDecodes(e, Packed(fs)[i]);
    SliceStarts(d.fieldInfo, Offset(fs, i), e.width.Words());
    assert WordsFrom(d.fieldInfo, Offset(fs, i)) == Packed(fs)[i];
  }

  lemma PackedDecodes(e: Entry, words: seq<bv32>)
    requires words == Pack(e.width, e.field) && Representable(e.width, e.field)
    ensures |words| == e.width.Words() && WidthOf(words[0]) == e.width
    ensures Unpack(words) == e.field
    ensures LowTag(words[0]) == e.field.tag & 0x3F && TypeOf(words[0]) == e.field.typ
  {
    RoundTrip(e.width, e.field);
    FirstWord(e.width, e.field);
  }

  /** What the iterator decodes for its user. */
  datatype Values = Values(tag: bv32, dataSize: bv32, arraySize: bv32, typ: bv32, submsgDesc: Option<nat>)

  const CLEARED := Values(0, 0, 0, 0, None)

  function SubmsgAt(d: MsgDesc, typ: bv32, submessageIndex: nat): Option<nat>
    requires IsSubmsg(typ) ==> submessageIndex < |d.submsgInfo|
  {
    if IsSubmsg(typ) then Some(d.submsgInfo[submessageIndex]) else None
  }

  /** The values of the i-th field of the list. */
  ghost function FieldValues(d: MsgDesc, fs: seq<Entry>, i: nat): Values
    requires Describes(d, fs) && i < |fs|
  {
    SubmsgInRange(d, fs, i);
    var f := fs[i].field;
    Values(f.tag, f.dataSize, f.arraySize, f.typ, SubmsgAt(d, f.typ, SubmsgsBefore(fs, i)))
  }

  lemma SubmsgInRange(d: MsgDesc, fs: seq<Entry>, i: nat)
    requires |d.submsgInfo| >= SubmsgsBefore(fs, |fs|) && i < |fs|
    ensures IsSubmsg(fs[i].field.typ) ==> SubmsgsBefore(fs, i) < |d.submsgInfo|
  {
    CountLaws(fs, i + 1, |fs|);
  }

  predicate CanDecode(d: MsgDesc, fieldInfoIndex: nat, submessageIndex: nat) {
    && fieldInfoIndex < |d.fieldInfo|
    && fieldInfoIndex + WidthOf(d.fieldInfo[fieldInfoIndex]).Words() <= |d.fieldInfo|
    && (IsSubmsg(Unpack(WordsFrom(d.fieldInfo, fieldInfoIndex)).typ) ==> submessageIndex < |d.submsgInfo|)
  }

  /** The values of the field whose words begin at an index. */
  function Decode(d: MsgDesc, fieldInfoIndex: nat, submessageIndex: nat): Values
    requires CanDecode(d, fieldInfoIndex, submessageIndex)
  {
    var f := Unpack(WordsFrom(d.fieldInfo, fieldInfoIndex));
    Values(f.tag, f.dataSize, f.arraySize, f.typ, SubmsgAt(d, f.typ, submessageIndex))
  }

  lemma DecodesField(d: MsgDesc, fs: seq<Entry>, i: nat)
    requires Describes(d, fs) && i < |fs|
    ensures CanDecode(d, Offset(fs, i), SubmsgsBefore(fs, i))
    ensures Decode(d, Offset(fs, i), SubmsgsBefore(fs, i)) == FieldValues(d, fs, i)
  {
    FieldAt(d, fs, i);
    SubmsgInRange(d, fs, i);
  }

  /** Where a step from the i-th field leads, read off its first word. */
  lemma StepFrom(d: MsgDesc, fs: seq<Entry>, i: nat)
    requires Describes(d, fs) && i < |fs|
    ensures
      var o := Offset(fs, i);
      && o < |d.fieldInfo|
      && Offset(fs, i + 1) == o + WidthOf(d.fieldInfo[o]).Words() <= 0xFFFF
      && RequiredBefore(fs, i + 1) == RequiredBefore(fs, i) + Flag(IsRequired(TypeOf(d.fieldInfo[o]))) <= 0xFFFF
      && SubmsgsBefore(fs, i + 1) == SubmsgsBefore(fs, i) + Flag(IsSubmsg(TypeOf(d.fieldInfo[o]))) <= 0xFFFF
  {
    FieldAt(d, fs, i);
    CountLaws(fs, 0, i + 1);
  }

  lemma FirstIsAtZero(d: MsgDesc, fs: seq<Entry>)
    requires Describes(d, fs)
    ensures d.fieldCount == |fs| < 0xFFFF
    ensures Offset(fs, 0) == 0 && RequiredBefore(fs, 0) == 0 && SubmsgsBefore(fs, 0) == 0
  {
  }

  /** A value kept in sixteen bits. */
  function Narrow(x: nat): (y: nat)
    ensures x < 0x1_0000 ==> y == x
  {
    x % 0x1_0000
  }

  /** A C truth value. */
  function Flag(b: bool): nat {
    if b then 1 else 0
  }

  /** A field that a search for the tag may stop at. */
  predicate Matches(fs: seq<Entry>, j: nat, tag: bv32)
    requires j < |fs|
  {
    fs[j].field.tag == tag && !ExtensionAt(fs, j)
  }

  ghost predicate HasTag(fs: seq<Entry>, tag: bv32) {
    exists j | 0 <= j < |fs| :: Matches(fs, j, tag)
  }

  /** The low digit of the type is that of an extension. */
  predicate ExtensionAt(fs: seq<Entry>, j: nat)
    requires j < |fs|
  {
    fs[j].field.typ % 0x10 == 0x0A
  }

  ghost predicate HasExtension(fs: seq<Entry>) {
    exists j | 0 <= j < |fs| :: ExtensionAt(fs, j)
  }

  /** No field carries a tag above the largest. */
  lemma NoTagAboveLargest(fs: seq<Entry>, tag: bv32)
    requires Ascending(fs) && (fs != [] ==> Num(tag) > Num(fs[|fs| - 1].field.tag))
    ensures !HasTag(fs, tag)
  {
    forall j | 0 <= j < |fs| ensures !Matches(fs, j, tag) {
      assert j < |fs| - 1 ==> TagBefore(fs, j, |fs| - 1);
    }
  }

  /** What a search that started at `start` and stands at `at` has passed: everything up to `at` when it
      restarted at the front; otherwise what lies after `start`, and after wrapping what lies up to `at`. */
  ghost predicate Passed(j: int, start: int, at: int, restarted: bool, wrapped: bool) {
    if restarted || wrapped then j <= at || (wrapped && j > start) else start < j <= at
  }

  /** A search that has come back to its start has passed every field that could match. */
  lemma PassedAll(fs: seq<Entry>, start: nat, restarted: bool, wrapped: bool, tag: bv32)
    requires Ascending(fs) && start < |fs| && (restarted || wrapped)
    requires restarted ==> Num(tag) < Num(fs[start].field.tag)
    requires forall j | 0 <= j < |fs| && Passed(j, start, start, restarted, wrapped) :: !Matches(fs, j, tag)
    ensures !HasTag(fs, tag)
  {
    forall j | 0 <= j < |fs| ensures !Matches(fs, j, tag) {
      assert j > start ==> TagBefore(fs, start, j);
    }
  }

  class FieldIter {
    var descriptor: MsgDesc
    var index: nat
    var fieldInfoIndex: nat
    var requiredFieldIndex: nat
    var submessageIndex: nat
    /** The decoded values: tag, sizes, type and submessage descriptor. */
    var current: Values

    constructor ()
    {
      descriptor := MsgDesc([], [], 0, 0);
      index, fieldInfoIndex, requiredFieldIndex, submessageIndex := 0, 0, 0, 0;
      current := CLEARED;
    }

    /** The four indices agree with the i-th field of the list. */
    ghost predicate At(fs: seq<Entry>, i: nat)
      reads this
    {
      && i < |fs|
      && index == i
      && fieldInfoIndex == Offset(fs, i)
      && requiredFieldIndex == RequiredBefore(fs, i)
      && submessageIndex == SubmsgsBefore(fs, i)
    }

    /** The indices agree with the i-th field and its values are decoded. */
    ghost predicate On(fs: seq<Entry>, i: nat)
      requires Describes(descriptor, fs)
      reads this
    {
      At(fs, i) && current == FieldValues(descriptor, fs, i)
    }

    /** The iterator of a list without fields: all zero. */
    ghost predicate Blank()
      reads this
    {
      && index == 0 && fieldInfoIndex == 0 && requiredFieldIndex == 0 && submessageIndex == 0
      && current == CLEARED
    }

    /** Between operations: on the i-th field, or blank where there are none. */
    ghost predicate Standing(fs: seq<Entry>, i: nat)
      requires Describes(descriptor, fs)
      reads this
    {
      if fs == [] then Blank() else On(fs, i)
    }

    /** Decode the field the indices stand on. */
    method LoadDescriptorValues(ghost fs: seq<Entry>) returns (ok: bool)
      requires Describes(descriptor, fs) && (index < |fs| ==> At(fs, index))
      modifies this`current
      ensures ok <==> index < |fs|
      ensures current == if ok then FieldValues(descriptor, fs, index) else old(current)
    {
      if index >= descriptor.fieldCount {
        return false;
      }
      DecodesField(descriptor, fs, index);
      current := Decode(descriptor, fieldInfoIndex, submessageIndex);
      return true;
    }

    /** Move to the next field, or from the last, or from index fieldCount, to the first. */
    method AdvanceIterator(ghost fs: seq<Entry>, ghost i: nat)
      requires Describes(descriptor, fs) && (At(fs, i) || index == |fs|)
      modifies this`index, this`fieldInfoIndex, this`requiredFieldIndex, this`submessageIndex
      ensures if fs == [] then index == 0 && fieldInfoIndex == 0 && requiredFieldIndex == 0 && submessageIndex == 0
              else At(fs, if old(index) + 1 < |fs| then old(index) + 1 else 0)
    {
      FirstIsAtZero(descriptor, fs);
      hide Describes, Offset, RequiredBefore, SubmsgsBefore, IsRequired, IsSubmsg, TypeOf, WidthOf, Narrow;
      index := Narrow(index + 1);
      if index >= descriptor.fieldCount {
        index, fieldInfoIndex, submessageIndex, requiredFieldIndex := 0, 0, 0, 0;
      } else {
        StepFrom(descriptor, fs, i);
        var prevDescriptor := descriptor.fieldInfo[fieldInfoIndex];
        var prevType := TypeOf(prevDescriptor);
        var descriptorLen := WidthOf(prevDescriptor).Words();
        fieldInfoIndex := Narrow(fieldInfoIndex + descriptorLen);
        requiredFieldIndex := Narrow(requiredFieldIndex + Flag(IsRequired(prevType)));
        submessageIndex := Narrow(submessageIndex + Flag(IsSubmsg(prevType)));
      }
    }

    /** Clear the iterator and load the first field. */
    method Begin(desc: MsgDesc, ghost fs: seq<Entry>) returns (ok: bool)
      requires Describes(desc, fs)
      modifies this
      ensures descriptor == desc
      ensures ok <==> fs != []
      ensures Standing(fs, 0)
    {
      index, fieldInfoIndex, requiredFieldIndex, submessageIndex := 0, 0, 0, 0;
      current := CLEARED;
      descriptor := desc;
      ok := LoadDescriptorValues(fs);
    }

    /** Step to the next field; false when that is the first one again. */
    method Next(ghost fs: seq<Entry>, ghost i: nat) returns (more: bool)
      requires Describes(descriptor, fs) && Standing(fs, i)
      modifies this
      ensures descriptor == old(descriptor)
      ensures Standing(fs, if i + 1 < |fs| then i + 1 else 0)
      ensures more <==> i + 1 < |fs|
    {
      AdvanceIterator(fs, i);
      var _ := LoadDescriptorValues(fs);
      return index != 0;
    }

    /** The fast check of a search: the low bits of the tag, read off the first word. */
    method LowTagMatches(tag: bv32, ghost fs: seq<Entry>) returns (candidate: bool)
      requires Describes(descriptor, fs) && index < |fs| && At(fs, index)
      ensures !candidate ==> !Matches(fs, index, tag)
    {
      FieldAt(descriptor, fs, index);
      var fieldinfo := descriptor.fieldInfo[fieldInfoIndex];
      candidate := LowTag(fieldinfo) == tag & 0x3F;
    }

    /** The fast check of a search for extensions. */
    method TypeIsExtension(ghost fs: seq<Entry>) returns (candidate: bool)
      requires Describes(descriptor, fs) && if fs == [] then fieldInfoIndex == 0 else At(fs, index)
      ensures candidate <==> index < |fs| && ExtensionAt(fs, index)
    {
      if index < |fs| {
        FieldAt(descriptor, fs, index);
      }
      var fieldinfo := descriptor.fieldInfo[fieldInfoIndex];
      candidate := IsExtension(TypeOf(fieldinfo));
    }

    /** One turn of a search: advance, and load the field only when its low tag bits are right. */
    method TryNext(tag: bv32, ghost fs: seq<Entry>, ghost i: nat) returns (hit: bool)
      requires Describes(descriptor, fs) && (At(fs, i) || index == |fs| > 0)
      modifies this`index, this`fieldInfoIndex, this`requiredFieldIndex, this`submessageIndex, this`current
      ensures At(fs, if old(index) + 1 < |fs| then old(index) + 1 else 0)
      ensures hit <==> Matches(fs, index, tag)
      ensures hit ==> On(fs, index) && current.tag == tag
    {
      AdvanceIterator(fs, i);
      var candidate := LowTagMatches(tag, fs);
      if candidate {
        var _ := LoadDescriptorValues(fs);
        return current.tag == tag && !IsExtension(current.typ);
      }
      return false;
    }

    /** Search for the field with a tag, from anywhere, once round at most. */
    method Find(tag: bv32, ghost fs: seq<Entry>, ghost i: nat) returns (found: bool)
      requires Describes(descriptor, fs)
      requires Standing(fs, i)
      modifies this
      ensures descriptor == old(descriptor)
      ensures found <==> old(current.tag) == tag || HasTag(fs, tag)
      ensures found ==> current.tag == tag && (fs != [] ==> index < |fs| && On(fs, index))
      ensures !found ==> index == old(index) && fieldInfoIndex == old(fieldInfoIndex) && current == old(current)
                         && requiredFieldIndex == old(requiredFieldIndex) && submessageIndex == old(submessageIndex)
    {
      if current.tag == tag {
        return true;
      } else if Num(tag) > Num(descriptor.largestTag) {
        NoTagAboveLargest(fs, tag);
        return false;
      }
      found := Search(tag, fs, i);
    }

    /** The search itself: upwards to the end and on from the front, or from the front when the tag is
        smaller than the current one, back to where it started. */
    method Search(tag: bv32, ghost fs: seq<Entry>, ghost i: nat) returns (found: bool)
      requires Describes(descriptor, fs) && On(fs, i) && current.tag != tag
      modifies this
      ensures descriptor == old(descriptor)
      ensures found <==> HasTag(fs, tag)
      ensures found ==> index < |fs| && On(fs, index) && current.tag == tag
      ensures !found ==> On(fs, i)
    {
      var start := index;
      ghost var at: int, restarted, wrapped := i, Num(tag) < Num(current.tag), false;
      if Num(tag) < Num(current.tag) {
        index := descriptor.fieldCount;
        at := -1;
      }
      var searching := true;
      while searching
        invariant descriptor == old(descriptor) && start == i < |fs|
        invariant if at == -1 then restarted && index == |fs| else at >= 0 && At(fs, at)
        invariant restarted ==> !wrapped && at <= start && Num(tag) < Num(fs[start].field.tag)
        invariant !restarted ==> if wrapped then at <= start else at >= start
        invariant searching ==> (restarted || wrapped ==> at < start)
        invariant !searching ==> at == start && (restarted || wrapped)
        invariant forall j | 0 <= j < |fs| && Passed(j, start, at, restarted, wrapped) :: !Matches(fs, j, tag)
        decreases searching, if restarted || wrapped then start - at else |fs| + start - at
      {
        var hit := TryNext(tag, fs, if at >= 0 then at else 0);
        wrapped := wrapped || (!restarted && at + 1 == |fs|);
        at := index;
        if hit {
          return true;
        }
        searching := index != start;
      }
      PassedAll(fs, start, restarted, wrapped, tag);
      var _ := LoadDescriptorValues(fs);
      return false;
    }

    /** Search for an extension field, from anywhere, once round at most. */
    method FindExtension(ghost fs: seq<Entry>, ghost i: nat) returns (found: bool)
      requires Describes(descriptor, fs) && Standing(fs, i)
      modifies this
      ensures descriptor == old(descriptor)
      ensures found <==> HasExtension(fs)
      ensures found ==> index < |fs| && On(fs, index) && IsExtension(current.typ)
      ensures !found ==> Standing(fs, i)
    {
      hide Offset, RequiredBefore, SubmsgsBefore, LaidOut;
      if IsExtension(current.typ) {
        assert ExtensionAt(fs, i);
        return true;
      }
      var start := index;
      ghost var at: nat, wrapped := index, false;
      var searching := true;
      while searching
        invariant descriptor == old(descriptor)
        invariant if fs == [] then Blank() && start == 0 else start == i < |fs| && At(fs, at)
        invariant if wrapped then at <= start else at >= start
        invariant searching ==> (wrapped ==> at < start)
        invariant !searching ==> at == start && (wrapped || fs == [])
        invariant forall j | 0 <= j < |fs| && Passed(j, start, at, false, wrapped) :: !ExtensionAt(fs, j)
        decreases searching, if wrapped then start - at else |fs| + start - at
      {
        AdvanceIterator(fs, at);
        wrapped := wrapped || at + 1 == |fs|;
        at := index;
        var candidate := TypeIsExtension(fs);
        if candidate {
          found := LoadDescriptorValues(fs);
          return;
        }
        searching := index != start;
      }
      var _ := LoadDescriptorValues(fs);
      return false;
    }
  }
}
