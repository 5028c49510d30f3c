/** The UTF-8 validator, against the encoding of section 3 of RFC 3629. */
module Utf8 {

  /** Scalar values the validator lets through: section 3 of RFC 3629 without U+0000, which ends the
      string, and without the noncharacters U+FFFE and U+FFFF. */
  predicate Accepted(c: bv32) {
    && c != 0 && c <= 0x10_FFFF
    && !(0xD800 <= c <= 0xDFFF)
    && c != 0xFFFE && c != 0xFFFF
  }

  /** Section 3 of RFC 3629. */
  function Encode(c: bv32): (s: seq<bv8>)
    requires c <= 0x10_FFFF
    ensures 1 <= |s| <= 4
  {
    if c < 0x80 then [c as bv8]
    else if c < 0x800 then [((c >> 6) | 0xC0) as bv8, ((c & 0x3F) | 0x80) as bv8]
    else if c < 0x1_0000 then
      [((c >> 12) | 0xE0) as bv8, (((c >> 6) & 0x3F) | 0x80) as bv8, ((c & 0x3F) | 0x80) as bv8]
    else
      [((c >> 18) | 0xF0) as bv8, (((c >> 12) & 0x3F) | 0x80) as bv8, (((c >> 6) & 0x3F) | 0x80) as bv8,
       ((c & 0x3F) | 0x80) as bv8]
  }

  ghost predicate AllAccepted(cs: seq<bv32>) {
    forall i | 0 <= i < |cs| :: Accepted(cs[i])
  }

  ghost function EncodeAll(cs: seq<bv32>): seq<bv8>
    requires AllAccepted(cs)
  {
    if cs == [] then [] else Encode(cs[0]) + EncodeAll(cs[1..])
  }

  /** s is the encoding of some accepted scalar values. */
  ghost predicate IsUtf8(s: seq<bv8>) {
    exists cs :: AllAccepted(cs) && EncodeAll(cs) == s
  }

  // The branches of the validator, by the class of the first byte

  predicate Continuation(b: bv8) {
    b & 0xC0 == 0x80
  }

  predicate TwoBytes(b0: bv8, b1: bv8) {
    b0 & 0xE0 == 0xC0 && Continuation(b1) && b0 & 0xFE != 0xC0
  }

  predicate ThreeBytes(b0: bv8, b1: bv8, b2: bv8) {
    && b0 & 0xF0 == 0xE0 && Continuation(b1) && Continuation(b2)
    && !(b0 == 0xE0 && b1 & 0xE0 == 0x80)
    && !(b0 == 0xED && b1 & 0xE0 == 0xA0)
    && !(b0 == 0xEF && b1 == 0xBF && b2 & 0xFE == 0xBE)
  }

  predicate FourBytes(b0: bv8, b1: bv8, b2: bv8, b3: bv8) {
    && b0 & 0xF8 == 0xF0 && Continuation(b1) && Continuation(b2) && Continuation(b3)
    && !(b0 == 0xF0 && b1 & 0xF0 == 0x80)
    && !((b0 == 0xF4 && b1 > 0x8F) || b0 > 0xF4)
  }

  function Decode1(b0: bv8): bv32 { b0 as bv32 }

  function Decode2(b0: bv8, b1: bv8): bv32 {
    ((b0 as bv32 & 0x1F) << 6) | (b1 as bv32 & 0x3F)
  }

  function Decode3(b0: bv8, b1: bv8, b2: bv8): bv32 {
    ((b0 as bv32 & 0x0F) << 12) | ((b1 as bv32 & 0x3F) << 6) | (b2 as bv32 & 0x3F)
  }

  function Decode4(b0: bv8, b1: bv8, b2: bv8, b3: bv8): bv32 {
    ((b0 as bv32 & 0x07) << 18) | ((b1 as bv32 & 0x3F) << 12) | ((b2 as bv32 & 0x3F) << 6) | (b3 as bv32 & 0x3F)
  }

  lemma Decode1Encodes(b0: bv8)
    requires 0 < b0 < 0x80
    ensures Accepted(Decode1(b0)) && Encode(Decode1(b0)) == [b0]
  {
  }

  lemma Decode2Encodes(b0: bv8, b1: bv8)
    requires TwoBytes(b0, b1)
    ensures Accepted(Decode2(b0, b1)) && Encode(Decode2(b0, b1)) == [b0, b1]
  {
  }

  lemma Decode3Encodes(b0: bv8, b1: bv8, b2: bv8)
    requires ThreeBytes(b0, b1, b2)
    ensures Accepted(Decode3(b0, b1, b2)) && Encode(Decode3(b0, b1, b2)) == [b0, b1, b2]
  {
    Decode3InRange(b0, b1, b2);
    Decode3Bytes(b0, b1, b2);
    EncodesTo3(Decode3(b0, b1, b2), b0, b1, b2);
  }

  lemma EncodesTo3(c: bv32, b0: bv8, b1: bv8, b2: bv8)
    requires c >= 0x80 && c >= 0x800 && c < 0x1_0000 && c <= 0x10_FFFF
    requires (c >> 12) | 0xE0 == b0 as bv32
    requires ((c >> 6) & 0x3F) | 0x80 == b1 as bv32
    requires (c & 0x3F) | 0x80 == b2 as bv32
    ensures Encode(c) == [b0, b1, b2]
  {
  }

  lemma Decode3InRange(b0: bv8, b1: bv8, b2: bv8)
    requires ThreeBytes(b0, b1, b2)
    ensures Accepted(Decode3(b0, b1, b2))
    ensures
      var c := Decode3(b0, b1, b2);
      c >= 0x80 && c >= 0x800 && c < 0x1_0000 && c <= 0x10_FFFF
  {
  }

  lemma Decode3Bytes(b0: bv8, b1: bv8, b2: bv8)
    requires b0 & 0xF0 == 0xE0 && Continuation(b1) && Continuation(b2)
    ensures
      var c := Decode3(b0, b1, b2);
      && (c >> 12) | 0xE0 == b0 as bv32
      && ((c >> 6) & 0x3F) | 0x80 == b1 as bv32
      && (c & 0x3F) | 0x80 == b2 as bv32
  {
  }

  lemma Decode4Encodes(b0: bv8, b1: bv8, b2: bv8, b3: bv8)
    requires FourBytes(b0, b1, b2, b3)
    ensures Accepted(Decode4(b0, b1, b2, b3)) && Encode(Decode4(b0, b1, b2, b3)) == [b0, b1, b2, b3]
  {
    Decode4InRange(b0, b1, b2, b3);
    Decode4Bytes(b0, b1, b2, b3);
    EncodesTo4(Decode4(b0, b1, b2, b3), b0, b1, b2, b3);
  }

  predicate Long(c: bv32) {
    !(c < 0x80) && !(c < 0x800) && !(c < 0x1_0000) && c <= 0x10_FFFF
  }

  lemma EncodesTo4(c: bv32, b0: bv8, b1: bv8, b2: bv8, b3: bv8)
    requires Long(c)
    requires (c >> 18) | 0xF0 == b0 as bv32
    requires ((c >> 12) & 0x3F) | 0x80 == b1 as bv32
    requires ((c >> 6) & 0x3F) | 0x80 == b2 as bv32
    requires (c & 0x3F) | 0x80 == b3 as bv32
    ensures Encode(c) == [b0, b1, b2, b3]
  {
  }

  lemma Decode4InRange(b0: bv8, b1: bv8, b2: bv8, b3: bv8)
    requires FourBytes(b0, b1, b2, b3)
    ensures
      var c := Decode4(b0, b1, b2, b3);
      Accepted(c) && Long(c)
  {
  }

  lemma Decode4Bytes(b0: bv8, b1: bv8, b2: bv8, b3: bv8)
    requires b0 & 0xF8 == 0xF0 && Continuation(b1) && Continuation(b2) && Continuation(b3)
    ensures
      var c := Decode4(b0, b1, b2, b3);
      && (c >> 18) | 0xF0 == b0 as bv32
      && ((c >> 12) & 0x3F) | 0x80 == b1 as bv32
      && ((c >> 6) & 0x3F) | 0x80 == b2 as bv32
      && (c & 0x3F) | 0x80 == b3 as bv32
  {
  }

  /** What the encoding of an accepted value looks like, class by class. */
  lemma EncodingsPass(c: bv32)
    requires Accepted(c)
    ensures
      var e := Encode(c);
      || (|e| == 1 && 0 < e[0] < 0x80)
      || (|e| == 2 && TwoBytes(e[0], e[1]))
      || (|e| == 3 && ThreeBytes(e[0], e[1], e[2]))
      || (|e| == 4 && FourBytes(e[0], e[1], e[2], e[3]))
  {
  }

  // Encodings of sequences

  /** One accepted value in front of a string. */
  lemma Prepend(c: bv32, s: seq<bv8>)
    requires Accepted(c) && IsUtf8(s)
    ensures IsUtf8(Encode(c) + s)
  {
    var cs :| AllAccepted(cs) && EncodeAll(cs) == s;
    assert ([c] + cs)[1..] == cs;
    assert AllAccepted([c] + cs) && EncodeAll([c] + cs) == Encode(c) + s;
  }

  /** A non-empty encoding begins with that of its first value. */
  lemma FirstOf(s: seq<bv8>) returns (c: bv32)
    requires IsUtf8(s) && s != []
    ensures Accepted(c) && Encode(c) <= s && IsUtf8(s[|Encode(c)|..])
  {
    var cs :| AllAccepted(cs) && EncodeAll(cs) == s;
    c := cs[0];
    assert AllAccepted(cs[1..]) && EncodeAll(cs[1..]) == s[|Encode(c)|..];
  }

  /** The value decoded from the first k bytes is worth dropping, whichever way the rest turns out. */
  lemma DropFirst(s: seq<bv8>, c: bv32, k: nat)
    requires 1 <= k <= |s| && Accepted(c) && Encode(c) == s[..k]
    ensures IsUtf8(s) <==> IsUtf8(s[k..])
  {
    assert s == s[..k] + s[k..];
    if IsUtf8(s[k..]) {
      Prepend(c, s[k..]);
    }
    if IsUtf8(s) {
      var d := FirstOf(s);
      EncodingLength(c);
      EncodingLength(d);
      assert Encode(c)[0] == s[0] == Encode(d)[0];
    }
  }

  /** The first byte tells the length. */
  function LengthOf(b0: bv8): nat {
    if b0 < 0x80 then 1 else if b0 & 0xE0 == 0xC0 then 2 else if b0 & 0xF0 == 0xE0 then 3 else 4
  }

  lemma EncodingLength(c: bv32)
    requires Accepted(c)
    ensures |Encode(c)| == LengthOf(Encode(c)[0])
  {
  }

  /** The bytes at the head of an encoding pass one of the validator's branches. */
  ghost predicate HeadPasses(s: seq<bv8>) {
    || (|s| >= 1 && 0 < s[0] < 0x80)
    || (|s| >= 2 && TwoBytes(s[0], s[1]))
    || (|s| >= 3 && ThreeBytes(s[0], s[1], s[2]))
    || (|s| >= 4 && FourBytes(s[0], s[1], s[2], s[3]))
  }

  lemma HeadOfUtf8Passes(s: seq<bv8>)
    requires IsUtf8(s) && s != []
    ensures HeadPasses(s)
  {
    var c := FirstOf(s);
    EncodingsPass(c);
    var e := Encode(c);
    assert forall i | 0 <= i < |e| :: e[i] == s[i];
  }

  /** Passing a branch of the validator moves the question to the rest of the string. */
  lemma PassHead(s: seq<bv8>, k: nat)
    requires 1 <= k <= |s| && k <= 4
    requires k == 1 ==> 0 < s[0] < 0x80
    requires k == 2 ==> TwoBytes(s[0], s[1])
    requires k == 3 ==> ThreeBytes(s[0], s[1], s[2])
    requires k == 4 ==> FourBytes(s[0], s[1], s[2], s[3])
    ensures IsUtf8(s) <==> IsUtf8(s[k..])
  {
    if k == 1 {
      Decode1Encodes(s[0]);
      DropFirst(s, Decode1(s[0]), 1);
    } else if k == 2 {
      Decode2Encodes(s[0], s[1]);
      DropFirst(s, Decode2(s[0], s[1]), 2);
    } else if k == 3 {
      Decode3Encodes(s[0], s[1], s[2]);
      DropFirst(s, Decode3(s[0], s[1], s[2]), 3);
    } else {
      Decode4Encodes(s[0], s[1], s[2], s[3]);
      DropFirst(s, Decode4(s[0], s[1], s[2], s[3]), 4);
    }
  }

  lemma EmptyIsUtf8()
    ensures IsUtf8([])
  {
    assert AllAccepted([]) && EncodeAll([]) == [];
  }

  /** Accept exactly the NUL-terminated strings that are UTF-8; z is where the NUL is, and nothing
      after it is read. */
  method Validate(str: array<bv8>, ghost z: nat) returns (ok: bool)
    requires str.Length == z + 1 && str[z] == 0 && forall i | 0 <= i < z :: str[i] != 0
    ensures ok <==> IsUtf8(str[..z])
  {
    var s := 0;
    while str[s] != 0
      invariant s <= z
      invariant IsUtf8(str[..z]) <==> IsUtf8(str[s..z])
      decreases z - s
    {
      ghost var rest := str[s..z];
      if IsUtf8(rest) {
        HeadOfUtf8Passes(rest);
      }
      if str[s] < 0x80 {
        PassHead(rest, 1);
        s := s + 1;
      } else if str[s] & 0xE0 == 0xC0 {
        if str[s + 1] & 0xC0 != 0x80 || str[s] & 0xFE == 0xC0 {
          return false;
        }
        PassHead(rest, 2);
        s := s + 2;
      } else if str[s] & 0xF0 == 0xE0 {
        if str[s + 1] & 0xC0 != 0x80 || str[s + 2] & 0xC0 != 0x80
           || (str[s] == 0xE0 && str[s + 1] & 0xE0 == 0x80)
           || (str[s] == 0xED && str[s + 1] & 0xE0 == 0xA0)
           || (str[s] == 0xEF && str[s + 1] == 0xBF && str[s + 2] & 0xFE == 0xBE) {
          return false;
        }
        PassHead(rest, 3);
        s := s + 3;
      } else if str[s] & 0xF8 == 0xF0 {
        if str[s + 1] & 0xC0 != 0x80 || str[s + 2] & 0xC0 != 0x80 || str[s + 3] & 0xC0 != 0x80
           || (str[s] == 0xF0 && str[s + 1] & 0xF0 == 0x80)
           || (str[s] == 0xF4 && str[s + 1] > 0x8F) || str[s] > 0xF4 {
          return false;
        }
        PassHead(rest, 4);
        s := s + 4;
      } else {
        return false;
      }
    }
    EmptyIsUtf8();
    assert str[s..z] == [];
    return true;
  }
}
