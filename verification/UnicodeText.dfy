/** Text as `core::str::from_utf8` accepts it. */
module UnicodeText {
  import opened ByteSeq

  predicate Continues(b: Byte) {
    0x80 <= b <= 0xBF
  }

  /** Well-formed UTF-8, as table 3-7 of the Unicode Standard lists it. */
  predicate Utf8(text: Bytes) {
    if |text| == 0 then true
    else if text[0] < 0x80 then Utf8(text[1..])
    else if |text| >= 2 && 0xC2 <= text[0] <= 0xDF then Continues(text[1]) && Utf8(text[2..])
    else if |text| >= 3 && 0xE0 <= text[0] <= 0xEF then
      && Continues(text[1]) && Continues(text[2])
      && (text[0] == 0xE0 ==> 0xA0 <= text[1]) && (text[0] == 0xED ==> text[1] <= 0x9F)
      && Utf8(text[3..])
    else if |text| >= 4 && 0xF0 <= text[0] <= 0xF4 then
      && Continues(text[1]) && Continues(text[2]) && Continues(text[3])
      && (text[0] == 0xF0 ==> 0x90 <= text[1]) && (text[0] == 0xF4 ==> text[1] <= 0x8F)
      && Utf8(text[4..])
    else false
  }

  lemma {:induction false} AsciiIsUtf8(text: Bytes)
    requires forall i :: 0 <= i < |text| ==> text[i] < 128
    ensures Utf8(text)
  {
    if |text| > 0 {
      AsciiIsUtf8(text[1..]);
    }
  }

  predicate Scalar(c: nat) {
    c < 0x110000 && !(0xD800 <= c <= 0xDFFF)
  }

  /** The UTF-8 bytes of a Unicode scalar value, section 3.9 of the Unicode Standard. */
  function ScalarBytes(c: nat): (bytes: Bytes)
    requires Scalar(c)
    ensures 1 <= |bytes| <= 4
  {
    if c < 0x80 then [c]
    else if c < 0x800 then [0xC0 + c / 64, 0x80 + c % 64]
    else if c < 0x10000 then [0xE0 + c / 4096, 0x80 + c / 64 % 64, 0x80 + c % 64]
    else [0xF0 + c / 262144, 0x80 + c / 4096 % 64, 0x80 + c / 64 % 64, 0x80 + c % 64]
  }

  function Utf8Of(cs: seq<nat>): Bytes
    requires forall i :: 0 <= i < |cs| ==> Scalar(cs[i])
  {
    if |cs| == 0 then [] else ScalarBytes(cs[0]) + Utf8Of(cs[1..])
  }

  lemma {:induction false} Utf8OfIsUtf8(cs: seq<nat>)
    requires forall i :: 0 <= i < |cs| ==> Scalar(cs[i])
    ensures Utf8(Utf8Of(cs))
  {
    if |cs| > 0 {
      Utf8OfIsUtf8(cs[1..]);
      ScalarFirst(cs[0], Utf8Of(cs[1..]));
    }
  }

  lemma {:induction false} ScalarFirst(c: nat, rest: Bytes)
    requires Scalar(c) && Utf8(rest)
    ensures Utf8(ScalarBytes(c) + rest)
  {
    var head := ScalarBytes(c);
    var text := head + rest;
    assert text[|head|..] == rest;
    assert text[0] == head[0] && (|head| > 1 ==> text[1] == head[1]);
    assert (|head| > 2 ==> text[2] == head[2]) && (|head| > 3 ==> text[3] == head[3]);
  }

  lemma {:induction false} SixBits(x: nat, d: nat)
    requires d < 64
    ensures (64 * x + d) / 64 == x && (64 * x + d) % 64 == d
    ensures (64 * x + d) / 4096 == x / 64 && (64 * x + d) / 262144 == x / 4096
  {
  }

  lemma {:induction false} TwoBytes(a: nat, d: nat)
    requires 2 <= a < 32 && d < 64
    ensures Scalar(64 * a + d) && ScalarBytes(64 * a + d) == [0xC0 + a, 0x80 + d]
  {
    SixBits(a, d);
  }

  lemma {:induction false} ThreeBytes(a: nat, b: nat, d: nat)
    requires a < 16 && b < 64 && d < 64 && (a == 0 ==> b >= 32) && (a == 13 ==> b < 32)
    ensures var c := 64 * (64 * a + b) + d; Scalar(c) && ScalarBytes(c) == [0xE0 + a, 0x80 + b, 0x80 + d]
  {
    SixBits(64 * a + b, d);
    SixBits(a, b);
  }

  lemma {:induction false} FourBytes(a: nat, b: nat, d: nat, e: nat)
    requires a < 5 && b < 64 && d < 64 && e < 64 && (a == 0 ==> b >= 16) && (a == 4 ==> b < 16)
    ensures var c := 64 * (64 * (64 * a + b) + d) + e;
            Scalar(c) && ScalarBytes(c) == [0xF0 + a, 0x80 + b, 0x80 + d, 0x80 + e]
  {
    SixBits(64 * (64 * a + b) + d, e);
    SixBits(64 * a + b, d);
    SixBits(a, b);
  }

  lemma {:induction false} FirstScalar(text: Bytes) returns (c: nat)
    requires text != [] && Utf8(text)
    ensures Scalar(c) && ScalarBytes(c) <= text && Utf8(text[|ScalarBytes(c)|..])
  {
    hide ScalarBytes, Scalar;
    var b0: int := text[0];
    if b0 < 0x80 {
      c := b0;
      OneByte(c);
      assert [c] <= text;
    } else if b0 <= 0xDF {
      var b1: int := text[1];
      c := 64 * (b0 - 0xC0) + (b1 - 0x80);
      TwoBytes(b0 - 0xC0, b1 - 0x80);
      assert [b0, b1] <= text;
    } else if b0 <= 0xEF {
      var b1: int, b2: int := text[1], text[2];
      c := 64 * (64 * (b0 - 0xE0) + (b1 - 0x80)) + (b2 - 0x80);
      ThreeBytes(b0 - 0xE0, b1 - 0x80, b2 - 0x80);
      assert [b0, b1, b2] <= text;
    } else {
      var b1: int, b2: int, b3: int := text[1], text[2], text[3];
      c := 64 * (64 * (64 * (b0 - 0xF0) + (b1 - 0x80)) + (b2 - 0x80)) + (b3 - 0x80);
      FourBytes(b0 - 0xF0, b1 - 0x80, b2 - 0x80, b3 - 0x80);
      assert [b0, b1, b2, b3] <= text;
    }
  }

  lemma {:induction false} OneByte(c: nat)
    requires c < 0x80
    ensures Scalar(c) && ScalarBytes(c) == [c]
  {
  }

  lemma {:induction false} Utf8Decodes(text: Bytes) returns (cs: seq<nat>)
    requires Utf8(text)
    ensures (forall i :: 0 <= i < |cs| ==> Scalar(cs[i])) && Utf8Of(cs) == text
  {
    hide ScalarBytes, Utf8;
    if |text| == 0 {
      cs := [];
    } else {
      var c := FirstScalar(text);
      var n := |ScalarBytes(c)|;
      var rest := Utf8Decodes(text[n..]);
      cs := [c] + rest;
      assert cs[1..] == rest;
      assert text == text[..n] + text[n..] && text[..n] == ScalarBytes(c);
    }
  }

  /** The bytes accepted as text are exactly the encodings of lists of scalar values. */
  lemma {:induction false} Utf8Iff(text: Bytes)
    ensures Utf8(text) <==> exists cs: seq<nat> :: (forall i :: 0 <= i < |cs| ==> Scalar(cs[i])) && Utf8Of(cs) == text
  {
    if Utf8(text) {
      var cs := Utf8Decodes(text);
    }
    if cs: seq<nat> :| (forall i :: 0 <= i < |cs| ==> Scalar(cs[i])) && Utf8Of(cs) == text {
      Utf8OfIsUtf8(cs);
    }
  }
}
