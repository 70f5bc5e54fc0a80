/** Circuit feature markers: the encoder of program-libs/feature-gate/src/lib.rs. */
module FeatureMarker {
  import opened ByteSeq
  import opened Result

  /** The bytes of an ASCII text without NUL. */
  function Ascii(text: string): (bytes: Bytes)
    requires forall i :: 0 <= i < |text| ==> 0 < text[i] as int < 128
    ensures |bytes| == |text| && forall i :: 0 <= i < |bytes| ==> 0 < bytes[i] == text[i] as int < 128
  {
    seq(|text|, i requires 0 <= i < |text| => text[i] as int)
  }

  const BEGIN: Bytes := Ascii("=======BEGIN SPR CIRCUIT FEATURE V1=======") + [0]
  const END: Bytes := Ascii("=======END SPR CIRCUIT FEATURE V1=======") + [0]
  const NAME: Bytes := Ascii("name")
  const ENABLED: Bytes := Ascii("enabled")
  const TRUE: Bytes := Ascii("true")
  const FALSE: Bytes := Ascii("false")
  const HASH: Bytes := Ascii("proving_key_sha256")

  datatype Feature = Feature(name: Bytes, enabled: bool, hashes: seq<Bytes>)

  // ----- Encoding.

  /** Texts, each with its terminating NUL. */
  function Fields(texts: seq<Bytes>): Bytes {
    if |texts| == 0 then [] else texts[0] + [0] + Fields(texts[1..])
  }

  function HexDigit(value: nat): Byte
    requires value < 16
  {
    if value < 10 then 48 + value else 87 + value
  }

  function HexOf(hash: Bytes): Bytes {
    if |hash| == 0 then [] else [HexDigit(hash[0] / 16), HexDigit(hash[0] % 16)] + HexOf(hash[1..])
  }

  function HashTexts(hashes: seq<Bytes>): seq<Bytes> {
    if |hashes| == 0 then [] else [HASH, HexOf(hashes[0])] + HashTexts(hashes[1..])
  }

  function HeaderTexts(f: Feature): seq<Bytes> {
    [NAME, f.name, ENABLED, if f.enabled then TRUE else FALSE]
  }

  function Body(f: Feature): Bytes {
    Fields(HeaderTexts(f) + HashTexts(f.hashes))
  }

  function Encoded(f: Feature): Bytes {
    BEGIN + Body(f) + END
  }

  /** `encoded_len`. */
  function EncodedLen(f: Feature): nat {
    |BEGIN| + (|NAME| + 1) + |f.name| + 1 + (|ENABLED| + 1) + (if f.enabled then 5 else 6)
    + |f.hashes| * (|HASH| + 1 + 65) + |END|
  }

  ghost predicate WideHashes(hashes: seq<Bytes>) {
    forall i :: 0 <= i < |hashes| ==> |hashes[i]| == 32
  }

  lemma {:induction false} FieldsConcat(a: seq<Bytes>, b: seq<Bytes>)
    ensures Fields(a + b) == Fields(a) + Fields(b)
  {
    if |a| == 0 {
      assert a + b == b;
    } else {
      assert (a + b)[1..] == a[1..] + b;
      FieldsConcat(a[1..], b);
    }
  }

  lemma {:induction false} HexLength(hash: Bytes)
    ensures |HexOf(hash)| == 2 * |hash|
  {
    if |hash| > 0 {
      HexLength(hash[1..]);
    }
  }

  lemma {:induction false} PairOfFields(a: Bytes, b: Bytes)
    ensures Fields([a, b]) == a + [0] + b + [0]
  {
    assert [a, b][1..] == [b] && [b][1..] == [];
    assert Fields([b]) == b + [0];
  }

  lemma {:induction false} HashTextsLength(hashes: seq<Bytes>)
    requires WideHashes(hashes)
    ensures |Fields(HashTexts(hashes))| == |hashes| * 84
  {
    hide Fields, HexOf;
    if |hashes| > 0 {
      var hex := HexOf(hashes[0]);
      FieldsConcat([HASH, hex], HashTexts(hashes[1..]));
      PairOfFields(HASH, hex);
      HexLength(hashes[0]);
      HashTextsLength(hashes[1..]);
    } else {
      NoFields();
    }
  }

  lemma {:induction false} NoFields()
    ensures Fields([]) == []
  {
  }

  /** The header, in the order in which it is written. */
  function Header(f: Feature): Bytes {
    NAME + [0] + f.name + [0] + (ENABLED + [0] + (if f.enabled then TRUE else FALSE) + [0])
  }

  lemma {:induction false} BodyParts(f: Feature)
    ensures Body(f) == Header(f) + Fields(HashTexts(f.hashes))
  {
    hide Fields, HashTexts, NAME, ENABLED, TRUE, FALSE;
    var flag := if f.enabled then TRUE else FALSE;
    FieldsConcat(HeaderTexts(f), HashTexts(f.hashes));
    assert HeaderTexts(f) == [NAME, f.name] + [ENABLED, flag];
    FieldsConcat([NAME, f.name], [ENABLED, flag]);
    PairOfFields(NAME, f.name);
    PairOfFields(ENABLED, flag);
  }

  lemma {:induction false} EncodedLength(f: Feature)
    requires WideHashes(f.hashes)
    ensures |Encoded(f)| == EncodedLen(f)
  {
    hide Body, Fields, HashTexts;
    BodyParts(f);
    HashTextsLength(f.hashes);
  }

  /** `write`: copies `bytes` to `offset`, or panics when they do not fit. */
  method Write(out: array<Byte>, offset: nat, bytes: Bytes) returns (r: Result<nat, string>)
    requires offset <= out.Length
    modifies out
    ensures r.Ok? <==> offset + |bytes| <= out.Length
    ensures r.Ok? ==> r.value == offset + |bytes| && out[..r.value] == old(out[..offset]) + bytes
  {
    var at := offset;
    var i := 0;
    while i < |bytes|
      invariant 0 <= i <= |bytes| && at == offset + i <= out.Length
      invariant out[..at] == old(out[..offset]) + bytes[..i]
    {
      if at == out.Length {
        return Err("feature marker overflow");
      }
      out[at] := bytes[i];
      assert out[..at + 1] == old(out[..offset]) + bytes[..i + 1];
      at := at + 1;
      i := i + 1;
    }
    assert bytes[..i] == bytes;
    r := Ok(at);
  }

  /** The writes before the keys, which fit. */
  method WriteHeader(out: array<Byte>, f: Feature) returns (offset: nat)
    requires |BEGIN + Header(f)| <= out.Length
    modifies out
    ensures offset == |BEGIN + Header(f)| && out[..offset] == BEGIN + Header(f)
  {
    hide BEGIN, NAME, ENABLED, TRUE, FALSE;
    ghost var flag := if f.enabled then TRUE else FALSE;
    ghost var nameField, flagField := NAME + [0] + f.name + [0], ENABLED + [0] + flag + [0];
    assert Header(f) == nameField + flagField;
    var w := Write(out, 0, BEGIN);
    offset := WriteField(out, w.value, NAME, f.name);
    offset := WriteField(out, offset, ENABLED, if f.enabled then TRUE else FALSE);
    assert BEGIN + nameField + flagField == BEGIN + (nameField + flagField);
  }

  /** A label and its text. */
  method WriteField(out: array<Byte>, start: nat, key: Bytes, text: Bytes) returns (offset: nat)
    requires start + |key + [0] + text + [0]| <= out.Length
    modifies out
    ensures offset == start + |key + [0] + text + [0]|
    ensures out[..offset] == old(out[..start]) + (key + [0] + text + [0])
  {
    var w := Write(out, start, key + [0]);
    w := Write(out, w.value, text);
    w := Write(out, w.value, [0]);
    offset := w.value;
  }

  /** One key: its label, then two digits per byte. */
  method WriteHash(out: array<Byte>, start: nat, hash: Bytes) returns (offset: nat)
    requires start + |Fields([HASH, HexOf(hash)])| <= out.Length
    modifies out
    ensures offset == start + |Fields([HASH, HexOf(hash)])|
    ensures out[..offset] == old(out[..start]) + Fields([HASH, HexOf(hash)])
  {
    hide HASH, Fields;
    ghost var before := out[..start];
    PairOfFields(HASH, HexOf(hash));
    var w := Write(out, start, HASH + [0]);
    offset := w.value;
    var bytes := hash;
    ghost var done: Bytes := [];
    while bytes != []
      invariant offset == start + |HASH| + 1 + |done| <= out.Length && done + HexOf(bytes) == HexOf(hash)
      invariant out[..offset] == before + (HASH + [0]) + done
      decreases |bytes|
    {
      var byte := bytes[0];
      ghost var pair := [HexDigit(byte / 16), HexDigit(byte % 16)];
      assert done + HexOf(bytes) == done + pair + HexOf(bytes[1..]);
      w := Write(out, offset, [HexDigit(byte / 16), HexDigit(byte % 16)]);
      offset := w.value;
      done := done + pair;
      bytes := bytes[1..];
    }
    w := Write(out, offset, [0]);
    offset := w.value;
    assert before + (HASH + [0]) + done + [0] == before + (HASH + [0] + HexOf(hash) + [0]);
  }

  /** `encode`, with its compile-time panics as errors: the buffer is filled to its last byte. */
  method Encode(f: Feature, n: nat) returns (r: Result<Bytes, string>)
    requires WideHashes(f.hashes)
    ensures r.Ok? <==> n == EncodedLen(f) && f.name != [] && f.hashes != []
    ensures r.Ok? ==> r.value == Encoded(f)
  {
    hide EncodedLen, HexOf, Fields, Header, Body, BEGIN, END, HASH, HashTexts;
    if n != EncodedLen(f) {
      return Err("incorrect feature marker length");
    }
    if f.name == [] {
      return Err("empty circuit feature name");
    }
    if f.hashes == [] {
      return Err("feature has no keys");
    }
    EncodedLength(f);
    BodyParts(f);
    var encoded := new Byte[n](_ => 0);
    var offset := WriteHeader(encoded, f);
    var keys := f.hashes;
    ghost var head, all, done: Bytes := BEGIN + Header(f), Fields(HashTexts(f.hashes)), [];
    while keys != []
      invariant offset == |head| + |done| <= n && done + Fields(HashTexts(keys)) == all
      invariant encoded[..offset] == head + done
      decreases |keys|
    {
      ghost var key := Fields([HASH, HexOf(keys[0])]);
      NextKey(keys);
      assert done + Fields(HashTexts(keys)) == done + key + Fields(HashTexts(keys[1..]));
      offset := WriteHash(encoded, offset, keys[0]);
      done := done + key;
      keys := keys[1..];
    }
    NoFields();
    NoTexts();
    var w := Write(encoded, offset, END);
    assert head + all + END == BEGIN + Body(f) + END;
    assert encoded[..w.value] == encoded[..];
    r := Ok(encoded[..]);
  }

  lemma {:induction false} NoTexts()
    ensures HashTexts([]) == []
  {
  }

  lemma {:induction false} NextKey(keys: seq<Bytes>)
    requires |keys| > 0
    ensures Fields(HashTexts(keys)) == Fields([HASH, HexOf(keys[0])]) + Fields(HashTexts(keys[1..]))
  {
    hide Fields, HexOf;
    FieldsConcat([HASH, HexOf(keys[0])], HashTexts(keys[1..]));
  }

  // ----- The bytes of a marker.

  const DIGITS: Bytes := Ascii("0123456789abcdef")

  lemma {:induction false} HexDigitIs(v: nat)
    requires v < 16
    ensures HexDigit(v) == DIGITS[v]
  {
  }

  /** Two lower-case digits per byte, the high one first. */
  lemma {:induction false} HexOfAt(hash: Bytes, i: nat)
    requires i < |hash|
    ensures |HexOf(hash)| == 2 * |hash|
    ensures HexOf(hash)[2 * i] == DIGITS[hash[i] / 16] && HexOf(hash)[2 * i + 1] == DIGITS[hash[i] % 16]
  {
    hide DIGITS, HexDigit;
    HexLength(hash);
    DigitCount();
    if i == 0 {
      HexDigitIs(hash[0] / 16);
      HexDigitIs(hash[0] % 16);
    } else {
      HexOfAt(hash[1..], i - 1);
      assert HexOf(hash)[2..] == HexOf(hash[1..]);
    }
  }

  lemma {:induction false} DigitCount()
    ensures |DIGITS| == 16
  {
  }

  /** A marker, byte for byte. */
  lemma {:induction false} EncodedBytes(f: Feature)
    ensures Encoded(f) ==
              Ascii("=======BEGIN SPR CIRCUIT FEATURE V1=======") + [0]
              + (Ascii("name") + [0] + f.name + [0]
                 + (Ascii("enabled") + [0] + (if f.enabled then Ascii("true") else Ascii("false")) + [0])
                 + Fields(HashTexts(f.hashes)))
              + (Ascii("=======END SPR CIRCUIT FEATURE V1=======") + [0])
  {
    hide Ascii, Fields, HashTexts, Body;
    BodyParts(f);
  }

  /** And each key in it. */
  lemma {:induction false} KeyBytes(hash: Bytes, rest: seq<Bytes>)
    ensures Fields(HashTexts([])) == []
    ensures Fields(HashTexts([hash] + rest))
            == Ascii("proving_key_sha256") + [0] + HexOf(hash) + [0] + Fields(HashTexts(rest))
  {
    hide Ascii, HexOf, Fields;
    NoFields();
    assert ([hash] + rest)[1..] == rest;
    NextKey([hash] + rest);
    PairOfFields(HASH, HexOf(hash));
  }
}
