/** Output payloads: program-libs/event/src/proofless.rs and program-libs/event/src/merge_output.rs. */
module OutputCodec {
  import opened ByteSeq
  import opened Result

  // ----- Borsh, for the field types these payloads use.

  datatype Kind = FixedKind(size: nat) | U64Kind | OptionalHashKind | OptionalBytesKind | BytesKind

  datatype Value =
    | Fixed(bytes: Bytes)
    | U64(number: nat)
    | OptionalHash(hash: Option<Bytes>)
    | OptionalBytes(data: Option<Bytes>)
    | Vector(bytes: Bytes)

  /** Values a Rust field of the kind can hold. A longer vector makes the encoder fail. */
  predicate Fits(kind: Kind, value: Value) {
    match (kind, value)
    case (FixedKind(size), Fixed(bytes)) => |bytes| == size
    case (U64Kind, U64(n)) => n < Range(8)
    case (OptionalHashKind, OptionalHash(hash)) => hash.Some? ==> |hash.value| == 32
    case (OptionalBytesKind, OptionalBytes(data)) => data.Some? ==> |data.value| < Range(4)
    case (BytesKind, Vector(bytes)) => |bytes| < Range(4)
    case _ => false
  }

  function EncodedBytes(bytes: Bytes): Bytes {
    LittleEndian(|bytes|, 4) + bytes
  }

  function Encoded(value: Value): Bytes {
    match value
    case Fixed(bytes) => bytes
    case U64(n) => LittleEndian(n, 8)
    case OptionalHash(hash) => if hash.Some? then [1] + hash.value else [0]
    case OptionalBytes(data) => if data.Some? then [1] + EncodedBytes(data.value) else [0]
    case Vector(bytes) => EncodedBytes(bytes)
  }

  function Take(data: Bytes, n: nat): Option<(Bytes, Bytes)> {
    if |data| < n then None else Some((data[..n], data[n..]))
  }

  function TakeBytes(data: Bytes): Option<(Bytes, Bytes)> {
    match Take(data, 4)
    case None => None
    case Some((length, rest)) => Take(rest, LittleEndianValue(length))
  }

  function Decoded(kind: Kind, data: Bytes): Option<(Value, Bytes)> {
    match kind
    case FixedKind(size) => (match Take(data, size) case None => None case Some((x, rest)) => Some((Fixed(x), rest)))
    case U64Kind =>
      (match Take(data, 8) case None => None case Some((x, rest)) => Some((U64(LittleEndianValue(x)), rest)))
    case BytesKind => (match TakeBytes(data) case None => None case Some((x, rest)) => Some((Vector(x), rest)))
    case OptionalHashKind =>
      if |data| == 0 || data[0] > 1 then None
      else if data[0] == 0 then Some((OptionalHash(None), data[1..]))
      else (match Take(data[1..], 32) case None => None case Some((x, rest)) => Some((OptionalHash(Some(x)), rest)))
    case OptionalBytesKind =>
      if |data| == 0 || data[0] > 1 then None
      else if data[0] == 0 then Some((OptionalBytes(None), data[1..]))
      else (match TakeBytes(data[1..]) case None => None case Some((x, rest)) => Some((OptionalBytes(Some(x)), rest)))
  }

  lemma {:induction false} TakeFront(x: Bytes, rest: Bytes)
    ensures Take(x + rest, |x|) == Some((x, rest))
  {
    assert (x + rest)[..|x|] == x && (x + rest)[|x|..] == rest;
  }

  lemma {:induction false} TakeBytesFront(x: Bytes, rest: Bytes)
    requires |x| < Range(4)
    ensures TakeBytes(EncodedBytes(x) + rest) == Some((x, rest))
  {
    var length := LittleEndian(|x|, 4);
    assert EncodedBytes(x) + rest == length + (x + rest);
    TakeFront(length, x + rest);
    ValueOfLittleEndian(|x|, 4);
    TakeFront(x, rest);
  }

  lemma {:induction false} TakeBytesOnly(data: Bytes)
    requires TakeBytes(data).Some?
    ensures var (x, rest) := TakeBytes(data).value; |x| < Range(4) && data == EncodedBytes(x) + rest
  {
    LittleEndianOfValue(data[..4]);
    var (x, rest) := TakeBytes(data).value;
    assert data == data[..4] + (x + rest);
  }

  /** A value is read back, and what follows it is left. */
  lemma {:induction false} DecodeInvertsEncode(kind: Kind, value: Value, rest: Bytes)
    requires Fits(kind, value)
    ensures Decoded(kind, Encoded(value) + rest) == Some((value, rest))
  {
    hide LittleEndian, LittleEndianValue, Take, TakeBytes, EncodedBytes;
    var data := Encoded(value) + rest;
    match value
    case Fixed(bytes) => TakeFront(bytes, rest);
    case U64(n) =>
      ValueOfLittleEndian(n, 8);
      TakeFront(LittleEndian(n, 8), rest);
    case Vector(bytes) => TakeBytesFront(bytes, rest);
    case OptionalHash(hash) =>
      if hash.Some? {
        assert data[1..] == hash.value + rest;
        TakeFront(hash.value, rest);
      } else {
        assert data[1..] == rest;
      }
    case OptionalBytes(bytes) =>
      if bytes.Some? {
        assert data[1..] == EncodedBytes(bytes.value) + rest;
        TakeBytesFront(bytes.value, rest);
      } else {
        assert data[1..] == rest;
      }
  }

  /** Only the encoding of a value is read as that value. */
  lemma {:induction false} DecodeOnlyEncodings(kind: Kind, data: Bytes)
    requires Decoded(kind, data).Some?
    ensures var (value, rest) := Decoded(kind, data).value; Fits(kind, value) && data == Encoded(value) + rest
  {
    hide LittleEndian, LittleEndianValue, TakeBytes, EncodedBytes, Range;
    match kind
    case FixedKind(size) =>
    case U64Kind => LittleEndianOfValue(data[..8]);
    case BytesKind => TakeBytesOnly(data);
    case OptionalHashKind =>
      assert data == [data[0]] + data[1..];
    case OptionalBytesKind =>
      assert data == [data[0]] + data[1..];
      if data[0] == 1 {
        TakeBytesOnly(data[1..]);
        var (x, rest) := TakeBytes(data[1..]).value;
        assert [1] + (EncodedBytes(x) + rest) == [1] + EncodedBytes(x) + rest;
      }
  }

  ghost predicate AllFit(schema: seq<Kind>, values: seq<Value>) {
    |values| == |schema| && forall i :: 0 <= i < |schema| ==> Fits(schema[i], values[i])
  }

  function EncodedAll(values: seq<Value>): Bytes {
    if |values| == 0 then [] else Encoded(values[0]) + EncodedAll(values[1..])
  }

  /** `try_from_slice`: the fields in order, and nothing after them. */
  function DecodedAll(schema: seq<Kind>, data: Bytes): Option<seq<Value>>
    decreases |schema|
  {
    if |schema| == 0 then (if data == [] then Some([]) else None)
    else
      match Decoded(schema[0], data)
      case None => None
      case Some((value, rest)) =>
        match DecodedAll(schema[1..], rest)
        case None => None
        case Some(values) => Some([value] + values)
  }

  /** A record is read from a body exactly when the body is its encoding. */
  lemma {:induction false} BodyRoundTrip(schema: seq<Kind>, values: seq<Value>, data: Bytes)
    ensures DecodedAll(schema, data) == Some(values) <==> AllFit(schema, values) && data == EncodedAll(values)
    decreases |schema|
  {
    hide Decoded, Encoded, Fits;
    if |schema| > 0 {
      if Decoded(schema[0], data).Some? {
        var (value, rest) := Decoded(schema[0], data).value;
        DecodeOnlyEncodings(schema[0], data);
        if |values| > 0 {
          BodyRoundTrip(schema[1..], values[1..], rest);
        }
      }
      if AllFit(schema, values) && data == EncodedAll(values) {
        DecodeInvertsEncode(schema[0], values[0], EncodedAll(values[1..]));
        BodyRoundTrip(schema[1..], values[1..], EncodedAll(values[1..]));
        assert [values[0]] + values[1..] == values;
      }
    }
  }

  // ----- The tagged envelope.

  const PLAINTEXT_TAG: Byte := 0
  const ENCRYPTED_TAG: Byte := 1
  const VERIFIABLY_ENCRYPTED_TAG: Byte := 2

  /** Borsh of `OutputDataEncoding::<tag>(scheme || body)`. */
  function Tagged(tag: Byte, scheme: Byte, body: Bytes): Bytes {
    [tag] + EncodedBytes([scheme] + body)
  }

  /** `encode_tagged_body`: the length is patched in after the body. It panics past `u32::MAX`. */
  method EncodeTaggedBody(tag: Byte, scheme: Byte, body: Bytes) returns (r: Option<Bytes>)
    ensures r.Some? <==> 1 + |body| < Range(4)
    ensures r.Some? ==> r.value == Tagged(tag, scheme, body)
  {
    hide LittleEndian, Range;
    var out: Bytes := [tag];
    out := out + [0, 0, 0, 0];
    out := out + [scheme];
    out := out + body;
    var bodyLen := |out| - 5;
    if bodyLen >= Range(4) {
      return None;
    }
    var length := LittleEndian(bodyLen, 4);
    out := out[1 := length[0]];
    out := out[2 := length[1]];
    out := out[3 := length[2]];
    out := out[4 := length[3]];
    assert out == [tag] + (length + ([scheme] + body));
    r := Some(out);
  }

  /** `encrypted_output_body`. */
  function EncryptedBody(data: Bytes, scheme: Byte): Option<Bytes> {
    if |data| == 0 || data[0] != ENCRYPTED_TAG then None
    else
      match Take(data[1..], 4)
      case None => None
      case Some((length, body)) =>
        if |body| > 0 && LittleEndianValue(length) == |body| && body[0] == scheme then Some(body[1..]) else None
  }

  /** The payload is found exactly in the encodings of that scheme. */
  lemma {:induction false} EncryptedBodyIffTagged(data: Bytes, scheme: Byte, payload: Bytes)
    ensures EncryptedBody(data, scheme) == Some(payload)
            <==> 1 + |payload| < Range(4) && data == Tagged(ENCRYPTED_TAG, scheme, payload)
  {
    hide LittleEndian, LittleEndianValue, Range;
    var inner := [scheme] + payload;
    if 1 + |payload| < Range(4) && data == Tagged(ENCRYPTED_TAG, scheme, payload) {
      var length := LittleEndian(|inner|, 4);
      assert data[1..] == length + inner;
      TakeFront(length, inner);
      ValueOfLittleEndian(|inner|, 4);
      assert inner[1..] == payload;
    }
    if EncryptedBody(data, scheme) == Some(payload) {
      var length, body := data[1..][..4], data[1..][4..];
      LittleEndianOfValue(length);
      assert body == [body[0]] + body[1..];
      assert data == [data[0]] + (length + body);
    }
  }

  // ----- The two records.

  const PROOFLESS: seq<Kind> := [
    FixedKind(32), FixedKind(32), FixedKind(32), U64Kind, OptionalHashKind, OptionalBytesKind,
    OptionalHashKind, OptionalHashKind, OptionalBytesKind, OptionalBytesKind]

  const RING_DEPOSIT: seq<Kind> := [
    FixedKind(32), FixedKind(32), U64Kind, OptionalHashKind, FixedKind(32), FixedKind(32),
    FixedKind(33), FixedKind(16), BytesKind]

  /** The most bytes a field adds besides its variable-length ones. */
  function FixedPart(kind: Kind): nat {
    match kind
    case FixedKind(size) => size
    case U64Kind => 8
    case OptionalHashKind => 33
    case OptionalBytesKind => 5
    case BytesKind => 4
  }

  function VariablePart(value: Value): nat {
    match value
    case OptionalBytes(data) => if data.Some? then |data.value| else 0
    case Vector(bytes) => |bytes|
    case _ => 0
  }

  function FixedParts(schema: seq<Kind>): nat {
    if |schema| == 0 then 0 else FixedPart(schema[0]) + FixedParts(schema[1..])
  }

  function VariableParts(values: seq<Value>): nat {
    if |values| == 0 then 0 else VariablePart(values[0]) + VariableParts(values[1..])
  }

  lemma {:induction false} BodyLength(schema: seq<Kind>, values: seq<Value>)
    requires AllFit(schema, values)
    ensures |EncodedAll(values)| <= FixedParts(schema) + VariableParts(values)
  {
    if |schema| > 0 {
      assert Fits(schema[0], values[0]);
      BodyLength(schema[1..], values[1..]);
    }
  }

  lemma {:induction false} SchemaSizes()
    ensures FixedParts(PROOFLESS) == 218 && FixedParts(RING_DEPOSIT) == 222
  {
    hide FixedParts;
    var p, r := PROOFLESS, RING_DEPOSIT;
    TwoParts(p);
    TwoParts(p[2..]);
    TwoParts(p[4..]);
    TwoParts(p[6..]);
    TwoParts(p[8..]);
    assert p[2..][2..] == p[4..] && p[4..][2..] == p[6..] && p[6..][2..] == p[8..] && p[8..][2..] == [];
    TwoParts(r);
    TwoParts(r[2..]);
    TwoParts(r[4..]);
    TwoParts(r[6..]);
    assert r[2..][2..] == r[4..] && r[4..][2..] == r[6..] && r[6..][2..] == [BytesKind];
  }

  lemma {:induction false} TwoParts(schema: seq<Kind>)
    ensures FixedParts([]) == 0 && FixedParts([BytesKind]) == 4
    ensures |schema| >= 2 ==>
              FixedParts(schema) == FixedPart(schema[0]) + FixedPart(schema[1]) + FixedParts(schema[2..])
  {
    assert [BytesKind][1..] == [];
    if |schema| >= 2 {
      assert schema[1..][1..] == schema[2..];
    }
  }

  datatype ProoflessOutput = ProoflessOutput(
    owner: Bytes, blinding: Bytes, asset: Bytes, amount: nat, dataHash: Option<Bytes>, utxoData: Option<Bytes>,
    ringProgramId: Option<Bytes>, ringDataHash: Option<Bytes>, ringData: Option<Bytes>, memo: Option<Bytes>)

  datatype RingDepositOutput = RingDepositOutput(
    ownerUtxoHash: Bytes, asset: Bytes, amount: nat, dataHash: Option<Bytes>, ringProgramId: Bytes,
    ringDataHash: Bytes, txViewingPk: Bytes, salt: Bytes, ciphertext: Bytes)

  function ProoflessFields(p: ProoflessOutput): seq<Value> {
    [Fixed(p.owner), Fixed(p.blinding), Fixed(p.asset), U64(p.amount),
     OptionalHash(p.dataHash), OptionalBytes(p.utxoData), OptionalHash(p.ringProgramId), OptionalHash(p.ringDataHash),
     OptionalBytes(p.ringData), OptionalBytes(p.memo)]
  }

  function RingDepositFields(d: RingDepositOutput): seq<Value> {
    [Fixed(d.ownerUtxoHash), Fixed(d.asset), U64(d.amount), OptionalHash(d.dataHash), Fixed(d.ringProgramId),
     Fixed(d.ringDataHash), Fixed(d.txViewingPk), Fixed(d.salt), Vector(d.ciphertext)]
  }

  lemma {:induction false} EncodedCons(value: Value, rest: seq<Value>)
    ensures EncodedAll([value] + rest) == Encoded(value) + EncodedAll(rest) && EncodedAll([]) == []
  {
    assert ([value] + rest)[1..] == rest;
  }

  /** Borsh options: a zero byte, or a one byte and the value; vectors are preceded by their length. */
  lemma {:induction false} OptionBytes(x: Bytes)
    ensures Encoded(OptionalHash(None)) == [0] && Encoded(OptionalHash(Some(x))) == [1] + x
    ensures Encoded(OptionalBytes(None)) == [0]
    ensures Encoded(OptionalBytes(Some(x))) == [1] + (LittleEndian(|x|, 4) + x)
    ensures Encoded(Vector(x)) == LittleEndian(|x|, 4) + x
  {
  }

  /** The optional fields of a plaintext output, in the order in which they are written. */
  function ProoflessTail(p: ProoflessOutput): Bytes {
    Encoded(OptionalHash(p.dataHash))
    + (Encoded(OptionalBytes(p.utxoData))
       + (Encoded(OptionalHash(p.ringProgramId))
          + (Encoded(OptionalHash(p.ringDataHash))
             + (Encoded(OptionalBytes(p.ringData)) + Encoded(OptionalBytes(p.memo))))))
  }

  lemma {:induction false} ProoflessBody(p: ProoflessOutput)
    ensures EncodedAll(ProoflessFields(p))
            == p.owner + (p.blinding + (p.asset + (LittleEndian(p.amount, 8) + ProoflessTail(p))))
  {
    hide EncodedAll, LittleEndian;
    var memo := [OptionalBytes(p.memo)];
    var ringData := [OptionalBytes(p.ringData)] + memo;
    var ringDataHash := [OptionalHash(p.ringDataHash)] + ringData;
    var ringProgramId := [OptionalHash(p.ringProgramId)] + ringDataHash;
    var utxoData := [OptionalBytes(p.utxoData)] + ringProgramId;
    var dataHash := [OptionalHash(p.dataHash)] + utxoData;
    var amount := [U64(p.amount)] + dataHash;
    var asset := [Fixed(p.asset)] + amount;
    var blinding := [Fixed(p.blinding)] + asset;
    assert ProoflessFields(p) == [Fixed(p.owner)] + blinding && memo == memo + [];
    EncodedCons(Fixed(p.owner), blinding);
    EncodedCons(Fixed(p.blinding), asset);
    EncodedCons(Fixed(p.asset), amount);
    EncodedCons(U64(p.amount), dataHash);
    EncodedCons(OptionalHash(p.dataHash), utxoData);
    EncodedCons(OptionalBytes(p.utxoData), ringProgramId);
    EncodedCons(OptionalHash(p.ringProgramId), ringDataHash);
    EncodedCons(OptionalHash(p.ringDataHash), ringData);
    EncodedCons(OptionalBytes(p.ringData), memo);
    EncodedCons(OptionalBytes(p.memo), []);
    assert Encoded(OptionalBytes(p.memo)) + [] == Encoded(OptionalBytes(p.memo));
  }

  /** What follows the amount of a ring deposit. */
  function RingDepositTail(d: RingDepositOutput): Bytes {
    Encoded(OptionalHash(d.dataHash))
    + (d.ringProgramId
       + (d.ringDataHash + (d.txViewingPk + (d.salt + (LittleEndian(|d.ciphertext|, 4) + d.ciphertext)))))
  }

  lemma {:induction false} RingDepositBody(d: RingDepositOutput)
    ensures EncodedAll(RingDepositFields(d))
            == d.ownerUtxoHash + (d.asset + (LittleEndian(d.amount, 8) + RingDepositTail(d)))
  {
    hide EncodedAll, LittleEndian;
    var ciphertext := [Vector(d.ciphertext)];
    var salt := [Fixed(d.salt)] + ciphertext;
    var txViewingPk := [Fixed(d.txViewingPk)] + salt;
    var ringDataHash := [Fixed(d.ringDataHash)] + txViewingPk;
    var ringProgramId := [Fixed(d.ringProgramId)] + ringDataHash;
    var dataHash := [OptionalHash(d.dataHash)] + ringProgramId;
    var amount := [U64(d.amount)] + dataHash;
    var asset := [Fixed(d.asset)] + amount;
    assert RingDepositFields(d) == [Fixed(d.ownerUtxoHash)] + asset && ciphertext == ciphertext + [];
    EncodedCons(Fixed(d.ownerUtxoHash), asset);
    EncodedCons(Fixed(d.asset), amount);
    EncodedCons(U64(d.amount), dataHash);
    EncodedCons(OptionalHash(d.dataHash), ringProgramId);
    EncodedCons(Fixed(d.ringProgramId), ringDataHash);
    EncodedCons(Fixed(d.ringDataHash), txViewingPk);
    EncodedCons(Fixed(d.txViewingPk), salt);
    EncodedCons(Fixed(d.salt), ciphertext);
    EncodedCons(Vector(d.ciphertext), []);
    assert Encoded(Vector(d.ciphertext)) + [] == Encoded(Vector(d.ciphertext));
  }

  /** The envelope in front of a body: tag, `u32` length of scheme and body, scheme. */
  lemma {:induction false} TaggedHead(tag: Byte, scheme: Byte, body: Bytes)
    ensures var data := Tagged(tag, scheme, body);
            && |data| == 6 + |body| && data[0] == tag && data[5] == scheme
            && data[1..5] == LittleEndian(1 + |body|, 4) && data[6..] == body
  {
    hide LittleEndian;
    var length := LittleEndian(1 + |body|, 4);
    assert Tagged(tag, scheme, body) == [tag] + length + [scheme] + body;
  }

  /** A plaintext output, byte for byte. */
  ghost predicate ProoflessAt(data: Bytes, p: ProoflessOutput) {
    && |data| >= 110 && data[0] == 0 && data[1..5] == LittleEndian(|data| - 5, 4) && data[5] == 0
    && data[6..38] == p.owner && data[38..70] == p.blinding && data[70..102] == p.asset
    && data[102..110] == LittleEndian(p.amount, 8) && data[110..] == ProoflessTail(p)
  }

  lemma {:induction false} ProoflessLayout(p: ProoflessOutput)
    requires AllFit(PROOFLESS, ProoflessFields(p))
    ensures ProoflessAt(Tagged(PLAINTEXT_TAG, PLAINTEXT_SCHEME, EncodedAll(ProoflessFields(p))), p)
  {
    hide EncodedAll, LittleEndian, ProoflessTail, Tagged, ProoflessFields, PROOFLESS;
    ProoflessSizes(p);
    ProoflessBody(p);
    var body, n, tail := EncodedAll(ProoflessFields(p)), LittleEndian(p.amount, 8), ProoflessTail(p);
    TaggedHead(PLAINTEXT_TAG, PLAINTEXT_SCHEME, body);
    var data := Tagged(PLAINTEXT_TAG, PLAINTEXT_SCHEME, body);
    Slices(data, 6, p.owner, p.blinding + (p.asset + (n + tail)));
    Slices(data, 38, p.blinding, p.asset + (n + tail));
    Slices(data, 70, p.asset, n + tail);
    Slices(data, 102, n, tail);
  }

  /** A ring deposit, byte for byte. */
  ghost predicate RingDepositAt(data: Bytes, d: RingDepositOutput) {
    && |data| >= 78 && data[0] == 1 && data[1..5] == LittleEndian(|data| - 5, 4) && data[5] == 8
    && data[6..38] == d.ownerUtxoHash && data[38..70] == d.asset
    && data[70..78] == LittleEndian(d.amount, 8) && data[78..] == RingDepositTail(d)
  }

  lemma {:induction false} RingDepositLayout(d: RingDepositOutput)
    requires AllFit(RING_DEPOSIT, RingDepositFields(d))
    ensures RingDepositAt(Tagged(ENCRYPTED_TAG, ENCRYPTED_RING_DEPOSIT_SCHEME, EncodedAll(RingDepositFields(d))), d)
  {
    hide EncodedAll, LittleEndian, RingDepositTail, Tagged, RingDepositFields, RING_DEPOSIT;
    RingDepositSizes(d);
    RingDepositBody(d);
    var body, n, tail := EncodedAll(RingDepositFields(d)), LittleEndian(d.amount, 8), RingDepositTail(d);
    TaggedHead(ENCRYPTED_TAG, ENCRYPTED_RING_DEPOSIT_SCHEME, body);
    var data := Tagged(ENCRYPTED_TAG, ENCRYPTED_RING_DEPOSIT_SCHEME, body);
    Slices(data, 6, d.ownerUtxoHash, d.asset + (n + tail));
    Slices(data, 38, d.asset, n + tail);
    Slices(data, 70, n, tail);
  }

  lemma {:induction false} Slices(data: Bytes, at: nat, x: Bytes, rest: Bytes)
    requires at <= |data| && data[at..] == x + rest
    ensures at + |x| <= |data| && data[at..at + |x|] == x && data[at + |x|..] == rest
  {
    assert data[at..at + |x|] == data[at..][..|x|] && data[at + |x|..] == data[at..][|x|..];
  }

  const PLAINTEXT_SCHEME: Byte := 0
  const ENCRYPTED_RING_DEPOSIT_SCHEME: Byte := 8

  /** `encode_output_data_ref`. */
  method EncodeOutputData(p: ProoflessOutput) returns (r: Option<Bytes>)
    requires AllFit(PROOFLESS, ProoflessFields(p))
    ensures r.Some? <==> 1 + |EncodedAll(ProoflessFields(p))| < Range(4)
    ensures r.Some? ==> r.value == Tagged(PLAINTEXT_TAG, PLAINTEXT_SCHEME, EncodedAll(ProoflessFields(p)))
    ensures r.Some? ==> |r.value| <= 224 + VariableParts(ProoflessFields(p))
    ensures r.Some? ==> ProoflessAt(r.value, p)
  {
    hide PROOFLESS, AllFit, EncodedAll, VariableParts, ProoflessFields, FixedParts, ProoflessAt;
    SchemaSizes();
    BodyLength(PROOFLESS, ProoflessFields(p));
    ProoflessLayout(p);
    r := EncodeTaggedBody(PLAINTEXT_TAG, PLAINTEXT_SCHEME, EncodedAll(ProoflessFields(p)));
  }

  lemma {:induction false} ProoflessSizes(p: ProoflessOutput)
    requires AllFit(PROOFLESS, ProoflessFields(p))
    ensures |p.owner| == |p.blinding| == |p.asset| == 32
  {
    var schema, fields := PROOFLESS, ProoflessFields(p);
    assert Fits(schema[0], fields[0]) && Fits(schema[1], fields[1]) && Fits(schema[2], fields[2]);
  }

  lemma {:induction false} RingDepositSizes(d: RingDepositOutput)
    requires AllFit(RING_DEPOSIT, RingDepositFields(d))
    ensures |d.ownerUtxoHash| == |d.asset| == 32
  {
    var schema, fields := RING_DEPOSIT, RingDepositFields(d);
    assert Fits(schema[0], fields[0]) && Fits(schema[1], fields[1]);
  }

  /** `encode_encrypted_ring_deposit_output_ref`. The payload found under its scheme is the body. */
  method EncodeRingDeposit(d: RingDepositOutput) returns (r: Option<Bytes>)
    requires AllFit(RING_DEPOSIT, RingDepositFields(d))
    ensures r.Some? <==> 1 + |EncodedAll(RingDepositFields(d))| < Range(4)
    ensures r.Some? ==>
              r.value == Tagged(ENCRYPTED_TAG, ENCRYPTED_RING_DEPOSIT_SCHEME, EncodedAll(RingDepositFields(d)))
    ensures r.Some? ==> EncryptedBody(r.value, ENCRYPTED_RING_DEPOSIT_SCHEME) == Some(EncodedAll(RingDepositFields(d)))
    ensures r.Some? ==> |r.value| <= 228 + |d.ciphertext|
    ensures r.Some? ==> RingDepositAt(r.value, d)
  {
    hide RING_DEPOSIT, AllFit, EncodedAll, VariableParts, RingDepositFields, FixedParts, EncryptedBody, RingDepositAt;
    SchemaSizes();
    BodyLength(RING_DEPOSIT, RingDepositFields(d));
    DepositVariable(d);
    RingDepositLayout(d);
    r := EncodeTaggedBody(ENCRYPTED_TAG, ENCRYPTED_RING_DEPOSIT_SCHEME, EncodedAll(RingDepositFields(d)));
    if r.Some? {
      EncryptedBodyIffTagged(r.value, ENCRYPTED_RING_DEPOSIT_SCHEME, EncodedAll(RingDepositFields(d)));
    }
  }

  lemma {:induction false} DepositVariable(d: RingDepositOutput)
    ensures VariableParts(RingDepositFields(d)) == |d.ciphertext|
  {
    var fields := RingDepositFields(d);
    NoVariable(fields, 8);
    assert fields[8..][1..] == [];
  }

  lemma {:induction false} NoVariable(values: seq<Value>, n: nat)
    requires n <= |values| && forall i :: 0 <= i < n ==> VariablePart(values[i]) == 0
    ensures VariableParts(values) == VariableParts(values[n..])
  {
    if n > 0 {
      NoVariable(values[1..], n - 1);
      assert values[1..][n - 1..] == values[n..];
    } else {
      assert values[0..] == values;
    }
  }

  /** The parsers give back the records, and nothing else parses as them. */
  lemma {:induction false} RecordsRoundTrip(p: ProoflessOutput, d: RingDepositOutput, data: Bytes)
    ensures DecodedAll(PROOFLESS, data) == Some(ProoflessFields(p))
            <==> AllFit(PROOFLESS, ProoflessFields(p)) && data == EncodedAll(ProoflessFields(p))
    ensures DecodedAll(RING_DEPOSIT, data) == Some(RingDepositFields(d))
            <==> AllFit(RING_DEPOSIT, RingDepositFields(d)) && data == EncodedAll(RingDepositFields(d))
  {
    hide PROOFLESS, RING_DEPOSIT, ProoflessFields, RingDepositFields;
    BodyRoundTrip(PROOFLESS, ProoflessFields(p), data);
    BodyRoundTrip(RING_DEPOSIT, RingDepositFields(d), data);
  }

  /** Records are determined by their fields. */
  lemma {:induction false} FieldsDetermineRecord(
    p: ProoflessOutput, p': ProoflessOutput, d: RingDepositOutput, d': RingDepositOutput)
    ensures ProoflessFields(p) == ProoflessFields(p') ==> p == p'
    ensures RingDepositFields(d) == RingDepositFields(d') ==> d == d'
  {
    var a, b := ProoflessFields(p), ProoflessFields(p');
    if a == b {
      assert a[0] == b[0] && a[1] == b[1] && a[2] == b[2] && a[3] == b[3] && a[4] == b[4];
      assert a[5] == b[5] && a[6] == b[6] && a[7] == b[7] && a[8] == b[8] && a[9] == b[9];
    }
    var x, y := RingDepositFields(d), RingDepositFields(d');
    if x == y {
      assert x[0] == y[0] && x[1] == y[1] && x[2] == y[2] && x[3] == y[3] && x[4] == y[4];
      assert x[5] == y[5] && x[6] == y[6] && x[7] == y[7] && x[8] == y[8];
    }
  }

  // ----- Merge outputs.

  const SALT_LEN: nat := 16
  const CIPHERTEXT_LEN: nat := 96
  const MERGE_OUTPUT_SCHEME: Byte := 6

  function Flattened(elements: seq<Bytes>): Bytes {
    if |elements| == 0 then [] else elements[0] + Flattened(elements[1..])
  }

  ghost predicate Elements(elements: seq<Bytes>) {
    forall i :: 0 <= i < |elements| ==> |elements[i]| == 32
  }

  lemma {:induction false} FlattenedLength(elements: seq<Bytes>)
    requires Elements(elements)
    ensures |Flattened(elements)| == 32 * |elements|
  {
    if |elements| > 0 {
      FlattenedLength(elements[1..]);
    }
  }

  function MergeBody(salt: Bytes, ciphertext: seq<Bytes>, prefix: seq<Bytes>): Bytes {
    Flattened(prefix) + salt + Flattened(ciphertext)
  }

  /** `encode_merge_output_data`. */
  function EncodedMergeOutput(salt: Bytes, ciphertext: seq<Bytes>, prefix: seq<Bytes>): Bytes {
    Tagged(if prefix != [] then ENCRYPTED_TAG else VERIFIABLY_ENCRYPTED_TAG, MERGE_OUTPUT_SCHEME,
           MergeBody(salt, ciphertext, prefix))
  }

  /** `split_merge_output_body`. */
  function SplitMergeBody(body: Bytes): Option<(Option<Bytes>, Bytes)> {
    if |body| == SALT_LEN + CIPHERTEXT_LEN then Some((None, body))
    else if |body| == 32 + SALT_LEN + CIPHERTEXT_LEN then Some((Some(body[..32]), body[32..]))
    else None
  }

  /** A merge output's body splits back into its ring data hash and `salt || ciphertext`, and its
      envelope tells the two apart. */
  lemma {:induction false} SplitInvertsMerge(salt: Bytes, ciphertext: seq<Bytes>, prefix: seq<Bytes>)
    requires |salt| == SALT_LEN && Elements(ciphertext) && |ciphertext| == 3 && Elements(prefix) && |prefix| <= 1
    ensures SplitMergeBody(MergeBody(salt, ciphertext, prefix))
            == Some((if prefix == [] then None else Some(prefix[0]), salt + Flattened(ciphertext)))
    ensures EncryptedBody(EncodedMergeOutput(salt, ciphertext, prefix), MERGE_OUTPUT_SCHEME)
            == if prefix == [] then None else Some(MergeBody(salt, ciphertext, prefix))
  {
    var body := MergeBody(salt, ciphertext, prefix);
    FlattenedLength(ciphertext);
    FlattenedLength(prefix);
    if prefix == [] {
      assert body == salt + Flattened(ciphertext);
    } else {
      assert Flattened(prefix) == prefix[0];
      assert body == prefix[0] + (salt + Flattened(ciphertext));
      assert Range(4) == 256 * 256 * 256 * 256 by {
        assert Range(1) == 256 && Range(2) == 256 * 256 && Range(3) == 256 * 256 * 256;
      }
      EncryptedBodyIffTagged(EncodedMergeOutput(salt, ciphertext, prefix), MERGE_OUTPUT_SCHEME, body);
    }
  }

  /** A merge output, byte for byte: the tag tells a `merge_ring` output from a `merge_transact` one. */
  lemma {:induction false} MergeOutputBytes(salt: Bytes, ciphertext: seq<Bytes>, prefix: seq<Bytes>)
    ensures var data := EncodedMergeOutput(salt, ciphertext, prefix);
            var body := Flattened(prefix) + salt + Flattened(ciphertext);
            && |data| == 6 + |body| && data[0] == (if prefix == [] then 2 else 1) && data[5] == 6
            && data[1..5] == LittleEndian(1 + |body|, 4) && data[6..] == body
  {
    hide Tagged, LittleEndian, Flattened;
    TaggedHead(if prefix != [] then ENCRYPTED_TAG else VERIFIABLY_ENCRYPTED_TAG, MERGE_OUTPUT_SCHEME,
               MergeBody(salt, ciphertext, prefix));
  }

  /** Elements are written one after the other. */
  lemma {:induction false} FlattenedAt(elements: seq<Bytes>, i: nat)
    requires Elements(elements) && i < |elements|
    ensures |Flattened(elements)| == 32 * |elements| && Flattened(elements)[32 * i..32 * i + 32] == elements[i]
  {
    FlattenedLength(elements);
    if i > 0 {
      var rest := Flattened(elements[1..]);
      FlattenedAt(elements[1..], i - 1);
      assert Flattened(elements)[32 * i..32 * i + 32] == rest[32 * (i - 1)..32 * (i - 1) + 32];
    }
  }

  /** A merge body splits exactly by its length, and the split parts make it up. */
  lemma {:induction false} SplitMergeIff(body: Bytes, hash: Bytes, encrypted: Bytes)
    ensures SplitMergeBody(body) == Some((None, encrypted)) <==> body == encrypted && |encrypted| == 112
    ensures SplitMergeBody(body) == Some((Some(hash), encrypted))
            <==> body == hash + encrypted && |hash| == 32 && |encrypted| == 112
    ensures SplitMergeBody(body) == None <==> |body| != 112 && |body| != 144
  {
    if |body| == 144 {
      assert body == body[..32] + body[32..];
    }
    if body == hash + encrypted && |hash| == 32 {
      assert body[..32] == hash && body[32..] == encrypted;
    }
  }
}
