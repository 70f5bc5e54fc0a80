/** The scanner of circuit feature markers: program-libs/feature-gate/src/parse.rs. */
module FeatureScan {
  import opened ByteSeq
  import opened Collections
  import opened FeatureMarker
  import opened Result
  import opened UnicodeText

  const EQUALS: Byte := 61

  predicate OccursAt(bytes: Bytes, needle: Bytes, i: nat) {
    i + |needle| <= |bytes| && bytes[i..i + |needle|] == needle
  }

  /** The first occurrence. */
  function Find(bytes: Bytes, needle: Bytes): (r: Option<nat>)
    ensures r.Some? ==> OccursAt(bytes, needle, r.value) && forall j :: 0 <= j < r.value ==> !OccursAt(bytes, needle, j)
    ensures r.None? ==> forall j: nat :: !OccursAt(bytes, needle, j)
  {
    FindFrom(bytes, needle, 0)
  }

  function FindFrom(bytes: Bytes, needle: Bytes, i: nat): (r: Option<nat>)
    ensures r.Some? ==>
              && i <= r.value && OccursAt(bytes, needle, r.value)
              && forall j :: i <= j < r.value ==> !OccursAt(bytes, needle, j)
    ensures r.None? ==> forall j :: i <= j ==> !OccursAt(bytes, needle, j)
    decreases |bytes| - i
  {
    if i + |needle| > |bytes| then None
    else if OccursAt(bytes, needle, i) then Some(i)
    else if i == |bytes| then None
    else FindFrom(bytes, needle, i + 1)
  }

  /** `str::split` at NUL. */
  function Split(text: Bytes): (parts: seq<Bytes>)
    ensures |parts| >= 1
  {
    if |text| == 0 then [[]]
    else
      var rest := Split(text[1..]);
      if text[0] == 0 then [[]] + rest else [[text[0]] + rest[0]] + rest[1..]
  }

  function HexValue(b: Byte): Option<Byte> {
    if 48 <= b <= 57 then Some(b - 48)
    else if 97 <= b <= 102 then Some(b - 87)
    else if 65 <= b <= 70 then Some(b - 55)
    else None
  }

  /** `u8::from_str_radix(_, 16)` on two bytes: a leading `+` is accepted too. */
  function PairValue(high: Byte, low: Byte): Option<Byte> {
    match HexValue(low)
    case None => None
    case Some(l) =>
      if high == 43 then Some(l)
      else match HexValue(high)
           case None => None
           case Some(h) => Some(16 * h + l)
  }

  function HashOf(text: Bytes): Option<Bytes> {
    if |text| < 2 then Some([])
    else match (PairValue(text[0], text[1]), HashOf(text[2..]))
         case (Some(b), Some(rest)) => Some([b] + rest)
         case _ => None
  }

  datatype Reason =
    | UnterminatedMarker | NotUtf8 | MissingName | InvalidName | DuplicateName | MissingEnabled | InvalidEnabled
    | MissingHash | InvalidHash | DuplicateHash | UnexpectedField | NoKeys

  datatype ParseError = ParseError(offset: nat, reason: Reason)

  function Hashes(parts: seq<Bytes>, hashes: seq<Bytes>): Result<seq<Bytes>, Reason>
    decreases |parts|
  {
    if parts == [[]] then Ok(hashes)
    else if |parts| == 0 || parts[0] != HASH then Err(UnexpectedField)
    else if |parts| == 1 then Err(MissingHash)
    else if |parts[1]| != 64 then Err(InvalidHash)
    else match HashOf(parts[1])
         case None => Err(InvalidHash)
         case Some(hash) => if hash in hashes then Err(DuplicateHash) else Hashes(parts[2..], hashes + [hash])
  }

  predicate NameByte(b: Byte) {
    97 <= b <= 122 || 48 <= b <= 57 || b == 45
  }

  predicate ValidName(name: Bytes) {
    name != [] && forall i :: 0 <= i < |name| ==> NameByte(name[i])
  }

  predicate Known(features: seq<Feature>, name: Bytes) {
    exists i :: 0 <= i < |features| && features[i].name == name
  }

  function Parsed(body: Bytes, known: seq<Feature>): Result<Feature, Reason> {
    var parts := Split(body);
    if !Utf8(body) then Err(NotUtf8)
    else if parts[0] != NAME || |parts| < 2 then Err(MissingName)
    else if !ValidName(parts[1]) then Err(InvalidName)
    else if Known(known, parts[1]) then Err(DuplicateName)
    else if |parts| < 3 || parts[2] != ENABLED then Err(MissingEnabled)
    else if |parts| < 4 || (parts[3] != TRUE && parts[3] != FALSE) then Err(InvalidEnabled)
    else match Hashes(parts[4..], [])
         case Err(reason) => Err(reason)
         case Ok(hashes) => if hashes == [] then Err(NoKeys) else Ok(Feature(parts[1], parts[3] == TRUE, hashes))
  }

  /** The markers of `bytes`, which begin at `base` of the file, after those already found. */
  function Scan(bytes: Bytes, base: nat, found: seq<Feature>): Result<seq<Feature>, ParseError>
    decreases |bytes|
  {
    match Find(bytes, BEGIN)
    case None => Ok(found)
    case Some(start) =>
      var rest := bytes[start + |BEGIN|..];
      match Find(rest, END)
      case None => Err(ParseError(base + start, UnterminatedMarker))
      case Some(length) =>
        match Parsed(rest[..length], found)
        case Err(reason) => Err(ParseError(base + start, reason))
        case Ok(f) =>
          Scan(rest[length + |END|..], base + start + |BEGIN| + length + |END|, found + [f])
  }

  function Prefixed(front: Bytes, rest: Option<Bytes>): Option<Bytes> {
    if rest.Some? then Some(front + rest.value) else None
  }

  lemma {:induction false} PrefixedNone(rest: Option<Bytes>)
    ensures Prefixed([], rest) == rest
  {
    if rest.Some? {
      assert [] + rest.value == rest.value;
    }
  }

  lemma {:induction false} PrefixedStep(front: Bytes, b: Byte, rest: Option<Bytes>)
    ensures Prefixed(front, Prefixed([b], rest)) == Prefixed(front + [b], rest)
  {
    if rest.Some? {
      assert front + ([b] + rest.value) == front + [b] + rest.value;
    }
  }

  method ParseHash(text: Bytes) returns (r: Option<Bytes>)
    requires |text| == 64
    ensures r == HashOf(text)
  {
    hide PairValue;
    var hash: Bytes := [];
    var rest := text;
    PrefixedNone(HashOf(text));
    while rest != []
      invariant |rest| % 2 == 0 && HashOf(text) == Prefixed(hash, HashOf(rest))
      decreases |rest|
    {
      var pair := PairValue(rest[0], rest[1]);
      if pair.None? {
        return None;
      }
      PrefixedStep(hash, pair.value, HashOf(rest[2..]));
      hash := hash + [pair.value];
      rest := rest[2..];
    }
    assert hash + [] == hash;
    r := Some(hash);
  }

  method ParseHashes(parts: seq<Bytes>) returns (r: Result<seq<Bytes>, Reason>)
    ensures r == Hashes(parts, [])
  {
    var hashes: seq<Bytes> := [];
    var i := 0;
    while true
      invariant 0 <= i <= |parts| && Hashes(parts, []) == Hashes(parts[i..], hashes)
      decreases |parts| - i
    {
      hide HashOf;
      if i < |parts| && parts[i] == [] && i + 1 == |parts| {
        assert parts[i..] == [[]];
        return Ok(hashes);
      }
      if i == |parts| || parts[i] != HASH {
        return Err(UnexpectedField);
      }
      if i + 1 == |parts| {
        return Err(MissingHash);
      }
      if |parts[i + 1]| != 64 {
        return Err(InvalidHash);
      }
      var hash := ParseHash(parts[i + 1]);
      if hash.None? {
        return Err(InvalidHash);
      }
      if hash.value in hashes {
        return Err(DuplicateHash);
      }
      assert parts[i..][2..] == parts[i + 2..];
      hashes := hashes + [hash.value];
      i := i + 2;
    }
  }

  method ParseBody(body: Bytes, known: seq<Feature>) returns (r: Result<Feature, Reason>)
    ensures r == Parsed(body, known)
  {
    hide Hashes, ValidName, Known, Utf8;
    if !Utf8(body) {
      return Err(NotUtf8);
    }
    var parts := Split(body);
    if parts[0] != NAME || |parts| < 2 {
      return Err(MissingName);
    }
    if !ValidName(parts[1]) {
      return Err(InvalidName);
    }
    if Known(known, parts[1]) {
      return Err(DuplicateName);
    }
    if |parts| < 3 || parts[2] != ENABLED {
      return Err(MissingEnabled);
    }
    if |parts| < 4 || (parts[3] != TRUE && parts[3] != FALSE) {
      return Err(InvalidEnabled);
    }
    var hashes := ParseHashes(parts[4..]);
    if hashes.Err? {
      return Err(hashes.error);
    }
    if hashes.value == [] {
      return Err(NoKeys);
    }
    r := Ok(Feature(parts[1], parts[3] == TRUE, hashes.value));
  }

  /** `find_features`. */
  method FindFeatures(binary: Bytes) returns (r: Result<seq<Feature>, ParseError>)
    ensures r == Scan(binary, 0, [])
  {
    hide Parsed, BEGIN, END, Find;
    MarkersNonempty();
    var features: seq<Feature> := [];
    var offset := 0;
    assert binary[0..] == binary;
    while true
      invariant offset <= |binary| && Scan(binary, 0, []) == Scan(binary[offset..], offset, features)
      decreases |binary| - offset
    {
      var found := Find(binary[offset..], BEGIN);
      if found.None? {
        return Ok(features);
      }
      var start := offset + found.value;
      var bodyStart := start + |BEGIN|;
      var rest := binary[bodyStart..];
      assert rest == binary[offset..][found.value + |BEGIN|..];
      var length := Find(rest, END);
      if length.None? {
        return Err(ParseError(start, UnterminatedMarker));
      }
      var feature := ParseBody(rest[..length.value], features);
      if feature.Err? {
        return Err(ParseError(start, feature.error));
      }
      features := features + [feature.value];
      offset := bodyStart + length.value + |END|;
      assert binary[offset..] == rest[length.value + |END|..];
    }
  }

  // ----- Reading back what was encoded.

  lemma {:induction false} MarkersNonempty()
    ensures |BEGIN| > 0 && |END| > 0
  {
  }

  lemma {:induction false} SplitField(field: Bytes, rest: Bytes)
    requires 0 !in field
    ensures Split(field + [0] + rest) == [field] + Split(rest)
  {
    var text := field + [0] + rest;
    if |field| == 0 {
      assert text[1..] == rest;
    } else {
      assert text[1..] == field[1..] + [0] + rest;
      SplitField(field[1..], rest);
      assert [field[0]] + field[1..] == field;
    }
  }

  /** Splitting inverts joining, and leaves the empty rest after the last NUL. */
  lemma {:induction false} SplitFields(texts: seq<Bytes>)
    requires forall i :: 0 <= i < |texts| ==> 0 !in texts[i]
    ensures Split(Fields(texts)) == texts + [[]]
  {
    if |texts| > 0 {
      hide Split;
      SplitFields(texts[1..]);
      SplitField(texts[0], Fields(texts[1..]));
    }
  }

  /** Printable: no NUL, no `=`, ASCII. */
  ghost predicate Plain(text: Bytes) {
    forall i :: 0 <= i < |text| ==> 0 < text[i] < 128 && text[i] != EQUALS
  }

  lemma {:induction false} HexIsPlain(hash: Bytes)
    ensures Plain(HexOf(hash))
  {
    if |hash| > 0 {
      HexIsPlain(hash[1..]);
    }
  }

  lemma {:induction false} ConstantsArePlain()
    ensures Plain(NAME) && Plain(ENABLED) && Plain(TRUE) && Plain(FALSE) && Plain(HASH)
  {
  }

  lemma {:induction false} HexRoundTrip(hash: Bytes)
    ensures HashOf(HexOf(hash)) == Some(hash)
  {
    if |hash| > 0 {
      HexRoundTrip(hash[1..]);
      assert HexOf(hash)[2..] == HexOf(hash[1..]);
      assert [hash[0]] + hash[1..] == hash;
    }
  }

  lemma {:induction false} HashesRoundTrip(hashes: seq<Bytes>, before: seq<Bytes>)
    requires WideHashes(hashes) && Distinct(before + hashes)
    ensures Hashes(HashTexts(hashes) + [[]], before) == Ok(before + hashes)
    decreases |hashes|
  {
    hide HexOf, HashOf, HASH;
    if |hashes| > 0 {
      var parts := HashTexts(hashes) + [[]];
      HexLength(hashes[0]);
      HexRoundTrip(hashes[0]);
      assert parts[2..] == HashTexts(hashes[1..]) + [[]];
      assert before + hashes == (before + [hashes[0]]) + hashes[1..];
      assert (before + hashes)[|before|] == hashes[0];
      forall i | 0 <= i < |before| ensures before[i] != hashes[0] {
        assert (before + hashes)[i] == before[i];
      }
      HashesRoundTrip(hashes[1..], before + [hashes[0]]);
    } else {
      assert before + hashes == before;
    }
  }

  ghost predicate ValidFeature(f: Feature) {
    ValidName(f.name) && f.hashes != [] && WideHashes(f.hashes) && Distinct(f.hashes)
  }

  ghost predicate AllPlain(texts: seq<Bytes>) {
    forall i :: 0 <= i < |texts| ==> Plain(texts[i])
  }

  lemma {:induction false} HashTextsPlain(hashes: seq<Bytes>)
    ensures AllPlain(HashTexts(hashes))
  {
    hide Plain, HexOf, HASH;
    if |hashes| > 0 {
      ConstantsArePlain();
      HexIsPlain(hashes[0]);
      HashTextsPlain(hashes[1..]);
    }
  }

  /** A body has no `=`, so it cannot contain the end marker. */
  ghost predicate BodyText(text: Bytes) {
    forall i :: 0 <= i < |text| ==> text[i] < 128 && text[i] != EQUALS
  }

  lemma {:induction false} PlainFieldsText(texts: seq<Bytes>)
    requires AllPlain(texts)
    ensures BodyText(Fields(texts))
  {
    if |texts| > 0 {
      PlainFieldsText(texts[1..]);
      assert Plain(texts[0]);
    }
  }

  lemma {:induction false} FlagsDiffer()
    ensures TRUE != FALSE
  {
    assert |TRUE| == 4 && |FALSE| == 5;
  }

  /** A body parses to `f` whatever texts its keys are written as, if they are plain and read as those keys. */
  lemma {:induction false} TextsParse(f: Feature, hashTexts: seq<Bytes>, known: seq<Feature>)
    requires ValidFeature(f) && !Known(known, f.name)
    requires AllPlain(hashTexts) && Hashes(hashTexts + [[]], []) == Ok(f.hashes)
    ensures var body := Fields(HeaderTexts(f) + hashTexts); Parsed(body, known) == Ok(f) && BodyText(body)
  {
    hide Split, Hashes, Utf8, Known, Fields, Plain, NAME, ENABLED, TRUE, FALSE;
    var texts := HeaderTexts(f) + hashTexts;
    ConstantsArePlain();
    NameIsPlain(f.name);
    PlainHasNoNul(texts);
    SplitFields(texts);
    PlainFieldsText(texts);
    AsciiIsUtf8(Fields(texts));
    FlagsDiffer();
    assert (texts + [[]])[4..] == hashTexts + [[]];
  }

  lemma {:induction false} NameIsPlain(name: Bytes)
    requires ValidName(name)
    ensures Plain(name)
  {
  }

  lemma {:induction false} BodyRoundTrip(f: Feature, known: seq<Feature>)
    requires ValidFeature(f) && !Known(known, f.name)
    ensures Parsed(Body(f), known) == Ok(f) && BodyText(Body(f))
  {
    hide HashTexts, Hashes, Known, Fields, Plain, Parsed, BodyText, ValidName;
    HashTextsPlain(f.hashes);
    assert [] + f.hashes == f.hashes;
    HashesRoundTrip(f.hashes, []);
    TextsParse(f, HashTexts(f.hashes), known);
  }

  lemma {:induction false} PlainHasNoNul(texts: seq<Bytes>)
    requires AllPlain(texts)
    ensures forall i :: 0 <= i < |texts| ==> 0 !in texts[i]
  {
    forall i | 0 <= i < |texts| ensures 0 !in texts[i] {
      assert Plain(texts[i]);
    }
  }

  lemma {:induction false} MarkerBytes()
    ensures |BEGIN| > 0 && BEGIN[|BEGIN| - 1] == 0 && forall i :: 0 <= i < |BEGIN| - 1 ==> BEGIN[i] != 0
    ensures |END| > 0 && END[0] == EQUALS
  {
  }

  /** The begin marker's only NUL is its last byte, so none starts earlier by running into it. */
  lemma {:induction false} FindsBegin(filler: Bytes, tail: Bytes)
    requires forall j: nat :: !OccursAt(filler, BEGIN, j)
    ensures Find(filler + BEGIN + tail, BEGIN) == Some(|filler|)
  {
    hide BEGIN;
    MarkerBytes();
    var bytes := filler + BEGIN + tail;
    assert OccursAt(bytes, BEGIN, |filler|);
    assert bytes[|filler|..|filler| + |BEGIN|] == BEGIN;
    forall j: nat | j < |filler| ensures !OccursAt(bytes, BEGIN, j) {
      if j + |BEGIN| <= |bytes| {
        var window, last := bytes[j..j + |BEGIN|], j + |BEGIN| - 1;
        if last < |filler| {
          assert window == filler[j..j + |BEGIN|];
          assert !OccursAt(filler, BEGIN, j);
        } else {
          assert window[|BEGIN| - 1] == BEGIN[last - |filler|];
        }
      }
    }
  }

  lemma {:induction false} FindsEnd(body: Bytes, tail: Bytes)
    requires BodyText(body)
    ensures Find(body + END + tail, END) == Some(|body|)
  {
    hide END;
    MarkerBytes();
    var bytes := body + END + tail;
    assert bytes[|body|..|body| + |END|] == END;
    assert OccursAt(bytes, END, |body|);
    forall j: nat | j < |body| ensures !OccursAt(bytes, END, j) {
      if j + |END| <= |bytes| {
        assert bytes[j..j + |END|][0] == body[j];
      }
    }
  }

  /** Markers with filler before, between and after them. */
  function Layout(fillers: seq<Bytes>, features: seq<Feature>): Bytes
    requires |fillers| == |features| + 1
  {
    if |features| == 0 then fillers[0]
    else fillers[0] + Encoded(features[0]) + Layout(fillers[1..], features[1..])
  }

  ghost predicate FreeOfBegin(filler: Bytes) {
    forall j: nat :: !OccursAt(filler, BEGIN, j)
  }

  ghost predicate ValidFeatures(features: seq<Feature>) {
    && (forall i :: 0 <= i < |features| ==> ValidFeature(features[i]))
    && (forall i, j :: 0 <= i < j < |features| ==> features[i].name != features[j].name)
  }

  /** Scanning finds exactly the encoded features, in order, whatever else the file holds. */
  lemma {:induction false} ScanInvertsLayout(
    fillers: seq<Bytes>, features: seq<Feature>, base: nat, found: seq<Feature>)
    requires |fillers| == |features| + 1 && ValidFeatures(found + features)
    requires forall i :: 0 <= i < |fillers| ==> FreeOfBegin(fillers[i])
    ensures Scan(Layout(fillers, features), base, found) == Ok(found + features)
    decreases |features|
  {
    hide Parsed, Encoded, ValidFeature, BEGIN, END, FreeOfBegin, Scan;
    if |features| == 0 {
      assert found + features == found;
      NothingFound(fillers[0], base, found);
    } else {
      var f, filler := features[0], fillers[0];
      var rest := Layout(fillers[1..], features[1..]);
      FirstUnknown(found, features);
      OneMarker(filler, f, rest, base, found);
      assert found + features == (found + [f]) + features[1..];
      ScanInvertsLayout(fillers[1..], features[1..], base + |filler| + |Encoded(f)|, found + [f]);
    }
  }

  lemma {:induction false} NothingFound(filler: Bytes, base: nat, found: seq<Feature>)
    requires FreeOfBegin(filler)
    ensures Scan(filler, base, found) == Ok(found)
  {
  }

  lemma {:induction false} FirstUnknown(found: seq<Feature>, features: seq<Feature>)
    requires ValidFeatures(found + features) && |features| > 0
    ensures ValidFeature(features[0]) && !Known(found, features[0].name)
  {
    assert (found + features)[|found|] == features[0];
    forall i | 0 <= i < |found| ensures found[i].name != features[0].name {
      assert (found + features)[i] == found[i];
    }
  }

  lemma {:induction false} OneMarker(filler: Bytes, f: Feature, rest: Bytes, base: nat, found: seq<Feature>)
    requires FreeOfBegin(filler) && ValidFeature(f) && !Known(found, f.name)
    ensures Scan(filler + Encoded(f) + rest, base, found)
            == Scan(rest, base + |filler| + |Encoded(f)|, found + [f])
  {
    hide Parsed, Body, Known, BEGIN, END, Find, BodyText;
    MarkersNonempty();
    var bytes, body := filler + Encoded(f) + rest, Body(f);
    assert bytes == filler + BEGIN + (body + END + rest);
    FindsBegin(filler, body + END + rest);
    var tail := bytes[|filler| + |BEGIN|..];
    assert tail == body + END + rest;
    BodyRoundTrip(f, found);
    FindsEnd(body, rest);
    assert tail[..|body|] == body;
    assert tail[|body| + |END|..] == rest;
  }

  /** A marker that cannot be read is reported with the offset at which it begins, after good ones or not:
      `rest` follows its begin marker. */
  lemma {:induction false} BadMarkerOffset(
    fillers: seq<Bytes>, features: seq<Feature>, rest: Bytes, base: nat, found: seq<Feature>)
    requires |fillers| == |features| + 1 && ValidFeatures(found + features)
    requires forall i :: 0 <= i < |fillers| ==> FreeOfBegin(fillers[i])
    ensures var r := Scan(Layout(fillers, features) + BEGIN + rest, base, found);
            var offset := base + |Layout(fillers, features)|;
            match Find(rest, END)
            case None => r == Err(ParseError(offset, UnterminatedMarker))
            case Some(n) =>
              match Parsed(rest[..n], found + features)
              case Err(reason) => r == Err(ParseError(offset, reason))
              case Ok(_) => true
    decreases |features|
  {
    hide Parsed, Encoded, ValidFeature, BEGIN, END, FreeOfBegin, Scan, Find;
    if |features| == 0 {
      assert found + features == found;
      BadMarker(fillers[0], rest, base, found);
    } else {
      var f, filler := features[0], fillers[0];
      var tail := Layout(fillers[1..], features[1..]);
      FirstUnknown(found, features);
      assert Layout(fillers, features) + BEGIN + rest == filler + Encoded(f) + (tail + BEGIN + rest);
      OneMarker(filler, f, tail + BEGIN + rest, base, found);
      assert found + features == (found + [f]) + features[1..];
      BadMarkerOffset(fillers[1..], features[1..], rest, base + |filler| + |Encoded(f)|, found + [f]);
    }
  }

  lemma {:induction false} BadMarker(filler: Bytes, rest: Bytes, base: nat, found: seq<Feature>)
    requires FreeOfBegin(filler)
    ensures var r := Scan(filler + BEGIN + rest, base, found);
            match Find(rest, END)
            case None => r == Err(ParseError(base + |filler|, UnterminatedMarker))
            case Some(n) =>
              match Parsed(rest[..n], found)
              case Err(reason) => r == Err(ParseError(base + |filler|, reason))
              case Ok(_) => true
  {
    hide Parsed, BEGIN, END, Find;
    FindsBegin(filler, rest);
    assert (filler + BEGIN + rest)[|filler| + |BEGIN|..] == rest;
  }

  /** What a scan returns is always a list of valid features with distinct names. */
  lemma {:induction false} ScanReturnsValid(bytes: Bytes, base: nat, found: seq<Feature>)
    requires ValidFeatures(found)
    ensures Scan(bytes, base, found).Ok? ==>
              ValidFeatures(Scan(bytes, base, found).value) && found <= Scan(bytes, base, found).value
    decreases |bytes|
  {
    hide Parsed, ValidFeatures, BEGIN, END, Find;
    MarkersNonempty();
    var begin := Find(bytes, BEGIN);
    if begin.Some? {
      var rest := bytes[begin.value + |BEGIN|..];
      var end := Find(rest, END);
      if end.Some? {
        var parsed := Parsed(rest[..end.value], found);
        if parsed.Ok? {
          AddParsed(rest[..end.value], found);
          var next := begin.value + |BEGIN| + end.value + |END|;
          ScanReturnsValid(rest[end.value + |END|..], base + next, found + [parsed.value]);
        }
      }
    }
  }

  lemma {:induction false} AddParsed(body: Bytes, found: seq<Feature>)
    requires ValidFeatures(found) && Parsed(body, found).Ok?
    ensures ValidFeatures(found + [Parsed(body, found).value])
  {
    hide Parsed, ValidFeature;
    ParsedIsValid(body, found);
  }

  lemma {:induction false} ParsedIsValid(body: Bytes, known: seq<Feature>)
    requires Parsed(body, known).Ok?
    ensures ValidFeature(Parsed(body, known).value)
    ensures forall i :: 0 <= i < |known| ==> known[i].name != Parsed(body, known).value.name
  {
    hide Split, Utf8, Hashes;
    HashesAreValid(Split(body)[4..], []);
  }

  lemma {:induction false} HashesAreValid(parts: seq<Bytes>, hashes: seq<Bytes>)
    requires WideHashes(hashes) && Distinct(hashes)
    ensures Hashes(parts, hashes).Ok? ==>
              WideHashes(Hashes(parts, hashes).value) && Distinct(Hashes(parts, hashes).value)
    decreases |parts|
  {
    if |parts| >= 2 && |parts[1]| == 64 {
      hide HashOf;
      var hash := HashOf(parts[1]);
      if hash.Some? && hash.value !in hashes {
        HashLength(parts[1]);
        HashesAreValid(parts[2..], hashes + [hash.value]);
      }
    }
  }

  lemma {:induction false} HashLength(text: Bytes)
    ensures HashOf(text).Some? ==> |HashOf(text).value| == |text| / 2
  {
    if |text| >= 2 {
      HashLength(text[2..]);
    }
  }

  // ----- When the text of a marker is its encoding.

  ghost predicate LowerHex(text: Bytes) {
    forall i :: 0 <= i < |text| ==> 48 <= text[i] <= 57 || 97 <= text[i] <= 102
  }

  /** A key's text is the encoder's exactly when it is lower-case hex. */
  lemma {:induction false} HashTextIff(text: Bytes, hash: Bytes)
    requires |text| % 2 == 0 && HashOf(text) == Some(hash)
    ensures text == HexOf(hash) <==> LowerHex(text)
  {
    if |text| > 0 {
      var rest := text[2..];
      assert text == [text[0], text[1]] + rest;
      assert hash[1..] == HashOf(rest).value;
      HashTextIff(rest, hash[1..]);
      PairTextIff(text[0], text[1], hash[0]);
      assert LowerHex(text) <==> LowerHex([text[0], text[1]]) && LowerHex(rest) by {
        assert forall i :: 0 <= i < |rest| ==> rest[i] == text[i + 2];
      }
    }
  }

  lemma {:induction false} PairTextIff(high: Byte, low: Byte, b: Byte)
    requires PairValue(high, low) == Some(b)
    ensures [high, low] == [HexDigit(b / 16), HexDigit(b % 16)] <==> LowerHex([high, low])
  {
    assert [high, low][0] == high && [high, low][1] == low;
  }

  /** A second text for every key whose first digit is zero: the parser takes a leading plus for it. */
  function PlusText(hash: Bytes): Bytes
    requires |hash| > 0
  {
    [43, HexDigit(hash[0] % 16)] + HexOf(hash[1..])
  }

  lemma {:induction false} PlusTextReadsBack(hash: Bytes)
    requires |hash| > 0 && hash[0] < 16
    ensures HashOf(PlusText(hash)) == Some(hash) && |PlusText(hash)| == 2 * |hash| && PlusText(hash) != HexOf(hash)
    ensures Plain(PlusText(hash))
  {
    var rest := hash[1..];
    assert PlusText(hash)[2..] == HexOf(rest) && PlusText(hash)[0] == 43;
    assert HexOf(hash)[0] == HexDigit(0);
    HexRoundTrip(rest);
    HexLength(rest);
    HexIsPlain(rest);
    assert [hash[0]] + rest == hash;
  }

  /** So a marker other than the encoding can scan as the same feature. */
  lemma {:induction false} MarkerTextIsNotUnique(f: Feature, known: seq<Feature>)
    requires ValidFeature(f) && !Known(known, f.name) && f.hashes[0][0] < 16
    ensures var other := Fields(HeaderTexts(f) + ([HASH, PlusText(f.hashes[0])] + HashTexts(f.hashes[1..])));
            other != Body(f) && Parsed(other, known) == Ok(f)
  {
    hide Parsed, Known, Hashes, HashOf, HexOf, PlusText, Fields, Split, Plain, HASH, ValidName, HeaderTexts;
    var hash, rest := f.hashes[0], f.hashes[1..];
    var keys := [HASH, PlusText(hash)] + HashTexts(rest);
    PlusTextReadsBack(hash);
    ConstantsArePlain();
    HashTextsPlain(rest);
    PlusHashes(f);
    TextsParse(f, keys, known);
    SecondTextDiffers(f, keys);
  }

  lemma {:induction false} PlusHashes(f: Feature)
    requires ValidFeature(f) && f.hashes[0][0] < 16
    ensures Hashes([HASH, PlusText(f.hashes[0])] + HashTexts(f.hashes[1..]) + [[]], []) == Ok(f.hashes)
  {
    hide HashOf, HexOf, PlusText, HashTexts;
    var hash, rest := f.hashes[0], f.hashes[1..];
    var parts := [HASH, PlusText(hash)] + HashTexts(rest) + [[]];
    PlusTextReadsBack(hash);
    assert parts[2..] == HashTexts(rest) + [[]];
    assert [] + [hash] == [hash];
    assert [hash] + rest == f.hashes;
    HashesRoundTrip(rest, [hash]);
  }

  lemma {:induction false} SecondTextDiffers(f: Feature, keys: seq<Bytes>)
    requires ValidFeature(f) && AllPlain(keys) && |keys| > 1 && keys[1] != HexOf(f.hashes[0])
    ensures Fields(HeaderTexts(f) + keys) != Body(f)
  {
    hide Fields, Split, Plain, HexOf, NAME, ENABLED, TRUE, FALSE;
    var texts, encoded := HeaderTexts(f) + keys, HeaderTexts(f) + HashTexts(f.hashes);
    ConstantsArePlain();
    NameIsPlain(f.name);
    HashTextsPlain(f.hashes);
    PlainHasNoNul(texts);
    PlainHasNoNul(encoded);
    SplitFields(texts);
    SplitFields(encoded);
    assert (texts + [[]])[5] == keys[1] && (encoded + [[]])[5] == HexOf(f.hashes[0]);
  }

  /** Every key text among the parts is lower-case hex. */
  ghost predicate LowerKeys(parts: seq<Bytes>) {
    |parts| >= 2 ==> LowerHex(parts[1]) && LowerKeys(parts[2..])
  }

  lemma {:induction false} HashPartsIff(parts: seq<Bytes>, before: seq<Bytes>)
    requires Hashes(parts, before).Ok?
    ensures var hashes := Hashes(parts, before).value;
            && before <= hashes && |parts| >= 1 && parts[|parts| - 1] == []
            && (parts == HashTexts(hashes[|before|..]) + [[]] <==> LowerKeys(parts))
    decreases |parts|
  {
    hide HashOf, HexOf, LowerHex, HASH;
    if parts == [[]] {
      assert before[|before|..] == [];
    } else {
      var hash, hashes := HashOf(parts[1]).value, Hashes(parts, before).value;
      HashPartsIff(parts[2..], before + [hash]);
      HashTextIff(parts[1], hash);
      var rest := hashes[|before| + 1..];
      assert hashes[|before|..] == [hash] + rest;
      assert HashTexts(hashes[|before|..]) == [HASH, HexOf(hash)] + HashTexts(rest);
      assert parts == [HASH, parts[1]] + parts[2..];
      assert [HASH, HexOf(hash)] + HashTexts(rest) + [[]] == [HASH, HexOf(hash)] + (HashTexts(rest) + [[]]);
    }
  }

  /** Joining inverts splitting. */
  lemma {:induction false} FieldsOfSplit(text: Bytes)
    ensures var parts := Split(text); Fields(parts[..|parts| - 1]) + parts[|parts| - 1] == text
  {
    if |text| > 0 {
      var rest := Split(text[1..]);
      var parts, n := Split(text), |Split(text)| - 1;
      FieldsOfSplit(text[1..]);
      assert [text[0]] + text[1..] == text;
      if text[0] == 0 {
        assert parts[..n][1..] == rest[..|rest| - 1];
      } else if n > 0 {
        assert parts[..n][1..] == rest[..n][1..];
      }
    }
  }

  /** A marker that scans as `f` is the encoding of `f` exactly when its key texts are lower-case hex. */
  lemma {:induction false} BodyIsEncodingIff(body: Bytes, known: seq<Feature>, f: Feature)
    requires Parsed(body, known) == Ok(f)
    ensures body == Body(f) <==> LowerKeys(Split(body)[4..])
  {
    hide Split, Fields, Hashes, HashTexts, LowerKeys, Utf8, Known, NAME, ENABLED, TRUE, FALSE;
    var parts := Split(body);
    var n := |parts| - 1;
    HashPartsIff(parts[4..], []);
    FieldsOfSplit(body);
    FlagsDiffer();
    assert f.hashes[0..] == f.hashes;
    assert parts == HeaderTexts(f) + parts[4..];
    if body == Body(f) {
      EncodedParts(f);
      assert (HeaderTexts(f) + HashTexts(f.hashes) + [[]])[4..] == HashTexts(f.hashes) + [[]];
    }
    if LowerKeys(parts[4..]) {
      assert parts == HeaderTexts(f) + HashTexts(f.hashes) + [[]];
      assert parts[..n] == HeaderTexts(f) + HashTexts(f.hashes);
    }
  }

  lemma {:induction false} EncodedParts(f: Feature)
    requires ValidName(f.name)
    ensures Split(Body(f)) == HeaderTexts(f) + HashTexts(f.hashes) + [[]]
  {
    hide Fields, Split, Plain, NAME, ENABLED, TRUE, FALSE;
    var texts := HeaderTexts(f) + HashTexts(f.hashes);
    ConstantsArePlain();
    NameIsPlain(f.name);
    HashTextsPlain(f.hashes);
    PlainHasNoNul(texts);
    SplitFields(texts);
  }

  // ----- What the scanner accepts, apart from its own tests.

  const ALPHABET: Bytes := Ascii("abcdefghijklmnopqrstuvwxyz0123456789-")

  lemma {:induction false} NameByteIff(b: Byte)
    ensures NameByte(b) <==> b in ALPHABET
  {
    AlphabetAt(if 97 <= b <= 122 then b - 97 else if 48 <= b <= 57 then b - 22 else 36);
    if b in ALPHABET {
      var i :| 0 <= i < |ALPHABET| && ALPHABET[i] == b;
      AlphabetAt(i);
    }
  }

  lemma {:induction false} AlphabetAt(i: nat)
    ensures |ALPHABET| == 37
    ensures i < 37 ==> ALPHABET[i] == if i < 26 then 97 + i else if i < 36 then 22 + i else 45
  {
  }

  /** Names are the nonempty words over lower-case letters, digits and the hyphen. */
  ghost predicate AlphabetName(name: Bytes) {
    name != [] && forall b :: b in name ==> b in ALPHABET
  }

  lemma {:induction false} ValidNameIff(name: Bytes)
    ensures ValidName(name) <==> AlphabetName(name)
  {
    hide NameByte, ALPHABET;
    forall i | 0 <= i < |name| ensures NameByte(name[i]) <==> name[i] in ALPHABET {
      NameByteIff(name[i]);
    }
    if AlphabetName(name) {
      forall i | 0 <= i < |name| ensures NameByte(name[i]) {
        assert name[i] in name;
      }
    }
  }

  /** A feature the scanner must find: a name over the alphabet, and distinct 32-byte keys, at least one. */
  ghost predicate Findable(f: Feature) {
    AlphabetName(f.name) && f.hashes != [] && WideHashes(f.hashes) && Distinct(f.hashes)
  }

  /** Every layout of findable features with distinct names scans back to them. */
  lemma {:induction false} ScanFindsMarkers(fillers: seq<Bytes>, features: seq<Feature>)
    requires |fillers| == |features| + 1 && forall i :: 0 <= i < |fillers| ==> FreeOfBegin(fillers[i])
    requires forall i :: 0 <= i < |features| ==> Findable(features[i])
    requires forall i, j :: 0 <= i < j < |features| ==> features[i].name != features[j].name
    ensures Scan(Layout(fillers, features), 0, []) == Ok(features)
  {
    hide Scan, Layout, FreeOfBegin, ValidName, AlphabetName;
    forall i | 0 <= i < |features| ensures ValidFeature(features[i]) {
      ValidNameIff(features[i].name);
    }
    assert [] + features == features;
    ScanInvertsLayout(fillers, features, 0, []);
  }

  ghost predicate AsciiTexts(texts: seq<Bytes>) {
    forall i :: 0 <= i < |texts| ==> forall k :: 0 <= k < |texts[i]| ==> 0 < texts[i][k] < 128
  }

  lemma {:induction false} AsciiFields(texts: seq<Bytes>)
    requires AsciiTexts(texts)
    ensures Split(Fields(texts)) == texts + [[]] && Utf8(Fields(texts))
  {
    SplitFields(texts);
    AsciiFieldsBelow(texts);
    AsciiIsUtf8(Fields(texts));
  }

  lemma {:induction false} AsciiFieldsBelow(texts: seq<Bytes>)
    requires AsciiTexts(texts)
    ensures forall k :: 0 <= k < |Fields(texts)| ==> Fields(texts)[k] < 128
  {
    if |texts| > 0 {
      AsciiFieldsBelow(texts[1..]);
    }
  }

  /** The reason for which each ill-formed body is refused. */
  lemma {:induction false} RefusedBodies(texts: seq<Bytes>, known: seq<Feature>)
    requires AsciiTexts(texts)
    ensures var r := Parsed(Fields(texts), known);
            && (texts == [] || texts[0] != Ascii("name") ==> r == Err(MissingName))
            && (|texts| >= 2 && texts[0] == Ascii("name") ==>
                  var name := texts[1];
                  && (!AlphabetName(name) ==> r == Err(InvalidName))
                  && (AlphabetName(name) ==>
                        var taken := exists i :: 0 <= i < |known| && known[i].name == name;
                        && (taken ==> r == Err(DuplicateName))
                        && (!taken && |texts| >= 3 && texts[2] != Ascii("enabled") ==> r == Err(MissingEnabled))
                        && (!taken && |texts| >= 4 && texts[2] == Ascii("enabled") ==>
                              var flag := texts[3];
                              && (flag != Ascii("true") && flag != Ascii("false") ==> r == Err(InvalidEnabled))
                              && (flag == Ascii("true") || flag == Ascii("false") ==> RefusedKeys(texts[4..], r)))))
  {
    hide Split, Utf8, Fields, Hashes, ValidName, AlphabetName, Ascii;
    AsciiFields(texts);
    var parts := texts + [[]];
    if |texts| >= 2 {
      ValidNameIff(texts[1]);
      if |texts| >= 4 {
        assert parts[4..] == texts[4..] + [[]];
        KeysRefused(texts[4..]);
      }
    }
  }

  /** The first two keys are the same, in whatever texts. */
  predicate RepeatsKey(keys: seq<Bytes>) {
    && |keys| >= 4 && keys[0] == keys[2] == Ascii("proving_key_sha256") && |keys[1]| == |keys[3]| == 64
    && HashOf(keys[1]).Some? && HashOf(keys[1]) == HashOf(keys[3])
  }

  /** The same for the keys after the flag, up to the second one. */
  ghost predicate RefusedKeys<T>(keys: seq<Bytes>, r: Result<T, Reason>) {
    && (keys == [] ==> r == Err(NoKeys))
    && (keys != [] && keys[0] != Ascii("proving_key_sha256") ==> r == Err(UnexpectedField))
    && (|keys| >= 2 && keys[0] == Ascii("proving_key_sha256") && |keys[1]| != 64 ==> r == Err(InvalidHash))
    && (RepeatsKey(keys) ==> r == Err(DuplicateHash))
  }

  lemma {:induction false} KeysRefused(keys: seq<Bytes>)
    ensures var r := Hashes(keys + [[]], []);
            RefusedKeys(keys, if r == Ok([]) then Err(NoKeys) else r)
  {
    hide HashOf, Ascii;
    var parts := keys + [[]];
    assert keys == [] ==> parts == [[]];
    if keys != [] {
      NotOnlyEnd(keys);
      if |keys| >= 2 && keys[0] == HASH && |keys[1]| == 64 && HashOf(keys[1]).Some? {
        assert parts[2..] == keys[2..] + [[]];
        if |keys| >= 4 {
          NotOnlyEnd(keys[2..]);
          assert parts[2..][0] == keys[2] && parts[2..][1] == keys[3];
        }
      }
    }
  }

  lemma {:induction false} NotOnlyEnd(keys: seq<Bytes>)
    requires keys != []
    ensures keys + [[]] != [[]]
  {
    assert |keys + [[]]| > 1;
  }

  lemma {:induction false} HexValueIff(b: Byte, v: nat)
    requires v < 16
    ensures HexValue(b) == Some(v) <==> b == Ascii("0123456789abcdef")[v] || b == Ascii("0123456789ABCDEF")[v]
  {
  }

  /** Two digits read as a byte, high one first, and a plus before a digit as nothing. */
  lemma {:induction false} PairValueIs(high: nat, low: nat, upper: bool)
    requires high < 16 && low < 16
    ensures var digits := if upper then Ascii("0123456789ABCDEF") else Ascii("0123456789abcdef");
            && PairValue(digits[high], digits[low]) == Some(16 * high + low)
            && PairValue(Ascii("+")[0], digits[low]) == Some(low)
            && PairValue(digits[high], Ascii("+")[0]) == None
  {
    var digits := if upper then Ascii("0123456789ABCDEF") else Ascii("0123456789abcdef");
    HexValueIff(digits[high], high);
    HexValueIff(digits[low], low);
  }
}
