/**
 An encoder for GGUF metadata, and what any prefix of an encoded file can yield:
 only values that were encoded.
 */
module GgufRoundTrip {
  import opened Wrappers
  import opened LittleEndian
  import opened GgufHeader
  import opened GgufPrefix

  datatype Value =
    | Number32(n: nat)
    | Number64(n: nat)
    | Text(text: Bytes)
    | Fixed(valueType: nat, raw: Bytes)
    | FixedArray(elementType: nat, count: nat, raw: Bytes)
    | TextArray(items: seq<Bytes>)

  datatype Pair = Pair(key: Bytes, value: Value)

  const LIMIT32: nat := 0x1_0000_0000
  const LIMIT64: nat := 0x1_0000_0000_0000_0000

  lemma Word32Exists(n: nat)
    requires n < LIMIT32
    ensures exists b: Bytes :: |b| == 4 && U32(b, 0) == n
  {
    assert Put32(n)[0..4] == Put32(n);
    Get32(Put32(n), 0, n);
  }

  /** The four bytes that read as `n`. */
  ghost function Word32(n: nat): (b: Bytes)
    requires n < LIMIT32
    ensures |b| == 4 && U32(b, 0) == n
  {
    Word32Exists(n);
    var b: Bytes :| |b| == 4 && U32(b, 0) == n;
    b
  }

  lemma Join64(a: Bytes, b: Bytes)
    requires |a| == 4 && |b| == 4
    ensures U64(a + b, 0) == U32(a, 0) + LIMIT32 * U32(b, 0)
  {
  }

  lemma Word64Exists(n: nat)
    requires n < LIMIT64
    ensures exists b: Bytes :: |b| == 8 && U64(b, 0) == n
  {
    Join64(Word32(n % LIMIT32), Word32(n / LIMIT32));
  }

  /** The eight bytes that read as `n`. */
  ghost function Word64(n: nat): (b: Bytes)
    requires n < LIMIT64
    ensures |b| == 8 && U64(b, 0) == n
  {
    Word64Exists(n);
    var b: Bytes :| |b| == 8 && U64(b, 0) == n;
    b
  }

  predicate TextsOk(items: seq<Bytes>) {
    forall i | 0 <= i < |items| :: |items[i]| < LIMIT64
  }

  predicate Encodable(v: Value) {
    match v
    case Number32(n) => n < LIMIT32
    case Number64(n) => n < LIMIT64
    case Text(text) => |text| < LIMIT64
    case Fixed(t, raw) => t < LIMIT32 && FixedSize(t) > 0 && |raw| == FixedSize(t) && t != TYPE_U32 && t != TYPE_U64
    case FixedArray(t, count, raw) => t < LIMIT32 && FixedSize(t) > 0 && count < LIMIT64 && |raw| == FixedSize(t) * count
    case TextArray(items) => |items| < LIMIT64 && TextsOk(items)
  }

  predicate PairOk(kv: Pair) {
    |kv.key| < LIMIT64 && Encodable(kv.value)
  }

  /** The type codes of the GGUF specification. */
  function TypeOf(v: Value): (t: nat)
    requires Encodable(v)
    ensures t < LIMIT32
  {
    match v
    case Number32(_) => 4
    case Number64(_) => 10
    case Text(_) => 8
    case Fixed(t, _) => t
    case FixedArray(_, _, _) => 9
    case TextArray(_) => 9
  }

  ghost function PutText(s: Bytes): Bytes
    requires |s| < LIMIT64
  {
    Word64(|s|) + s
  }

  ghost function PutTexts(items: seq<Bytes>): Bytes
    requires TextsOk(items)
  {
    if items == [] then [] else PutText(items[0]) + PutTexts(items[1..])
  }

  ghost function PutValue(v: Value): Bytes
    requires Encodable(v)
  {
    match v
    case Number32(n) => Word32(n)
    case Number64(n) => Word64(n)
    case Text(text) => PutText(text)
    case Fixed(_, raw) => raw
    case FixedArray(t, count, raw) => Word32(t) + (Word64(count) + raw)
    case TextArray(items) => Word32(8) + (Word64(|items|) + PutTexts(items))
  }

  ghost function PutPair(kv: Pair): Bytes
    requires PairOk(kv)
  {
    PutText(kv.key) + (Word32(TypeOf(kv.value)) + PutValue(kv.value))
  }

  ghost function PutPairs(kvs: seq<Pair>): Bytes
    requires forall i | 0 <= i < |kvs| :: PairOk(kvs[i])
  {
    if kvs == [] then [] else PutPair(kvs[0]) + PutPairs(kvs[1..])
  }

  /** Magic, version, tensor count, pair count, the pairs, and the tensors. */
  ghost function PutFile(version: Bytes, tensors: Bytes, kvs: seq<Pair>, rest: Bytes): Bytes
    requires |version| == 4 && |tensors| == 8 && |kvs| < LIMIT64
    requires forall i | 0 <= i < |kvs| :: PairOk(kvs[i])
  {
    ([0x47, 0x47, 0x55, 0x46] + version + tensors) + (Word64(|kvs|) + (PutPairs(kvs) + rest))
  }

  // ---- reading what stands at a place ----------------------------------------------------------

  ghost predicate Holds(data: Bytes, p: nat, part: Bytes) {
    p + |part| <= |data| && data[p..p + |part|] == part
  }

  lemma HoldsSplit(data: Bytes, p: nat, a: Bytes, b: Bytes)
    requires Holds(data, p, a + b)
    ensures Holds(data, p, a) && Holds(data, p + |a|, b)
  {
    assert data[p..p + |a|] == data[p..p + |a + b|][..|a|];
    assert data[p + |a|..p + |a| + |b|] == data[p..p + |a + b|][|a|..];
  }

  lemma HoldsWhole(a: Bytes, b: Bytes)
    ensures Holds(a + b, |a|, b)
  {
  }

  lemma Read32(data: Bytes, p: nat, n: nat)
    requires n < LIMIT32 && Holds(data, p, Word32(n))
    ensures ReadU32(data, p) == Some(n)
  {
    var w := data[p..p + 4];
    assert forall i | 0 <= i < 4 :: w[i] == data[p + i];
  }

  lemma Read64(data: Bytes, p: nat, n: nat)
    requires n < LIMIT64 && Holds(data, p, Word64(n))
    ensures ReadU64(data, p) == Some(n)
  {
    var w := data[p..p + 8];
    assert forall i | 0 <= i < 8 :: w[i] == data[p + i];
  }

  lemma ReadText(data: Bytes, p: nat, s: Bytes)
    requires |s| < LIMIT64 && Holds(data, p, PutText(s))
    ensures ReadString(data, p) == Some(Read(s, p + 8 + |s|)) && ReadU64(data, p) == Some(|s|)
    ensures |PutText(s)| == 8 + |s|
  {
    HoldsSplit(data, p, Word64(|s|), s);
    Read64(data, p, |s|);
  }

  /** The lengths of the items stand one after the other, up to `end`. */
  ghost predicate LengthsAt(data: Bytes, p: nat, items: seq<Bytes>, end: nat)
    decreases |items|
  {
    if items == [] then end == p
    else ReadU64(data, p) == Some(|items[0]|) && LengthsAt(data, p + 8 + |items[0]|, items[1..], end)
  }

  lemma FirstText(data: Bytes, p: nat, text: Bytes, rest: Bytes, next: nat)
    requires |text| < LIMIT64 && Holds(data, p, PutText(text) + rest) && next == p + 8 + |text|
    ensures ReadU64(data, p) == Some(|text|) && Holds(data, next, rest)
  {
    HoldsSplit(data, p, PutText(text), rest);
    ReadText(data, p, text);
  }

  lemma {:induction false} TextsEncoded(data: Bytes, p: nat, items: seq<Bytes>)
    requires TextsOk(items) && Holds(data, p, PutTexts(items))
    ensures LengthsAt(data, p, items, p + |PutTexts(items)|)
    decreases items
  {
    if items != [] {
      var next, rest := p + 8 + |items[0]|, PutTexts(items[1..]);
      FirstText(data, p, items[0], rest, next);
      TextsEncoded(data, next, items[1..]);
      LengthsStep(data, p, items, next, next + |rest|);
    }
  }

  lemma LengthsStep(data: Bytes, p: nat, items: seq<Bytes>, next: nat, end: nat)
    requires items != [] && ReadU64(data, p) == Some(|items[0]|) && next == p + 8 + |items[0]|
    requires LengthsAt(data, next, items[1..], end)
    ensures LengthsAt(data, p, items, end)
  {
  }

  lemma {:induction false} SkipLengths(data: Bytes, p: nat, items: seq<Bytes>, end: nat)
    requires LengthsAt(data, p, items, end)
    ensures SkipStrings(data, p, |items|) == Some(end)
    decreases items
  {
    if items != [] {
      SkipLengths(data, p + 8 + |items[0]|, items[1..], end);
    }
  }

  ghost predicate ArrayHead(data: Bytes, p: nat, elementType: nat, count: nat) {
    ReadU32(data, p) == Some(elementType) && ReadU64(data, p + 4) == Some(count)
  }

  lemma SkipArrayHead(data: Bytes, p: nat, elementType: nat, count: nat, body: Bytes)
    requires elementType < LIMIT32 && count < LIMIT64
    requires Holds(data, p, Word32(elementType) + (Word64(count) + body))
    ensures ArrayHead(data, p, elementType, count)
    ensures Holds(data, p + 12, body)
  {
    HoldsSplit(data, p, Word32(elementType), Word64(count) + body);
    HoldsSplit(data, p + 4, Word64(count), body);
    Read32(data, p, elementType);
    Read64(data, p + 4, count);
  }

  ghost predicate Skips(data: Bytes, p: nat, valueType: nat, end: nat) {
    SkipValue(data, p, valueType) == Some(end)
  }

  lemma SkipFixedArray(data: Bytes, p: nat, elementType: nat, count: nat, raw: Bytes)
    requires elementType < LIMIT32 && count < LIMIT64 && FixedSize(elementType) > 0
    requires |raw| == FixedSize(elementType) * count
    requires Holds(data, p, Word32(elementType) + (Word64(count) + raw))
    ensures Skips(data, p, TYPE_ARRAY, p + 12 + |raw|)
  {
    SkipArrayHead(data, p, elementType, count, raw);
  }

  lemma SkipTextArray(data: Bytes, p: nat, items: seq<Bytes>, end: nat)
    requires ArrayHead(data, p, TYPE_STRING, |items|) && LengthsAt(data, p + 12, items, end)
    ensures Skips(data, p, TYPE_ARRAY, end)
  {
    SkipLengths(data, p + 12, items, end);
  }

  lemma SkipTextItems(data: Bytes, p: nat, items: seq<Bytes>, end: nat)
    requires |items| < LIMIT64 && TextsOk(items) && end == p + 12 + |PutTexts(items)|
    requires ArrayHead(data, p, TYPE_STRING, |items|) && Holds(data, p + 12, PutTexts(items))
    ensures Skips(data, p, TYPE_ARRAY, end)
  {
    TextsEncoded(data, p + 12, items);
    SkipTextArray(data, p, items, end);
  }

  lemma SkipPlain(data: Bytes, p: nat, v: Value)
    requires Encodable(v) && !v.FixedArray? && !v.TextArray? && Holds(data, p, PutValue(v))
    ensures Skips(data, p, TypeOf(v), p + |PutValue(v)|)
  {
    match v
    case Number32(n) =>
    case Number64(n) => Read64(data, p, n);
    case Text(text) => ReadText(data, p, text);
    case Fixed(t, raw) =>
  }

  lemma SkipEncodedTexts(data: Bytes, p: nat, items: seq<Bytes>)
    requires Encodable(TextArray(items)) && Holds(data, p, PutValue(TextArray(items)))
    ensures Skips(data, p, TYPE_ARRAY, p + |PutValue(TextArray(items))|)
  {
    SkipArrayHead(data, p, TYPE_STRING, |items|, PutTexts(items));
    SkipTextItems(data, p, items, p + 12 + |PutTexts(items)|);
  }

  /** Skipping an encoded value ends right behind it. */
  lemma SkipEncoded(data: Bytes, p: nat, v: Value)
    requires Encodable(v) && Holds(data, p, PutValue(v))
    ensures Skips(data, p, TypeOf(v), p + |PutValue(v)|)
  {
    match v
    case FixedArray(t, count, raw) => SkipFixedArray(data, p, t, count, raw);
    case TextArray(items) => SkipEncodedTexts(data, p, items);
    case _ => SkipPlain(data, p, v);
  }

  lemma HeaderParts(data: Bytes, p: nat, key: Bytes, valueType: nat, body: Bytes)
    requires |key| < LIMIT64 && valueType < LIMIT32
    requires Holds(data, p, PutText(key) + (Word32(valueType) + body))
    ensures ReadString(data, p) == Some(Read(key, p + 8 + |key|))
    ensures ReadU32(data, p + 8 + |key|) == Some(valueType)
    ensures Holds(data, p + 12 + |key|, body) && |PutText(key) + (Word32(valueType) + body)| == 12 + |key| + |body|
  {
    HoldsSplit(data, p, PutText(key), Word32(valueType) + body);
    ReadText(data, p, key);
    HoldsSplit(data, p + 8 + |key|, Word32(valueType), body);
    Read32(data, p + 8 + |key|, valueType);
  }

  lemma HeaderEncoded(data: Bytes, p: nat, kv: Pair)
    requires PairOk(kv) && Holds(data, p, PutPair(kv))
    ensures ReadHeader(data, p) == Some(Header(kv.key, TypeOf(kv.value), p + 12 + |kv.key|))
    ensures Holds(data, p + 12 + |kv.key|, PutValue(kv.value))
    ensures |PutPair(kv)| == 12 + |kv.key| + |PutValue(kv.value)|
  {
    HeaderParts(data, p, kv.key, TypeOf(kv.value), PutValue(kv.value));
  }

  // ---- a step over an encoded pair ---------------------------------------------------------------

  predicate IsNumber(v: Value) {
    v.Number32? || v.Number64?
  }

  /** What a pair that ends at `next` does to the fields, without looking at bytes. */
  function PairTurn(kv: Pair, next: nat, f: Fields): Turn {
    if kv.key == ARCHITECTURE && kv.value.Text? then Go(next, f.(architecture := Some(kv.value.text)))
    else if Named(f) && Wanted(f.architecture.value, kv.key).Some? && IsNumber(kv.value) then
      AfterValue(Some(next), f.(slots := f.slots[Wanted(f.architecture.value, kv.key).value := kv.value.n]), f)
    else if Named(f) && TOKENIZER <= kv.key && Truthy(f, Blocks) then Halt(f)
    else AfterValue(Some(next), f, f)
  }

  lemma NumberEncoded(data: Bytes, p: nat, v: Value)
    requires Encodable(v) && IsNumber(v) && Holds(data, p, PutValue(v))
    ensures ReadNumber(data, p, TypeOf(v)) == Some(v.n) && |PutValue(v)| == FixedSize(TypeOf(v))
  {
    if v.Number32? {
      Read32(data, p, v.n);
    } else {
      Read64(data, p, v.n);
    }
  }

  lemma ValueEncoded(data: Bytes, p: nat, kv: Pair, f: Fields)
    requires PairOk(kv) && Holds(data, p, PutValue(kv.value))
    ensures ValueTurn(data, p, kv.key, TypeOf(kv.value), f) == PairTurn(kv, p + |PutValue(kv.value)|, f)
  {
    if kv.value.Text? {
      ReadText(data, p, kv.value.text);
    }
    if IsNumber(kv.value) {
      NumberEncoded(data, p, kv.value);
    }
    SkipEncoded(data, p, kv.value);
  }

  lemma StepOf(data: Bytes, p: nat, h: Header, f: Fields, turn: Turn)
    requires ReadHeader(data, p) == Some(h) && ValueTurn(data, h.next, h.key, h.valueType, f) == turn
    ensures Step(data, p, f) == turn
  {
  }

  lemma StepEncoded(data: Bytes, p: nat, h: Header, kv: Pair, f: Fields, next: nat)
    requires PairOk(kv) && Holds(data, h.next, PutValue(kv.value)) && next == h.next + |PutValue(kv.value)|
    requires ReadHeader(data, p) == Some(h) && h.key == kv.key && h.valueType == TypeOf(kv.value)
    ensures Step(data, p, f) == PairTurn(kv, next, f)
  {
    ValueEncoded(data, h.next, kv, f);
    StepOf(data, p, h, f, PairTurn(kv, next, f));
  }

  lemma PairTurnNext(kv: Pair, next: nat, f: Fields)
    ensures PairTurn(kv, next, f).Go? ==> PairTurn(kv, next, f).offset == next
  {
  }

  // ---- the walk over an encoded file ---------------------------------------------------------------

  ghost predicate AllOk(kvs: seq<Pair>) {
    forall i | 0 <= i < |kvs| :: PairOk(kvs[i])
  }

  function KeysOf(kvs: seq<Pair>): (keys: seq<Bytes>)
    ensures |keys| == |kvs| && forall i | 0 <= i < |kvs| :: keys[i] == kvs[i].key
  {
    if kvs == [] then [] else [kvs[0].key] + KeysOf(kvs[1..])
  }

  /** One step at `p` reads `kv` and ends at `next`. */
  ghost predicate StepsTo(data: Bytes, p: nat, kv: Pair, next: nat) {
    && ReadHeader(data, p).Some? && ReadHeader(data, p).value.key == kv.key
    && forall f: Fields :: Step(data, p, f) == PairTurn(kv, next, f)
  }

  /** From `p` on, the walk meets these pairs one after the other. */
  ghost predicate Meets(data: Bytes, p: nat, kvs: seq<Pair>)
    decreases |kvs|
  {
    kvs == [] || exists next: nat :: StepsTo(data, p, kvs[0], next) && Meets(data, next, kvs[1..])
  }

  lemma FirstMet(data: Bytes, p: nat, kvs: seq<Pair>) returns (next: nat)
    requires kvs != [] && Meets(data, p, kvs)
    ensures StepsTo(data, p, kvs[0], next) && Meets(data, next, kvs[1..])
  {
    next :| StepsTo(data, p, kvs[0], next) && Meets(data, next, kvs[1..]);
  }

  lemma PairEncoded(data: Bytes, p: nat, kv: Pair, next: nat)
    requires PairOk(kv) && Holds(data, p, PutPair(kv)) && next == p + |PutPair(kv)|
    ensures StepsTo(data, p, kv, next)
  {
    HeaderEncoded(data, p, kv);
    var h := Header(kv.key, TypeOf(kv.value), p + 12 + |kv.key|);
    forall f: Fields ensures Step(data, p, f) == PairTurn(kv, next, f) {
      StepEncoded(data, p, h, kv, f, next);
    }
  }

  lemma {:induction false} PairsEncoded(data: Bytes, p: nat, kvs: seq<Pair>)
    requires AllOk(kvs) && Holds(data, p, PutPairs(kvs))
    ensures Meets(data, p, kvs)
    decreases kvs
  {
    if kvs != [] {
      var next := p + |PutPair(kvs[0])|;
      HoldsSplit(data, p, PutPair(kvs[0]), PutPairs(kvs[1..]));
      PairEncoded(data, p, kvs[0], next);
      PairsEncoded(data, next, kvs[1..]);
    }
  }

  lemma KeysStep(data: Bytes, p: nat, f: Fields, count: nat, key: Bytes, rest: seq<Bytes>)
    requires count > 0 && ReadHeader(data, p).Some? && ReadHeader(data, p).value.key == key
    requires var turn := Step(data, p, f); turn.Go? ==> Keys(data, turn.offset, turn.fields, count - 1) <= rest
    ensures Keys(data, p, f, count) <= [key] + rest
  {
  }

  /** The walk reads keys of the file, in order, until it stops. */
  lemma {:induction false} KeysEncoded(data: Bytes, p: nat, kvs: seq<Pair>, f: Fields)
    requires Meets(data, p, kvs)
    ensures Keys(data, p, f, |kvs|) <= KeysOf(kvs)
    decreases kvs
  {
    if kvs != [] {
      var next := FirstMet(data, p, kvs);
      var turn := Step(data, p, f);
      assert turn == PairTurn(kvs[0], next, f);
      PairTurnNext(kvs[0], next, f);
      KeysEncoded(data, next, kvs[1..], turn.fields);
      KeysStep(data, p, f, |kvs|, kvs[0].key, KeysOf(kvs[1..]));
    }
  }

  ghost predicate Declares(kvs: seq<Pair>, name: Bytes) {
    exists i | 0 <= i < |kvs| :: kvs[i] == Pair(ARCHITECTURE, Text(name))
  }

  ghost predicate Numbers(kvs: seq<Pair>, key: Bytes, n: nat) {
    exists i | 0 <= i < |kvs| :: kvs[i].key == key && IsNumber(kvs[i].value) && kvs[i].value.n == n
  }

  /** `n` is encoded for the slot, under an architecture the file names. */
  ghost predicate SlotFrom(kvs: seq<Pair>, slot: Slot, n: nat) {
    exists name: Bytes :: Declares(kvs, name) && Numbers(kvs, name + Suffix(slot), n)
  }

  /** Everything in `f` is encoded in the file. */
  ghost predicate FieldsFrom(kvs: seq<Pair>, f: Fields) {
    && (f.architecture.Some? ==> Declares(kvs, f.architecture.value))
    && forall slot | slot in f.slots :: SlotFrom(kvs, slot, f.slots[slot])
  }

  lemma PairTurnFrom(kvs: seq<Pair>, i: nat, next: nat, f: Fields)
    requires i < |kvs| && FieldsFrom(kvs, f)
    ensures FieldsFrom(kvs, PairTurn(kvs[i], next, f).fields)
  {
    var kv := kvs[i];
    if Named(f) && Wanted(f.architecture.value, kv.key).Some? && IsNumber(kv.value) {
      var slot := Wanted(f.architecture.value, kv.key).value;
      assert Numbers(kvs, f.architecture.value + Suffix(slot), kv.value.n);
      assert SlotFrom(kvs, slot, kv.value.n);
    }
  }

  /** Wherever the walk is cut off, it has read encoded values only. */
  lemma {:induction false} WalkFrom(data: Bytes, p: nat, kvs: seq<Pair>, done: nat, f: Fields, g: Fields)
    requires done <= |kvs| && Meets(data, p, kvs[done..]) && FieldsFrom(kvs, f)
    requires OnTheWay(data, p, f, |kvs| - done, g)
    ensures FieldsFrom(kvs, g)
    decreases |kvs| - done
  {
    if g != f {
      OnTheWayStep(data, p, f, |kvs| - done, g);
      var next := FirstMet(data, p, kvs[done..]);
      assert kvs[done..][1..] == kvs[done + 1..];
      PairTurnFrom(kvs, done, next, f);
      PairTurnNext(kvs[done], next, f);
      var turn := Step(data, p, f);
      if turn.Go? {
        WalkFrom(data, next, kvs, done + 1, turn.fields, g);
      }
    }
  }

  lemma FileParts(version: Bytes, tensors: Bytes, kvs: seq<Pair>, rest: Bytes)
    requires |version| == 4 && |tensors| == 8 && |kvs| < LIMIT64 && AllOk(kvs)
    ensures var file := PutFile(version, tensors, kvs, rest);
      |file| >= 24 && file[..4] == MAGIC && U64(file, 16) == |kvs| && Holds(file, 24, PutPairs(kvs))
  {
    var head := MAGIC + version + tensors;
    var tail := Word64(|kvs|) + (PutPairs(kvs) + rest);
    assert (head + tail)[..4] == MAGIC;
    HoldsWhole(head, tail);
    HoldsSplit(head + tail, 16, Word64(|kvs|), PutPairs(kvs) + rest);
    Read64(head + tail, 16, |kvs|);
    HoldsSplit(head + tail, 24, PutPairs(kvs), rest);
  }

  /**
   However much of an encoded file has been downloaded, every field that comes out is
   one that was encoded, under an architecture name that was encoded.
   */
  lemma PrefixReadsEncoded(version: Bytes, tensors: Bytes, kvs: seq<Pair>, rest: Bytes, d: Bytes)
    requires |version| == 4 && |tensors| == 8 && |kvs| < LIMIT64 && AllOk(kvs)
    requires d <= PutFile(version, tensors, kvs, rest) && Parse(d).Some?
    ensures FieldsFrom(kvs, Parse(d).value)
  {
    var file := PutFile(version, tensors, kvs, rest);
    FileParts(version, tensors, kvs, rest);
    ReadsOfPrefix(d, file, 16);
    PrefixStopsOnTheWay(d, file, 24, EMPTY, |kvs|);
    PairsEncoded(file, 24, kvs);
    assert kvs[0..] == kvs;
    WalkFrom(file, 24, kvs, 0, EMPTY, Walk(d, 24, EMPTY, |kvs|));
  }

  lemma DistinctStart(keys: seq<Bytes>, all: seq<Bytes>)
    requires keys <= all && Distinct(all)
    ensures Distinct(keys)
  {
    assert forall i | 0 <= i < |keys| :: keys[i] == all[i];
  }

  /** Distinct keys in the file are distinct keys on the walk. */
  lemma EncodedDistinct(version: Bytes, tensors: Bytes, kvs: seq<Pair>, rest: Bytes)
    requires |version| == 4 && |tensors| == 8 && |kvs| < LIMIT64 && AllOk(kvs) && Distinct(KeysOf(kvs))
    ensures DistinctKeys(PutFile(version, tensors, kvs, rest))
  {
    var file := PutFile(version, tensors, kvs, rest);
    FileParts(version, tensors, kvs, rest);
    PairsEncoded(file, 24, kvs);
    KeysEncoded(file, 24, kvs, EMPTY);
    DistinctStart(Keys(file, 24, EMPTY, |kvs|), KeysOf(kvs));
  }

  // ---- the block count comes back ----------------------------------------------------------------

  /** The walk, on pairs instead of bytes. */
  function Collect(kvs: seq<Pair>, f: Fields): Fields {
    if kvs == [] then f
    else
      match PairTurn(kvs[0], 0, f)
      case Halt(g) => g
      case Go(_, g) => Collect(kvs[1..], g)
  }

  lemma PairTurnMoved(kv: Pair, next: nat, f: Fields)
    ensures var turn := PairTurn(kv, next, f);
      turn.fields == PairTurn(kv, 0, f).fields && turn.Go? == PairTurn(kv, 0, f).Go? && (turn.Go? ==> turn.offset == next)
  {
  }

  lemma {:induction false} WalkCollects(data: Bytes, p: nat, kvs: seq<Pair>, f: Fields)
    requires Meets(data, p, kvs)
    ensures Walk(data, p, f, |kvs|) == Collect(kvs, f)
    decreases kvs
  {
    if kvs != [] {
      var next := FirstMet(data, p, kvs);
      var turn := Step(data, p, f);
      PairTurnMoved(kvs[0], next, f);
      WalkStep(data, p, f, |kvs|, turn);
      if turn.Go? {
        WalkCollects(data, next, kvs[1..], turn.fields);
      }
    }
  }

  ghost predicate HasBlocks(f: Fields, n: nat) {
    Blocks in f.slots && f.slots[Blocks] == n
  }

  /** No pair has this key. */
  ghost predicate Absent(kvs: seq<Pair>, key: Bytes) {
    forall i | 0 <= i < |kvs| :: kvs[i].key != key
  }

  /** Neither the architecture nor its block count is among the pairs. */
  ghost predicate Calm(kvs: seq<Pair>, name: Bytes) {
    Absent(kvs, ARCHITECTURE) && Absent(kvs, name + Suffix(Blocks))
  }

  /** A pair that is neither changes neither, and ends the walk only when the count is known. */
  lemma PairTurnCalm(kv: Pair, f: Fields, name: Bytes)
    requires f.architecture == Some(name) && kv.key != ARCHITECTURE && kv.key != name + Suffix(Blocks)
    ensures var turn := PairTurn(kv, 0, f);
      && turn.fields.architecture == Some(name)
      && (Blocks in turn.fields.slots <==> Blocks in f.slots)
      && (Blocks in f.slots ==> turn.fields.slots[Blocks] == f.slots[Blocks])
      && (turn.Halt? ==> Blocks in f.slots)
  {
  }

  lemma PairTurnBlocks(kv: Pair, f: Fields)
    requires Named(f) && kv.key != ARCHITECTURE && IsNumber(kv.value)
    requires kv.key == f.architecture.value + Suffix(Blocks)
    ensures HasBlocks(PairTurn(kv, 0, f).fields, kv.value.n)
    ensures PairTurn(kv, 0, f).fields.architecture == f.architecture
  {
  }

  lemma {:induction false} BlocksKept(kvs: seq<Pair>, f: Fields, name: Bytes, n: nat)
    requires f.architecture == Some(name) && Calm(kvs, name) && HasBlocks(f, n)
    ensures HasBlocks(Collect(kvs, f), n)
  {
    if kvs != [] {
      PairTurnCalm(kvs[0], f, name);
      var turn := PairTurn(kvs[0], 0, f);
      if turn.Go? {
        BlocksKept(kvs[1..], turn.fields, name, n);
      }
    }
  }

  /** No other pair has the key of pair `j`. */
  ghost predicate OnlyAt(kvs: seq<Pair>, j: nat)
    requires j < |kvs|
  {
    forall i | 0 <= i < |kvs| && i != j :: kvs[i].key != kvs[j].key
  }

  lemma OnlyAtTail(kvs: seq<Pair>, j: nat)
    requires j < |kvs| && OnlyAt(kvs, j)
    ensures j == 0 ==> Absent(kvs[1..], kvs[0].key)
    ensures j > 0 ==> OnlyAt(kvs[1..], j - 1) && kvs[0].key != kvs[j].key && kvs[1..][j - 1] == kvs[j]
  {
    assert forall i | 0 <= i < |kvs[1..]| :: kvs[1..][i] == kvs[i + 1];
  }

  lemma AbsentTail(kvs: seq<Pair>, key: Bytes)
    requires kvs != [] && Absent(kvs, key)
    ensures Absent(kvs[1..], key) && kvs[0].key != key
  {
  }

  /** The pair that holds the block count; the others leave it. */
  lemma BlocksHere(kvs: seq<Pair>, f: Fields, name: Bytes, rest: seq<Pair>)
    requires kvs != [] && rest == kvs[1..] && f.architecture == Some(name) && name != []
    requires kvs[0].key == name + Suffix(Blocks) && IsNumber(kvs[0].value) && kvs[0].key != ARCHITECTURE
    requires Calm(rest, name)
    ensures HasBlocks(Collect(kvs, f), kvs[0].value.n)
  {
    PairTurnBlocks(kvs[0], f);
    var turn := PairTurn(kvs[0], 0, f);
    if turn.Go? {
      BlocksKept(rest, turn.fields, name, kvs[0].value.n);
    }
  }

  /** A calm pair before the count is known moves the walk on. */
  lemma CalmMovesOn(kvs: seq<Pair>, f: Fields, name: Bytes) returns (g: Fields)
    requires kvs != [] && f.architecture == Some(name) && Blocks !in f.slots
    requires kvs[0].key != ARCHITECTURE && kvs[0].key != name + Suffix(Blocks)
    ensures g.architecture == Some(name) && Blocks !in g.slots && Collect(kvs, f) == Collect(kvs[1..], g)
  {
    PairTurnCalm(kvs[0], f, name);
    g := PairTurn(kvs[0], 0, f).fields;
  }

  /** A block count that lies ahead is reached and kept. */
  lemma {:induction false} BlocksAhead(kvs: seq<Pair>, f: Fields, name: Bytes, j: nat)
    requires f.architecture == Some(name) && name != [] && Blocks !in f.slots
    requires j < |kvs| && Absent(kvs, ARCHITECTURE) && OnlyAt(kvs, j)
    requires kvs[j].key == name + Suffix(Blocks) && IsNumber(kvs[j].value)
    ensures HasBlocks(Collect(kvs, f), kvs[j].value.n)
    decreases j
  {
    AbsentTail(kvs, ARCHITECTURE);
    OnlyAtTail(kvs, j);
    if j == 0 {
      BlocksHere(kvs, f, name, kvs[1..]);
    } else {
      var g := CalmMovesOn(kvs, f, name);
      BlocksAhead(kvs[1..], g, name, j - 1);
    }
  }

  lemma DistinctTwo(keys: seq<Bytes>, i: nat, j: nat)
    requires Distinct(keys) && i < |keys| && j < |keys| && i != j
    ensures keys[i] != keys[j]
  {
  }

  lemma DistinctPairs(kvs: seq<Pair>, i: nat, j: nat)
    requires Distinct(KeysOf(kvs)) && i < |kvs| && j < |kvs| && i != j
    ensures kvs[i].key != kvs[j].key
  {
    var keys := KeysOf(kvs);
    assert keys[i] == kvs[i].key && keys[j] == kvs[j].key;
    DistinctTwo(keys, i, j);
  }

  lemma DistinctOnly(kvs: seq<Pair>, j: nat)
    requires Distinct(KeysOf(kvs)) && j < |kvs|
    ensures OnlyAt(kvs, j)
  {
    forall i: nat | i < |kvs| && i != j ensures kvs[i].key != kvs[j].key {
      DistinctPairs(kvs, i, j);
    }
  }

  /** `n` is the number of the one pair with this key. */
  ghost predicate TheNumber(kvs: seq<Pair>, key: Bytes, n: nat) {
    exists j: nat :: j < |kvs| && kvs[j].key == key && IsNumber(kvs[j].value) && kvs[j].value.n == n && OnlyAt(kvs, j)
  }

  lemma NumberOfKey(kvs: seq<Pair>, key: Bytes, n: nat)
    requires Distinct(KeysOf(kvs)) && Numbers(kvs, key, n)
    ensures TheNumber(kvs, key, n)
  {
    var j: nat :| j < |kvs| && kvs[j].key == key && IsNumber(kvs[j].value) && kvs[j].value.n == n;
    DistinctOnly(kvs, j);
  }

  /** With distinct keys the first pair is the only one that names an architecture. */
  lemma OneName(kvs: seq<Pair>, name: Bytes, other: Bytes)
    requires kvs != [] && kvs[0] == Pair(ARCHITECTURE, Text(name)) && Distinct(KeysOf(kvs)) && Declares(kvs, other)
    ensures other == name
  {
    DistinctOnly(kvs, 0);
    var i: nat :| i < |kvs| && kvs[i] == Pair(ARCHITECTURE, Text(other));
    assert i == 0;
  }

  lemma SlotIsEncoded(kvs: seq<Pair>, name: Bytes, slot: Slot, n: nat)
    requires kvs != [] && kvs[0] == Pair(ARCHITECTURE, Text(name)) && Distinct(KeysOf(kvs)) && SlotFrom(kvs, slot, n)
    ensures TheNumber(kvs, name + Suffix(slot), n)
  {
    var other :| Declares(kvs, other) && Numbers(kvs, other + Suffix(slot), n);
    OneName(kvs, name, other);
    NumberOfKey(kvs, name + Suffix(slot), n);
  }

  /**
   With the architecture first and distinct keys, every field read from any prefix is
   the number of the one pair that was encoded for it.
   */
  lemma PrefixReadsThePair(version: Bytes, tensors: Bytes, kvs: seq<Pair>, rest: Bytes, d: Bytes, name: Bytes)
    requires |version| == 4 && |tensors| == 8 && |kvs| < LIMIT64 && AllOk(kvs)
    requires kvs != [] && kvs[0] == Pair(ARCHITECTURE, Text(name)) && Distinct(KeysOf(kvs))
    requires d <= PutFile(version, tensors, kvs, rest) && Parse(d).Some?
    ensures forall slot | slot in Parse(d).value.slots :: TheNumber(kvs, name + Suffix(slot), Parse(d).value.slots[slot])
  {
    PrefixReadsEncoded(version, tensors, kvs, rest, d);
    var f := Parse(d).value;
    forall slot | slot in f.slots ensures TheNumber(kvs, name + Suffix(slot), f.slots[slot]) {
      SlotIsEncoded(kvs, name, slot, f.slots[slot]);
    }
  }

  lemma CollectFirst(kvs: seq<Pair>, name: Bytes)
    requires kvs != [] && kvs[0] == Pair(ARCHITECTURE, Text(name))
    ensures Collect(kvs, EMPTY) == Collect(kvs[1..], Fields(Some(name), map[]))
  {
  }

  lemma CollectNamed(kvs: seq<Pair>, name: Bytes, j: nat, tail: seq<Pair>)
    requires kvs != [] && kvs[0] == Pair(ARCHITECTURE, Text(name)) && name != [] && tail == kvs[1..]
    requires j < |tail| && Absent(tail, ARCHITECTURE) && OnlyAt(tail, j)
    requires tail[j].key == name + Suffix(Blocks) && IsNumber(tail[j].value)
    ensures HasBlocks(Collect(kvs, EMPTY), tail[j].value.n)
  {
    CollectFirst(kvs, name);
    BlocksAhead(tail, Fields(Some(name), map[]), name, j);
  }

  /** Behind the first pair its key is gone, and pair `j` is still the only one with its key. */
  lemma DistinctTail(kvs: seq<Pair>, j: nat, tail: seq<Pair>)
    requires 0 < j < |kvs| && OnlyAt(kvs, 0) && OnlyAt(kvs, j) && tail == kvs[1..]
    ensures Absent(tail, kvs[0].key) && OnlyAt(tail, j - 1) && tail[j - 1] == kvs[j]
  {
    OnlyAtTail(kvs, 0);
    OnlyAtTail(kvs, j);
  }

  /** Parsing the whole file is collecting from its pairs. */
  lemma ParseEncoded(version: Bytes, tensors: Bytes, kvs: seq<Pair>, rest: Bytes)
    requires |version| == 4 && |tensors| == 8 && |kvs| < LIMIT64 && AllOk(kvs)
    ensures var f := Collect(kvs, EMPTY);
      Parse(PutFile(version, tensors, kvs, rest)) == if Truthy(f, Blocks) then Some(f) else None
  {
    var file := PutFile(version, tensors, kvs, rest);
    FileParts(version, tensors, kvs, rest);
    PairsEncoded(file, 24, kvs);
    WalkCollects(file, 24, kvs, EMPTY);
  }

  /**
   With the architecture first and distinct keys, the whole file yields exactly the
   encoded block count, unless that is 0.
   */
  lemma BlockCountRoundTrip(version: Bytes, tensors: Bytes, kvs: seq<Pair>, rest: Bytes, name: Bytes, j: nat)
    requires |version| == 4 && |tensors| == 8 && |kvs| < LIMIT64 && AllOk(kvs) && Distinct(KeysOf(kvs))
    requires 0 < j < |kvs| && kvs[0] == Pair(Ascii("general.architecture"), Text(name)) && name != []
    requires kvs[j].key == name + Ascii(".block_count") && IsNumber(kvs[j].value)
    ensures var r := Parse(PutFile(version, tensors, kvs, rest));
      (r.Some? <==> kvs[j].value.n != 0) && (r.Some? ==> FieldOf(r.value, Blocks) == kvs[j].value.n)
  {
    ParseEncoded(version, tensors, kvs, rest);
    var tail := kvs[1..];
    DistinctOnly(kvs, 0);
    DistinctOnly(kvs, j);
    DistinctTail(kvs, j, tail);
    CollectNamed(kvs, name, j - 1, tail);
  }

  /** Any prefix that parses at all yields that same block count. */
  lemma PrefixBlockCount(version: Bytes, tensors: Bytes, kvs: seq<Pair>, rest: Bytes, name: Bytes, j: nat, d: Bytes)
    requires |version| == 4 && |tensors| == 8 && |kvs| < LIMIT64 && AllOk(kvs) && Distinct(KeysOf(kvs))
    requires 0 < j < |kvs| && kvs[0] == Pair(Ascii("general.architecture"), Text(name)) && name != []
    requires kvs[j].key == name + Ascii(".block_count") && IsNumber(kvs[j].value)
    requires d <= PutFile(version, tensors, kvs, rest) && Parse(d).Some?
    ensures FieldOf(Parse(d).value, Blocks) == kvs[j].value.n
  {
    var file := PutFile(version, tensors, kvs, rest);
    EncodedDistinct(version, tensors, kvs, rest);
    LongerPrefixAgrees(d, file);
    BlockCountRoundTrip(version, tensors, kvs, rest, name, j);
  }
}
