/**
 The walk over the metadata of a GGUF header (GGUF specification, "File
 Structure"), of which only a prefix may have been downloaded.  Keys and text
 values stay byte strings.
 */
module GgufHeader {
  import opened Wrappers
  import opened LittleEndian

  const TYPE_U32: nat := 4
  const TYPE_STRING: nat := 8
  const TYPE_ARRAY: nat := 9
  const TYPE_U64: nat := 10

  function Ascii(s: string): Bytes {
    seq(|s|, i requires 0 <= i < |s| => (s[i] as int % 256) as Byte)
  }

  const MAGIC: Bytes := [0x47, 0x47, 0x55, 0x46]
  const ARCHITECTURE: Bytes := Ascii("general.architecture")
  const TOKENIZER: Bytes := Ascii("tokenizer.")

  function U64(buf: Bytes, offset: nat): nat {
    U32(buf, offset) + 0x1_0000_0000 * U32(buf, offset + 4)
  }

  // ---- reads that fail past the end ------------------------------------------------------

  function ReadU32(data: Bytes, p: nat): Option<nat> {
    if p + 4 <= |data| then Some(U32(data, p)) else None
  }

  function ReadU64(data: Bytes, p: nat): Option<nat> {
    if p + 8 <= |data| then Some(U64(data, p)) else None
  }

  datatype Read = Read(text: Bytes, next: nat)

  function ReadString(data: Bytes, p: nat): (r: Option<Read>)
    ensures r.Some? ==> p < r.value.next <= |data|
  {
    var length := ReadU64(data, p);
    if length.None? || p + 8 + length.value > |data| then None
    else Some(Read(data[p + 8..p + 8 + length.value], p + 8 + length.value))
  }

  /** Size of a fixed-size value type, or 0 for every other type. */
  function FixedSize(valueType: nat): nat {
    if valueType == 0 || valueType == 1 || valueType == 7 then 1
    else if valueType == 2 || valueType == 3 then 2
    else if valueType == 4 || valueType == 5 || valueType == 6 then 4
    else if valueType == 10 || valueType == 11 || valueType == 12 then 8
    else 0
  }

  /** The sizes of the GGUF value types; strings, arrays and unknown types have none of their own. */
  lemma SizesOfTypes(t: nat)
    ensures FixedSize(t) == 1 <==> t in {0, 1, 7}
    ensures FixedSize(t) == 2 <==> t in {2, 3}
    ensures FixedSize(t) == 4 <==> t in {4, 5, 6}
    ensures FixedSize(t) == 8 <==> t in {10, 11, 12}
    ensures FixedSize(t) == 0 <==> t in {8, 9} || t > 12
  {
  }

  /** Past `count` strings; only the length of each has to be there. */
  function SkipStrings(data: Bytes, p: nat, count: nat): Option<nat>
    decreases count
  {
    if count == 0 then Some(p)
    else
      var length := ReadU64(data, p);
      if length.None? then None else SkipStrings(data, p + 8 + length.value, count - 1)
  }

  function SkipArray(data: Bytes, p: nat): Option<nat> {
    var elementType := ReadU32(data, p);
    var count := ReadU64(data, p + 4);
    if elementType.None? || count.None? then None
    else if elementType.value == TYPE_STRING then SkipStrings(data, p + 12, count.value)
    else if FixedSize(elementType.value) == 0 then None
    else Some(p + 12 + FixedSize(elementType.value) * count.value)
  }

  function SkipValue(data: Bytes, p: nat, valueType: nat): Option<nat> {
    if FixedSize(valueType) > 0 then Some(p + FixedSize(valueType))
    else if valueType == TYPE_STRING then
      var length := ReadU64(data, p);
      if length.None? then None else Some(p + 8 + length.value)
    else if valueType == TYPE_ARRAY then SkipArray(data, p)
    else None
  }

  /** Unknown types are not skipped, nor are arrays of arrays or of unknown types. */
  lemma SkippableTypes(data: Bytes, p: nat, valueType: nat)
    requires SkipValue(data, p, valueType).Some?
    ensures valueType <= 12
    ensures valueType == 9 ==> U32(data, p) <= 12 && U32(data, p) != 9 && |data| >= p + 12
  {
  }

  method SkipValueLoop(data: Bytes, p: nat, valueType: nat) returns (r: Option<nat>)
    ensures r == SkipValue(data, p, valueType)
  {
    if valueType != TYPE_ARRAY {
      return SkipValue(data, p, valueType);
    }
    var elementType := ReadU32(data, p);
    var count := ReadU64(data, p + 4);
    if elementType.None? || count.None? {
      return None;
    }
    var position: nat := p + 12;
    if elementType.value == TYPE_STRING {
      var left: nat := count.value;
      while left > 0
        invariant SkipStrings(data, p + 12, count.value) == SkipStrings(data, position, left)
      {
        var length := ReadU64(data, position);
        if length.None? {
          return None;
        }
        position := position + 8 + length.value;
        left := left - 1;
      }
      return Some(position);
    }
    if FixedSize(elementType.value) == 0 {
      return None;
    }
    return Some(position + FixedSize(elementType.value) * count.value);
  }

  // ---- the architecture fields --------------------------------------------------------------

  datatype Slot = Blocks | Context | Experts | KvHeads | HeadDim

  function Suffix(slot: Slot): Bytes {
    match slot
    case Blocks => Ascii(".block_count")
    case Context => Ascii(".context_length")
    case Experts => Ascii(".expert_count")
    case KvHeads => Ascii(".attention.head_count_kv")
    case HeadDim => Ascii(".attention.key_length")
  }

  function Wanted(architecture: Bytes, key: Bytes): (r: Option<Slot>)
    ensures r.Some? ==> key == architecture + Suffix(r.value)
  {
    if key == architecture + Suffix(Blocks) then Some(Blocks)
    else if key == architecture + Suffix(Context) then Some(Context)
    else if key == architecture + Suffix(Experts) then Some(Experts)
    else if key == architecture + Suffix(KvHeads) then Some(KvHeads)
    else if key == architecture + Suffix(HeadDim) then Some(HeadDim)
    else None
  }

  /** What has been read so far. */
  datatype Fields = Fields(architecture: Option<Bytes>, slots: map<Slot, nat>)

  /** A field that is present and not zero. */
  predicate Truthy(f: Fields, slot: Slot) {
    slot in f.slots && f.slots[slot] != 0
  }

  predicate Named(f: Fields) {
    f.architecture.Some? && f.architecture.value != []
  }

  predicate Complete(f: Fields) {
    Truthy(f, Blocks) && Truthy(f, Context) && Truthy(f, KvHeads)
  }

  /** Go on at an offset, or stop with what there is. */
  datatype Turn = Go(offset: nat, fields: Fields) | Halt(fields: Fields)

  function AfterValue(next: Option<nat>, f: Fields, otherwise: Fields): Turn {
    if next.None? then Halt(otherwise) else if Complete(f) then Halt(f) else Go(next.value, f)
  }

  function ReadNumber(data: Bytes, p: nat, valueType: nat): Option<nat> {
    if valueType == TYPE_U32 then ReadU32(data, p) else ReadU64(data, p)
  }

  /** The value of a key: take it, stop at the tokenizer, or skip it. */
  function ValueTurn(data: Bytes, p: nat, key: Bytes, valueType: nat, f: Fields): Turn {
    if key == ARCHITECTURE && valueType == TYPE_STRING then
      var name := ReadString(data, p);
      if name.None? then Halt(f) else Go(name.value.next, f.(architecture := Some(name.value.text)))
    else if Named(f) && Wanted(f.architecture.value, key).Some? && (valueType == TYPE_U32 || valueType == TYPE_U64) then
      var value := ReadNumber(data, p, valueType);
      if value.None? then Halt(f)
      else AfterValue(Some(p + FixedSize(valueType)),
                      f.(slots := f.slots[Wanted(f.architecture.value, key).value := value.value]), f)
    else if Named(f) && TOKENIZER <= key && Truthy(f, Blocks) then Halt(f)
    else AfterValue(SkipValue(data, p, valueType), f, f)
  }

  /** The key at an offset and the type of its value. */
  datatype Header = Header(key: Bytes, valueType: nat, next: nat)

  function ReadHeader(data: Bytes, p: nat): (r: Option<Header>)
    ensures r.Some? ==> p < r.value.next <= |data|
  {
    var key := ReadString(data, p);
    if key.None? then None
    else
      var valueType := ReadU32(data, key.value.next);
      if valueType.None? then None else Some(Header(key.value.text, valueType.value, key.value.next + 4))
  }

  /** Without the name of an architecture a number is skipped like any other value. */
  lemma NamelessReadsNothing(data: Bytes, p: nat, key: Bytes, valueType: nat, f: Fields)
    requires f.architecture.None? || f.architecture == Some([])
    requires key != Ascii("general.architecture")
    ensures ValueTurn(data, p, key, valueType, f).fields == f
  {
  }

  /** One key-value pair. */
  function Step(data: Bytes, p: nat, f: Fields): Turn {
    var h := ReadHeader(data, p);
    if h.None? then Halt(f) else ValueTurn(data, h.value.next, h.value.key, h.value.valueType, f)
  }

  /** Up to `count` pairs from an offset on. */
  function Walk(data: Bytes, p: nat, f: Fields, count: nat): Fields
    decreases count
  {
    if count == 0 then f
    else
      match Step(data, p, f)
      case Halt(g) => g
      case Go(next, g) => Walk(data, next, g, count - 1)
  }

  lemma WalkStep(data: Bytes, p: nat, f: Fields, count: nat, turn: Turn)
    requires count > 0 && turn == Step(data, p, f)
    ensures turn.Halt? ==> Walk(data, p, f, count) == turn.fields
    ensures turn.Go? ==> Walk(data, p, f, count) == Walk(data, turn.offset, turn.fields, count - 1)
  {
  }

  const EMPTY: Fields := Fields(None, map[])

  /** The sizing metadata, if the prefix holds a block count. */
  function Parse(data: Bytes): Option<Fields> {
    if |data| < 24 || data[..4] != MAGIC then None
    else
      var f := Walk(data, 24, EMPTY, U64(data, 16));
      if Truthy(f, Blocks) then Some(f) else None
  }

  lemma ForeignFile(data: Bytes)
    requires |data| < 24 || data[..4] != [0x47, 0x47, 0x55, 0x46]
    ensures Parse(data) == None
  {
  }

  /** A field of the result; the source fills a missing expert count or context with 0. */
  function FieldOf(f: Fields, slot: Slot): nat {
    if slot in f.slots then f.slots[slot] else 0
  }

  method ParseGgufArch(data: Bytes) returns (r: Option<Fields>)
    ensures r == Parse(data)
  {
    if |data| < 24 || data[..4] != MAGIC {
      return None;
    }
    var fields := WalkPairs(data, 24, U64(data, 16));
    r := if Truthy(fields, Blocks) then Some(fields) else None;
  }

  /** What the walk ends with from a turn on. */
  function Remaining(data: Bytes, turn: Turn, left: nat): Fields
    decreases left
  {
    if turn.Halt? || left == 0 then turn.fields
    else Remaining(data, Step(data, turn.offset, turn.fields), left - 1)
  }

  lemma {:induction false} RemainingWalk(data: Bytes, p: nat, f: Fields, count: nat)
    ensures Remaining(data, Go(p, f), count) == Walk(data, p, f, count)
    decreases count
  {
    if count > 0 {
      var turn := Step(data, p, f);
      WalkStep(data, p, f, count, turn);
      if turn.Go? {
        RemainingWalk(data, turn.offset, turn.fields, count - 1);
      }
    }
  }

  /** The loop over the announced number of pairs. */
  method WalkPairs(data: Bytes, start: nat, kvCount: nat) returns (fields: Fields)
    ensures fields == Walk(data, start, EMPTY, kvCount)
  {
    RemainingWalk(data, start, EMPTY, kvCount);
    var turn := Go(start, EMPTY);
    ghost var all := Remaining(data, turn, kvCount);
    var left: nat := kvCount;
    while turn.Go? && left > 0
      invariant Remaining(data, turn, left) == all
      decreases left
    {
      turn := NextPair(data, turn, left, all);
      left := left - 1;
    }
    return turn.fields;
  }

  /** One pair further; what the walk ends with stays the same. */
  method NextPair(data: Bytes, before: Turn, ghost left: nat, ghost all: Fields) returns (turn: Turn)
    requires before.Go? && left > 0 && Remaining(data, before, left) == all
    ensures Remaining(data, turn, left - 1) == all
  {
    turn := Pair(data, before.offset, before.fields);
  }

  /** The body of the loop: key, type, and the value by its kind. */
  method Pair(data: Bytes, p: nat, f: Fields) returns (turn: Turn)
    ensures turn == Step(data, p, f)
  {
    var h := ReadHeader(data, p);
    if h.None? {
      return Halt(f);
    }
    var key, valueType, offset := h.value.key, h.value.valueType, h.value.next;
    if key == ARCHITECTURE && valueType == TYPE_STRING {
      var name := ReadString(data, offset);
      return if name.None? then Halt(f) else Go(name.value.next, f.(architecture := Some(name.value.text)));
    }
    var wanted := if Named(f) then Wanted(f.architecture.value, key) else None;
    if wanted.Some? && (valueType == TYPE_U32 || valueType == TYPE_U64) {
      var value := ReadNumber(data, offset, valueType);
      if value.None? {
        return Halt(f);
      }
      var g := f.(slots := f.slots[wanted.value := value.value]);
      return AfterValue(Some(offset + FixedSize(valueType)), g, f);
    }
    if Named(f) && TOKENIZER <= key && Truthy(f, Blocks) {
      return Halt(f);
    }
    var next := SkipValueLoop(data, offset, valueType);
    return AfterValue(next, f, f);
  }
}
