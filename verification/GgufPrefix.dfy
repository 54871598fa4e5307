/**
 Reading a GGUF header from a truncated prefix: whatever a prefix yields, every
 longer prefix yields too, so the first success of a growing prefix is final.
 */
module GgufPrefix {
  import opened Wrappers
  import opened LittleEndian
  import opened GgufHeader

  // ---- a step on a prefix is the same step, or a stop ---------------------------------------

  lemma ReadsOfPrefix(d: Bytes, longer: Bytes, p: nat)
    requires d <= longer
    ensures ReadU32(d, p).Some? ==> ReadU32(longer, p) == ReadU32(d, p)
    ensures ReadU64(d, p).Some? ==> ReadU64(longer, p) == ReadU64(d, p)
  {
    if p + 4 <= |d| {
      assert forall i | p <= i < p + 4 :: d[i] == longer[i];
    }
    if p + 8 <= |d| {
      assert forall i | p <= i < p + 8 :: d[i] == longer[i];
    }
  }

  lemma StringOfPrefix(d: Bytes, longer: Bytes, p: nat)
    requires d <= longer && ReadString(d, p).Some?
    ensures ReadString(longer, p) == ReadString(d, p)
  {
    ReadsOfPrefix(d, longer, p);
    var n := ReadU64(d, p).value;
    assert d[p + 8..p + 8 + n] == longer[p + 8..p + 8 + n];
  }

  lemma {:induction false} SkipStringsOfPrefix(d: Bytes, longer: Bytes, p: nat, count: nat)
    requires d <= longer && SkipStrings(d, p, count).Some?
    ensures SkipStrings(longer, p, count) == SkipStrings(d, p, count)
    decreases count
  {
    if count > 0 {
      ReadsOfPrefix(d, longer, p);
      SkipStringsOfPrefix(d, longer, p + 8 + ReadU64(d, p).value, count - 1);
    }
  }

  lemma SkipOfPrefix(d: Bytes, longer: Bytes, p: nat, valueType: nat)
    requires d <= longer && SkipValue(d, p, valueType).Some?
    ensures SkipValue(longer, p, valueType) == SkipValue(d, p, valueType)
  {
    ReadsOfPrefix(d, longer, p);
    if valueType == TYPE_ARRAY {
      ReadsOfPrefix(d, longer, p + 4);
      if ReadU32(d, p) == Some(TYPE_STRING) {
        SkipStringsOfPrefix(d, longer, p + 12, ReadU64(d, p + 4).value);
      }
    }
  }

  lemma HeaderOfPrefix(d: Bytes, longer: Bytes, p: nat)
    requires d <= longer && ReadHeader(d, p).Some?
    ensures ReadHeader(longer, p) == ReadHeader(d, p)
  {
    StringOfPrefix(d, longer, p);
    ReadsOfPrefix(d, longer, ReadString(d, p).value.next);
  }

  lemma ValueOfPrefix(d: Bytes, longer: Bytes, p: nat, key: Bytes, valueType: nat, f: Fields)
    requires d <= longer
    ensures ValueTurn(d, p, key, valueType, f) == Halt(f)
         || ValueTurn(d, p, key, valueType, f) == ValueTurn(longer, p, key, valueType, f)
  {
    ReadsOfPrefix(d, longer, p);
    if ReadString(d, p).Some? {
      StringOfPrefix(d, longer, p);
    }
    if SkipValue(d, p, valueType).Some? {
      SkipOfPrefix(d, longer, p, valueType);
    }
  }

  lemma StepOfPrefix(d: Bytes, longer: Bytes, p: nat, f: Fields)
    requires d <= longer
    ensures Step(d, p, f) == Halt(f) || Step(d, p, f) == Step(longer, p, f)
  {
    if ReadHeader(d, p).Some? {
      HeaderOfPrefix(d, longer, p);
      var h := ReadHeader(d, p).value;
      ValueOfPrefix(d, longer, h.next, h.key, h.valueType, f);
    }
  }

  // ---- the fields on the way --------------------------------------------------------------------

  /** `g` are the fields at some moment of the walk. */
  ghost predicate OnTheWay(data: Bytes, p: nat, f: Fields, count: nat, g: Fields)
    decreases count
  {
    || g == f
    || (count > 0 && match Step(data, p, f)
                     case Halt(h) => g == h
                     case Go(next, h) => OnTheWay(data, next, h, count - 1, g))
  }

  lemma PrefixGoesOn(d: Bytes, longer: Bytes, p: nat, f: Fields, count: nat, turn: Turn)
    requires d <= longer && count > 0 && turn == Step(d, p, f)
    ensures turn.Halt? ==> OnTheWay(longer, p, f, count, Walk(d, p, f, count))
    ensures turn.Go? ==> turn == Step(longer, p, f) && Walk(d, p, f, count) == Walk(d, turn.offset, turn.fields, count - 1)
  {
    StepOfPrefix(d, longer, p, f);
    WalkStep(d, p, f, count, turn);
    if turn.Halt? {
      OnTheWayHalted(longer, p, f, count, turn.fields);
    }
  }

  lemma {:induction false} PrefixStopsOnTheWay(d: Bytes, longer: Bytes, p: nat, f: Fields, count: nat)
    requires d <= longer
    ensures OnTheWay(longer, p, f, count, Walk(d, p, f, count))
    decreases count
  {
    if count > 0 {
      var turn := Step(d, p, f);
      PrefixGoesOn(d, longer, p, f, count, turn);
      if turn.Go? {
        PrefixStopsOnTheWay(d, longer, turn.offset, turn.fields, count - 1);
        OnTheWayLater(longer, p, f, count, turn, Walk(d, turn.offset, turn.fields, count - 1));
      }
    }
  }

  lemma OnTheWayHalted(data: Bytes, p: nat, f: Fields, count: nat, g: Fields)
    requires count > 0 && (g == f || Step(data, p, f) == Halt(g))
    ensures OnTheWay(data, p, f, count, g)
  {
  }

  lemma OnTheWayLater(data: Bytes, p: nat, f: Fields, count: nat, turn: Turn, g: Fields)
    requires count > 0 && turn.Go? && Step(data, p, f) == turn
    requires OnTheWay(data, turn.offset, turn.fields, count - 1, g)
    ensures OnTheWay(data, p, f, count, g)
  {
  }

  /** The keys the walk reads, in order. */
  function Keys(data: Bytes, p: nat, f: Fields, count: nat): seq<Bytes>
    decreases count
  {
    if count == 0 || ReadHeader(data, p).None? then []
    else
      [ReadHeader(data, p).value.key]
      + (match Step(data, p, f) case Halt(_) => [] case Go(next, g) => Keys(data, next, g, count - 1))
  }

  ghost predicate Distinct(keys: seq<Bytes>) {
    forall i, j | 0 <= i < j < |keys| :: keys[i] != keys[j]
  }

  /** No key still to come could overwrite what has been read. */
  ghost predicate Settled(f: Fields, keys: seq<Bytes>) {
    && Distinct(keys)
    && (f.architecture.Some? ==> ARCHITECTURE !in keys)
    && forall slot | slot in f.slots :: Named(f) && f.architecture.value + Suffix(slot) !in keys
  }

  /** Everything `f` knows, `g` knows too. */
  ghost predicate Keeps(f: Fields, g: Fields) {
    && (f.architecture.Some? ==> g.architecture == f.architecture)
    && forall slot | slot in f.slots :: slot in g.slots && g.slots[slot] == f.slots[slot]
  }

  lemma SettledRest(f: Fields, key: Bytes, rest: seq<Bytes>)
    requires Settled(f, [key] + rest)
    ensures Settled(f, rest) && key !in rest
    ensures f.architecture.Some? ==> key != ARCHITECTURE
    ensures forall slot | slot in f.slots :: key != f.architecture.value + Suffix(slot)
  {
    var all := [key] + rest;
    assert all[0] == key && all[1..] == rest;
    assert forall i | 0 <= i < |rest| :: all[i + 1] == rest[i];
  }

  /** The architecture was not known before its key, so no field was. */
  lemma NameSettled(f: Fields, rest: seq<Bytes>, name: Bytes)
    requires Settled(f, [ARCHITECTURE] + rest)
    ensures Keeps(f, f.(architecture := Some(name))) && Settled(f.(architecture := Some(name)), rest)
  {
    SettledRest(f, ARCHITECTURE, rest);
    assert f.slots == map[];
  }

  lemma SlotSettled(f: Fields, rest: seq<Bytes>, slot: Slot, value: nat)
    requires Named(f) && Settled(f, [f.architecture.value + Suffix(slot)] + rest)
    ensures var g := f.(slots := f.slots[slot := value]); Keeps(f, g) && Settled(g, rest)
  {
    SettledRest(f, f.architecture.value + Suffix(slot), rest);
  }

  /** A value only adds to the fields, and what it adds is under the key just read. */
  lemma ValueAdds(data: Bytes, p: nat, key: Bytes, valueType: nat, f: Fields, rest: seq<Bytes>)
    requires Settled(f, [key] + rest)
    ensures Keeps(f, ValueTurn(data, p, key, valueType, f).fields)
    ensures Settled(ValueTurn(data, p, key, valueType, f).fields, rest)
  {
    SettledRest(f, key, rest);
    if key == ARCHITECTURE && valueType == TYPE_STRING {
      if ReadString(data, p).Some? {
        NameSettled(f, rest, ReadString(data, p).value.text);
      }
    } else if Named(f) && Wanted(f.architecture.value, key).Some? && ReadNumber(data, p, valueType).Some? {
      SlotSettled(f, rest, Wanted(f.architecture.value, key).value, ReadNumber(data, p, valueType).value);
    }
  }

  lemma {:induction false} WalkKeeps(data: Bytes, p: nat, f: Fields, count: nat)
    requires Settled(f, Keys(data, p, f, count))
    ensures Keeps(f, Walk(data, p, f, count))
    decreases count
  {
    if count > 0 && ReadHeader(data, p).Some? {
      StepAdds(data, p, f, count);
      var turn := Step(data, p, f);
      if turn.Go? {
        WalkKeeps(data, turn.offset, turn.fields, count - 1);
      }
    }
  }

  lemma StepAdds(data: Bytes, p: nat, f: Fields, count: nat)
    requires count > 0 && Settled(f, Keys(data, p, f, count))
    ensures var turn := Step(data, p, f);
      && Keeps(f, turn.fields)
      && (turn.Go? ==> Settled(turn.fields, Keys(data, turn.offset, turn.fields, count - 1)))
  {
    if ReadHeader(data, p).Some? {
      var h := ReadHeader(data, p).value;
      var turn := Step(data, p, f);
      var rest := if turn.Go? then Keys(data, turn.offset, turn.fields, count - 1) else [];
      ValueAdds(data, h.next, h.key, h.valueType, f, rest);
    }
  }

  /** Whatever is known on the way is still known at the end. */
  lemma {:induction false} OnTheWayKept(data: Bytes, p: nat, f: Fields, count: nat, g: Fields)
    requires Settled(f, Keys(data, p, f, count)) && OnTheWay(data, p, f, count, g)
    ensures Keeps(g, Walk(data, p, f, count))
    decreases count
  {
    if g == f {
      WalkKeeps(data, p, f, count);
    } else {
      var turn := NextOnTheWay(data, p, f, count, g);
      if turn.Go? {
        OnTheWayKept(data, turn.offset, turn.fields, count - 1, g);
      }
    }
  }

  lemma NextOnTheWay(data: Bytes, p: nat, f: Fields, count: nat, g: Fields) returns (turn: Turn)
    requires Settled(f, Keys(data, p, f, count)) && OnTheWay(data, p, f, count, g) && g != f
    ensures count > 0
    ensures turn.Halt? ==> g == Walk(data, p, f, count)
    ensures turn.Go? ==>
      && Settled(turn.fields, Keys(data, turn.offset, turn.fields, count - 1))
      && OnTheWay(data, turn.offset, turn.fields, count - 1, g)
      && Walk(data, p, f, count) == Walk(data, turn.offset, turn.fields, count - 1)
  {
    turn := Step(data, p, f);
    OnTheWayStep(data, p, f, count, g);
    StepAdds(data, p, f, count);
  }

  lemma OnTheWayStep(data: Bytes, p: nat, f: Fields, count: nat, g: Fields)
    requires OnTheWay(data, p, f, count, g) && g != f
    ensures count > 0
    ensures match Step(data, p, f)
      case Halt(h) => g == h == Walk(data, p, f, count)
      case Go(next, h) => OnTheWay(data, next, h, count - 1, g) && Walk(data, p, f, count) == Walk(data, next, h, count - 1)
  {
  }

  // ---- growing prefixes ----------------------------------------------------------------------------

  /** The announced pairs of a file carry distinct keys, as far as the walk goes. */
  ghost predicate DistinctKeys(data: Bytes) {
    |data| >= 24 ==> Distinct(Keys(data, 24, EMPTY, U64(data, 16)))
  }

  /**
   Once a prefix yields a block count, every longer prefix yields the same one, and
   every other field that was read keeps its value.
   */
  lemma LongerPrefixAgrees(d: Bytes, longer: Bytes)
    requires d <= longer && DistinctKeys(longer) && Parse(d).Some?
    ensures Parse(longer).Some? && Keeps(Parse(d).value, Parse(longer).value)
    ensures FieldOf(Parse(longer).value, Blocks) == FieldOf(Parse(d).value, Blocks)
  {
    ReadsOfPrefix(d, longer, 16);
    assert longer[..4] == d[..4];
    var count := U64(d, 16);
    PrefixStopsOnTheWay(d, longer, 24, EMPTY, count);
    OnTheWayKept(longer, 24, EMPTY, count, Walk(d, 24, EMPTY, count));
  }

  /** The first of the growing prefixes that parses. */
  function FirstParsed(file: Bytes, heads: seq<nat>): Option<Fields> {
    if heads == [] then None
    else
      var r := Parse(file[..Min(heads[0], |file|)]);
      if r.Some? then r else FirstParsed(file, heads[1..])
  }

  method GgufArch(file: Bytes, heads: seq<nat>) returns (r: Option<Fields>)
    ensures r == FirstParsed(file, heads)
  {
    r := None;
    for i := 0 to |heads|
      invariant r.None? && FirstParsed(file, heads) == FirstParsed(file, heads[i..])
    {
      r := ParseGgufArch(file[..Min(heads[i], |file|)]);
      if r.Some? {
        return;
      }
    }
  }

  /** Stopping at the first success gives the block count of the whole file. */
  lemma {:induction false} FirstSuccessIsFinal(file: Bytes, heads: seq<nat>)
    requires DistinctKeys(file) && FirstParsed(file, heads).Some?
    ensures Parse(file).Some? && Keeps(FirstParsed(file, heads).value, Parse(file).value)
    ensures FieldOf(FirstParsed(file, heads).value, Blocks) == FieldOf(Parse(file).value, Blocks)
  {
    var d := file[..Min(heads[0], |file|)];
    if Parse(d).Some? {
      LongerPrefixAgrees(d, file);
    } else {
      FirstSuccessIsFinal(file, heads[1..]);
    }
  }
}
