/** Which fields the whole of an encoded file yields. */
module GgufFields {
  import opened Wrappers
  import opened LittleEndian
  import opened GgufHeader
  import opened GgufPrefix
  import opened GgufRoundTrip

  /** Pair `k` is the number for the key. */
  predicate NumberAt(kvs: seq<Pair>, key: Bytes, k: nat) {
    k < |kvs| && kvs[k].key == key && IsNumber(kvs[k].value)
  }

  predicate AnyNumberBy(kvs: seq<Pair>, key: Bytes, i: nat) {
    exists k: nat | k < i :: NumberAt(kvs, key, k)
  }

  /** A number other than 0 stands for the key among the first `i` pairs. */
  predicate NonzeroBy(kvs: seq<Pair>, key: Bytes, i: nat) {
    exists k: nat | k < i :: NumberAt(kvs, key, k) && kvs[k].value.n != 0
  }

  /** The three fields that end the walk stand among the first `i` pairs. */
  predicate CompleteBy(kvs: seq<Pair>, name: Bytes, i: nat) {
    && NonzeroBy(kvs, name + Suffix(Blocks), i) && NonzeroBy(kvs, name + Suffix(Context), i)
    && NonzeroBy(kvs, name + Suffix(KvHeads), i)
  }

  /** The walk ends at pair `i`: at the tokenizer behind the block count, or behind the last of the three fields. */
  predicate EndsAt(kvs: seq<Pair>, name: Bytes, i: nat)
    requires i < |kvs|
  {
    || (Ascii("tokenizer.") <= kvs[i].key && !(IsNumber(kvs[i].value) && Wanted(name, kvs[i].key).Some?)
        && NonzeroBy(kvs, name + Suffix(Blocks), i))
    || CompleteBy(kvs, name, i + 1)
  }

  /** The fields are those of the first `i` pairs. */
  ghost predicate Knows(kvs: seq<Pair>, name: Bytes, i: nat, f: Fields) {
    && f.architecture == Some(name)
    && (forall slot: Slot :: slot in f.slots <==> AnyNumberBy(kvs, name + Suffix(slot), i))
    && forall slot: Slot, k: nat | k < i && NumberAt(kvs, name + Suffix(slot), k) :: f.slots[slot] == kvs[k].value.n
  }

  lemma SuffixesDiffer(name: Bytes, a: Slot, b: Slot)
    ensures name + Suffix(a) == name + Suffix(b) <==> a == b
  {
    if name + Suffix(a) == name + Suffix(b) {
      assert |Suffix(a)| == |Suffix(b)|;
    }
  }

  lemma WantedIs(name: Bytes, slot: Slot)
    ensures Wanted(name, name + Suffix(slot)) == Some(slot)
  {
    var w := Wanted(name, name + Suffix(slot));
    SuffixesDiffer(name, slot, w.value);
  }

  /** The five fields and the keys they are read from. */
  lemma WantedExactly(name: Bytes, key: Bytes)
    ensures Wanted(name, key) == Some(Blocks) <==> key == name + Ascii(".block_count")
    ensures Wanted(name, key) == Some(Context) <==> key == name + Ascii(".context_length")
    ensures Wanted(name, key) == Some(Experts) <==> key == name + Ascii(".expert_count")
    ensures Wanted(name, key) == Some(KvHeads) <==> key == name + Ascii(".attention.head_count_kv")
    ensures Wanted(name, key) == Some(HeadDim) <==> key == name + Ascii(".attention.key_length")
  {
    WantedIs(name, Blocks);
    WantedIs(name, Context);
    WantedIs(name, Experts);
    WantedIs(name, KvHeads);
    WantedIs(name, HeadDim);
  }

  lemma AnyStep(kvs: seq<Pair>, key: Bytes, i: nat)
    ensures AnyNumberBy(kvs, key, i + 1) <==> AnyNumberBy(kvs, key, i) || NumberAt(kvs, key, i)
  {
  }

  lemma KnowsTruthy(kvs: seq<Pair>, name: Bytes, i: nat, f: Fields, slot: Slot)
    requires Knows(kvs, name, i, f)
    ensures Truthy(f, slot) <==> NonzeroBy(kvs, name + Suffix(slot), i)
  {
    var key := name + Suffix(slot);
    if slot in f.slots {
      var k: nat :| k < i && NumberAt(kvs, key, k);
      assert f.slots[slot] == kvs[k].value.n;
    }
  }

  lemma KnowsComplete(kvs: seq<Pair>, name: Bytes, i: nat, f: Fields)
    requires Knows(kvs, name, i, f)
    ensures Complete(f) <==> CompleteBy(kvs, name, i)
  {
    KnowsTruthy(kvs, name, i, f, Blocks);
    KnowsTruthy(kvs, name, i, f, Context);
    KnowsTruthy(kvs, name, i, f, KvHeads);
  }

  /** A number for a slot is known after its pair. */
  lemma KnowsNumber(kvs: seq<Pair>, name: Bytes, i: nat, f: Fields, slot: Slot)
    requires i < |kvs| && Knows(kvs, name, i, f) && NumberAt(kvs, name + Suffix(slot), i) && OnlyAt(kvs, i)
    ensures Knows(kvs, name, i + 1, f.(slots := f.slots[slot := kvs[i].value.n]))
  {
    var g := f.(slots := f.slots[slot := kvs[i].value.n]);
    forall other: Slot ensures other in g.slots <==> AnyNumberBy(kvs, name + Suffix(other), i + 1) {
      AnyStep(kvs, name + Suffix(other), i);
      SuffixesDiffer(name, slot, other);
    }
    forall other: Slot, k: nat | k < i + 1 && NumberAt(kvs, name + Suffix(other), k)
      ensures g.slots[other] == kvs[k].value.n
    {
      SuffixesDiffer(name, slot, other);
    }
  }

  /** Any other pair changes nothing. */
  lemma KnowsOther(kvs: seq<Pair>, name: Bytes, i: nat, f: Fields)
    requires i < |kvs| && Knows(kvs, name, i, f)
    requires !(IsNumber(kvs[i].value) && Wanted(name, kvs[i].key).Some?)
    ensures Knows(kvs, name, i + 1, f)
  {
    forall slot: Slot
      ensures !NumberAt(kvs, name + Suffix(slot), i)
      ensures AnyNumberBy(kvs, name + Suffix(slot), i + 1) <==> AnyNumberBy(kvs, name + Suffix(slot), i)
    {
      WantedIs(name, slot);
      AnyStep(kvs, name + Suffix(slot), i);
    }
  }

  /** Taking the number of pair `i`. */
  lemma NumberTurn(kvs: seq<Pair>, name: Bytes, i: nat, f: Fields)
    requires i < |kvs| && f.architecture == Some(name) && name != [] && kvs[i].key != ARCHITECTURE
    requires IsNumber(kvs[i].value) && Wanted(name, kvs[i].key).Some?
    ensures var turn := PairTurn(kvs[i], 0, f);
      && turn.fields == f.(slots := f.slots[Wanted(name, kvs[i].key).value := kvs[i].value.n])
      && (turn.Halt? <==> Complete(turn.fields))
  {
  }

  /** Skipping pair `i`, or stopping at it. */
  lemma OtherTurn(kvs: seq<Pair>, name: Bytes, i: nat, f: Fields)
    requires i < |kvs| && f.architecture == Some(name) && name != [] && kvs[i].key != ARCHITECTURE
    requires !(IsNumber(kvs[i].value) && Wanted(name, kvs[i].key).Some?)
    ensures var turn := PairTurn(kvs[i], 0, f);
      turn.fields == f && (turn.Halt? <==> (TOKENIZER <= kvs[i].key && Truthy(f, Blocks)) || Complete(f))
  {
  }

  lemma StepKnows(kvs: seq<Pair>, name: Bytes, i: nat, f: Fields, turn: Turn)
    requires i < |kvs| && Knows(kvs, name, i, f) && name != [] && kvs[i].key != ARCHITECTURE && OnlyAt(kvs, i)
    requires turn == PairTurn(kvs[i], 0, f)
    ensures Knows(kvs, name, i + 1, turn.fields) && (turn.Halt? <==> EndsAt(kvs, name, i))
  {
    var wanted := Wanted(name, kvs[i].key);
    if IsNumber(kvs[i].value) && wanted.Some? {
      NumberTurn(kvs, name, i, f);
      KnowsNumber(kvs, name, i, f, wanted.value);
    } else {
      OtherTurn(kvs, name, i, f);
      KnowsOther(kvs, name, i, f);
      KnowsTruthy(kvs, name, i, f, Blocks);
    }
    KnowsComplete(kvs, name, i + 1, turn.fields);
  }

  lemma CollectStep(kvs: seq<Pair>, i: nat, f: Fields, turn: Turn)
    requires i < |kvs| && turn == PairTurn(kvs[i], 0, f)
    ensures Collect(kvs[i..], f) == if turn.Halt? then turn.fields else Collect(kvs[i + 1..], turn.fields)
  {
    assert kvs[i..][0] == kvs[i] && kvs[i..][1..] == kvs[i + 1..];
  }

  /** One pair further. */
  lemma CollectOne(kvs: seq<Pair>, name: Bytes, i: nat, f: Fields) returns (ends: bool, g: Fields)
    requires 0 < i < |kvs| && Knows(kvs, name, i, f) && name != [] && Distinct(KeysOf(kvs)) && kvs[0].key == ARCHITECTURE
    ensures Knows(kvs, name, i + 1, g) && (ends <==> EndsAt(kvs, name, i))
    ensures Collect(kvs[i..], f) == if ends then g else Collect(kvs[i + 1..], g)
  {
    var turn := PairTurn(kvs[i], 0, f);
    DistinctOnly(kvs, i);
    DistinctPairs(kvs, 0, i);
    StepKnows(kvs, name, i, f, turn);
    CollectStep(kvs, i, f, turn);
    ends, g := turn.Halt?, turn.fields;
  }

  /** The walk went on to pair `e` and ended there, or at the end. */
  ghost predicate WentTo(kvs: seq<Pair>, name: Bytes, i: nat, e: nat) {
    && i <= e <= |kvs|
    && (forall k | i <= k < e - 1 :: !EndsAt(kvs, name, k))
    && (e == |kvs| || (e > i && EndsAt(kvs, name, e - 1)))
  }

  /** The walk knows the pairs up to the first at which it ends. */
  lemma {:induction false} CollectKnows(kvs: seq<Pair>, name: Bytes, i: nat, f: Fields) returns (e: nat)
    requires 0 < i <= |kvs| && Knows(kvs, name, i, f) && name != [] && Distinct(KeysOf(kvs)) && kvs[0].key == ARCHITECTURE
    ensures WentTo(kvs, name, i, e) && Knows(kvs, name, e, Collect(kvs[i..], f))
    decreases |kvs| - i
  {
    if i == |kvs| {
      e := i;
    } else {
      var ends, g := CollectOne(kvs, name, i, f);
      e := i + 1;
      if !ends {
        e := CollectKnows(kvs, name, i + 1, g);
        WentOn(kvs, name, i, e);
      }
    }
  }

  lemma WentOn(kvs: seq<Pair>, name: Bytes, i: nat, e: nat)
    requires i < |kvs| && !EndsAt(kvs, name, i) && WentTo(kvs, name, i + 1, e)
    ensures WentTo(kvs, name, i, e)
  {
  }

  /**
   With the architecture first and distinct keys, the whole file yields a field exactly
   when the walk does not end at a pair before the number for it.
   */
  lemma FieldReadIff(version: Bytes, tensors: Bytes, kvs: seq<Pair>, rest: Bytes, name: Bytes, slot: Slot, j: nat)
    requires |version| == 4 && |tensors| == 8 && |kvs| < LIMIT64 && AllOk(kvs) && Distinct(KeysOf(kvs))
    requires 0 < j < |kvs| && kvs[0] == Pair(Ascii("general.architecture"), Text(name)) && name != []
    requires NumberAt(kvs, name + Suffix(slot), j)
    requires Parse(PutFile(version, tensors, kvs, rest)).Some?
    ensures var f := Parse(PutFile(version, tensors, kvs, rest)).value;
      && (slot in f.slots <==> forall i | 0 < i < j :: !EndsAt(kvs, name, i))
      && FieldOf(f, slot) == if slot in f.slots then kvs[j].value.n else 0
  {
    ParseEncoded(version, tensors, kvs, rest);
    CollectFirst(kvs, name);
    KnowsFirst(kvs, name);
    var e := CollectKnows(kvs, name, 1, Fields(Some(name), map[]));
    DistinctOnly(kvs, j);
    ReachedIff(kvs, name, Collect(kvs, EMPTY), e, slot, j);
  }

  lemma KnowsFirst(kvs: seq<Pair>, name: Bytes)
    requires kvs != [] && kvs[0] == Pair(ARCHITECTURE, Text(name))
    ensures Knows(kvs, name, 1, Fields(Some(name), map[]))
  {
  }

  lemma ReachedIff(kvs: seq<Pair>, name: Bytes, f: Fields, e: nat, slot: Slot, j: nat)
    requires 0 < j < |kvs| && 0 < e <= |kvs| && Knows(kvs, name, e, f) && OnlyAt(kvs, j)
    requires NumberAt(kvs, name + Suffix(slot), j)
    requires WentTo(kvs, name, 1, e)
    ensures slot in f.slots <==> forall i | 0 < i < j :: !EndsAt(kvs, name, i)
    ensures slot in f.slots ==> f.slots[slot] == kvs[j].value.n
  {
    assert slot in f.slots <==> j < e;
  }
}
