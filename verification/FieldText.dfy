/**
 The control characters of Word text: a field opens with an instruction, which is
 dropped, and may show a result, which is kept.
 */
module FieldText {
  import opened Words

  const FIELD_BEGIN: char := '\U{13}'
  const FIELD_SEPARATOR: char := '\U{14}'
  const FIELD_END: char := '\U{15}'

  predicate IsFieldMark(c: char) {
    c == FIELD_BEGIN || c == FIELD_SEPARATOR || c == FIELD_END
  }

  /** What a reader sees of a character outside an instruction. */
  function Show(c: char): string {
    if c in "\r\U{0b}\U{0c}" then "\n"
    else if c == '\U{07}' then "\t"
    else if c in "\U{01}\U{02}\U{05}\U{08}\U{1f}" then ""
    else if c == '\U{1e}' then "-"
    else [c]
  }

  /** Breaks, tabs, cell ends and the marks that show nothing; every other character shows itself. */
  lemma ShownAs(c: char)
    ensures Show('\r') == "\n" && Show('\U{0b}') == "\n" && Show('\U{0c}') == "\n" && Show('\U{07}') == "\t"
    ensures Show('\U{01}') == "" && Show('\U{02}') == "" && Show('\U{05}') == "" && Show('\U{08}') == ""
    ensures Show('\U{1f}') == "" && Show('\U{1e}') == "-"
    ensures c in "\r\U{0b}\U{0c}\U{07}\U{01}\U{02}\U{05}\U{08}\U{1f}\U{1e}" || Show(c) == [c]
  {
  }

  /** The text from here on; `hidden` inside an instruction. */
  function Scan(text: string, hidden: bool): string {
    if text == "" then ""
    else if text[0] == FIELD_BEGIN then Scan(text[1..], true)
    else if text[0] == FIELD_SEPARATOR || text[0] == FIELD_END then Scan(text[1..], false)
    else (if hidden then "" else Show(text[0])) + Scan(text[1..], hidden)
  }

  method Clean(text: string) returns (shown: string)
    ensures shown == Scan(text, false)
  {
    shown := "";
    var depth := 0;
    var inInstruction := false;
    for i := 0 to |text|
      invariant Scan(text, false) == shown + Scan(text[i..], inInstruction)
    {
      var c := text[i];
      CleanStep(text, i, inInstruction, shown);
      if c == FIELD_BEGIN {
        depth := depth + 1;
        inInstruction := true;
      } else if c == FIELD_SEPARATOR {
        inInstruction := false;
      } else if c == FIELD_END {
        depth := if depth > 0 then depth - 1 else 0;
        inInstruction := false;
      } else if !inInstruction {
        shown := shown + Show(c);
      }
    }
  }

  lemma CleanStep(text: string, i: nat, hidden: bool, shown: string)
    requires i < |text|
    ensures var c, rest := text[i], text[i + 1..];
      shown + Scan(text[i..], hidden) ==
      (if c == FIELD_BEGIN then shown + Scan(rest, true)
       else if IsFieldMark(c) then shown + Scan(rest, false)
       else if hidden then shown + Scan(rest, hidden)
       else (shown + Show(c)) + Scan(rest, hidden))
  {
    assert text[i..][1..] == text[i + 1..];
    Assoc(shown, Show(text[i]), Scan(text[i + 1..], hidden));
  }

  lemma {:induction false} ScanUnmarked(s: string, tail: string, hidden: bool)
    requires forall c | c in s :: c !in "\U{13}\U{14}\U{15}"
    ensures Scan(s + tail, hidden) == (if hidden then "" else Scan(s, false)) + Scan(tail, hidden)
  {
    if s == "" {
      assert s + tail == tail;
    } else {
      assert s + tail == [s[0]] + (s[1..] + tail) && s == [s[0]] + s[1..];
      assert s[0] in s && !IsFieldMark(s[0]);
      ScanPlain(s[0], s[1..] + tail, hidden);
      ScanPlain(s[0], s[1..], false);
      ScanUnmarked(s[1..], tail, hidden);
      Assoc(Show(s[0]), Scan(s[1..], false), Scan(tail, hidden));
    }
  }

  lemma ScanBehind(c: char, s: string, hidden: bool)
    ensures c == '\U{13}' ==> Scan([c] + s, hidden) == Scan(s, true)
    ensures c == '\U{14}' || c == '\U{15}' ==> Scan([c] + s, hidden) == Scan(s, false)
  {
    assert ([c] + s)[1..] == s;
  }

  /** One field with a result: the instruction between 0x13 and 0x14 goes, the result up to 0x15 stays. */
  lemma FieldShowsResult(instruction: string, result: string, rest: string)
    requires forall c | c in instruction + result :: c !in "\U{13}\U{14}\U{15}"
    ensures Scan("\U{13}" + (instruction + ("\U{14}" + (result + ("\U{15}" + rest)))), false)
         == Scan(result, false) + Scan(rest, false)
  {
    var shown := result + ("\U{15}" + rest);
    assert forall c | c in instruction :: c in instruction + result;
    assert forall c | c in result :: c in instruction + result;
    ScanBehind('\U{13}', instruction + ("\U{14}" + shown), false);
    ScanUnmarked(instruction, "\U{14}" + shown, true);
    ScanBehind('\U{14}', shown, true);
    ScanUnmarked(result, "\U{15}" + rest, false);
    ScanBehind('\U{15}', rest, false);
  }

  // ---- what comes out of any text -------------------------------------------------------------

  ghost predicate Readable(s: string) {
    forall i | 0 <= i < |s| :: !IsFieldMark(s[i]) && Show(s[i]) == [s[i]]
  }

  lemma ShowReadable(c: char)
    requires !IsFieldMark(c)
    ensures Readable(Show(c))
  {
  }

  /** No field mark and no control character with a meaning of its own is left. */
  lemma {:induction false} ScanReadable(text: string, hidden: bool)
    ensures Readable(Scan(text, hidden))
  {
    if text != "" {
      if text[0] == FIELD_BEGIN {
        ScanReadable(text[1..], true);
      } else if IsFieldMark(text[0]) {
        ScanReadable(text[1..], false);
      } else {
        ShowReadable(text[0]);
        ScanReadable(text[1..], hidden);
      }
    }
  }

  lemma {:induction false} ReadableUnchanged(s: string)
    requires Readable(s)
    ensures Scan(s, false) == s
  {
    if s != "" {
      ReadableUnchanged(s[1..]);
      assert s == [s[0]] + s[1..];
    }
  }

  /** Cleaning twice changes nothing more. */
  lemma CleanTwice(text: string)
    ensures Scan(Scan(text, false), false) == Scan(text, false)
  {
    ScanReadable(text, false);
    ReadableUnchanged(Scan(text, false));
  }

  // ---- fields -----------------------------------------------------------------------------------

  /** Text with fields: plain characters, fields without and fields with a result. */
  datatype Items =
    | Nil
    | Plain(c: char, rest: Items)
    | Bare(instruction: Items, rest: Items)
    | Field(instruction: Items, result: Items, rest: Items)

  predicate WellFormed(x: Items) {
    match x
    case Nil => true
    case Plain(c, rest) => !IsFieldMark(c) && WellFormed(rest)
    case Bare(i, rest) => WellFormed(i) && WellFormed(rest)
    case Field(i, r, rest) => WellFormed(i) && WellFormed(r) && WellFormed(rest)
  }

  function Put(x: Items): string {
    match x
    case Nil => ""
    case Plain(c, rest) => [c] + Put(rest)
    case Bare(i, rest) => [FIELD_BEGIN] + (Put(i) + ([FIELD_END] + Put(rest)))
    case Field(i, r, rest) => [FIELD_BEGIN] + (Put(i) + ([FIELD_SEPARATOR] + (Put(r) + ([FIELD_END] + Put(rest)))))
  }

  /** What should be seen: results, and no instruction at any depth. */
  function Visible(x: Items): string {
    match x
    case Nil => ""
    case Plain(c, rest) => Show(c) + Visible(rest)
    case Bare(_, rest) => Visible(rest)
    case Field(_, r, rest) => Visible(r) + Visible(rest)
  }

  /** What is seen of an item list outside (`hidden` false) or at the start of an instruction. */
  function Seen(x: Items, hidden: bool): string {
    match x
    case Nil => ""
    case Plain(c, rest) => (if hidden then "" else Show(c)) + Seen(rest, hidden)
    case Bare(i, rest) => Seen(i, true) + Seen(rest, false)
    case Field(i, r, rest) => Seen(i, true) + (Seen(r, false) + Seen(rest, false))
  }

  predicate NoField(x: Items) {
    match x
    case Nil => true
    case Plain(_, rest) => NoField(rest)
    case Bare(_, _) => false
    case Field(_, _, _) => false
  }

  function Size(x: Items): nat {
    match x
    case Nil => 0
    case Plain(_, rest) => 1 + Size(rest)
    case Bare(i, rest) => 1 + Size(i) + Size(rest)
    case Field(i, r, rest) => 1 + Size(i) + Size(r) + Size(rest)
  }

  lemma ScanMark(mark: char, s: string, hidden: bool)
    requires IsFieldMark(mark)
    ensures Scan([mark] + s, hidden) == Scan(s, mark == FIELD_BEGIN)
  {
    assert ([mark] + s)[1..] == s;
  }

  lemma ScanPlain(c: char, s: string, hidden: bool)
    requires !IsFieldMark(c)
    ensures Scan([c] + s, hidden) == (if hidden then "" else Show(c)) + Scan(s, hidden)
  {
    assert ([c] + s)[1..] == s;
  }

  /** The scan of encoded items followed by anything: nested fields end the hiding. */
  lemma {:induction false} ScanPut(x: Items, tail: string, hidden: bool)
    requires WellFormed(x)
    ensures Scan(Put(x) + tail, hidden) == Seen(x, hidden) + Scan(tail, hidden && NoField(x))
    decreases Size(x), 0
  {
    match x
    case Nil => assert Put(x) + tail == tail;
    case Plain(c, rest) =>
      Assoc([c], Put(rest), tail);
      ScanPlain(c, Put(rest) + tail, hidden);
      ScanPut(rest, tail, hidden);
      Assoc(if hidden then "" else Show(c), Seen(rest, hidden), Scan(tail, hidden && NoField(rest)));
    case Bare(i, rest) => ScanBare(i, rest, tail, hidden);
    case Field(i, r, rest) => ScanField(i, r, rest, tail, hidden);
  }

  /** The end mark and what follows it. */
  lemma {:induction false} ScanEnd(rest: Items, tail: string, hidden: bool)
    requires WellFormed(rest)
    ensures Scan(([FIELD_END] + Put(rest)) + tail, hidden) == Seen(rest, false) + Scan(tail, false)
    decreases Size(rest), 1
  {
    Assoc([FIELD_END], Put(rest), tail);
    ScanMark(FIELD_END, Put(rest) + tail, hidden);
    ScanPut(rest, tail, false);
  }

  lemma {:induction false} ScanBare(i: Items, rest: Items, tail: string, hidden: bool)
    requires WellFormed(i) && WellFormed(rest)
    ensures Scan(Put(Bare(i, rest)) + tail, hidden) == Seen(Bare(i, rest), hidden) + Scan(tail, false)
    decreases Size(i) + Size(rest), 2
  {
    var close := [FIELD_END] + Put(rest);
    Assoc([FIELD_BEGIN], Put(i) + close, tail);
    Assoc(Put(i), close, tail);
    ScanMark(FIELD_BEGIN, Put(i) + (close + tail), hidden);
    ScanPut(i, close + tail, true);
    ScanEnd(rest, tail, NoField(i));
    Assoc(Seen(i, true), Seen(rest, false), Scan(tail, false));
  }

  lemma {:induction false} ScanField(i: Items, r: Items, rest: Items, tail: string, hidden: bool)
    requires WellFormed(i) && WellFormed(r) && WellFormed(rest)
    ensures Scan(Put(Field(i, r, rest)) + tail, hidden) == Seen(Field(i, r, rest), hidden) + Scan(tail, false)
    decreases Size(i) + Size(r) + Size(rest), 3
  {
    var close := [FIELD_END] + Put(rest);
    var open := [FIELD_SEPARATOR] + (Put(r) + close);
    Assoc([FIELD_BEGIN], Put(i) + open, tail);
    Assoc(Put(i), open, tail);
    ScanMark(FIELD_BEGIN, Put(i) + (open + tail), hidden);
    ScanPut(i, open + tail, true);
    ScanResult(r, rest, tail, NoField(i));
    Assoc(Seen(i, true), Seen(r, false) + Seen(rest, false), Scan(tail, false));
  }

  /** The separator, the result, the end mark and what follows. */
  lemma {:induction false} ScanResult(r: Items, rest: Items, tail: string, hidden: bool)
    requires WellFormed(r) && WellFormed(rest)
    ensures Scan(([FIELD_SEPARATOR] + (Put(r) + ([FIELD_END] + Put(rest)))) + tail, hidden)
         == (Seen(r, false) + Seen(rest, false)) + Scan(tail, false)
    decreases Size(r) + Size(rest), 2
  {
    var close := [FIELD_END] + Put(rest);
    Assoc([FIELD_SEPARATOR], Put(r) + close, tail);
    Assoc(Put(r), close, tail);
    ScanMark(FIELD_SEPARATOR, Put(r) + (close + tail), hidden);
    ScanPut(r, close + tail, false);
    ScanEnd(rest, tail, false);
    Assoc(Seen(r, false), Seen(rest, false), Scan(tail, false));
  }

  // ---- when instructions stay hidden ------------------------------------------------------------

  /**
   Nothing is shown of these items.  Inside an instruction that means: once a nested
   field has been met, no visible character stands in its result or behind it.
   */
  predicate Silent(x: Items, hidden: bool) {
    match x
    case Nil => true
    case Plain(c, rest) => (hidden || Show(c) == "") && Silent(rest, hidden)
    case Bare(i, rest) => Silent(i, true) && Silent(rest, false)
    case Field(i, r, rest) => Silent(i, true) && Silent(r, false) && Silent(rest, false)
  }

  /** Every instruction outside other instructions is silent. */
  predicate Tidy(x: Items) {
    match x
    case Nil => true
    case Plain(_, rest) => Tidy(rest)
    case Bare(i, rest) => Silent(i, true) && Tidy(rest)
    case Field(i, r, rest) => Silent(i, true) && Tidy(r) && Tidy(rest)
  }

  lemma {:induction false} SilentIff(x: Items, hidden: bool)
    ensures Silent(x, hidden) <==> Seen(x, hidden) == ""
  {
    match x
    case Nil =>
    case Plain(c, rest) => SilentIff(rest, hidden);
    case Bare(i, rest) =>
      SilentIff(i, true);
      SilentIff(rest, false);
    case Field(i, r, rest) =>
      SilentIff(i, true);
      SilentIff(r, false);
      SilentIff(rest, false);
  }

  /** What is seen is at least what should be, and it is exactly that when instructions are silent. */
  lemma {:induction false} SeenVisible(x: Items)
    ensures |Seen(x, false)| >= |Visible(x)|
    ensures Tidy(x) ==> Seen(x, false) == Visible(x)
    ensures !Tidy(x) ==> |Seen(x, false)| > |Visible(x)|
  {
    match x
    case Nil =>
    case Plain(c, rest) => SeenVisible(rest);
    case Bare(i, rest) =>
      SilentIff(i, true);
      SeenVisible(rest);
    case Field(i, r, rest) =>
      SilentIff(i, true);
      SeenVisible(r);
      SeenVisible(rest);
  }

  /** Cleaning encoded items shows what should be seen exactly when they are tidy. */
  lemma FieldsShownIff(x: Items)
    requires WellFormed(x)
    ensures Scan(Put(x), false) == Visible(x) <==> Tidy(x)
  {
    assert Put(x) + "" == Put(x);
    ScanPut(x, "", false);
    SeenVisible(x);
  }

  /** Instructions without nested fields, with results nested to any depth. */
  predicate FlatInstructions(x: Items) {
    match x
    case Nil => true
    case Plain(_, rest) => FlatInstructions(rest)
    case Bare(i, rest) => NoField(i) && FlatInstructions(rest)
    case Field(i, r, rest) => NoField(i) && FlatInstructions(r) && FlatInstructions(rest)
  }

  lemma {:induction false} FlatIsSilent(x: Items)
    requires NoField(x)
    ensures Silent(x, true)
  {
    if x.Plain? {
      FlatIsSilent(x.rest);
    }
  }

  lemma {:induction false} FlatIsTidy(x: Items)
    requires FlatInstructions(x)
    ensures Tidy(x)
  {
    match x
    case Nil =>
    case Plain(_, rest) => FlatIsTidy(rest);
    case Bare(i, rest) =>
      FlatIsSilent(i);
      FlatIsTidy(rest);
    case Field(i, r, rest) =>
      FlatIsSilent(i);
      FlatIsTidy(r);
      FlatIsTidy(rest);
  }

  lemma ResultsMayNest(x: Items)
    requires WellFormed(x) && FlatInstructions(x)
    ensures Scan(Put(x), false) == Visible(x)
  {
    FlatIsTidy(x);
    FieldsShownIff(x);
  }

  /** A field inside an instruction shows its result and the rest of the instruction. */
  lemma NestedInstructionLeaks(a: char, b: char, shown: char)
    requires !IsFieldMark(a) && !IsFieldMark(b) && !IsFieldMark(shown)
    ensures var inner := Field(Nil, Plain(a, Nil), Plain(b, Nil));
      var x := Field(inner, Plain(shown, Nil), Nil);
      Visible(x) == Show(shown) && Scan(Put(x), false) == Show(a) + Show(b) + Show(shown)
  {
    var inner := Field(Nil, Plain(a, Nil), Plain(b, Nil));
    var x := Field(inner, Plain(shown, Nil), Nil);
    assert Put(x) + "" == Put(x);
    ScanPut(x, "", false);
    assert Seen(inner, true) == Show(a) + Show(b);
  }
}
