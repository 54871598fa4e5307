/**
 A JSON printer with escaped strings, and the round trip through the scanner: the
 printed object comes back from any reply that has no earlier brace.
 */
module JsonPrint {
  import opened Wrappers
  import opened Words
  import opened JsonScan

  /** `Atom` covers numbers, booleans and null, by their text. */
  datatype Json = Atom(text: string) | Text(value: string) | Array(items: seq<Json>) | Object(members: seq<Member>)

  datatype Member = Member(key: string, value: Json)

  /** Atoms have no brace, quote or backslash. */
  predicate WellFormed(j: Json)
    decreases j, 0
  {
    match j
    case Atom(text) => Plain(text)
    case Text(_) => true
    case Array(items) => forall i | i in items :: WellFormed(i)
    case Object(members) => forall m | m in members :: WellFormed(m.value)
  }

  predicate Plain(text: string) {
    forall i | 0 <= i < |text| :: text[i] != '{' && text[i] != '}' && text[i] != '"' && text[i] != '\\'
  }

  function Hex(n: nat): char
    requires n < 16
  {
    if n < 10 then (n + '0' as int) as char else (n - 10 + 'a' as int) as char
  }

  /** The short escapes, four hex digits for other control characters, and the rest as it is. */
  function EscapeChar(c: char): string {
    if c == '"' then "\\\""
    else if c == '\\' then "\\\\"
    else if c == '\n' then "\\n"
    else if c == '\r' then "\\r"
    else if c == '\t' then "\\t"
    else if c < ' ' then "\\u00" + [Hex(c as nat / 16), Hex(c as nat % 16)]
    else [c]
  }

  function Escape(s: string): string {
    if s == "" then "" else EscapeChar(s[0]) + Escape(s[1..])
  }

  function Quote(s: string): string {
    ['"'] + (Escape(s) + ['"'])
  }

  function Print(j: Json): string
    decreases j, 0
  {
    match j
    case Atom(text) => text
    case Text(value) => Quote(value)
    case Array(items) => "[" + (PrintItems(items) + "]")
    case Object(members) => "{" + (PrintMembers(members) + "}")
  }

  function PrintItems(items: seq<Json>): string
    decreases items, 1
  {
    if items == [] then ""
    else Print(items[0]) + ((if |items| > 1 then ", " else "") + PrintItems(items[1..]))
  }

  function PrintMembers(members: seq<Member>): string
    decreases members, 1
  {
    if members == [] then ""
    else
      Quote(members[0].key)
      + (": " + (Print(members[0].value) + ((if |members| > 1 then ", " else "") + PrintMembers(members[1..]))))
  }

  // ---- scanning over printed text ------------------------------------------------------

  /** The state after `text`, unless the object closes on the way. */
  function Feed(s: Scan, text: string): Option<Scan>
    decreases |text|
  {
    if text == "" then Some(s)
    else if Closes(s, text[0]) then None
    else Feed(Advance(s, text[0]), text[1..])
  }

  lemma {:induction false} FeedAppend(s: Scan, a: string, b: string)
    ensures Feed(s, a + b) == if Feed(s, a).None? then None else Feed(Feed(s, a).value, b)
    decreases |a|
  {
    if a == "" {
      assert a + b == b;
    } else if !Closes(s, a[0]) {
      assert (a + b)[1..] == a[1..] + b;
      FeedAppend(Advance(s, a[0]), a[1..], b);
    }
  }

  lemma {:induction false} CloseAfterFeed(s: Scan, a: string, b: string)
    requires Feed(s, a).Some?
    ensures var rest := CloseLength(b, Feed(s, a).value);
      CloseLength(a + b, s) == if rest.None? then None else Some(|a| + rest.value)
    decreases |a|
  {
    if a == "" {
      assert a + b == b;
    } else {
      assert (a + b)[1..] == a[1..] + b;
      CloseAfterFeed(Advance(s, a[0]), a[1..], b);
    }
  }

  /** Outside strings, at depth `d`. */
  function Outside(d: int): Scan {
    Scan(d, false, false)
  }

  /** Text that leaves the scanner where it was, inside an object. */
  ghost predicate Neutral(text: string) {
    forall d | d >= 1 :: Feed(Outside(d), text) == Some(Outside(d))
  }

  lemma NeutralAppend(a: string, b: string)
    requires Neutral(a) && Neutral(b)
    ensures Neutral(a + b)
  {
    forall d | d >= 1 ensures Feed(Outside(d), a + b) == Some(Outside(d)) {
      FeedAppend(Outside(d), a, b);
    }
  }

  lemma {:induction false} PlainNeutral(text: string)
    requires Plain(text)
    ensures Neutral(text)
  {
    if text != "" {
      PlainNeutral(text[1..]);
    }
  }

  /** Inside a string an escaped character keeps the scanner inside it. */
  lemma EscapedCharInside(d: int, c: char)
    ensures Feed(Scan(d, true, false), EscapeChar(c)) == Some(Scan(d, true, false))
  {
    var e := EscapeChar(c);
    if |e| == 1 {
      OrdinaryInside(d, e);
    } else {
      if |e| > 2 {
        HexPlain(c);
      }
      OrdinaryInside(d, e[2..]);
      EscapeTakesTwo(d, e);
    }
  }

  lemma EscapeTakesTwo(d: int, e: string)
    requires |e| >= 2 && e[0] == '\\'
    ensures Feed(Scan(d, true, false), e) == Feed(Scan(d, true, false), e[2..])
  {
    assert e[1..][1..] == e[2..];
  }

  lemma HexPlain(c: char)
    requires c < ' '
    ensures Hex(c as nat / 16) != '"' && Hex(c as nat / 16) != '\\'
    ensures Hex(c as nat % 16) != '"' && Hex(c as nat % 16) != '\\'
  {
  }

  lemma {:induction false} OrdinaryInside(d: int, text: string)
    requires forall i | 0 <= i < |text| :: text[i] != '"' && text[i] != '\\'
    ensures Feed(Scan(d, true, false), text) == Some(Scan(d, true, false))
    decreases |text|
  {
    if text != "" {
      OrdinaryInside(d, text[1..]);
    }
  }

  lemma {:induction false} EscapeInside(d: int, s: string)
    ensures Feed(Scan(d, true, false), Escape(s)) == Some(Scan(d, true, false))
  {
    if s != "" {
      EscapedCharInside(d, s[0]);
      EscapeInside(d, s[1..]);
      FeedAppend(Scan(d, true, false), EscapeChar(s[0]), Escape(s[1..]));
    }
  }

  lemma QuoteNeutral(s: string)
    ensures Neutral(Quote(s))
  {
    forall d | d >= 1 ensures Feed(Outside(d), Quote(s)) == Some(Outside(d)) {
      EscapeInside(d, s);
      FeedAppend(Scan(d, true, false), Escape(s), ['"']);
      FeedOne(Scan(d, true, false), '"');
      FeedOne(Outside(d), '"');
      FeedAppend(Outside(d), ['"'], Escape(s) + ['"']);
    }
  }

  lemma FeedOne(s: Scan, c: char)
    ensures Feed(s, [c]) == if Closes(s, c) then None else Some(Advance(s, c))
  {
    assert [c][1..] == "";
  }

  /** A bracketed neutral text is neutral. */
  lemma BraceNeutral(inner: string)
    requires Neutral(inner)
    ensures Neutral("{" + (inner + "}"))
  {
    forall d | d >= 1 ensures Feed(Outside(d), "{" + (inner + "}")) == Some(Outside(d)) {
      FeedOne(Outside(d), '{');
      FeedOne(Outside(d + 1), '}');
      FeedAppend(Outside(d + 1), inner, "}");
      FeedAppend(Outside(d), "{", inner + "}");
    }
  }

  lemma {:induction false} PrintNeutral(j: Json)
    requires WellFormed(j)
    ensures Neutral(Print(j))
    decreases j, 0
  {
    match j
    case Atom(text) => PlainNeutral(text);
    case Text(value) => QuoteNeutral(value);
    case Array(items) =>
      ItemsNeutral(items);
      PlainNeutral("[");
      PlainNeutral("]");
      NeutralAppend(PrintItems(items), "]");
      NeutralAppend("[", PrintItems(items) + "]");
    case Object(members) =>
      MembersNeutral(members);
      BraceNeutral(PrintMembers(members));
  }

  lemma SeparatorNeutral(more: bool)
    ensures Neutral(if more then ", " else "") && Neutral(": ")
  {
    PlainNeutral(", ");
    PlainNeutral("");
    PlainNeutral(": ");
  }

  lemma {:induction false} ItemsNeutral(items: seq<Json>)
    requires forall i | i in items :: WellFormed(i)
    ensures Neutral(PrintItems(items))
    decreases items, 1
  {
    SeparatorNeutral(|items| > 1);
    if items == [] {
      SeparatorNeutral(false);
    } else {
      PrintNeutral(items[0]);
      ItemsNeutral(items[1..]);
      var sep := if |items| > 1 then ", " else "";
      NeutralAppend(sep, PrintItems(items[1..]));
      NeutralAppend(Print(items[0]), sep + PrintItems(items[1..]));
    }
  }

  lemma {:induction false} MembersNeutral(members: seq<Member>)
    requires forall m | m in members :: WellFormed(m.value)
    ensures Neutral(PrintMembers(members))
    decreases members, 1
  {
    SeparatorNeutral(|members| > 1);
    if members == [] {
      SeparatorNeutral(false);
    } else {
      var m := members[0];
      QuoteNeutral(m.key);
      PrintNeutral(m.value);
      MembersNeutral(members[1..]);
      var sep := if |members| > 1 then ", " else "";
      var tail := sep + PrintMembers(members[1..]);
      NeutralAppend(sep, PrintMembers(members[1..]));
      NeutralAppend(Print(m.value), tail);
      NeutralAppend(": ", Print(m.value) + tail);
      NeutralAppend(Quote(m.key), ": " + (Print(m.value) + tail));
    }
  }

  // ---- the round trip ---------------------------------------------------------------------

  lemma BraceCloses(suffix: string)
    ensures CloseLength("}" + suffix, Outside(1)) == Some(1)
  {
  }

  lemma Braced(inner: string, suffix: string)
    ensures ("{" + (inner + "}")) + suffix == ("{" + inner) + ("}" + suffix)
  {
    Assoc("{", inner, "}" + suffix);
    Assoc(inner, "}", suffix);
    Assoc("{", inner + "}", suffix);
  }

  /** Braces around text that leaves the scanner where it was. */
  lemma BracesClose(inner: string, suffix: string)
    requires Neutral(inner)
    ensures CloseLength(("{" + inner) + ("}" + suffix), START) == Some(|inner| + 2)
  {
    FeedOne(START, '{');
    FeedAppend(START, "{", inner);
    BraceCloses(suffix);
    CloseAfterFeed(START, "{" + inner, "}" + suffix);
  }

  /** A printed object closes exactly at its end, whatever follows. */
  lemma PrintedObjectCloses(members: seq<Member>, suffix: string)
    requires WellFormed(Object(members))
    ensures CloseLength(Print(Object(members)) + suffix, START) == Some(|Print(Object(members))|)
  {
    var inner := PrintMembers(members);
    MembersNeutral(members);
    Braced(inner, suffix);
    BracesClose(inner, suffix);
  }

  /**
   Scanner and printer undo each other: behind any text without a brace and before
   any other text, the scanner finds exactly the printed object.
   */
  lemma ScanFindsPrinted(prefix: string, members: seq<Member>, suffix: string)
    requires '{' !in prefix && WellFormed(Object(members))
    ensures FirstObject(prefix + (Print(Object(members)) + suffix)) == Some(Print(Object(members)))
  {
    var printed := Print(Object(members));
    var text := prefix + (printed + suffix);
    FirstBraceAt(prefix, printed + suffix);
    DropConcat(prefix, printed + suffix);
    PrintedObjectCloses(members, suffix);
    SliceAfter(prefix, printed, suffix);
  }

  lemma SliceAfter(a: string, b: string, c: string)
    ensures (a + (b + c))[|a|..|a| + |b|] == b
  {
  }

  lemma FirstBraceAt(prefix: string, rest: string)
    requires '{' !in prefix && rest != "" && rest[0] == '{'
    ensures NextBrace(prefix + rest, 0) == Some(|prefix|)
  {
    var text := prefix + rest;
    assert text[|prefix|] == '{';
    forall i | 0 <= i < |prefix| ensures text[i] != '{' {
      assert text[i] == prefix[i] && prefix[i] in prefix;
    }
  }
}
