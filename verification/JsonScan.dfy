/**
 The scanner that finds the first balanced JSON object in a model's reply, and the
 printer it undoes.
 */
module JsonScan {
  import opened Wrappers

  /** Nesting depth of braces and the position relative to string literals. */
  datatype Scan = Scan(depth: int, inStr: bool, escaped: bool)

  const START: Scan := Scan(0, false, false)

  /** The state after one character. */
  function Advance(s: Scan, c: char): Scan {
    if s.inStr then
      if s.escaped then s.(escaped := false)
      else if c == '\\' then s.(escaped := true)
      else if c == '"' then s.(inStr := false)
      else s
    else if c == '"' then s.(inStr := true)
    else if c == '{' then s.(depth := s.depth + 1)
    else if c == '}' then s.(depth := s.depth - 1)
    else s
  }

  /** The character is a brace that closes the object opened at depth 0. */
  predicate Closes(s: Scan, c: char) {
    !s.inStr && c == '}' && s.depth == 1
  }

  /** Length of the shortest prefix of `text` that closes the object, if any does. */
  function CloseLength(text: string, s: Scan): (r: Option<nat>)
    ensures r.Some? ==> 0 < r.value <= |text|
  {
    if text == "" then None
    else if Closes(s, text[0]) then Some(1)
    else
      var rest := CloseLength(text[1..], Advance(s, text[0]));
      if rest.None? then None else Some(1 + rest.value)
  }

  /** `obj` is one object: it opens at its first character and closes at its last. */
  predicate Balanced(obj: string) {
    obj != "" && obj[0] == '{' && CloseLength(obj, START) == Some(|obj|)
  }

  /** Index of the first opening brace at or after `from`. */
  function NextBrace(text: string, from: nat): (r: Option<nat>)
    ensures r.Some? ==> from <= r.value < |text| && text[r.value] == '{'
    ensures r.Some? ==> forall i | from <= i < r.value :: text[i] != '{'
    ensures r.None? ==> forall i | from <= i < |text| :: text[i] != '{'
    decreases |text| - from
  {
    if from >= |text| then None else if text[from] == '{' then Some(from) else NextBrace(text, from + 1)
  }

  /** The slice at the first opening brace from `start` on that closes. */
  function FromBrace(text: string, start: Option<nat>): Option<string>
    requires start.Some? ==> start.value < |text|
    decreases if start.Some? then |text| - start.value else 0
  {
    if start.None? then None
    else
      var length := CloseLength(text[start.value..], START);
      if length.Some? then Some(text[start.value..start.value + length.value])
      else FromBrace(text, NextBrace(text, start.value + 1))
  }

  function FirstObject(text: string): Option<string> {
    FromBrace(text, NextBrace(text, 0))
  }

  method FirstJsonObject(text: string) returns (r: Option<string>)
    ensures r == FirstObject(text)
  {
    var start := NextBrace(text, 0);
    while start.Some?
      invariant start.Some? ==> start.value < |text|
      invariant FirstObject(text) == FromBrace(text, start)
      decreases if start.Some? then |text| - start.value else 0
    {
      var length := ScanObject(text, start.value);
      if length.Some? {
        return Some(text[start.value..start.value + length.value]);
      }
      start := NextBrace(text, start.value + 1);
    }
    return None;
  }

  /** The inner loop: depth, string and escape flags over the text from `start`. */
  method ScanObject(text: string, start: nat) returns (length: Option<nat>)
    requires start <= |text|
    ensures length == CloseLength(text[start..], START)
  {
    var depth := 0;
    var inStr, escaped := false, false;
    for i := start to |text|
      invariant var rest := CloseLength(text[i..], Scan(depth, inStr, escaped));
        CloseLength(text[start..], START) == if rest.None? then None else Some(i - start + rest.value)
    {
      var ch := text[i];
      assert text[i..][1..] == text[i + 1..];
      if inStr {
        if escaped {
          escaped := false;
        } else if ch == '\\' {
          escaped := true;
        } else if ch == '"' {
          inStr := false;
        }
        continue;
      }
      if ch == '"' {
        inStr := true;
      } else if ch == '{' {
        depth := depth + 1;
      } else if ch == '}' {
        depth := depth - 1;
        if depth == 0 {
          return Some(i + 1 - start);
        }
      }
    }
    return None;
  }

  // ---- the earliest balanced slice ---------------------------------------------------

  /** Whether a prefix closes depends on the prefix alone. */
  lemma {:induction false} CloseOfPrefix(text: string, s: Scan, n: nat)
    requires n <= |text|
    ensures CloseLength(text, s) == Some(n) <==> CloseLength(text[..n], s) == Some(n)
  {
    if n > 0 && !Closes(s, text[0]) {
      CloseOfPrefix(text[1..], Advance(s, text[0]), n - 1);
      assert text[..n][1..] == text[1..][..n - 1];
    }
  }

  /** A balanced object stands in `text` at `start`. */
  ghost predicate ObjectAt(text: string, start: nat, obj: string) {
    start + |obj| <= |text| && text[start..start + |obj|] == obj && Balanced(obj)
  }

  lemma ObjectAtIffCloses(text: string, start: nat, obj: string)
    requires start + |obj| <= |text| && text[start..start + |obj|] == obj && obj != ""
    ensures ObjectAt(text, start, obj) <==>
            text[start] == '{' && CloseLength(text[start..], START) == Some(|obj|)
  {
    CloseOfPrefix(text[start..], START, |obj|);
    assert text[start..][..|obj|] == obj;
  }

  ghost predicate NoObjectAt(text: string, start: nat) {
    forall obj :: !ObjectAt(text, start, obj)
  }

  lemma NoBraceNoObject(text: string, start: nat)
    requires start >= |text| || text[start] != '{'
    ensures NoObjectAt(text, start)
  {
    forall obj ensures !ObjectAt(text, start, obj) {
      assert obj != "" && start + |obj| <= |text| ==> text[start..start + |obj|][0] == text[start];
    }
  }

  /** The scan stops at the earliest position where a balanced object stands, and fails only if there is none. */
  lemma FirstObjectEarliest(text: string)
    ensures FirstObject(text).None? ==> forall start: nat :: NoObjectAt(text, start)
    ensures FirstObject(text).Some? ==>
      exists at: nat :: ObjectAt(text, at, FirstObject(text).value) && forall start: nat | start < at :: NoObjectAt(text, start)
  {
    forall start: nat | NextBrace(text, 0).None? || start < NextBrace(text, 0).value ensures NoObjectAt(text, start) {
      NoBraceNoObject(text, start);
    }
    EarliestFrom(text, NextBrace(text, 0));
  }

  lemma {:induction false} EarliestFrom(text: string, brace: Option<nat>)
    requires brace.Some? ==> brace.value < |text| && text[brace.value] == '{'
    requires forall start: nat | brace.None? || start < brace.value :: NoObjectAt(text, start)
    ensures FromBrace(text, brace).None? ==> forall start: nat :: NoObjectAt(text, start)
    ensures FromBrace(text, brace).Some? ==>
      exists at: nat :: ObjectAt(text, at, FromBrace(text, brace).value) && forall start: nat | start < at :: NoObjectAt(text, start)
    decreases if brace.Some? then |text| - brace.value else 0
  {
    if brace.Some? {
      BraceObject(text, brace.value);
      if CloseLength(text[brace.value..], START).None? {
        var next := NextBrace(text, brace.value + 1);
        forall start: nat | next.None? || start < next.value ensures NoObjectAt(text, start) {
          if start > brace.value {
            NoBraceNoObject(text, start);
          }
        }
        EarliestFrom(text, next);
      }
    }
  }

  /** The slice at a brace is an object exactly when the brace closes. */
  lemma BraceObject(text: string, start: nat)
    requires start < |text| && text[start] == '{'
    ensures match CloseLength(text[start..], START)
      case None => NoObjectAt(text, start)
      case Some(n) => ObjectAt(text, start, text[start..start + n])
  {
    var length := CloseLength(text[start..], START);
    if length.Some? {
      ObjectAtIffCloses(text, start, text[start..start + length.value]);
    } else {
      forall obj ensures !ObjectAt(text, start, obj) {
        if ObjectAt(text, start, obj) {
          ObjectAtIffCloses(text, start, obj);
        }
      }
    }
  }
}
