/** White space and trimming, as text patterns and `str.strip` see them. */
module Whitespace {

  /** The characters `\s` matches in a text pattern and `str.strip` removes. */
  predicate IsSpace(c: char) {
    || '\t' <= c <= '\r' || '\U{1c}' <= c <= ' ' || c == '\U{85}' || c == '\U{a0}' || c == '\U{1680}'
    || '\U{2000}' <= c <= '\U{200a}' || c == '\U{2028}' || c == '\U{2029}' || c == '\U{202f}'
    || c == '\U{205f}' || c == '\U{3000}'
  }

  /** The 29 characters that Python strips. */
  lemma SpacesAre(c: char)
    ensures IsSpace(c) <==>
      || c in "\t\n\U{0b}\U{0c}\r\U{1c}\U{1d}\U{1e}\U{1f} \U{85}\U{a0}\U{1680}\U{2028}\U{2029}\U{202f}\U{205f}\U{3000}"
      || c in "\U{2000}\U{2001}\U{2002}\U{2003}\U{2004}\U{2005}\U{2006}\U{2007}\U{2008}\U{2009}\U{200a}"
  {
  }

  function TrimLeft(s: string): string {
    if s != "" && IsSpace(s[0]) then TrimLeft(s[1..]) else s
  }

  function TrimRight(s: string): string {
    if s != "" && IsSpace(s[|s| - 1]) then TrimRight(s[..|s| - 1]) else s
  }

  function Strip(s: string): string {
    TrimLeft(TrimRight(s))
  }

  lemma {:induction false} TrimRightPrefix(s: string)
    ensures TrimRight(s) <= s
  {
    if s != "" && IsSpace(s[|s| - 1]) {
      TrimRightPrefix(s[..|s| - 1]);
    }
  }

  /** Number of leading white-space characters. */
  function Lead(s: string): (n: nat)
    ensures n <= |s|
    ensures n < |s| ==> !IsSpace(s[n])
    ensures forall i | 0 <= i < n :: IsSpace(s[i])
    ensures TrimLeft(s) == s[n..]
  {
    if s != "" && IsSpace(s[0]) then
      assert forall i | 0 < i <= Lead(s[1..]) :: s[i] == s[1..][i - 1];
      1 + Lead(s[1..])
    else 0
  }

  lemma StripTwice(s: string)
    ensures Strip(Strip(s)) == Strip(s)
  {
    var r := TrimRight(s);
    var t := r[Lead(r)..];
    TrimRightEnds(s);
    if t != "" {
      assert t[|t| - 1] == r[|r| - 1];
    }
    assert Lead(t) == 0;
    assert TrimLeft(t) == t[0..];
  }

  lemma {:induction false} TrimRightEnds(s: string)
    ensures var r := TrimRight(s); r == "" || !IsSpace(r[|r| - 1])
  {
    if s != "" && IsSpace(s[|s| - 1]) {
      TrimRightEnds(s[..|s| - 1]);
    }
  }

  // ---- what stripping cannot change ------------------------------------------------------

  /** Number of visible characters. */
  function Ink(s: string): nat {
    if s == "" then 0 else Ink(s[..|s| - 1]) + (if IsSpace(s[|s| - 1]) then 0 else 1)
  }

  lemma {:induction false} InkAppend(a: string, b: string)
    ensures Ink(a + b) == Ink(a) + Ink(b)
  {
    if b == "" {
      assert a + b == a;
    } else {
      var front := b[..|b| - 1];
      assert (a + b)[..|a + b| - 1] == a + front;
      InkAppend(a, front);
    }
  }

  lemma Cut(s: string, i: nat, j: nat)
    requires i <= j <= |s|
    ensures s[..i] + s[i..j] == s[..j] && s[..i] + s[i..] == s
  {
  }

  lemma InkSplit(s: string, n: nat)
    requires n <= |s|
    ensures Ink(s) == Ink(s[..n]) + Ink(s[n..])
  {
    Cut(s, n, n);
    InkAppend(s[..n], s[n..]);
  }

  lemma InkRange(s: string, i: nat, j: nat)
    requires i <= j <= |s|
    ensures Ink(s[..j]) == Ink(s[..i]) + Ink(s[i..j])
  {
    Cut(s, i, j);
    InkAppend(s[..i], s[i..j]);
  }

  lemma InkThree(a: string, b: string, c: string)
    ensures Ink(a + b + c) == Ink(a) + Ink(b) + Ink(c)
  {
    InkAppend(a + b, c);
    InkAppend(a, b);
  }

  lemma InkStarts(s: string)
    requires s != "" && !IsSpace(s[0])
    ensures Ink(s) > 0
  {
    InkSplit(s, 1);
    assert s[..1][..0] == "";
  }

  lemma InkInside(s: string, i: nat, j: nat)
    requires i < j <= |s| && !IsSpace(s[i])
    ensures Ink(s[i..j]) > 0
  {
    InkStarts(s[i..j]);
  }

  lemma {:induction false} InkTrimRight(s: string)
    ensures Ink(TrimRight(s)) == Ink(s)
  {
    if s != "" && IsSpace(s[|s| - 1]) {
      InkTrimRight(s[..|s| - 1]);
    }
  }

  lemma {:induction false} InkTrimLeft(s: string)
    ensures Ink(TrimLeft(s)) == Ink(s)
  {
    if s != "" && IsSpace(s[0]) {
      InkTrimLeft(s[1..]);
      InkSplit(s, 1);
      assert s[..1][..0] == "";
    }
  }

  lemma InkStrip(s: string)
    ensures Ink(Strip(s)) == Ink(s)
  {
    InkTrimRight(s);
    InkTrimLeft(TrimRight(s));
  }

  /** A rewriting that leaves a text alone or takes visible characters from it. */
  predicate Fades(before: string, after: string) {
    after == before || Ink(after) < Ink(before)
  }

  /** Stripping hides such a rewriting only if it did nothing. */
  lemma FadesStripped(before: string, after: string)
    requires Fades(before, after)
    ensures Strip(after) == Strip(before) <==> after == before
  {
    InkStrip(before);
    InkStrip(after);
  }

  lemma CutFades(s: string, o: nat)
    requires o < |s| && !IsSpace(s[o])
    ensures Ink(s[..o]) < Ink(s) && s[..o] != s
  {
    InkSplit(s, o);
    InkStarts(s[o..]);
  }

  lemma {:induction false} TrimRightEnd(s: string, blank: string)
    requires (forall c | c in blank :: IsSpace(c)) && (s == "" || !IsSpace(s[|s| - 1]))
    ensures TrimRight(s + blank) == s
    decreases |blank|
  {
    if blank == "" {
      assert s + blank == s;
    } else {
      var front := blank[..|blank| - 1];
      assert (s + blank)[..|s + blank| - 1] == s + front;
      assert blank[|blank| - 1] in blank;
      TrimRightEnd(s, front);
    }
  }

  lemma {:induction false} TrimLeftEnd(blank: string, s: string)
    requires (forall c | c in blank :: IsSpace(c)) && (s == "" || !IsSpace(s[0]))
    ensures TrimLeft(blank + s) == s
    decreases |blank|
  {
    if blank == "" {
      assert blank + s == s;
    } else {
      assert (blank + s)[1..] == blank[1..] + s;
      assert blank[0] in blank;
      TrimLeftEnd(blank[1..], s);
    }
  }

  /** Stripping takes the white space at both ends and nothing else. */
  lemma StripEnds(before: string, s: string, behind: string)
    requires forall c | c in before + behind :: IsSpace(c)
    requires s != "" && !IsSpace(s[0]) && !IsSpace(s[|s| - 1])
    ensures Strip(before + s + behind) == s
  {
    assert (before + s)[|before + s| - 1] == s[|s| - 1];
    TrimRightEnd(before + s, behind);
    TrimLeftEnd(before, s);
  }
}
