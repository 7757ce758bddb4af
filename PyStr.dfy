/** The parts of Python's built-in `str` that the log-row parser and the
    category classifier rely on: `isspace`, `strip()`, `split(sep)` with a
    one-character separator, `lower()` and the `in` operator. */
module PyStr {

  /** `c.isspace()`: the characters `str.strip()` discards. */
  predicate IsSpace(c: char)
  {
    '\t' <= c <= '\r' || '\U{1C}' <= c <= ' ' || c == '\U{85}' || c == '\U{A0}'
    || c == '\U{1680}' || '\U{2000}' <= c <= '\U{200A}' || c == '\U{2028}'
    || c == '\U{2029}' || c == '\U{202F}' || c == '\U{205F}' || c == '\U{3000}'
  }

  predicate AllSpace(s: string)
  {
    forall i :: 0 <= i < |s| ==> IsSpace(s[i])
  }

  /** True when `s` has no whitespace at either end. */
  predicate Trimmed(s: string)
  {
    s == [] || (!IsSpace(s[0]) && !IsSpace(s[|s| - 1]))
  }

  // ---------------------------------------------------------------------------
  // strip()

  /** `s.lstrip()` */
  function LStrip(s: string): string
  {
    if s != [] && IsSpace(s[0]) then LStrip(s[1..]) else s
  }

  /** `s.rstrip()` */
  function RStrip(s: string): string
  {
    if s != [] && IsSpace(s[|s| - 1]) then RStrip(s[..|s| - 1]) else s
  }

  /** `s.strip()` */
  function Strip(s: string): string
  {
    RStrip(LStrip(s))
  }

  /** `lstrip()` keeps a suffix of `s`, and what it drops is all whitespace
      up to the first other character. */
  lemma {:induction false} LStripSuffix(s: string)
    ensures var r := LStrip(s);
      |r| <= |s| && r == s[|s| - |r|..] && AllSpace(s[..|s| - |r|])
      && (r == [] || !IsSpace(r[0]))
  {
    if s != [] && IsSpace(s[0]) {
      var tail := s[1..];
      LStripSuffix(tail);
      var r := LStrip(tail);
      assert s[..|s| - |r|] == [s[0]] + tail[..|tail| - |r|];
    }
  }

  /** `rstrip()` keeps a prefix of `s`, and what it drops is all whitespace
      after the last other character. */
  lemma {:induction false} RStripPrefix(s: string)
    ensures var r := RStrip(s);
      |r| <= |s| && r == s[..|r|] && AllSpace(s[|r|..])
      && (r == [] || !IsSpace(r[|r| - 1]))
  {
    if s != [] && IsSpace(s[|s| - 1]) {
      var init := s[..|s| - 1];
      RStripPrefix(init);
      var r := RStrip(init);
      assert s[|r|..] == init[|r|..] + [s[|s| - 1]];
    }
  }

  /** The result of `strip()` has no whitespace at either end. */
  lemma StripIsTrimmed(s: string)
    ensures Trimmed(Strip(s))
  {
    LStripSuffix(s);
    RStripPrefix(LStrip(s));
  }

  /** Stripping removes only surrounding whitespace: the result is the slice
      of `s` that starts after the leading whitespace, and what lies on either
      side of it is whitespace. */
  lemma StripSplits(s: string)
    ensures var n := |s| - |LStrip(s)|;
      0 <= n && n + |Strip(s)| <= |s| && Strip(s) == s[n..n + |Strip(s)|]
      && AllSpace(s[..n]) && AllSpace(s[n + |Strip(s)|..])
  {
    var l := LStrip(s);
    var r := RStrip(l);
    var n := |s| - |l|;
    LStripSuffix(s);
    RStripPrefix(l);
    assert l == s[n..];
    assert r == l[..|r|] == s[n..n + |r|];
    assert l[|r|..] == s[n + |r|..];
  }

  lemma {:induction false} LStripLead(lead: string, u: string)
    requires AllSpace(lead)
    requires u == [] || !IsSpace(u[0])
    ensures LStrip(lead + u) == u
  {
    if lead != [] {
      assert (lead + u)[1..] == lead[1..] + u;
      LStripLead(lead[1..], u);
    }
  }

  lemma {:induction false} RStripTrail(u: string, trail: string)
    requires AllSpace(trail)
    requires u == [] || !IsSpace(u[|u| - 1])
    ensures RStrip(u + trail) == u
  {
    if trail != [] {
      var t' := trail[..|trail| - 1];
      assert (u + trail)[..|u + trail| - 1] == u + t';
      RStripTrail(u, t');
    }
  }

  /** Inverse of StripSplits: padding a trimmed string with whitespace on both
      sides and stripping gives the string back. */
  lemma StripPadded(lead: string, t: string, trail: string)
    requires AllSpace(lead) && AllSpace(trail) && Trimmed(t)
    ensures Strip(lead + t + trail) == t
  {
    if t == [] {
      assert lead + t + trail == (lead + trail) + [];
      LStripLead(lead + trail, []);
    } else {
      assert lead + t + trail == lead + (t + trail);
      LStripLead(lead, t + trail);
      RStripTrail(t, trail);
    }
  }

  /** A character that is not whitespace survives stripping. */
  lemma StripKeeps(s: string, i: int)
    requires 0 <= i < |s| && !IsSpace(s[i])
    ensures s[i] in Strip(s)
  {
    StripSplits(s);
    var n := |s| - |LStrip(s)|;
    var t := Strip(s);
    forall j | 0 <= j < n ensures IsSpace(s[j]) {
      assert s[..n][j] == s[j];
    }
    forall j | n + |t| <= j < |s| ensures IsSpace(s[j]) {
      assert s[n + |t|..][j - n - |t|] == s[j];
    }
    assert t[i - n] == s[i];
  }

  /** A string without surrounding whitespace is its own strip. */
  lemma StripTrimmed(t: string)
    requires Trimmed(t)
    ensures Strip(t) == t
  {
    assert [] + t + [] == t;
    StripPadded([], t, []);
  }

  // ---------------------------------------------------------------------------
  // split(sep) and sep.join(parts)

  /** Index of the first occurrence of `c` in `s`. */
  function IndexOf(s: string, c: char): (k: nat)
    requires c in s
    ensures k < |s| && s[k] == c && c !in s[..k]
  {
    if s[0] == c then 0 else 1 + IndexOf(s[1..], c)
  }

  /** `sep.join(parts)` */
  function Join(parts: seq<string>, sep: char): string
  {
    if parts == [] then ""
    else if |parts| == 1 then parts[0]
    else parts[0] + [sep] + Join(parts[1..], sep)
  }

  /** `s.split(sep)`: the text between consecutive separators, in order. */
  function Split(s: string, sep: char): seq<string>
    decreases |s|
  {
    if sep !in s then [s]
    else
      var k := IndexOf(s, sep);
      [s[..k]] + Split(s[k + 1..], sep)
  }

  /** There is always at least one piece, no piece holds a separator, and
      joining the pieces with the separator gives `s` back. */
  lemma {:induction false} SplitPieces(s: string, sep: char)
    ensures var r := Split(s, sep);
      |r| >= 1 && (forall i :: 0 <= i < |r| ==> sep !in r[i]) && Join(r, sep) == s
    decreases |s|
  {
    if sep in s {
      var k := IndexOf(s, sep);
      var rest := Split(s[k + 1..], sep);
      SplitPieces(s[k + 1..], sep);
      assert ([s[..k]] + rest)[1..] == rest;
      assert s == s[..k] + [sep] + s[k + 1..];
    }
  }

  /** The other round trip: splitting a join of separator-free pieces gives
      the pieces back. */
  lemma {:induction false} SplitJoin(parts: seq<string>, sep: char)
    requires |parts| >= 1
    requires forall i :: 0 <= i < |parts| ==> sep !in parts[i]
    ensures Split(Join(parts, sep), sep) == parts
  {
    if |parts| > 1 {
      var p, tail := parts[0], Join(parts[1..], sep);
      var s := p + [sep] + tail;
      assert s[|p|] == sep && s[..|p|] == p;
      assert IndexOf(s, sep) == |p|;
      assert s[|p| + 1..] == tail;
      SplitJoin(parts[1..], sep);
    }
  }

  /** Two separator-free pieces joined by the separator split back apart. */
  lemma SplitPair(a: string, b: string, sep: char)
    requires sep !in a && sep !in b
    ensures Split(a + [sep] + b, sep) == [a, b]
  {
    assert [a, b][1..] == [b];
    SplitJoin([a, b], sep);
  }

  // ---------------------------------------------------------------------------
  // counting occurrences of one character

  function Count(s: string, c: char): nat
  {
    if s == [] then 0 else (if s[0] == c then 1 else 0) + Count(s[1..], c)
  }

  lemma {:induction false} CountAppend(a: string, b: string, c: char)
    ensures Count(a + b, c) == Count(a, c) + Count(b, c)
  {
    if a == [] {
      assert a + b == b;
    } else {
      assert (a + b)[0] == a[0];
      assert (a + b)[1..] == a[1..] + b;
      CountAppend(a[1..], b, c);
    }
  }

  lemma {:induction false} CountAbsent(s: string, c: char)
    requires c !in s
    ensures Count(s, c) == 0
  {
    if s != [] {
      CountAbsent(s[1..], c);
    }
  }

  /** Joining n separator-free pieces puts exactly n - 1 separators in. */
  lemma {:induction false} JoinCount(parts: seq<string>, sep: char)
    requires |parts| >= 1
    requires forall i :: 0 <= i < |parts| ==> sep !in parts[i]
    ensures Count(Join(parts, sep), sep) == |parts| - 1
  {
    CountAbsent(parts[0], sep);
    if |parts| > 1 {
      JoinCount(parts[1..], sep);
      CountAppend(parts[0] + [sep], Join(parts[1..], sep), sep);
      CountAppend(parts[0], [sep], sep);
    }
  }

  /** `len(s.split(sep)) == s.count(sep) + 1` */
  lemma SplitCount(s: string, sep: char)
    ensures |Split(s, sep)| == Count(s, sep) + 1
  {
    SplitPieces(s, sep);
    JoinCount(Split(s, sep), sep);
  }

  /** Stripping never removes a non-whitespace character. */
  lemma CountStrip(s: string, c: char)
    requires !IsSpace(c)
    ensures Count(Strip(s), c) == Count(s, c)
  {
    StripSplits(s);
    var t := Strip(s);
    var n := |s| - |LStrip(s)|;
    var lead, trail := s[..n], s[n + |t|..];
    assert s == lead + t + trail;
    assert c !in lead && c !in trail;
    CountAbsent(lead, c);
    CountAbsent(trail, c);
    CountAppend(lead + t, trail, c);
    CountAppend(lead, t, c);
  }

  // ---------------------------------------------------------------------------
  // lower()

  /** Lower-casing of one character; only the ASCII letters are mapped. */
  function LowerChar(c: char): char
  {
    if 'A' <= c <= 'Z' then (c as int + 32) as char else c
  }

  /** `s.lower()` restricted to ASCII letters. */
  function Lower(s: string): string
  {
    seq(|s|, i requires 0 <= i < |s| => LowerChar(s[i]))
  }

  lemma LowerAppend(a: string, b: string)
    ensures Lower(a + b) == Lower(a) + Lower(b)
  {
  }

  // ---------------------------------------------------------------------------
  // the `in` operator on strings

  /** `sub` occurs in `text` starting at index `i`. */
  predicate OccursAt(text: string, sub: string, i: int)
  {
    0 <= i && i + |sub| <= |text| && text[i..i + |sub|] == sub
  }

  /** `sub in text`: some window of `text` equals `sub`. */
  predicate Contains(text: string, sub: string)
  {
    exists i :: 0 <= i <= |text| - |sub| && OccursAt(text, sub, i)
  }

  /** A substring needs each of its characters: one missing from `text`
      rules it out. */
  lemma MissingChar(text: string, sub: string, k: int)
    requires 0 <= k < |sub| && sub[k] !in text
    ensures !Contains(text, sub)
  {
    forall i | 0 <= i && i + |sub| <= |text|
      ensures !OccursAt(text, sub, i)
    {
      assert text[i..i + |sub|][k] == text[i + k];
    }
  }

  /** When `sub[k]` occurs in `text` only at the given positions, and none of
      the windows that would put `sub[k]` there holds `sub`, then `sub` does
      not occur at all. */
  lemma MissingExcept(text: string, sub: string, k: int, positions: set<int>)
    requires 0 <= k < |sub|
    requires forall i :: 0 <= i < |text| && text[i] == sub[k] ==> i in positions
    requires forall j :: j in positions ==> !OccursAt(text, sub, j - k)
    ensures !Contains(text, sub)
  {
    forall i | 0 <= i && i + |sub| <= |text|
      ensures !OccursAt(text, sub, i)
    {
      assert text[i..i + |sub|][k] == text[i + k];
    }
  }
}
