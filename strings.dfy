/**
 * The fragment of Python's `str` that the ingestion and text-recovery code
 * uses, over ASCII: `isspace`/`isdigit`, `strip`, `lower`, `in`,
 * `startswith`/`endswith`, `count`, `split(sep)`, `split()`, `sep.join`,
 * `int(digits)` and `str(n)`.
 */
module Strings {

  // ---------------------------------------------------------------------------
  // Character classes
  // ---------------------------------------------------------------------------

  /** `c.isspace()` for ASCII: tab, newline, vertical tab, form feed, carriage
      return, the four separator controls 0x1C-0x1F, and space. */
  predicate IsSpace(c: char) {
    9 <= c as int <= 13 || 28 <= c as int <= 32
  }

  /** An ASCII decimal digit (`\d` restricted to ASCII). */
  predicate IsDigit(c: char) {
    '0' <= c <= '9'
  }

  predicate IsUpper(c: char) {
    'A' <= c <= 'Z'
  }

  /** `c.lower()` for ASCII. */
  function LowerChar(c: char): char {
    if IsUpper(c) then (c as int + 32) as char else c
  }

  /** `s.lower()` for ASCII. */
  function Lower(s: string): (r: string)
    ensures |r| == |s|
  {
    if s == [] then [] else [LowerChar(s[0])] + Lower(s[1..])
  }

  /** `lower()` maps each character on its own. */
  lemma {:induction false} LowerAt(s: string)
    ensures forall i :: 0 <= i < |s| ==> Lower(s)[i] == LowerChar(s[i])
  {
    if s != [] {
      LowerAt(s[1..]);
    }
  }

  lemma LowerIdempotent(s: string)
    ensures Lower(Lower(s)) == Lower(s)
  {
    LowerAt(s);
    LowerAt(Lower(s));
    assert forall i :: 0 <= i < |s| ==> LowerChar(LowerChar(s[i])) == LowerChar(s[i]);
  }

  // ---------------------------------------------------------------------------
  // strip()
  // ---------------------------------------------------------------------------

  /** `s.lstrip()` */
  function TrimLeft(s: string): (r: string)
    ensures |r| <= |s|
  {
    if |s| > 0 && IsSpace(s[0]) then TrimLeft(s[1..]) else s
  }

  /** `lstrip()` removes a leading run of whitespace and nothing else. */
  lemma {:induction false} TrimLeftSuffix(s: string)
    ensures TrimLeft(s) == [] || !IsSpace(TrimLeft(s)[0])
    ensures TrimLeft(s) == s[|s| - |TrimLeft(s)|..]
    ensures forall i :: 0 <= i < |s| - |TrimLeft(s)| ==> IsSpace(s[i])
  {
    if |s| > 0 && IsSpace(s[0]) {
      TrimLeftSuffix(s[1..]);
    }
  }

  /** `lstrip()` of whitespace followed by a text that does not start with
      whitespace is that text. */
  lemma {:induction false} TrimLeftSpaces(ws: string, t: string)
    requires forall k :: 0 <= k < |ws| ==> IsSpace(ws[k])
    requires t == [] || !IsSpace(t[0])
    ensures TrimLeft(ws + t) == t
    decreases |ws|
  {
    if ws != [] {
      assert (ws + t)[1..] == ws[1..] + t;
      TrimLeftSpaces(ws[1..], t);
    } else {
      assert ws + t == t;
    }
  }

  /** `s.rstrip()` */
  function TrimRight(s: string): (r: string)
    ensures |r| <= |s|
  {
    if |s| > 0 && IsSpace(s[|s| - 1]) then TrimRight(s[..|s| - 1]) else s
  }

  /** `rstrip()` removes a trailing run of whitespace and nothing else. */
  lemma {:induction false} TrimRightPrefix(s: string)
    ensures TrimRight(s) == [] || !IsSpace(TrimRight(s)[|TrimRight(s)| - 1])
    ensures TrimRight(s) == s[..|TrimRight(s)|]
    ensures forall i :: |TrimRight(s)| <= i < |s| ==> IsSpace(s[i])
  {
    if |s| > 0 && IsSpace(s[|s| - 1]) {
      TrimRightPrefix(s[..|s| - 1]);
    }
  }

  /** A string that `strip()` leaves unchanged: no whitespace at either end. */
  predicate Stripped(s: string) {
    s == [] || (!IsSpace(s[0]) && !IsSpace(s[|s| - 1]))
  }

  /** `r` is `s` with only whitespace cut off before position `i` and after `r`. */
  predicate Surrounds(s: string, r: string, i: int) {
    && 0 <= i <= |s| - |r| && r == s[i..i + |r|]
    && (forall k :: 0 <= k < i ==> IsSpace(s[k]))
    && (forall k :: i + |r| <= k < |s| ==> IsSpace(s[k]))
  }

  /** `s.strip()`: leading whitespace is dropped one character at a time,
      then the trailing whitespace of what remains. */
  function Strip(s: string): string
  {
    if |s| > 0 && IsSpace(s[0]) then Strip(s[1..]) else TrimRight(s)
  }

  /** `strip()` is `rstrip()` after `lstrip()`. */
  lemma {:induction false} StripTrims(s: string)
    ensures Strip(s) == TrimRight(TrimLeft(s))
  {
    if |s| > 0 && IsSpace(s[0]) {
      StripTrims(s[1..]);
    }
  }

  /** The result of `strip()` has no whitespace at either end. */
  lemma StripStripped(s: string)
    ensures Stripped(Strip(s))
  {
    var t := TrimLeft(s);
    var r := TrimRight(t);
    StripTrims(s);
    TrimLeftSuffix(s);
    TrimRightPrefix(t);
    if r != [] {
      assert r[0] == t[0];
    }
  }

  /** Cutting a whitespace prefix and then a whitespace suffix leaves the
      input surrounded by whitespace. */
  lemma CutSurrounds(s: string, t: string, r: string, i: nat)
    requires i <= |s| && t == s[i..] && forall k :: 0 <= k < i ==> IsSpace(s[k])
    requires |r| <= |t| && r == t[..|r|] && forall k :: |r| <= k < |t| ==> IsSpace(t[k])
    ensures Surrounds(s, r, i)
  {
    forall k | i + |r| <= k < |s|
      ensures IsSpace(s[k])
    {
      assert s[k] == t[k - i];
    }
  }

  /** What `strip()` removes is whitespace only: the input is the result
      surrounded by whitespace. */
  lemma StripSurrounds(s: string)
    ensures exists i :: Surrounds(s, Strip(s), i)
  {
    var t := TrimLeft(s);
    StripTrims(s);
    TrimLeftSuffix(s);
    TrimRightPrefix(t);
    CutSurrounds(s, t, TrimRight(t), |s| - |t|);
  }

  predicate AllSpaces(s: string) {
    forall k :: 0 <= k < |s| ==> IsSpace(s[k])
  }

  /** `lstrip()` looks past leading whitespace. */
  lemma {:induction false} TrimLeftSkip(ws: string, t: string)
    requires AllSpaces(ws)
    ensures TrimLeft(ws + t) == TrimLeft(t)
    decreases |ws|
  {
    if ws != [] {
      assert (ws + t)[1..] == ws[1..] + t;
      TrimLeftSkip(ws[1..], t);
    } else {
      assert ws + t == t;
    }
  }

  /** `rstrip()` looks past trailing whitespace. */
  lemma {:induction false} TrimRightSkip(t: string, ws: string)
    requires AllSpaces(ws)
    ensures TrimRight(t + ws) == TrimRight(t)
    decreases |ws|
  {
    if ws != [] {
      var init := ws[..|ws| - 1];
      assert (t + ws)[..|t + ws| - 1] == t + init;
      TrimRightSkip(t, init);
    } else {
      assert t + ws == t;
    }
  }

  /** Once `lstrip()` has reached a non-space character, what follows stays. */
  lemma {:induction false} TrimLeftAppend(s: string, u: string)
    requires TrimLeft(s) != []
    ensures TrimLeft(s + u) == TrimLeft(s) + u
    decreases |s|
  {
    assert (s + u)[0] == s[0];
    if IsSpace(s[0]) {
      assert (s + u)[1..] == s[1..] + u;
      TrimLeftAppend(s[1..], u);
    }
  }

  /** `rstrip()` cannot cut into a prefix that ends in a non-space character. */
  lemma TrimRightKeepsPrefix(p: string, t: string)
    requires p != [] && !IsSpace(p[|p| - 1])
    ensures StartsWith(TrimRight(p + t), p)
  {
    var s := p + t;
    TrimRightPrefix(s);
    assert !IsSpace(s[|p| - 1]);
    assert |TrimRight(s)| >= |p|;
    assert TrimRight(s)[..|p|] == s[..|p|] == p;
  }

  /** `strip()` ignores whitespace added around its input. */
  lemma StripPadded(ws1: string, s: string, ws2: string)
    requires AllSpaces(ws1) && AllSpaces(ws2)
    ensures Strip(ws1 + s + ws2) == Strip(s)
  {
    StripTrims(ws1 + s + ws2);
    StripTrims(s);
    assert ws1 + s + ws2 == ws1 + (s + ws2);
    TrimLeftSkip(ws1, s + ws2);
    if TrimLeft(s) != [] {
      TrimLeftAppend(s, ws2);
      TrimRightSkip(TrimLeft(s), ws2);
    } else {
      TrimLeftSuffix(s);
      assert AllSpaces(s);
      assert s + ws2 == (s + ws2) + [];
      assert AllSpaces(s + ws2);
      TrimLeftSkip(s + ws2, []);
    }
  }

  /** `lower()` works piecewise. */
  lemma LowerAppend(a: string, b: string)
    ensures Lower(a + b) == Lower(a) + Lower(b)
  {
    LowerAt(a + b);
    LowerAt(a);
    LowerAt(b);
  }

  /** `lower()` leaves whitespace alone. */
  lemma LowerOfSpaces(ws: string)
    requires AllSpaces(ws)
    ensures Lower(ws) == ws
  {
    LowerAt(ws);
  }

  /** `strip()` adds no character: one absent from the input is absent from the result. */
  lemma StripKeepsOut(s: string, c: char)
    requires c !in s
    ensures c !in Strip(s)
  {
    StripSurrounds(s);
    var i :| Surrounds(s, Strip(s), i);
    forall k | 0 <= k < |Strip(s)| ensures Strip(s)[k] != c {
      assert Strip(s)[k] == s[i + k];
    }
  }

  lemma StripOfStripped(s: string)
    requires Stripped(s)
    ensures Strip(s) == s
  {
  }

  /** `strip()` applied twice is `strip()` applied once. */
  lemma StripIdempotent(s: string)
    ensures Strip(Strip(s)) == Strip(s)
  {
    StripStripped(s);
    StripOfStripped(Strip(s));
  }

  lemma {:induction false} LowerTrimLeft(s: string)
    ensures Lower(TrimLeft(s)) == TrimLeft(Lower(s))
  {
    if |s| > 0 {
      LowerAt(s);
      LowerAt(s[1..]);
      assert Lower(s)[1..] == Lower(s[1..]);
      if IsSpace(s[0]) {
        LowerTrimLeft(s[1..]);
      }
    }
  }

  lemma {:induction false} LowerTrimRight(s: string)
    ensures Lower(TrimRight(s)) == TrimRight(Lower(s))
  {
    if |s| > 0 {
      LowerAt(s);
      LowerAt(s[..|s| - 1]);
      assert Lower(s)[..|s| - 1] == Lower(s[..|s| - 1]);
      if IsSpace(s[|s| - 1]) {
        LowerTrimRight(s[..|s| - 1]);
      }
    }
  }

  /** ASCII lower-casing never touches whitespace, so it commutes with `strip()`. */
  lemma LowerStripCommute(s: string)
    ensures Lower(Strip(s)) == Strip(Lower(s))
  {
    StripTrims(s);
    StripTrims(Lower(s));
    LowerTrimLeft(s);
    LowerTrimRight(TrimLeft(s));
  }

  // ---------------------------------------------------------------------------
  // startswith, endswith, `in`
  // ---------------------------------------------------------------------------

  predicate StartsWith(s: string, prefix: string) {
    |prefix| <= |s| && s[..|prefix|] == prefix
  }

  predicate EndsWith(s: string, suffix: string) {
    |suffix| <= |s| && s[|s| - |suffix|..] == suffix
  }

  /** `sub in s` */
  predicate Contains(s: string, sub: string)
    decreases |s|
  {
    StartsWith(s, sub) || (|s| > 0 && Contains(s[1..], sub))
  }

  predicate OccursAt(s: string, sub: string, i: int) {
    0 <= i <= |s| - |sub| && s[i..i + |sub|] == sub
  }

  /** `sub in s` holds exactly when `sub` occurs at some position of `s`. */
  lemma {:induction false} ContainsAt(s: string, sub: string)
    ensures Contains(s, sub) <==> exists i :: OccursAt(s, sub, i)
    decreases |s|
  {
    if StartsWith(s, sub) {
      assert OccursAt(s, sub, 0);
    } else if |s| > 0 {
      ContainsAt(s[1..], sub);
      if exists i :: OccursAt(s, sub, i) {
        var i :| OccursAt(s, sub, i);
        assert i > 0;
        assert OccursAt(s[1..], sub, i - 1);
      }
      if Contains(s[1..], sub) {
        var i :| OccursAt(s[1..], sub, i);
        assert OccursAt(s, sub, i + 1);
      }
    } else {
      assert forall i :: !OccursAt(s, sub, i);
    }
  }

  /** An occurrence of a longer pattern is an occurrence of each of its prefixes. */
  lemma {:induction false} ContainsPrefixOf(s: string, long: string, short: string)
    requires StartsWith(long, short)
    requires Contains(s, long)
    ensures Contains(s, short)
    decreases |s|
  {
    if StartsWith(s, long) {
      assert s[..|short|] == long[..|short|];
    } else {
      ContainsPrefixOf(s[1..], long, short);
    }
  }

  /** If `strip(s)` starts with `p`, then `p` occurs in `s`. */
  lemma StrippedPrefixOccurs(s: string, p: string)
    requires StartsWith(Strip(s), p)
    ensures Contains(s, p)
  {
    var r := Strip(s);
    StripSurrounds(s);
    var i :| Surrounds(s, r, i);
    assert s[i..i + |p|] == r[..|p|];
    assert OccursAt(s, p, i);
    ContainsAt(s, p);
  }

  // ---------------------------------------------------------------------------
  // count, split(sep), join
  // ---------------------------------------------------------------------------

  /** `s.count(c)` for a one-character argument. */
  function Count(s: string, c: char): nat {
    if s == [] then 0 else (if s[0] == c then 1 else 0) + Count(s[1..], c)
  }

  /** `s.split(sep)` for a non-empty separator: cut at the leftmost occurrence,
      then continue after it (occurrences do not overlap). */
  function SplitOn(s: string, sep: string): (parts: seq<string>)
    requires |sep| > 0
    ensures |parts| >= 1
    decreases |s|
  {
    if |s| < |sep| then [s]
    else if s[..|sep|] == sep then [""] + SplitOn(s[|sep|..], sep)
    else
      var rest := SplitOn(s[1..], sep);
      [[s[0]] + rest[0]] + rest[1..]
  }

  /** `sep.join(parts)`; the join of no parts is the empty string. */
  function Join(sep: string, parts: seq<string>): string {
    if |parts| == 0 then ""
    else if |parts| == 1 then parts[0]
    else parts[0] + sep + Join(sep, parts[1..])
  }

  lemma JoinConsHead(sep: string, c: char, parts: seq<string>)
    requires |parts| >= 1
    ensures Join(sep, [[c] + parts[0]] + parts[1..]) == [c] + Join(sep, parts)
  {
    var ps := [[c] + parts[0]] + parts[1..];
    if |parts| > 1 {
      assert ps[1..] == parts[1..];
    }
  }

  /** A text without the separator is a single piece. */
  lemma {:induction false} SplitWithout(t: string, sep: string)
    requires |sep| > 0 && !Contains(t, sep)
    ensures SplitOn(t, sep) == [t]
    decreases |t|
  {
    if |t| >= |sep| {
      assert !StartsWith(t, sep);
      SplitWithout(t[1..], sep);
      assert [t[0]] + t[1..] == t;
    }
  }

  /** Leading whitespace before a separator that does not begin with
      whitespace is the first piece. */
  lemma {:induction false} SplitAfterSpaces(ws: string, sep: string, t: string)
    requires |sep| > 0 && !IsSpace(sep[0]) && AllSpaces(ws)
    ensures SplitOn(ws + sep + t, sep) == [ws] + SplitOn(t, sep)
    decreases |ws|
  {
    var s := ws + sep + t;
    if ws == [] {
      assert s == sep + t;
      assert s[..|sep|] == sep && s[|sep|..] == t;
    } else {
      assert s[0] == ws[0];
      assert s[..|sep|] != sep by { assert s[..|sep|][0] == ws[0]; }
      assert s[1..] == ws[1..] + sep + t;
      SplitAfterSpaces(ws[1..], sep, t);
      assert [ws[0]] + ws[1..] == ws;
    }
  }

  /** Joining one more part appends the separator and that part. */
  lemma {:induction false} JoinSnoc(sep: string, parts: seq<string>, p: string)
    requires |parts| >= 1
    ensures Join(sep, parts + [p]) == Join(sep, parts) + sep + p
    decreases |parts|
  {
    var ps := parts + [p];
    if |parts| > 1 {
      assert ps[1..] == parts[1..] + [p];
      JoinSnoc(sep, parts[1..], p);
    } else {
      assert ps[1..] == [p];
    }
  }

  /** Joining the pieces of a split with the same separator rebuilds the text. */
  lemma {:induction false} JoinSplit(s: string, sep: string)
    requires |sep| > 0
    ensures Join(sep, SplitOn(s, sep)) == s
    decreases |s|
  {
    if |s| < |sep| {
    } else if s[..|sep|] == sep {
      var rest := SplitOn(s[|sep|..], sep);
      assert SplitOn(s, sep) == [""] + rest;
      JoinSplit(s[|sep|..], sep);
      assert ([""] + rest)[1..] == rest;
      calc {
        Join(sep, [""] + rest);
        "" + sep + Join(sep, rest);
        sep + s[|sep|..];
        s;
      }
    } else {
      var rest := SplitOn(s[1..], sep);
      assert SplitOn(s, sep) == [[s[0]] + rest[0]] + rest[1..];
      JoinSplit(s[1..], sep);
      JoinConsHead(sep, s[0], rest);
      assert [s[0]] + s[1..] == s;
    }
  }

  /** No piece of a split on one character contains that character. */
  lemma {:induction false} SplitPiecesFree(s: string, c: char)
    ensures forall p :: p in SplitOn(s, [c]) ==> c !in p
    decreases |s|
  {
    if |s| >= 1 {
      SplitPiecesFree(s[1..], c);
      if s[..1] != [c] {
        assert s[0] != c;
      }
    }
  }

  /** A text that contains the separator splits into at least two pieces. */
  lemma {:induction false} SplitOnOccurrence(s: string, sep: string)
    requires |sep| > 0 && Contains(s, sep)
    ensures |SplitOn(s, sep)| >= 2
    decreases |s|
  {
    if |s| < |sep| {
      ContainsLength(s, sep);
    } else if s[..|sep|] != sep {
      SplitOnOccurrence(s[1..], sep);
    }
  }

  lemma {:induction false} ContainsLength(s: string, sub: string)
    requires Contains(s, sub)
    ensures |sub| <= |s|
    decreases |s|
  {
    if !StartsWith(s, sub) {
      ContainsLength(s[1..], sub);
    }
  }

  /** A split on one character has one more piece than there are occurrences. */
  lemma {:induction false} SplitCount(s: string, c: char)
    ensures |SplitOn(s, [c])| == Count(s, c) + 1
    decreases |s|
  {
    if |s| >= 1 {
      SplitCount(s[1..], c);
      assert s[..1] == [c] <==> s[0] == c;
    }
  }

  lemma {:induction false} SplitFreePrefix(p: string, c: char, t: string)
    requires c !in p
    ensures SplitOn(p + [c] + t, [c]) == [p] + SplitOn(t, [c])
    ensures SplitOn(p, [c]) == [p]
    decreases |p|
  {
    var s := p + [c] + t;
    if p == [] {
      assert s[..1] == [c] && s[1..] == t;
    } else {
      assert p[0] in p && s[0] == p[0];
      assert s[..1] == [p[0]];
      assert s[1..] == p[1..] + [c] + t;
      SplitFreePrefix(p[1..], c, t);
      assert [p[0]] + p[1..] == p;
      assert p[..1] != [c];
    }
  }

  /** Splitting a join on one character gives back the parts, provided there
      is at least one part and no part contains the separator. */
  lemma {:induction false} SplitJoin(parts: seq<string>, c: char)
    requires |parts| >= 1
    requires forall p :: p in parts ==> c !in p
    ensures SplitOn(Join([c], parts), [c]) == parts
    decreases |parts|
  {
    if |parts| == 1 {
      SplitFreePrefix(parts[0], c, "");
    } else {
      SplitJoin(parts[1..], c);
      SplitFreePrefix(parts[0], c, Join([c], parts[1..]));
      assert [parts[0]] + parts[1..] == parts;
    }
  }

  // ---------------------------------------------------------------------------
  // split() with no argument
  // ---------------------------------------------------------------------------

  /** The longest prefix of `s` without whitespace. */
  function LeadingWord(s: string): (w: string)
    ensures |w| <= |s| && w == s[..|w|]
    ensures forall i :: 0 <= i < |w| ==> !IsSpace(w[i])
    ensures |w| == |s| || IsSpace(s[|w|])
  {
    if s == [] || IsSpace(s[0]) then [] else [s[0]] + LeadingWord(s[1..])
  }

  /** `s.split()`: the maximal runs of non-whitespace characters, in order. */
  function Words(s: string): seq<string>
    decreases |s|
  {
    var t := TrimLeft(s);
    if t == [] then []
    else
      var w := LeadingWord(t);  // non-empty, as `t` starts with a non-space
      if w == [] then [] else [w] + Words(t[|w|..])
  }

  /** Every word is non-empty and free of whitespace. */
  lemma {:induction false} WordsShape(s: string)
    ensures forall w :: w in Words(s) ==> |w| > 0 && forall i :: 0 <= i < |w| ==> !IsSpace(w[i])
    decreases |s|
  {
    var t := TrimLeft(s);
    if t != [] {
      var w := LeadingWord(t);
      if w != [] {
        WordsShape(t[|w|..]);
        assert forall x :: x in [w] + Words(t[|w|..]) ==> x == w || x in Words(t[|w|..]);
      }
    }
  }

  /** A word followed by whitespace or the end is the first word. */
  lemma {:induction false} LeadingWordOf(w: string, t: string)
    requires forall i :: 0 <= i < |w| ==> !IsSpace(w[i])
    requires t == [] || IsSpace(t[0])
    ensures LeadingWord(w + t) == w
    decreases |w|
  {
    if w != [] {
      assert (w + t)[1..] == w[1..] + t;
      LeadingWordOf(w[1..], t);
    } else {
      assert w + t == t;
    }
  }

  /** `(w + t).split()` for a word `w` ended by whitespace or the end. */
  lemma WordsCons(w: string, t: string)
    requires w != [] && forall i :: 0 <= i < |w| ==> !IsSpace(w[i])
    requires t == [] || IsSpace(t[0])
    ensures Words(w + t) == [w] + Words(t)
  {
    var s := w + t;
    assert s[0] == w[0];
    assert TrimLeft(s) == s;
    LeadingWordOf(w, t);
    assert s[|w|..] == t;
  }

  /** `split()` skips one leading whitespace character. */
  lemma WordsAfterSpace(c: char, t: string)
    requires IsSpace(c)
    ensures Words([c] + t) == Words(t)
  {
    assert ([c] + t)[1..] == t;
    assert TrimLeft([c] + t) == TrimLeft(t);
  }

  // ---------------------------------------------------------------------------
  // Decimal digits: int(digits) and str(n)
  // ---------------------------------------------------------------------------

  predicate AllDigits(s: string) {
    forall i :: 0 <= i < |s| ==> IsDigit(s[i])
  }

  /** The longest prefix of `s` made of digits (what a greedy `\d+` consumes). */
  function LeadingDigits(s: string): (d: string)
    ensures |d| <= |s| && AllDigits(d)
  {
    if s == [] || !IsDigit(s[0]) then [] else [s[0]] + LeadingDigits(s[1..])
  }

  /** The run is a prefix of `s` and is followed by a non-digit or the end. */
  lemma {:induction false} LeadingDigitsGreedy(s: string)
    ensures LeadingDigits(s) == s[..|LeadingDigits(s)|]
    ensures |LeadingDigits(s)| == |s| || !IsDigit(s[|LeadingDigits(s)|])
  {
    if s != [] && IsDigit(s[0]) {
      LeadingDigitsGreedy(s[1..]);
    }
  }

  /** `int(d)` for a string of decimal digits (leading zeros allowed). */
  function DigitsValue(d: string): nat
    requires AllDigits(d)
  {
    if d == [] then 0 else DigitsValue(d[..|d| - 1]) * 10 + (d[|d| - 1] as int - '0' as int)
  }

  function DigitChar(n: nat): (c: char)
    requires n < 10
    ensures IsDigit(c) && c as int - '0' as int == n
  {
    ('0' as int + n) as char
  }

  /** `str(n)` for a non-negative integer. */
  function NatToString(n: nat): (s: string)
    ensures |s| >= 1 && AllDigits(s)
  {
    if n < 10 then [DigitChar(n)] else NatToString(n / 10) + [DigitChar(n % 10)]
  }

  /** `int(str(n)) == n`. */
  lemma {:induction false} DigitsRoundTrip(n: nat)
    ensures DigitsValue(NatToString(n)) == n
  {
    if n >= 10 {
      var s := NatToString(n);
      assert s[..|s| - 1] == NatToString(n / 10);
      DigitsRoundTrip(n / 10);
    }
  }

  /** A greedy digit run stops exactly where the digits of `d` end when the
      text after them does not begin with a digit. */
  lemma {:induction false} LeadingDigitsOf(d: string, rest: string)
    requires AllDigits(d)
    requires rest == [] || !IsDigit(rest[0])
    ensures LeadingDigits(d + rest) == d
    decreases |d|
  {
    if d == [] {
      assert d + rest == rest;
    } else {
      assert (d + rest)[1..] == d[1..] + rest;
      LeadingDigitsOf(d[1..], rest);
      assert [d[0]] + d[1..] == d;
    }
  }
}
