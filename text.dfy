/**
 * The PHP string primitives the core relies on: strtolower, string ordering,
 * trim, str_replace and stripcslashes. PHP strings are byte strings; here a
 * string is a seq<char> whose characters stand for bytes.
 */
module Text {
  import opened Wrappers

  // ---------------------------------------------------------------------------
  // strtolower: ASCII lowercasing, as PHP >= 8.2 does
  // ---------------------------------------------------------------------------

  function LowerChar(c: char): char
  {
    if 'A' <= c <= 'Z' then (c as int + 32) as char else c
  }

  function ToLower(s: string): (r: string)
    ensures |r| == |s|
    ensures forall i :: 0 <= i < |s| ==> r[i] == LowerChar(s[i])
    ensures forall i :: 0 <= i < |r| ==> !('A' <= r[i] <= 'Z')
  {
    seq(|s|, i requires 0 <= i < |s| => LowerChar(s[i]))
  }

  // ---------------------------------------------------------------------------
  // String order: PHP compares two non-numeric strings byte by byte, and a
  // proper prefix is the smaller one.
  // ---------------------------------------------------------------------------

  predicate Less(a: string, b: string)
    decreases |a|
  {
    if |a| == 0 then |b| > 0
    else if |b| == 0 then false
    else if a[0] != b[0] then a[0] < b[0]
    else Less(a[1..], b[1..])
  }

  lemma {:induction false} LessIrreflexive(a: string)
    ensures !Less(a, a)
    decreases |a|
  {
    if |a| > 0 {
      LessIrreflexive(a[1..]);
    }
  }

  lemma {:induction false} LessAsymmetric(a: string, b: string)
    ensures !(Less(a, b) && Less(b, a))
    decreases |a|
  {
    if |a| > 0 && |b| > 0 && a[0] == b[0] {
      LessAsymmetric(a[1..], b[1..]);
    }
  }

  lemma {:induction false} LessTotal(a: string, b: string)
    requires a != b
    ensures Less(a, b) || Less(b, a)
    decreases |a|
  {
    if |a| > 0 && |b| > 0 && a[0] == b[0] {
      assert a == [a[0]] + a[1..] && b == [b[0]] + b[1..];
      LessTotal(a[1..], b[1..]);
    }
  }

  lemma {:induction false} LessTransitive(a: string, b: string, c: string)
    requires Less(a, b) && Less(b, c)
    ensures Less(a, c)
    decreases |a|
  {
    if |a| > 0 && a[0] == b[0] && b[0] == c[0] {
      LessTransitive(a[1..], b[1..], c[1..]);
    }
  }

  /** PHP's `<=>` on two non-numeric strings. */
  function Spaceship(a: string, b: string): (r: int)
    ensures r == 0 <==> a == b
    ensures r == -1 <==> Less(a, b)
    ensures r == 1 <==> Less(b, a)
  {
    LessIrreflexive(a);
    LessAsymmetric(a, b);
    if a == b then 0
    else
      LessTotal(a, b);
      if Less(a, b) then -1 else 1
  }

  // ---------------------------------------------------------------------------
  // trim: strips " \t\n\r\0\x0B" from both ends
  // ---------------------------------------------------------------------------

  predicate IsTrimChar(c: char)
  {
    c == ' ' || c == '\t' || c == '\n' || c == '\r' || c == '\0' || c == 11 as char
  }

  /** The number of trim characters `s` starts with. */
  function LeadingTrim(s: string): (n: nat)
    ensures n <= |s|
    ensures forall i :: 0 <= i < n ==> IsTrimChar(s[i])
    ensures n < |s| ==> !IsTrimChar(s[n])
    decreases |s|
  {
    if |s| > 0 && IsTrimChar(s[0]) then 1 + LeadingTrim(s[1..]) else 0
  }

  /** The end of `s[lo..hi]` once its trailing trim characters are dropped. */
  function TrailingCut(s: string, lo: nat, hi: nat): (n: nat)
    requires lo <= hi <= |s|
    ensures lo <= n <= hi
    ensures forall i :: n <= i < hi ==> IsTrimChar(s[i])
    ensures n > lo ==> !IsTrimChar(s[n - 1])
    decreases hi
  {
    if hi > lo && IsTrimChar(s[hi - 1]) then TrailingCut(s, lo, hi - 1) else hi
  }

  /** `r` stands in `s` at `k`, with only trim characters before and after it. */
  predicate TrimmedAt(s: string, r: string, k: int)
  {
    && OccursAt(s, r, k)
    && (forall i :: 0 <= i < k ==> IsTrimChar(s[i]))
    && (forall i :: k + |r| <= i < |s| ==> IsTrimChar(s[i]))
  }

  /** PHP's trim with its default character list: the input with exactly its
      leading and trailing trim characters removed. */
  function Trim(s: string): (r: string)
    ensures r == [] || (!IsTrimChar(r[0]) && !IsTrimChar(r[|r| - 1]))
    ensures exists k :: TrimmedAt(s, r, k)
    ensures r == [] ==> forall i :: 0 <= i < |s| ==> IsTrimChar(s[i])
  {
    var start := LeadingTrim(s);
    var end := TrailingCut(s, start, |s|);
    assert TrimmedAt(s, s[start..end], start);
    s[start..end]
  }

  /** Trimming a string that starts with a non-blank character and ends in
      blanks only removes the trailing blanks. */
  lemma TrimDropsTrailingBlanks(s: string, blanks: string)
    requires |s| > 0 && !IsTrimChar(s[0]) && !IsTrimChar(s[|s| - 1])
    requires forall i :: 0 <= i < |blanks| ==> IsTrimChar(blanks[i])
    ensures Trim(s + blanks) == s
  {
    var t := s + blanks;
    assert t[0] == s[0];
    var start := LeadingTrim(t);
    assert start == 0;
    var end := TrailingCut(t, 0, |t|);
    assert t[|s| - 1] == s[|s| - 1];
    assert end == |s|;
    assert t[0..|s|] == s;
  }

  // ---------------------------------------------------------------------------
  // str_replace with one needle: left to right, non-overlapping
  // ---------------------------------------------------------------------------

  function Replace(s: string, from: string, to: string): (r: string)
    requires |from| > 0
    ensures |from| == |to| ==> |r| == |s|
    ensures from == to ==> r == s
    decreases |s|
  {
    if |s| == 0 then []
    else if from <= s then
      assert s == from + s[|from|..];
      to + Replace(s[|from|..], from, to)
    else [s[0]] + Replace(s[1..], from, to)
  }

  predicate OccursAt(s: string, p: string, i: int)
  {
    0 <= i && i + |p| <= |s| && s[i..i + |p|] == p
  }

  ghost predicate Occurs(s: string, p: string)
  {
    exists i :: OccursAt(s, p, i)
  }

  lemma OccursInSuffix(s: string, k: nat, p: string)
    requires k <= |s|
    ensures Occurs(s[k..], p) ==> Occurs(s, p)
  {
    if Occurs(s[k..], p) {
      var i :| OccursAt(s[k..], p, i);
      assert s[k..][i..i + |p|] == s[k + i..k + i + |p|];
      assert OccursAt(s, p, k + i);
    }
  }

  /** A string without the needle comes out of str_replace unchanged. */
  lemma {:induction false} ReplaceWithoutOccurrence(s: string, from: string, to: string)
    requires |from| > 0 && !Occurs(s, from)
    ensures Replace(s, from, to) == s
    decreases |s|
  {
    if |s| > 0 {
      assert !OccursAt(s, from, 0);
      OccursInSuffix(s, 1, from);
      ReplaceWithoutOccurrence(s[1..], from, to);
      assert s == [s[0]] + s[1..];
    }
  }

  /** A stretch that never holds the needle's first character is copied as
      it is, and the replacement carries on after it. */
  lemma {:induction false} ReplaceSkipsPrefix(a: string, b: string, from: string, to: string)
    requires |from| > 0 && from[0] !in a
    ensures Replace(a + b, from, to) == a + Replace(b, from, to)
    decreases |a|
  {
    if |a| == 0 {
      assert a + b == b;
    } else {
      assert (a + b)[0] == a[0] != from[0];
      assert (a + b)[1..] == a[1..] + b;
      ReplaceSkipsPrefix(a[1..], b, from, to);
      assert a == [a[0]] + a[1..];
    }
  }

  /** A needle that differs from a word at some position does not start
      anything that begins with the word. */
  lemma NotPrefixAt(p: string, w: string, b: string, i: nat)
    requires i < |p| && i < |w| && p[i] != w[i]
    ensures !(p <= w + b)
  {
    assert (w + b)[i] == w[i];
  }

  /** A character that does not start the needle is copied, and the
      replacement carries on after it. */
  lemma ReplaceCopiesHead(c: char, t: string, from: string, to: string)
    requires |from| > 0 && !(from <= [c] + t)
    ensures Replace([c] + t, from, to) == [c] + Replace(t, from, to)
  {
    assert ([c] + t)[1..] == t;
  }

  /** A word that parts from the needle at its second character, and holds
      the needle's first character at most at its own start, is copied as it
      is. */
  lemma ReplaceSkipsWord(w: string, b: string, from: string, to: string)
    requires |from| > 1 && |w| > 1 && from[1] != w[1] && from[0] !in w[1..]
    ensures Replace(w + b, from, to) == w + Replace(b, from, to)
  {
    var tail := Replace(b, from, to);
    assert Replace(w + b, from, to) == [w[0]] + Replace(w[1..] + b, from, to) by {
      NotPrefixAt(from, w, b, 1);
      assert w + b == [w[0]] + (w[1..] + b);
      ReplaceCopiesHead(w[0], w[1..] + b, from, to);
    }
    assert Replace(w[1..] + b, from, to) == w[1..] + tail by {
      ReplaceSkipsPrefix(w[1..], b, from, to);
    }
    assert [w[0]] + (w[1..] + tail) == w + tail by {
      assert w == [w[0]] + w[1..];
    }
  }

  /** Two strings that start with the same character share a prefix only
      if what follows it does. */
  lemma HeadlessPrefix(c: char, p: string, t: string)
    ensures [c] + p <= [c] + t ==> p <= t
  {
    if [c] + p <= [c] + t {
      assert forall i :: 0 <= i < |p| ==> p[i] == ([c] + p)[i + 1] == ([c] + t)[i + 1] == t[i];
    }
  }

  /** A needle at the start is replaced, and the replacement carries on after it. */
  lemma ReplaceAtNeedle(from: string, after: string, to: string)
    requires |from| > 0
    ensures Replace(from + after, from, to) == to + Replace(after, from, to)
  {
    assert from <= from + after;
    assert (from + after)[|from|..] == after;
  }

  /** `to` can never take part in forming `p`: the first character of `p`
      appears nowhere else in `p`, `to` holds it only at its start, and `to`
      does not begin with `p`. */
  predicate Separated(to: string, p: string)
  {
    && |p| > 0 && |to| >= |p| && to[0] == p[0] && !(p <= to)
    && (forall i :: 1 <= i < |p| ==> p[i] != p[0])
    && (forall i :: 1 <= i < |to| ==> to[i] != p[0])
  }

  /** A prefix of a str_replace result that never mentions the first
      character of the replacement was already a prefix of the input. */
  lemma {:induction false} ReplacePrefixFromSource(t: string, from: string, to: string, p: string)
    requires |from| > 0 && |to| > 0
    requires forall i :: 0 <= i < |p| ==> p[i] != to[0]
    ensures p <= Replace(t, from, to) ==> p <= t
    decreases |t|
  {
    if |p| > 0 && |t| > 0 {
      if from <= t {
        assert Replace(t, from, to)[0] == to[0];
      } else {
        var rt := Replace(t[1..], from, to);
        assert Replace(t, from, to) == [t[0]] + rt;
        ReplacePrefixFromSource(t[1..], from, to, p[1..]);
        assert p == [p[0]] + p[1..];
        assert t == [t[0]] + t[1..];
      }
    }
  }

  /** A slice lying wholly in the right operand of a concatenation. */
  lemma SliceRight(a: string, b: string, i: int, j: int)
    requires |a| <= i <= j <= |a| + |b|
    ensures (a + b)[i..j] == b[i - |a|..j - |a|]
  {
    assert forall k :: 0 <= k < j - i ==> (a + b)[i..j][k] == b[i - |a|..j - |a|][k];
  }

  /** Nothing matching `p` straddles or follows a copy of a separated replacement. */
  lemma NoOccurrenceAfterReplacement(to: string, rest: string, p: string)
    requires Separated(to, p) && !Occurs(rest, p)
    ensures !Occurs(to + rest, p)
  {
    var r := to + rest;
    forall i | 0 <= i
      ensures !OccursAt(r, p, i)
    {
      if i >= |to| {
        assert !OccursAt(rest, p, i - |to|);
        if i + |p| <= |r| {
          SliceRight(to, rest, i, i + |p|);
        }
      } else if i == 0 {
        assert r[..|p|] == to[..|p|];
      } else {
        assert r[i] == to[i];
      }
    }
  }

  /** Nothing matching `p` starts at, or follows, a single copied character
      that does not begin `p`. */
  lemma NoOccurrenceAfterCopy(c: char, rest: string, p: string)
    requires |p| > 0 && !(p <= [c] + rest) && !Occurs(rest, p)
    ensures !Occurs([c] + rest, p)
  {
    var r := [c] + rest;
    forall i | 1 <= i
      ensures !OccursAt(r, p, i)
    {
      assert !OccursAt(rest, p, i - 1);
      if i + |p| <= |r| {
        SliceRight([c], rest, i, i + |p|);
      }
    }
  }

  /** After str_replace, the needle (or any pattern `p` the replacement is
      separated from that was absent before) no longer occurs. */
  lemma {:induction false} ReplaceLeavesNoOccurrence(s: string, from: string, to: string, p: string)
    requires |from| > 0 && Separated(to, p)
    requires p == from || !Occurs(s, p)
    ensures !Occurs(Replace(s, from, to), p)
    decreases |s|
  {
    if |s| > 0 {
      if from <= s {
        OccursInSuffix(s, |from|, p);
        ReplaceLeavesNoOccurrence(s[|from|..], from, to, p);
        NoOccurrenceAfterReplacement(to, Replace(s[|from|..], from, to), p);
      } else {
        OccursInSuffix(s, 1, p);
        ReplaceLeavesNoOccurrence(s[1..], from, to, p);
        var rest := Replace(s[1..], from, to);
        assert !OccursAt(s, p, 0);
        ReplacePrefixFromSource(s[1..], from, to, p[1..]);
        assert p == [p[0]] + p[1..] && s == [s[0]] + s[1..];
        assert p <= [s[0]] + rest <==> p[0] == s[0] && p[1..] <= rest;
        NoOccurrenceAfterCopy(s[0], rest, p);
      }
    }
  }

  // ---------------------------------------------------------------------------
  // stripcslashes: the C-style escape decoder of PHP's standard library
  // ---------------------------------------------------------------------------

  predicate IsOctalDigit(c: char)
  {
    '0' <= c <= '7'
  }

  predicate IsHexDigit(c: char)
  {
    '0' <= c <= '9' || 'a' <= c <= 'f' || 'A' <= c <= 'F'
  }

  function HexValue(c: char): (v: nat)
    requires IsHexDigit(c)
    ensures v < 16
  {
    if '0' <= c <= '9' then c as int - '0' as int
    else if 'a' <= c <= 'f' then c as int - 'a' as int + 10
    else c as int - 'A' as int + 10
  }

  /** The number of octal digits (at most three) that `s` starts with. */
  function OctalRun(s: string): (n: nat)
    ensures n <= 3 && n <= |s|
    ensures forall i :: 0 <= i < n ==> IsOctalDigit(s[i])
    ensures n < 3 && n < |s| ==> !IsOctalDigit(s[n])
  {
    if |s| > 0 && IsOctalDigit(s[0]) then
      if |s| > 1 && IsOctalDigit(s[1]) then
        if |s| > 2 && IsOctalDigit(s[2]) then 3 else 2
      else 1
    else 0
  }

  function OctalValue(s: string): nat
    requires forall i :: 0 <= i < |s| ==> IsOctalDigit(s[i])
    decreases |s|
  {
    if |s| == 0 then 0
    else
      assert IsOctalDigit(s[|s| - 1]);
      OctalValue(s[..|s| - 1]) * 8 + (s[|s| - 1] as int - '0' as int)
  }

  /** The one-letter escapes: \n \r \a \t \v \b \f and \\. */
  function LetterEscape(c: char): Option<char>
  {
    if c == 'n' then Some('\n')
    else if c == 'r' then Some('\r')
    else if c == 'a' then Some(7 as char)
    else if c == 't' then Some('\t')
    else if c == 'v' then Some(11 as char)
    else if c == 'b' then Some(8 as char)
    else if c == 'f' then Some(12 as char)
    else if c == '\\' then Some('\\')
    else None
  }

  /** stripcslashes: a backslash followed by a letter escape, by `x` and one
      or two hex digits, or by one to three octal digits yields that
      character (truncated to a byte); before any other character it is
      dropped; a backslash ending the string is kept. */
  function StripCSlashes(s: string): (r: string)
    ensures |r| <= |s|
    ensures '\\' !in s ==> r == s
    decreases |s|
  {
    if |s| == 0 then []
    else if s[0] != '\\' || |s| == 1 then
      assert s == [s[0]] + s[1..];
      [s[0]] + StripCSlashes(s[1..])
    else
      var c := s[1];
      if LetterEscape(c).Some? then [LetterEscape(c).value] + StripCSlashes(s[2..])
      else if c == 'x' && |s| > 2 && IsHexDigit(s[2]) then
        if |s| > 3 && IsHexDigit(s[3]) then
          [(HexValue(s[2]) * 16 + HexValue(s[3])) as char] + StripCSlashes(s[4..])
        else
          [HexValue(s[2]) as char] + StripCSlashes(s[3..])
      else
        var n := OctalRun(s[1..]);
        if n > 0 then [(OctalValue(s[1..1 + n]) % 256) as char] + StripCSlashes(s[1 + n..])
        else [c] + StripCSlashes(s[2..])
  }
}
