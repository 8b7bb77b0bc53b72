// String helpers from Go's standard library that the core relies on
// (strings.Split, strings.Join, strings.TrimSpace, strings.ToLower,
// strings.Contains, strings.HasPrefix), on strings as sequences of runes.

module Text {

  /** unicode.IsSpace restricted to the runes a request or a CSV cell can
      plausibly carry: the ASCII white space, NEL and NO-BREAK SPACE. */
  predicate IsSpace(c: char) {
    c == ' ' || c == '\t' || c == '\n' || c == '\r' || c == '\U{000B}' || c == '\U{000C}'
    || c == '\U{0085}' || c == '\U{00A0}'
  }

  predicate IsAsciiDigit(c: char) {
    '0' <= c <= '9'
  }

  /** Position of the first `c` in `s`, or -1. */
  function IndexOf(s: string, c: char): (i: int)
    ensures -1 <= i < |s|
    ensures i == -1 <==> c !in s
    ensures 0 <= i ==> s[i] == c && c !in s[..i]
  {
    if |s| == 0 then -1
    else if s[0] == c then 0
    else
      var j := IndexOf(s[1..], c);
      if j < 0 then -1
      else
        assert s[..j + 1] == [s[0]] + s[1..][..j];
        j + 1
  }

  /** strings.Join: the parts with `sep` between consecutive ones. */
  function Join(parts: seq<string>, sep: string): string
  {
    if |parts| == 0 then ""
    else if |parts| == 1 then parts[0]
    else parts[0] + sep + Join(parts[1..], sep)
  }

  /** strings.Split with a one-rune separator: the maximal pieces of `s`
      between occurrences of `c`, so that joining them back gives `s`. */
  function Split(s: string, c: char): (parts: seq<string>)
    ensures |parts| >= 1
    ensures forall k :: 0 <= k < |parts| ==> c !in parts[k]
    ensures Join(parts, [c]) == s
    decreases |s|
  {
    var i := IndexOf(s, c);
    if i < 0 then [s]
    else
      var rest := Split(s[i + 1..], c);
      assert s == s[..i] + [c] + s[i + 1..];
      [s[..i]] + rest
  }

  /** The first separator of `a + [c] + b` is the one after `a` when `a`
      has none. */
  lemma FirstSeparator(a: string, c: char, b: string)
    requires c !in a
    ensures IndexOf(a + [c] + b, c) == |a|
  {
    var s := a + [c] + b;
    var i := IndexOf(s, c);
    assert s[|a|] == c;
  }

  /** Splitting the join of pieces that do not contain the separator
      gives the pieces back. */
  lemma {:induction false} SplitJoin(parts: seq<string>, c: char)
    requires |parts| >= 1
    requires forall k :: 0 <= k < |parts| ==> c !in parts[k]
    ensures Split(Join(parts, [c]), c) == parts
  {
    var s := Join(parts, [c]);
    if |parts| > 1 {
      var rest := Join(parts[1..], [c]);
      assert s == parts[0] + [c] + rest;
      FirstSeparator(parts[0], c, rest);
      assert s[..|parts[0]|] == parts[0] && s[|parts[0]| + 1..] == rest;
      SplitJoin(parts[1..], c);
      assert Split(s, c) == [parts[0]] + Split(rest, c);
      assert parts == [parts[0]] + parts[1..];
    }
  }

  /** strings.Split never loses a piece: the separator occurs exactly
      |parts| - 1 times, so "exactly two parts" means "exactly one separator". */
  lemma {:induction false} SplitCount(s: string, c: char)
    ensures |Split(s, c)| == Occurrences(s, c) + 1
    decreases |s|
  {
    var i := IndexOf(s, c);
    if i < 0 {
      NoOccurrences(s, c);
    } else {
      SplitCount(s[i + 1..], c);
      assert s == s[..i] + ([c] + s[i + 1..]);
      OccurrencesAppend(s[..i], [c] + s[i + 1..], c);
      NoOccurrences(s[..i], c);
      assert ([c] + s[i + 1..])[1..] == s[i + 1..];
    }
  }

  function Occurrences(s: string, c: char): nat
  {
    if |s| == 0 then 0 else (if s[0] == c then 1 else 0) + Occurrences(s[1..], c)
  }

  lemma {:induction false} NoOccurrences(s: string, c: char)
    requires c !in s
    ensures Occurrences(s, c) == 0
  {
    if |s| > 0 {
      NoOccurrences(s[1..], c);
    }
  }

  lemma {:induction false} OccurrencesAppend(a: string, b: string, c: char)
    ensures Occurrences(a + b, c) == Occurrences(a, c) + Occurrences(b, c)
  {
    if |a| > 0 {
      assert (a + b)[1..] == a[1..] + b;
      OccurrencesAppend(a[1..], b, c);
    } else {
      assert a + b == b;
    }
  }

  /** strings.TrimSpace: drop leading and trailing white space. */
  function TrimSpace(s: string): (t: string)
    ensures exists i, j :: 0 <= i <= j <= |s| && t == s[i..j]
    ensures |t| > 0 ==> !IsSpace(t[0]) && !IsSpace(t[|t| - 1])
    ensures (forall k :: 0 <= k < |s| ==> !IsSpace(s[k])) ==> t == s
  {
    var l := TrimLeft(s);
    var t := TrimRight(l);
    assert t == s[|s| - |l|..|s| - |l| + |t|];
    t
  }

  function TrimLeft(s: string): (t: string)
    ensures |t| <= |s| && t == s[|s| - |t|..]
    ensures |t| > 0 ==> !IsSpace(t[0])
    ensures forall k :: 0 <= k < |s| - |t| ==> IsSpace(s[k])
  {
    if |s| > 0 && IsSpace(s[0]) then TrimLeft(s[1..]) else s
  }

  function TrimRight(s: string): (t: string)
    ensures |t| <= |s| && t == s[..|t|]
    ensures |t| > 0 ==> !IsSpace(t[|t| - 1])
    ensures forall k :: |t| <= k < |s| ==> IsSpace(s[k])
  {
    if |s| > 0 && IsSpace(s[|s| - 1]) then TrimRight(s[..|s| - 1]) else s
  }

  /** strings.ToLower on the runes the platform deals with: the Latin
      capitals A-Z and the Cyrillic capitals U+0400-U+042F. Every other rune
      is left as it is. */
  function LowerRune(c: char): (l: char)
    ensures !('A' <= l <= 'Z') && !('Ѐ' <= l <= 'Я')
    ensures ('a' <= c <= 'z' || '0' <= c <= '9' || c == '-') ==> l == c
  {
    if 'A' <= c <= 'Z' then (c as int + 32) as char
    else if 'А' <= c <= 'Я' then (c as int + 32) as char
    else if 'Ѐ' <= c <= 'Џ' then (c as int + 80) as char
    else c
  }

  function ToLower(s: string): (t: string)
    ensures |t| == |s|
    ensures forall k :: 0 <= k < |s| ==> t[k] == LowerRune(s[k])
  {
    seq(|s|, k requires 0 <= k < |s| => LowerRune(s[k]))
  }

  predicate HasPrefix(s: string, p: string) {
    |p| <= |s| && s[..|p|] == p
  }

  /** strings.Contains: `t` occurs somewhere in `s`. */
  predicate Contains(s: string, t: string) {
    exists i :: 0 <= i <= |s| && HasPrefix(s[i..], t)
  }

  /** A string contains its middle part. */
  lemma InfixContained(a: string, t: string, b: string)
    ensures Contains(a + t + b, t)
  {
    var s := a + t + b;
    assert s[|a|..][..|t|] == t;
    assert HasPrefix(s[|a|..], t);
  }

  /** `column ILIKE '%pattern%'` for a pattern without LIKE wildcards. */
  predicate ILike(column: string, pattern: string)
  {
    Contains(ToLower(column), ToLower(pattern))
  }
}
