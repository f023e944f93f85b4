/** The string operations the renderers use: Python's truthiness, str.strip(),
    str.title(), "\n".join and the title truncation rule shared by both renderers.
    Characters outside ASCII are treated as uncased and as non-whitespace. */
module Text {
  import opened Wrappers

  /** Python truthiness of an optional string: None and "" are falsy. */
  predicate Truthy(s: Option<string>)
  {
    s.Some? && s.value != ""
  }

  /** The ASCII characters Python's str.isspace() accepts: \t \n \v \f \r, \x1c to \x1f, and space. */
  predicate IsSpace(c: char)
  {
    (9 <= c as int <= 13) || (28 <= c as int <= 32)
  }

  /** Python's str.lstrip(): drops the leading whitespace. */
  function LStrip(s: string): (r: string)
    ensures |r| <= |s| && r == s[|s| - |r|..]
    ensures forall i :: 0 <= i < |s| - |r| ==> IsSpace(s[i])
    ensures r != [] ==> !IsSpace(r[0])
  {
    if s != [] && IsSpace(s[0]) then LStrip(s[1..]) else s
  }

  /** Python's str.rstrip(): drops the trailing whitespace. */
  function RStrip(s: string): (r: string)
    ensures |r| <= |s| && r == s[..|r|]
    ensures forall i :: |r| <= i < |s| ==> IsSpace(s[i])
    ensures r != [] ==> !IsSpace(r[|r| - 1])
  {
    if s != [] && IsSpace(s[|s| - 1]) then RStrip(s[..|s| - 1]) else s
  }

  /** Python's str.strip(): the result is the slice of `s` left after removing
      whitespace on both ends, and it neither starts nor ends with whitespace. */
  function Strip(s: string): (r: string)
    ensures var k := |s| - |LStrip(s)|;
      k + |r| <= |s| && r == s[k..k + |r|] &&
      (forall i :: 0 <= i < k ==> IsSpace(s[i])) &&
      (forall i :: k + |r| <= i < |s| ==> IsSpace(s[i]))
    ensures r != [] ==> !IsSpace(r[0]) && !IsSpace(r[|r| - 1])
  {
    RStrip(LStrip(s))
  }

  /** A string with no whitespace at either end is left as it is. */
  lemma StripKeeps(s: string)
    requires s != [] && !IsSpace(s[0]) && !IsSpace(s[|s| - 1])
    ensures Strip(s) == s
  {
    assert LStrip(s) == s;
    assert RStrip(s) == s;
  }

  /** Stripping twice is the same as stripping once. */
  lemma StripIdempotent(s: string)
    ensures Strip(Strip(s)) == Strip(s)
  {
    var r := Strip(s);
    if r != [] {
      assert LStrip(r) == r;
      assert RStrip(r) == r;
    }
  }

  predicate IsUpper(c: char) { 'A' <= c <= 'Z' }

  predicate IsLower(c: char) { 'a' <= c <= 'z' }

  /** The characters str.title() treats as cased, restricted to ASCII. */
  predicate IsCased(c: char) { IsUpper(c) || IsLower(c) }

  function ToUpper(c: char): char
  {
    if IsLower(c) then (c as int - 32) as char else c
  }

  function ToLower(c: char): char
  {
    if IsUpper(c) then (c as int + 32) as char else c
  }

  /** What str.title() makes of one character, given whether the character before it is cased. */
  function TitleChar(c: char, afterCased: bool): char
  {
    if !IsCased(c) then c else if afterCased then ToLower(c) else ToUpper(c)
  }

  /** Re-casing a character keeps it cased or uncased, and doing it twice changes nothing. */
  lemma TitleCharKeepsCased(c: char, afterCased: bool)
    ensures IsCased(TitleChar(c, afterCased)) == IsCased(c)
    ensures TitleChar(TitleChar(c, afterCased), afterCased) == TitleChar(c, afterCased)
  {
  }

  /** str.title() as CPython computes it: one pass that remembers whether the
      previous character was cased. */
  function TitleFrom(s: string, afterCased: bool): (r: string)
    ensures |r| == |s|
    ensures forall i :: 0 <= i < |s| ==>
      r[i] == TitleChar(s[i], if i == 0 then afterCased else IsCased(s[i - 1]))
  {
    if s == [] then []
    else [TitleChar(s[0], afterCased)] + TitleFrom(s[1..], IsCased(s[0]))
  }

  /** Python's str.title(): a letter is upper-cased when it starts a word (nothing
      cased precedes it) and lower-cased otherwise; every other character is kept. */
  function TitleCase(s: string): (r: string)
    ensures |r| == |s|
    ensures forall i :: 0 <= i < |s| ==>
      r[i] == TitleChar(s[i], i > 0 && IsCased(s[i - 1]))
  {
    TitleFrom(s, false)
  }

  /** Title-casing an already title-cased string changes nothing. */
  lemma TitleCaseIdempotent(s: string)
    ensures TitleCase(TitleCase(s)) == TitleCase(s)
  {
    var t := TitleCase(s);
    var u := TitleCase(t);
    forall i | 0 <= i < |s|
      ensures u[i] == t[i]
    {
      if i > 0 {
        TitleCharKeepsCased(s[i - 1], i > 1 && IsCased(s[i - 2]));
      }
      TitleCharKeepsCased(s[i], i > 0 && IsCased(s[i - 1]));
    }
  }

  /** Python's "\n".join(xs). */
  function JoinLines(xs: seq<string>): (r: string)
    ensures (forall i :: 0 <= i < |xs| ==> '\n' !in xs[i]) ==>
      multiset(r)['\n'] == if xs == [] then 0 else |xs| - 1
    ensures xs == [] ==> r == ""
    ensures xs != [] ==>
      |r| >= |xs[0]| && r[..|xs[0]|] == xs[0]
  {
    if |xs| == 0 then "" else if |xs| == 1 then xs[0] else xs[0] + "\n" + JoinLines(xs[1..])
  }

  /** Joining in front of at least one more fragment puts a newline after the first. */
  lemma JoinLinesCons(x: string, xs: seq<string>)
    requires |xs| >= 1
    ensures JoinLines([x] + xs) == x + "\n" + JoinLines(xs)
  {
    assert ([x] + xs)[1..] == xs;
  }

  /** Index of the first newline of `s`. */
  function FirstNewline(s: string): (i: nat)
    requires '\n' in s
    ensures i < |s| && s[i] == '\n' && '\n' !in s[..i]
  {
    if s[0] == '\n' then 0 else 1 + FirstNewline(s[1..])
  }

  /** A newline at `n` with none before it is the first newline. */
  lemma {:induction false} FirstNewlineAt(s: string, n: nat)
    requires n < |s| && s[n] == '\n' && '\n' !in s[..n]
    ensures FirstNewline(s) == n
  {
    if n > 0 {
      assert s[..n][0] == s[0];
      assert s[1..][..n - 1] == s[..n][1..];
      FirstNewlineAt(s[1..], n - 1);
    }
  }

  /** Python's s.split("\n"), the inverse of "\n".join. */
  function SplitLines(s: string): (r: seq<string>)
    ensures |r| >= 1
    decreases |s|
  {
    if '\n' !in s then [s]
    else
      var i := FirstNewline(s);
      [s[..i]] + SplitLines(s[i + 1..])
  }

  /** Joining fragments that hold no newline and splitting the result again gives the fragments back. */
  lemma {:induction false} SplitJoinLines(xs: seq<string>)
    requires |xs| >= 1
    requires forall i :: 0 <= i < |xs| ==> '\n' !in xs[i]
    ensures SplitLines(JoinLines(xs)) == xs
  {
    if |xs| > 1 {
      var tail := xs[1..];
      var rest := JoinLines(tail);
      var s := xs[0] + "\n" + rest;
      assert JoinLines(xs) == s by {
        JoinLinesCons(xs[0], tail);
        assert [xs[0]] + tail == xs;
      }
      assert SplitLines(s) == [xs[0]] + SplitLines(rest) by {
        var n := |xs[0]|;
        assert s[..n] == xs[0] && s[n] == '\n';
        FirstNewlineAt(s, n);
        assert s[n + 1..] == rest;
      }
      SplitJoinLines(tail);
      assert [xs[0]] + tail == xs;
    }
  }

  /** The title rule of both renderers: a title shorter than `limit` is kept as it is;
      otherwise its first `limit` characters are stripped and "..." is appended, so a
      title of exactly `limit` characters also gets the ellipsis. */
  function ShortTitle(t: string, limit: nat): (r: string)
    ensures |t| < limit ==> r == t
    ensures |t| >= limit ==> |r| >= 3 && r[|r| - 3..] == "..." && r[..|r| - 3] == Strip(t[..limit])
    ensures |r| <= limit + 3
  {
    if |t| < limit then t else Strip(t[..limit]) + "..."
  }
}
