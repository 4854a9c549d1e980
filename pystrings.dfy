/**
 * The few Python string operations the scripts rely on, written out so that
 * their edge cases are explicit: `str.split()` with no argument,
 * `str.split(sep)`, `sep.join(parts)`, `str.startswith`, and the character
 * maps behind `str.lower()`, `re.sub(r'[^a-z0-9]', '-', …)` and
 * `str.replace(old, new)` for one-character arguments.
 */
module PyStrings {

  /** `c.isspace()`: the characters `str.split()` with no argument splits on
      (Unicode white space, bidirectional classes WS, B and S). */
  predicate IsSpace(c: char) {
    ('\t' <= c <= '\r') || ('\U{1C}' <= c <= '\U{1F}') || c == ' '
    || c == '\U{85}' || c == '\U{A0}' || c == '\U{1680}'
    || ('\U{2000}' <= c <= '\U{200A}') || c == '\U{2028}' || c == '\U{2029}'
    || c == '\U{202F}' || c == '\U{205F}' || c == '\U{3000}'
  }

  /** No character of `s` is white space. */
  predicate NoSpace(s: string) {
    forall i :: 0 <= i < |s| ==> !IsSpace(s[i])
  }

  /** One element of the list `str.split()` returns: never empty, no white space. */
  predicate IsWord(w: string) {
    w != [] && NoSpace(w)
  }

  /** The longest prefix of `s` that holds no white space. */
  function Token(s: string): (w: string)
    ensures w <= s && NoSpace(w)
    ensures |w| < |s| ==> IsSpace(s[|w|])
    ensures s != [] && !IsSpace(s[0]) ==> w != []
  {
    if s == [] || IsSpace(s[0]) then [] else [s[0]] + Token(s[1..])
  }

  /** `s.split()`: the maximal runs of non-white-space characters, in order;
      leading, trailing and repeated white space produce no empty words. */
  function Words(s: string): (ws: seq<string>)
    ensures forall i :: 0 <= i < |ws| ==> IsWord(ws[i])
    decreases |s|
  {
    if s == [] then []
    else if IsSpace(s[0]) then Words(s[1..])
    else
      var w := Token(s);
      [w] + Words(s[|w|..])
  }

  /** `sep.join(parts)`. */
  function Join(parts: seq<string>, sep: string): string {
    if parts == [] then ""
    else if |parts| == 1 then parts[0]
    else parts[0] + sep + Join(parts[1..], sep)
  }

  /** `s.split(sep)` for a non-empty separator: the pieces between the
      non-overlapping occurrences of `sep`, scanned from the left. There is
      always at least one piece. */
  function SplitOn(s: string, sep: string): (parts: seq<string>)
    requires sep != []
    ensures |parts| >= 1
    decreases |s|
  {
    if |s| < |sep| then [s]
    else if s[..|sep|] == sep then [""] + SplitOn(s[|sep|..], sep)
    else
      var rest := SplitOn(s[1..], sep);
      [[s[0]] + rest[0]] + rest[1..]
  }

  /** `s.startswith(prefix)`. */
  predicate StartsWith(s: string, prefix: string) {
    |prefix| <= |s| && s[..|prefix|] == prefix
  }

  /** `c.lower()` on the ASCII capitals; every other character is kept. */
  function LowerChar(c: char): (d: char)
    ensures 'A' <= c <= 'Z' ==> 'a' <= d <= 'z'
    ensures !('A' <= c <= 'Z') ==> d == c
  {
    if 'A' <= c <= 'Z' then (c as int - 'A' as int + 'a' as int) as char else c
  }

  /** `s.replace(old, new)` for one-character `old` and `new`. */
  function ReplaceChar(s: string, from: char, to: char): (r: string)
    ensures |r| == |s|
    ensures forall i :: 0 <= i < |s| ==> r[i] == if s[i] == from then to else s[i]
  {
    if s == [] then [] else [if s[0] == from then to else s[0]] + ReplaceChar(s[1..], from, to)
  }

  /** `Token` stops exactly at the end of a word that is followed by white
      space or by nothing. */
  lemma {:induction false} TokenOfWord(w: string, t: string)
    requires NoSpace(w)
    requires t == [] || IsSpace(t[0])
    ensures Token(w + t) == w
  {
    if w == [] {
      assert w + t == t;
    } else {
      assert (w + t)[1..] == w[1..] + t;
      TokenOfWord(w[1..], t);
    }
  }

  /** Splitting words joined by single spaces gives the words back. */
  lemma {:induction false} WordsOfJoin(ws: seq<string>)
    requires forall i :: 0 <= i < |ws| ==> IsWord(ws[i])
    ensures Words(Join(ws, " ")) == ws
  {
    if ws == [] {
    } else if |ws| == 1 {
      var w := ws[0];
      assert w + [] == w;
      TokenOfWord(w, []);
      assert w[|w|..] == [];
    } else {
      var w, rest := ws[0], Join(ws[1..], " ");
      var s := w + " " + rest;
      assert s == w + (" " + rest);
      TokenOfWord(w, " " + rest);
      assert s[0] == w[0];
      assert s[|w|..] == " " + rest;
      assert (" " + rest)[1..] == rest;
      WordsOfJoin(ws[1..]);
    }
  }

  /** Joining a piece in front of a non-empty list puts one separator between. */
  lemma JoinCons(x: string, rest: seq<string>, sep: string)
    requires rest != []
    ensures Join([x] + rest, sep) == x + sep + Join(rest, sep)
  {
    assert ([x] + rest)[1..] == rest;
  }

  /** `sep.join(s.split(sep)) == s`: splitting on a separator loses nothing. */
  lemma {:induction false} JoinOfSplit(s: string, sep: string)
    requires sep != []
    ensures Join(SplitOn(s, sep), sep) == s
    decreases |s|, 1
  {
    if |s| < |sep| {
    } else if s[..|sep|] == sep {
      JoinOfSplitAtSeparator(s, sep);
    } else {
      JoinOfSplitPlain(s, sep);
    }
  }

  /** `JoinOfSplit` for a string that starts with the separator. */
  lemma {:induction false} JoinOfSplitAtSeparator(s: string, sep: string)
    requires sep != [] && |sep| <= |s| && s[..|sep|] == sep
    ensures Join(SplitOn(s, sep), sep) == s
    decreases |s|, 0
  {
    var tail := s[|sep|..];
    var rest := SplitOn(tail, sep);
    assert SplitOn(s, sep) == [""] + rest;
    JoinOfSplit(tail, sep);
    JoinCons("", rest, sep);
    assert s == sep + tail;
  }

  /** `JoinOfSplit` for a string that does not start with the separator. */
  lemma {:induction false} JoinOfSplitPlain(s: string, sep: string)
    requires sep != [] && |sep| <= |s| && s[..|sep|] != sep
    ensures Join(SplitOn(s, sep), sep) == s
    decreases |s|, 0
  {
    var rest := SplitOn(s[1..], sep);
    assert SplitOn(s, sep) == [[s[0]] + rest[0]] + rest[1..];
    JoinOfSplit(s[1..], sep);
    JoinPrependChar(s[0], rest, sep);
    assert s == [s[0]] + s[1..];
  }

  /** A character put in front of the first piece comes first in the join. */
  lemma JoinPrependChar(c: char, parts: seq<string>, sep: string)
    requires parts != []
    ensures Join([[c] + parts[0]] + parts[1..], sep) == [c] + Join(parts, sep)
  {
    if |parts| > 1 {
      assert parts == [parts[0]] + parts[1..];
      JoinCons(parts[0], parts[1..], sep);
      JoinCons([c] + parts[0], parts[1..], sep);
    }
  }

  /** A prefix free of the separator's first character runs into the first
      piece unchanged. */
  lemma {:induction false} SplitAfterPlain(a: string, t: string, sep: string)
    requires sep != []
    requires forall i :: 0 <= i < |a| ==> a[i] != sep[0]
    ensures SplitOn(a + t, sep) == [a + SplitOn(t, sep)[0]] + SplitOn(t, sep)[1..]
    decreases |a|
  {
    var s := a + t;
    if a == [] {
      assert s == t;
      assert a + SplitOn(t, sep)[0] == SplitOn(t, sep)[0];
      assert SplitOn(t, sep) == [SplitOn(t, sep)[0]] + SplitOn(t, sep)[1..];
    } else if |s| < |sep| {
      assert SplitOn(t, sep) == [t];
    } else {
      assert s[..|sep|][0] == a[0];
      assert s[1..] == a[1..] + t;
      SplitAfterPlain(a[1..], t, sep);
      assert [a[0]] + (a[1..] + SplitOn(t, sep)[0]) == a + SplitOn(t, sep)[0];
    }
  }

  /** A string that starts with the separator splits into an empty piece first. */
  lemma SplitAtSeparator(b: string, sep: string)
    requires sep != []
    ensures SplitOn(sep + b, sep) == [""] + SplitOn(b, sep)
  {
    assert (sep + b)[..|sep|] == sep;
    assert (sep + b)[|sep|..] == b;
  }

  /** The first piece of a split is a prefix of the string. */
  lemma {:induction false} FirstPieceIsPrefix(s: string, sep: string)
    requires sep != []
    ensures SplitOn(s, sep)[0] <= s
    decreases |s|
  {
    if |s| < |sep| {
    } else if s[..|sep|] == sep {
    } else {
      FirstPieceIsPrefix(s[1..], sep);
      assert s == [s[0]] + s[1..];
    }
  }
}
