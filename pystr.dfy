/**
 * The few built-in Python string operations the breadcrumb builder relies on:
 * `s.strip(chars)`, `s.strip()`, `s.split(sep)` for a one-character separator,
 * and its inverse `sep.join(parts)`. Strings are sequences of characters.
 */
module PyStr {

  /** The characters `str.isspace()` accepts, which `str.strip()` with no
      argument removes from both ends. */
  const Whitespace: set<char> :=
    {'\t', '\n', '\U{B}', '\U{C}', '\r',
     '\U{1C}', '\U{1D}', '\U{1E}', '\U{1F}', ' ',
     '\U{85}', '\U{A0}', '\U{1680}',
     '\U{2000}', '\U{2001}', '\U{2002}', '\U{2003}', '\U{2004}', '\U{2005}',
     '\U{2006}', '\U{2007}', '\U{2008}', '\U{2009}', '\U{200A}',
     '\U{2028}', '\U{2029}', '\U{202F}', '\U{205F}', '\U{3000}'}

  /** `s.lstrip(chars)`: `s` without its leading run of `chars`. */
  function TrimLeft(s: string, chars: set<char>): (r: string)
    ensures |r| <= |s|
    ensures r == [] || r[0] !in chars
    decreases |s|
  {
    if s != [] && s[0] in chars then TrimLeft(s[1..], chars) else s
  }

  /** `s.rstrip(chars)`: `s` without its trailing run of `chars`. */
  function TrimRight(s: string, chars: set<char>): (r: string)
    ensures |r| <= |s|
    ensures r == [] || r[|r| - 1] !in chars
    decreases |s|
  {
    if s != [] && s[|s| - 1] in chars then TrimRight(s[..|s| - 1], chars) else s
  }

  /** `lstrip` keeps a suffix of `s` and cuts only characters of `chars`. */
  lemma {:induction false} TrimLeftCut(s: string, chars: set<char>)
    ensures var r := TrimLeft(s, chars);
      r == s[|s| - |r|..] && forall k :: 0 <= k < |s| - |r| ==> s[k] in chars
    decreases |s|
  {
    if s != [] && s[0] in chars {
      TrimLeftCut(s[1..], chars);
    }
  }

  /** `rstrip` keeps a prefix of `s` and cuts only characters of `chars`. */
  lemma {:induction false} TrimRightCut(s: string, chars: set<char>)
    ensures var r := TrimRight(s, chars);
      r == s[..|r|] && forall k :: |r| <= k < |s| ==> s[k] in chars
    decreases |s|
  {
    if s != [] && s[|s| - 1] in chars {
      TrimRightCut(s[..|s| - 1], chars);
    }
  }

  /** `s.strip(chars)`: `s` without the run of `chars` at either end; the
      result neither starts nor ends with one of `chars`. */
  function Strip(s: string, chars: set<char>): (r: string)
    ensures |r| <= |s|
    ensures r == [] || (r[0] !in chars && r[|r| - 1] !in chars)
  {
    var left := TrimLeft(s, chars);
    TrimRightCut(left, chars);
    TrimRight(left, chars)
  }

  /** `s.strip(chars)` is empty exactly when every character of `s` is one
      of `chars`. */
  lemma StripEmpty(s: string, chars: set<char>)
    ensures Strip(s, chars) == [] <==> forall k :: 0 <= k < |s| ==> s[k] in chars
  {
    var left := TrimLeft(s, chars);
    TrimLeftCut(s, chars);
    TrimRightCut(left, chars);
  }

  /** `s.strip(chars)` is the middle of `s` from the first character kept
      by `lstrip`, with only characters of `chars` cut on either side. */
  lemma StripCut(s: string, chars: set<char>)
    ensures var i, r := |s| - |TrimLeft(s, chars)|, Strip(s, chars);
      i + |r| <= |s| && r == s[i..i + |r|] &&
      (forall k :: 0 <= k < i ==> s[k] in chars) &&
      (forall k :: i + |r| <= k < |s| ==> s[k] in chars)
  {
    var left := TrimLeft(s, chars);
    var i := |s| - |left|;
    TrimLeftCut(s, chars);
    TrimRightCut(left, chars);
    var r := TrimRight(left, chars);
    forall k | i + |r| <= k < |s|
      ensures s[k] in chars
    {
      assert s[k] == left[k - i];
    }
  }

  /** A string that neither starts nor ends with one of `chars` is its own
      `strip(chars)`. */
  lemma StripKeeps(s: string, chars: set<char>)
    requires s != [] && s[0] !in chars && s[|s| - 1] !in chars
    ensures Strip(s, chars) == s
  {
  }

  /** A leading character of `chars` does not change `strip(chars)`. */
  lemma StripDropsLeading(c: char, s: string, chars: set<char>)
    requires c in chars
    ensures Strip([c] + s, chars) == Strip(s, chars)
  {
    assert ([c] + s)[1..] == s;
  }

  /** A trailing character of `chars` does not change `strip(chars)`. */
  lemma StripDropsTrailing(s: string, c: char, chars: set<char>)
    requires c in chars
    ensures Strip(s + [c], chars) == Strip(s, chars)
  {
    var left := TrimLeft(s, chars);
    TrimLeftAppend(s, [c], chars);
    if left == [] {
      assert TrimLeft([c], chars) == TrimLeft([c][1..], chars);
    } else {
      assert (left + [c])[..|left|] == left;
    }
  }

  /** `lstrip` of a concatenation: once `s` has a character outside
      `chars`, the cut stays inside `s`; otherwise all of `s` goes. */
  lemma {:induction false} TrimLeftAppend(s: string, t: string, chars: set<char>)
    ensures TrimLeft(s + t, chars) ==
      if TrimLeft(s, chars) == [] then TrimLeft(t, chars) else TrimLeft(s, chars) + t
    decreases |s|
  {
    if s == [] {
      assert s + t == t;
    } else {
      assert (s + t)[0] == s[0];
      if s[0] in chars {
        TrimLeftAppend(s[1..], t, chars);
        assert (s + t)[1..] == s[1..] + t;
      }
    }
  }

  /** `s.count(c)` for a single character. */
  function Occurrences(s: string, c: char): nat
    decreases |s|
  {
    if s == [] then 0 else (if s[0] == c then 1 else 0) + Occurrences(s[1..], c)
  }

  /** `sep.join(parts)`. */
  function Join(parts: seq<string>, sep: char): string
    decreases |parts|
  {
    if parts == [] then []
    else if |parts| == 1 then parts[0]
    else parts[0] + [sep] + Join(parts[1..], sep)
  }

  /** `s.split(sep)` for a one-character separator: the pieces between
      separators. There is always at least one (`"".split("/")` is `[""]`). */
  function Split(s: string, sep: char): (r: seq<string>)
    ensures |r| >= 1
    decreases |s|
  {
    if s == [] then [[]]
    else
      var rest := Split(s[1..], sep);
      if s[0] == sep then [[]] + rest else [[s[0]] + rest[0]] + rest[1..]
  }

  /** There is one more piece than there are separators, no piece holds the
      separator, and joining the pieces with the separator gives `s` back. */
  lemma {:induction false} SplitPieces(s: string, sep: char)
    ensures |Split(s, sep)| == 1 + Occurrences(s, sep)
    ensures forall k :: 0 <= k < |Split(s, sep)| ==> sep !in Split(s, sep)[k]
    ensures Join(Split(s, sep), sep) == s
    decreases |s|
  {
    if s != [] {
      var rest := Split(s[1..], sep);
      SplitPieces(s[1..], sep);
      assert s == [s[0]] + s[1..];
      if s[0] != sep {
        var r := Split(s, sep);
        assert r == [[s[0]] + rest[0]] + rest[1..];
        assert r[1..] == rest[1..];
      }
    }
  }

  /** Splitting a join gives back the parts, provided there is at least one
      and none contains the separator: `Split` and `Join` are inverse. */
  lemma {:induction false} SplitJoin(parts: seq<string>, sep: char)
    requires |parts| >= 1
    requires forall k :: 0 <= k < |parts| ==> sep !in parts[k]
    ensures Split(Join(parts, sep), sep) == parts
    decreases |parts|
  {
    if |parts| == 1 {
      SplitNoSeparator(parts[0], sep);
      assert Join(parts, sep) == parts[0];
    } else {
      SplitJoin(parts[1..], sep);
      SplitFirstPiece(parts[0], sep, Join(parts[1..], sep));
      assert parts == [parts[0]] + parts[1..];
    }
  }

  /** A piece without the separator, followed by the separator, splits off
      as the first piece. */
  lemma {:induction false} SplitFirstPiece(p: string, sep: char, x: string)
    requires sep !in p
    ensures Split(p + [sep] + x, sep) == [p] + Split(x, sep)
    decreases |p|
  {
    if p == [] {
      SplitLeadingSeparator(sep, x);
    } else {
      SplitFirstPiece(p[1..], sep, x);
      assert p + [sep] + x == [p[0]] + (p[1..] + [sep] + x);
      SplitLeadingOther(p[0], sep, p[1..] + [sep] + x);
      assert p == [p[0]] + p[1..];
    }
  }

  /** A leading separator contributes an empty first piece. */
  lemma SplitLeadingSeparator(sep: char, x: string)
    ensures Split([sep] + x, sep) == [[]] + Split(x, sep)
  {
    assert ([sep] + x)[1..] == x;
  }

  /** Any other leading character joins the first piece. */
  lemma SplitLeadingOther(c: char, sep: char, x: string)
    requires c != sep
    ensures Split([c] + x, sep) == [[c] + Split(x, sep)[0]] + Split(x, sep)[1..]
  {
    assert ([c] + x)[1..] == x;
  }

  /** A string without the separator splits into itself alone. */
  lemma {:induction false} SplitNoSeparator(s: string, sep: char)
    requires sep !in s
    ensures Split(s, sep) == [s]
    decreases |s|
  {
    if s != [] {
      SplitNoSeparator(s[1..], sep);
      assert s == [s[0]] + s[1..];
    }
  }

  /** Joining two non-empty lists of parts puts one separator between them. */
  lemma {:induction false} JoinAppend(x: seq<string>, y: seq<string>, sep: char)
    requires |x| >= 1 && |y| >= 1
    ensures Join(x + y, sep) == Join(x, sep) + [sep] + Join(y, sep)
    decreases |x|
  {
    if |x| > 1 {
      JoinAppend(x[1..], y, sep);
      assert (x + y)[1..] == x[1..] + y;
    }
  }

  /** A separator splits a string into the pieces of either side:
      `(a + sep + b).split(sep) == a.split(sep) + b.split(sep)`. */
  lemma SplitAppend(a: string, sep: char, b: string)
    ensures Split(a + [sep] + b, sep) == Split(a, sep) + Split(b, sep)
  {
    var x, y := Split(a, sep), Split(b, sep);
    SplitPieces(a, sep);
    SplitPieces(b, sep);
    JoinAppend(x, y, sep);
    SplitJoin(x + y, sep);
  }

}
