/** The string operations the categorical canonical name relies on: Python's
    whitespace and word-character classes, `str.isidentifier`, `str.strip`,
    `str.split(sep)` and `sep.join(parts)`.  Character classes are modelled on
    the ASCII and Latin-1 range. */
module Text {

  /** `str.isspace` / regex `\s` for one character. */
  predicate IsSpace(c: char)
  {
    var n := c as int;
    (9 <= n <= 13) || (28 <= n <= 32) || n == 0x85 || n == 0xA0
  }

  /** Regex `\w` for one character: a letter, a digit or the underscore. */
  predicate IsWordChar(c: char)
  {
    ('a' <= c <= 'z') || ('A' <= c <= 'Z') || ('0' <= c <= '9') || c == '_'
  }

  predicate IsDigit(c: char) { '0' <= c <= '9' }

  /** `str.isidentifier`: non-empty, word characters only, not starting with a digit. */
  predicate IsIdentifier(s: string)
  {
    |s| > 0 && !IsDigit(s[0]) && forall i :: 0 <= i < |s| ==> IsWordChar(s[i])
  }

  /** `str.lstrip()` */
  function TrimLeft(s: string): (r: string)
    ensures |r| <= |s| && r == s[|s| - |r|..]
    ensures |r| > 0 ==> !IsSpace(r[0])
    ensures forall i :: 0 <= i < |s| - |r| ==> IsSpace(s[i])
  {
    if |s| > 0 && IsSpace(s[0]) then TrimLeft(s[1..]) else s
  }

  /** `str.rstrip()` */
  function TrimRight(s: string): (r: string)
    ensures |r| <= |s| && r == s[..|r|]
    ensures |r| > 0 ==> !IsSpace(r[|r| - 1])
    ensures forall i :: |r| <= i < |s| ==> IsSpace(s[i])
  {
    if |s| > 0 && IsSpace(s[|s| - 1]) then TrimRight(s[..|s| - 1]) else s
  }

  /** `str.strip()` */
  function Strip(s: string): string
  {
    TrimRight(TrimLeft(s))
  }

  /** `s.split(sep)` for a one-character separator: the pieces between
      separators, always at least one. */
  function Split(s: string, sep: char): (parts: seq<string>)
    ensures |parts| >= 1
    ensures forall p :: 0 <= p < |parts| ==> sep !in parts[p]
  {
    if |s| == 0 then [""]
    else if s[0] == sep then [""] + Split(s[1..], sep)
    else
      var rest := Split(s[1..], sep);
      [[s[0]] + rest[0]] + rest[1..]
  }

  /** `sep.join(parts)` */
  function Join(sep: string, parts: seq<string>): string
  {
    if |parts| == 0 then ""
    else if |parts| == 1 then parts[0]
    else parts[0] + sep + Join(sep, parts[1..])
  }

  /** Joining the pieces of a split with the separator gives back the string. */
  lemma {:induction false} JoinSplit(s: string, sep: char)
    ensures Join([sep], Split(s, sep)) == s
  {
    if |s| == 0 {
    } else if s[0] == sep {
      JoinSplit(s[1..], sep);
      var rest := Split(s[1..], sep);
      assert Split(s, sep) == [""] + rest;
      assert s == [sep] + s[1..];
    } else {
      JoinSplit(s[1..], sep);
      var rest := Split(s[1..], sep);
      var parts := Split(s, sep);
      assert parts[1..] == rest[1..];
      if |rest| == 1 {
        assert parts == [[s[0]] + rest[0]];
      } else {
        assert Join([sep], parts) == [s[0]] + rest[0] + [sep] + Join([sep], rest[1..]);
      }
    }
  }

  /** A piece without the separator splits into itself. */
  lemma {:induction false} SplitNoSep(w: string, sep: char)
    requires sep !in w
    ensures Split(w, sep) == [w]
  {
    if |w| > 0 {
      assert sep !in w[1..];
      SplitNoSep(w[1..], sep);
      assert [w[0]] + w[1..] == w;
    }
  }

  /** Splitting at the first separator: the piece before it, then the rest split. */
  lemma {:induction false} SplitAtSep(w: string, sep: char, rest: string)
    requires sep !in w
    ensures Split(w + [sep] + rest, sep) == [w] + Split(rest, sep)
  {
    if |w| == 0 {
      assert w + [sep] + rest == [sep] + rest;
    } else {
      assert sep !in w[1..];
      SplitAtSep(w[1..], sep, rest);
      assert (w + [sep] + rest)[1..] == w[1..] + [sep] + rest;
      assert [w[0]] + w[1..] == w;
    }
  }

  /** Stripping removes surrounding whitespace and nothing else from a word
      that neither starts nor ends with whitespace. */
  lemma {:induction false} StripPadded(pad: string, w: string)
    requires forall i :: 0 <= i < |pad| ==> IsSpace(pad[i])
    requires |w| > 0 && !IsSpace(w[0]) && !IsSpace(w[|w| - 1])
    ensures Strip(pad + w) == w
  {
    StripLeftPadded(pad, w);
    assert TrimRight(w) == w;
  }

  lemma {:induction false} StripLeftPadded(pad: string, w: string)
    requires forall i :: 0 <= i < |pad| ==> IsSpace(pad[i])
    requires |w| > 0 && !IsSpace(w[0])
    ensures TrimLeft(pad + w) == w
  {
    if |pad| > 0 {
      assert (pad + w)[1..] == pad[1..] + w;
      StripLeftPadded(pad[1..], w);
    }
  }

  /** A slice holding `a + b` holds `a`, then `b`. */
  lemma SliceSplit(s: string, i: nat, a: string, b: string)
    requires i + |a| + |b| <= |s| && s[i..i + |a| + |b|] == a + b
    ensures s[i..i + |a|] == a
    ensures s[i + |a|..i + |a| + |b|] == b
  {
    assert s[i..i + |a|] == s[i..i + |a| + |b|][..|a|];
    assert s[i + |a|..i + |a| + |b|] == s[i..i + |a| + |b|][|a|..];
  }

  /** Every character is whitespace (`\s*` matches the whole string). */
  predicate AllSpace(s: string)
  {
    forall i :: 0 <= i < |s| ==> IsSpace(s[i])
  }

  /** `rstrip` removes whitespace padding on the right and nothing else. */
  lemma {:induction false} StripRightPadded(w: string, pad: string)
    requires AllSpace(pad)
    requires |w| > 0 && !IsSpace(w[|w| - 1])
    ensures TrimRight(w + pad) == w
  {
    if |pad| > 0 {
      var pad' := pad[..|pad| - 1];
      assert (w + pad)[..|w + pad| - 1] == w + pad';
      StripRightPadded(w, pad');
    } else {
      assert w + pad == w;
    }
  }

  /** `strip` of a word with whitespace on both sides gives the word. */
  lemma StripSurrounded(before: string, w: string, after: string)
    requires AllSpace(before) && AllSpace(after)
    requires |w| > 0 && !IsSpace(w[0]) && !IsSpace(w[|w| - 1])
    ensures Strip(before + w + after) == w
  {
    assert before + w + after == before + (w + after);
    StripLeftPadded(before, w + after);
    StripRightPadded(w, after);
  }

  /** Adjacent slices join. */
  /** `s` cut after a prefix of length `n`, then at `e` and around the
      character at `j`, both counted from the end of that prefix. */
  lemma SplitAround(s: string, n: nat, e: nat, j: nat)
    requires n + e <= n + j < |s|
    ensures s == s[..n] + s[n..][..e] + s[n..][e..j] + [s[n + j]] + s[n..][j + 1..]
  {
    var r := s[n..];
    assert r[..e] + r[e..j] + [r[j]] + r[j + 1..] == r;
    assert s == s[..n] + r;
  }

  lemma SliceJoin(s: string, a: nat, b: nat, c: nat)
    requires a <= b <= c <= |s|
    ensures s[a..c] == s[a..b] + s[b..c]
  {
  }
}
