/** The two Python string operations the payload parser is built from,
    `str.strip()` with no argument and `str.split(sep)` with a one-character
    separator, and `sep.join(parts)`, which the parser does not call but which
    states what `split` keeps: it is split's inverse. */
module PyStrings {

  /** The 29 characters for which Python's `str.isspace()` holds, written out
      one by one. */
  const PythonWhitespace: set<char> := {
    '\t', '\n', '\U{0B}', '\U{0C}', '\r', '\U{1C}', '\U{1D}', '\U{1E}', '\U{1F}', ' ',
    '\U{85}', '\U{A0}', '\U{1680}',
    '\U{2000}', '\U{2001}', '\U{2002}', '\U{2003}', '\U{2004}', '\U{2005}',
    '\U{2006}', '\U{2007}', '\U{2008}', '\U{2009}', '\U{200A}',
    '\U{2028}', '\U{2029}', '\U{202F}', '\U{205F}', '\U{3000}'
  }

  /** Python's `str.isspace()` for one character: the characters that
      `str.strip()` removes when it is called without an argument. */
  predicate IsSpace(c: char)
    ensures IsSpace(c) <==> c in PythonWhitespace
  {
    ('\t' <= c <= '\r')
    || ('\U{1C}' <= c <= '\U{1F}')
    || c == ' ' || c == '\U{85}' || c == '\U{A0}' || c == '\U{1680}'
    || ('\U{2000}' <= c <= '\U{200A}')
    || c == '\U{2028}' || c == '\U{2029}' || c == '\U{202F}' || c == '\U{205F}'
    || c == '\U{3000}'
  }

  predicate AllSpace(s: string) {
    forall i :: 0 <= i < |s| ==> IsSpace(s[i])
  }

  /** Python's `str.lstrip()`: the result does not start with whitespace
      (TrimLeftIsSuffix says it drops nothing else). */
  function TrimLeft(s: string): (r: string)
    ensures |r| <= |s|
    ensures r == [] || !IsSpace(r[0])
  {
    if |s| > 0 && IsSpace(s[0]) then TrimLeft(s[1..]) else s
  }

  /** Python's `str.rstrip()`: the result does not end with whitespace
      (TrimRightIsPrefix says it drops nothing else). */
  function TrimRight(s: string): (r: string)
    ensures |r| <= |s|
    ensures r == [] || !IsSpace(r[|r| - 1])
  {
    if |s| > 0 && IsSpace(s[|s| - 1]) then TrimRight(s[..|s| - 1]) else s
  }

  /** `lstrip()` keeps a suffix of `s` and drops only whitespace before it. */
  lemma {:induction false} TrimLeftIsSuffix(s: string)
    ensures TrimLeft(s) == s[|s| - |TrimLeft(s)|..]
    ensures AllSpace(s[..|s| - |TrimLeft(s)|])
  {
    if |s| > 0 && IsSpace(s[0]) {
      TrimLeftIsSuffix(s[1..]);
      var n := |s| - |TrimLeft(s)|;
      assert s[1..][n - 1..] == s[n..];
      assert forall i :: 1 <= i < n ==> s[i] == s[1..][..n - 1][i - 1];
    }
  }

  /** `rstrip()` keeps a prefix of `s` and drops only whitespace after it. */
  lemma {:induction false} TrimRightIsPrefix(s: string)
    ensures TrimRight(s) == s[..|TrimRight(s)|]
    ensures AllSpace(s[|TrimRight(s)|..])
  {
    if |s| > 0 && IsSpace(s[|s| - 1]) {
      var s' := s[..|s| - 1];
      TrimRightIsPrefix(s');
      var n := |TrimRight(s)|;
      assert s'[..n] == s[..n];
      assert forall i :: n <= i < |s| - 1 ==> s[i] == s'[n..][i - n];
    }
  }

  /** Python's `str.strip()`: the result neither starts nor ends with whitespace
      (StripIsSlice says what it keeps of `s`). */
  function Strip(s: string): (r: string)
    ensures r == [] || (!IsSpace(r[0]) && !IsSpace(r[|r| - 1]))
  {
    TrimRightIsPrefix(TrimLeft(s));
    TrimRight(TrimLeft(s))
  }

  /** `strip()` keeps a slice of `s` and removes only all-whitespace margins. */
  lemma StripIsSlice(s: string)
    ensures exists i :: 0 <= i <= |s| - |Strip(s)| && Strip(s) == s[i..i + |Strip(s)|]
                        && AllSpace(s[..i]) && AllSpace(s[i + |Strip(s)|..])
  {
    var left := TrimLeft(s);
    var r := TrimRight(left);
    var i := |s| - |left|;
    TrimLeftIsSuffix(s);
    TrimRightIsPrefix(left);
    assert r == s[i..i + |r|];
    assert s[i + |r|..] == left[|r|..];
  }

  /** Number of occurrences of `c` in `s` (Python's `s.count(c)`). */
  function Count(s: string, c: char): (n: nat) {
    if |s| == 0 then 0 else (if s[0] == c then 1 else 0) + Count(s[1..], c)
  }

  /** Python's `s.split(sep)` for a one-character separator: always one more
      piece than there are separators, and no piece contains the separator.
      Pieces may be empty and are not trimmed. */
  function Split(s: string, sep: char): (r: seq<string>)
    ensures |r| == Count(s, sep) + 1
    ensures forall k :: 0 <= k < |r| ==> sep !in r[k]
  {
    if |s| == 0 then [""]
    else
      var rest := Split(s[1..], sep);
      if s[0] == sep then [""] + rest
      else [[s[0]] + rest[0]] + rest[1..]
  }

  /** Python's `sep.join(parts)`. */
  function Join(parts: seq<string>, sep: char): (joined: string) {
    if |parts| == 0 then ""
    else if |parts| == 1 then parts[0]
    else parts[0] + [sep] + Join(parts[1..], sep)
  }

  // ---------------------------------------------------------------- strip

  lemma TrimLeftEmptyIffAllSpace(s: string)
    ensures TrimLeft(s) == "" <==> AllSpace(s)
  {
    var left := TrimLeft(s);
    TrimLeftIsSuffix(s);
    if left == "" {
      assert s[..|s|] == s;
    } else {
      assert !IsSpace(s[|s| - |left|]);
    }
  }

  /** A string is stripped to nothing exactly when it is all whitespace:
      this is the test `if line.strip()` applies to each segment. */
  lemma StripEmptyIffAllSpace(s: string)
    ensures Strip(s) == "" <==> AllSpace(s)
  {
    TrimLeftEmptyIffAllSpace(s);
    TrimRightEmptyIffAllSpace(TrimLeft(s));
  }

  lemma TrimRightEmptyIffAllSpace(s: string)
    ensures TrimRight(s) == "" <==> AllSpace(s)
  {
    var right := TrimRight(s);
    TrimRightIsPrefix(s);
    if right == "" {
      assert s[0..] == s;
    } else {
      assert !IsSpace(s[|right| - 1]);
    }
  }

  lemma {:induction false} TrimLeftAppend(s: string, t: string)
    ensures TrimLeft(s + t) == if AllSpace(s) then TrimLeft(t) else TrimLeft(s) + t
  {
    if |s| > 0 {
      assert (s + t)[1..] == s[1..] + t;
      if IsSpace(s[0]) {
        TrimLeftAppend(s[1..], t);
        assert AllSpace(s) <==> AllSpace(s[1..]);
      }
    } else {
      assert s + t == t;
    }
  }

  lemma {:induction false} TrimRightAppendSpace(s: string, w: string)
    requires AllSpace(w)
    ensures TrimRight(s + w) == TrimRight(s)
  {
    if |w| > 0 {
      var w' := w[..|w| - 1];
      assert (s + w)[..|s + w| - 1] == s + w';
      TrimRightAppendSpace(s, w');
    } else {
      assert s + w == s;
    }
  }

  lemma {:induction false} TrimLeftAppendSpace(s: string, w: string)
    requires AllSpace(w)
    ensures TrimLeft(w + s) == TrimLeft(s)
  {
    TrimLeftAppend(w, s);
  }

  /** Surrounding whitespace makes no difference to `strip()`. */
  lemma StripIgnoresPadding(before: string, s: string, after: string)
    requires AllSpace(before) && AllSpace(after)
    ensures Strip(before + s + after) == Strip(s)
  {
    assert before + s + after == before + (s + after);
    TrimLeftAppendSpace(s + after, before);
    TrimLeftAppend(s, after);
    if AllSpace(s) {
      TrimLeftEmptyIffAllSpace(s);
      TrimLeftEmptyIffAllSpace(after);
      TrimRightAppendSpace("", after);
      assert "" + after == after;
    } else {
      TrimRightAppendSpace(TrimLeft(s), after);
    }
  }

  /** Stripping twice is stripping once. */
  lemma StripIdempotent(s: string)
    ensures Strip(Strip(s)) == Strip(s)
  {
  }

  // ---------------------------------------------------------------- split and join

  lemma {:induction false} JoinHeadPrefix(x: string, h: string, t: seq<string>, sep: char)
    ensures Join([x + h] + t, sep) == x + Join([h] + t, sep)
  {
    if |t| > 0 {
      assert ([x + h] + t)[1..] == t;
      assert ([h] + t)[1..] == t;
    }
  }

  /** Joining the pieces of a split gives back the string: splitting loses no character. */
  lemma {:induction false} JoinSplit(s: string, sep: char)
    ensures Join(Split(s, sep), sep) == s
  {
    if |s| > 0 {
      var rest := Split(s[1..], sep);
      JoinSplit(s[1..], sep);
      if s[0] == sep {
        assert ([""] + rest)[1..] == rest;
        assert s == [sep] + s[1..];
      } else {
        assert rest == [rest[0]] + rest[1..];
        JoinHeadPrefix([s[0]], rest[0], rest[1..], sep);
        assert s == [s[0]] + s[1..];
      }
    }
  }

  lemma {:induction false} SplitAfterPlain(a: string, b: string, sep: char)
    requires sep !in a
    ensures Split(a + b, sep) == [a + Split(b, sep)[0]] + Split(b, sep)[1..]
  {
    if |a| > 0 {
      assert (a + b)[1..] == a[1..] + b;
      SplitAfterPlain(a[1..], b, sep);
      var rest := Split(a[1..] + b, sep);
      assert (a + b)[0] == a[0] != sep;
      assert Split(a + b, sep) == [[a[0]] + rest[0]] + rest[1..];
      var sb := Split(b, sep);
      assert rest == [a[1..] + sb[0]] + sb[1..];
      assert rest[0] == a[1..] + sb[0];
      assert rest[1..] == sb[1..];
      assert [a[0]] + rest[0] == a + sb[0];
      assert [[a[0]] + rest[0]] == [a + sb[0]];
    } else {
      assert a == [];
      assert a + b == b;
      assert a + Split(b, sep)[0] == Split(b, sep)[0];
      assert Split(b, sep) == [Split(b, sep)[0]] + Split(b, sep)[1..];
    }
  }

  /** Splitting a join gives back the parts, when no part contains the separator. */
  lemma {:induction false} SplitJoin(parts: seq<string>, sep: char)
    requires |parts| >= 1
    requires forall k :: 0 <= k < |parts| ==> sep !in parts[k]
    ensures Split(Join(parts, sep), sep) == parts
  {
    if |parts| == 1 {
      SplitAfterPlain(parts[0], "", sep);
      assert Split("", sep) == [""];
      assert parts[0] + "" == parts[0];
      assert Split(parts[0], sep) == [parts[0]];
      assert parts == [parts[0]];
    } else {
      var tail := Join(parts[1..], sep);
      SplitJoin(parts[1..], sep);
      SplitAfterPlain(parts[0], [sep] + tail, sep);
      assert ([sep] + tail)[1..] == tail;
      var st := Split([sep] + tail, sep);
      assert st == [""] + Split(tail, sep);
      assert st[1..] == parts[1..];
      assert parts[0] + st[0] == parts[0];
      assert parts[0] + [sep] + tail == parts[0] + ([sep] + tail);
      assert parts == [parts[0]] + parts[1..];
    }
  }

  /** A trailing separator adds exactly one empty piece. */
  lemma {:induction false} SplitTrailingSeparator(s: string, sep: char)
    ensures Split(s + [sep], sep) == Split(s, sep) + [""]
  {
    if |s| > 0 {
      assert (s + [sep])[1..] == s[1..] + [sep];
      SplitTrailingSeparator(s[1..], sep);
    } else {
      assert s + [sep] == [sep];
    }
  }

  /** Every character of a join is the separator or a character of one of the parts. */
  lemma {:induction false} JoinChars(parts: seq<string>, sep: char, i: nat)
    requires i < |Join(parts, sep)|
    ensures Join(parts, sep)[i] == sep
            || exists k, j :: 0 <= k < |parts| && 0 <= j < |parts[k]| && Join(parts, sep)[i] == parts[k][j]
  {
    if |parts| > 1 {
      var tail := Join(parts[1..], sep);
      if i > |parts[0]| {
        JoinChars(parts[1..], sep, i - |parts[0]| - 1);
        if tail[i - |parts[0]| - 1] != sep {
          var k, j :| 0 <= k < |parts[1..]| && 0 <= j < |parts[1..][k]| && tail[i - |parts[0]| - 1] == parts[1..][k][j];
          assert parts[k + 1][j] == Join(parts, sep)[i];
        }
      } else if i < |parts[0]| {
        assert parts[0][i] == Join(parts, sep)[i];
      }
    } else {
      assert parts[0][i] == Join(parts, sep)[i];
    }
  }
}
