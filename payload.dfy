/** Decoding the text of the `<cptcommon:values>` element into rows of tokens
    and then into rows of numbers (get_bro-cpt_by_broid.py, lines 42-50). */
module Payload {
  import opened Optional
  import opened PyStrings

  /** A segment that `line.strip()` reduces to the empty string: it yields no row. */
  predicate IsBlank(segment: string)
    ensures IsBlank(segment) <==> AllSpace(segment)
  {
    StripEmptyIffAllSpace(segment);
    Strip(segment) == ""
  }

  /** The `;`-separated segments of the stripped payload (line 44), blank ones included. */
  function Segments(text: string): (segs: seq<string>)
    ensures |segs| == Count(Strip(text), ';') + 1
  {
    Split(Strip(text), ';')
  }

  /** The segments that survive the `if line.strip()` filter of line 45, in their order. */
  function NonBlank(segs: seq<string>): (kept: seq<string>)
    ensures |kept| <= |segs|
    ensures forall k :: 0 <= k < |kept| ==> !AllSpace(kept[k])
  {
    if |segs| == 0 then []
    else (if IsBlank(segs[0]) then [] else [segs[0]]) + NonBlank(segs[1..])
  }

  /** Splits every kept segment on `,` (the `line.split(',')` of line 45). */
  function SplitRows(kept: seq<string>): (rows: seq<seq<string>>)
    ensures |rows| == |kept|
    ensures forall k :: 0 <= k < |rows| ==> |rows[k]| == Count(kept[k], ',') + 1
  {
    seq(|kept|, k requires 0 <= k < |kept| => Split(kept[k], ','))
  }

  /** `[line.split(',') for line in text.strip().split(';') if line.strip()]`:
      one row per non-blank segment, in order, each with at least one token. */
  function SplitPayload(text: string): (rows: seq<seq<string>>)
    ensures |rows| == |NonBlank(Segments(text))|
    ensures forall k :: 0 <= k < |rows| ==> |rows[k]| >= 1
  {
    SplitRows(NonBlank(Segments(text)))
  }

  /** Lines 43 and 49: the payload is split only when the element exists and
      its text is non-empty; otherwise there is no table (and a message is printed).
      A whitespace-only text passes this test and gives an empty table. */
  function DecodeValues(text: Option<string>): (table: Option<seq<seq<string>>>)
    ensures table.Some? <==> text.Some? && text.value != ""
    ensures table.Some? ==> table.value == SplitPayload(text.value)
  {
    if text.Some? && text.value != "" then Some(SplitPayload(text.value)) else None
  }

  // ---------------------------------------------------------------- the filter

  /** The filter distributes over concatenation: together with NonBlankSingle
      this says it keeps exactly the non-blank segments, in their order. */
  lemma {:induction false} NonBlankAppend(a: seq<string>, b: seq<string>)
    ensures NonBlank(a + b) == NonBlank(a) + NonBlank(b)
  {
    if |a| == 0 {
      assert a + b == b;
    } else {
      var ab := a + b;
      assert ab[0] == a[0];
      assert ab[1..] == a[1..] + b;
      NonBlankAppend(a[1..], b);
      var h := if IsBlank(a[0]) then [] else [a[0]];
      assert NonBlank(ab) == h + NonBlank(ab[1..]);
      assert NonBlank(a) == h + NonBlank(a[1..]);
    }
  }

  lemma NonBlankSingle(segment: string)
    ensures NonBlank([segment]) == if IsBlank(segment) then [] else [segment]
  {
    assert [segment][1..] == [];
  }

  /** A segment survives the filter exactly when it is a segment and is not blank;
      a blank segment is one made only of whitespace. */
  lemma {:induction false} NonBlankMembers(segs: seq<string>, s: string)
    ensures s in NonBlank(segs) <==> s in segs && !AllSpace(s)
  {
    StripEmptyIffAllSpace(s);
    if |segs| > 0 {
      NonBlankMembers(segs[1..], s);
      assert segs == [segs[0]] + segs[1..];
    }
  }

  // ---------------------------------------------------------------- rows

  /** Each row, re-joined with `,`, is exactly the segment it came from: the
      segment is not trimmed and splitting loses no character. */
  lemma RowRejoins(text: string, k: nat)
    requires k < |SplitPayload(text)|
    ensures Join(SplitPayload(text)[k], ',') == NonBlank(Segments(text))[k]
    ensures |SplitPayload(text)[k]| == Count(NonBlank(Segments(text))[k], ',') + 1
  {
    JoinSplit(NonBlank(Segments(text))[k], ',');
  }

  /** Whitespace around the whole payload changes nothing: the text is stripped
      once before it is split. */
  lemma SplitPayloadIgnoresPadding(before: string, text: string, after: string)
    requires AllSpace(before) && AllSpace(after)
    ensures SplitPayload(before + text + after) == SplitPayload(text)
    ensures SplitPayload(Strip(text)) == SplitPayload(text)
  {
    StripIgnoresPadding(before, text, after);
    StripIdempotent(text);
  }

  /** A trailing `;` adds a blank segment and therefore no row, as long as the
      text does not end with whitespace (which the `;` would shield from `strip()`). */
  lemma TrailingSemicolonAddsNoRow(text: string)
    requires TrimRight(text) == text
    ensures SplitPayload(text + ";") == SplitPayload(text)
  {
    var left := TrimLeft(text);
    TrimLeftAppend(text, ";");
    TrimLeftIsSuffix(text);
    TrimLeftEmptyIffAllSpace(text);
    assert TrimLeft(";") == ";";
    assert TrimLeft(text + ";") == left + ";";
    assert TrimRight(left + ";") == left + ";";
    assert TrimRight(left) == left by {
      if left != "" {
        assert left[|left| - 1] == text[|text| - 1];
      }
    }
    assert Segments(text + ";") == Split(left + [';'], ';');
    SplitTrailingSeparator(left, ';');
    NonBlankAppend(Split(left, ';'), [""]);
    NonBlankSingle("");
    assert NonBlank(Segments(text)) + [] == NonBlank(Segments(text));
  }

  /** A values text made only of whitespace passes the `values_elem.text` test
      of line 43 and yields a table with no rows. */
  lemma WhitespacePayloadIsEmptyTable(text: string)
    requires text != "" && AllSpace(text)
    ensures DecodeValues(Some(text)) == Some([])
  {
    StripEmptyIffAllSpace(text);
    assert Segments(text) == [""];
    assert NonBlank([""]) == [];
  }

  // ---------------------------------------------------------------- round trip

  /** A token that can be written between separators without being changed by
      the decoder: it holds no separator and no whitespace. */
  predicate PlainToken(token: string) {
    NoSpace(token) && ',' !in token && ';' !in token
  }

  /** The payload layout the decoder reads: rows joined with `;`, tokens with `,`. */
  function EncodePayload(rows: seq<seq<string>>): (text: string) {
    Join(seq(|rows|, k requires 0 <= k < |rows| => Join(rows[k], ',')), ';')
  }

  /** No character of `s` is whitespace. */
  predicate NoSpace(s: string) {
    forall i :: 0 <= i < |s| ==> !IsSpace(s[i])
  }

  lemma JoinNoSpace(parts: seq<string>, sep: char)
    requires !IsSpace(sep)
    requires forall k :: 0 <= k < |parts| ==> NoSpace(parts[k])
    ensures NoSpace(Join(parts, sep))
  {
    forall i | 0 <= i < |Join(parts, sep)|
      ensures !IsSpace(Join(parts, sep)[i])
    {
      JoinChars(parts, sep, i);
    }
  }

  lemma JoinExcludes(parts: seq<string>, sep: char, c: char)
    requires sep != c
    requires forall k :: 0 <= k < |parts| ==> c !in parts[k]
    ensures c !in Join(parts, sep)
  {
    if c in Join(parts, sep) {
      var i :| 0 <= i < |Join(parts, sep)| && Join(parts, sep)[i] == c;
      JoinChars(parts, sep, i);
    }
  }

  lemma NoSpaceIsStripped(s: string)
    requires NoSpace(s)
    ensures Strip(s) == s
  {
  }

  /** Decoding an encoded table of plain tokens gives the table back, provided
      no row encodes to the empty segment (which the filter would drop). */
  lemma DecodeEncode(rows: seq<seq<string>>)
    requires forall k :: 0 <= k < |rows| ==> Join(rows[k], ',') != ""
    requires forall k, j :: 0 <= k < |rows| && 0 <= j < |rows[k]| ==> PlainToken(rows[k][j])
    ensures SplitPayload(EncodePayload(rows)) == rows
  {
    var segs := seq(|rows|, k requires 0 <= k < |rows| => Join(rows[k], ','));
    var text := EncodePayload(rows);
    forall k | 0 <= k < |rows|
      ensures NoSpace(segs[k]) && ';' !in segs[k] && Split(segs[k], ',') == rows[k]
    {
      assert forall j :: 0 <= j < |rows[k]| ==> NoSpace(rows[k][j]) && ';' !in rows[k][j] && ',' !in rows[k][j];
      JoinNoSpace(rows[k], ',');
      JoinExcludes(rows[k], ',', ';');
      assert |rows[k]| >= 1;
      SplitJoin(rows[k], ',');
    }
    JoinNoSpace(segs, ';');
    NoSpaceIsStripped(text);
    if |rows| == 0 {
      assert Segments(text) == [""];
      assert IsBlank("");
      assert NonBlank([""]) == [];
    } else {
      SplitJoin(segs, ';');
      assert Segments(text) == segs;
      assert NonBlank(segs) == segs by { NonBlankKeepsNonBlank(segs); }
    }
  }

  lemma {:induction false} NonBlankKeepsNonBlank(segs: seq<string>)
    requires forall k :: 0 <= k < |segs| ==> !IsBlank(segs[k])
    ensures NonBlank(segs) == segs
  {
    if |segs| > 0 {
      NonBlankKeepsNonBlank(segs[1..]);
      assert segs == [segs[0]] + segs[1..];
    }
  }

  // ---------------------------------------------------------------- numbers

  /** A partial token-to-number conversion: `float(text)` at line 36 and
      `pd.to_numeric` at line 47 are both of this shape; `None` is the
      `ValueError` they raise. */
  type Parser = string -> Option<real>

  function ParseRow(tokens: seq<string>, parse: Parser): (r: Option<seq<real>>)
    ensures r.Some? <==> forall j :: 0 <= j < |tokens| ==> parse(tokens[j]).Some?
    ensures r.Some? ==> |r.value| == |tokens|
                        && forall j :: 0 <= j < |tokens| ==> r.value[j] == parse(tokens[j]).value
  {
    if |tokens| == 0 then Some([])
    else
      var head := parse(tokens[0]);
      var tail := ParseRow(tokens[1..], parse);
      if head.Some? && tail.Some? then Some([head.value] + tail.value) else None
  }

  /** `df.apply(pd.to_numeric)` (line 47): every token is converted, and one
      token that is not a number fails the whole table; the shape is kept. */
  function ParseTable(rows: seq<seq<string>>, parse: Parser): (t: Option<seq<seq<real>>>)
    ensures t.Some? <==> forall k, j :: 0 <= k < |rows| && 0 <= j < |rows[k]| ==> parse(rows[k][j]).Some?
    ensures t.Some? ==> |t.value| == |rows|
    ensures t.Some? ==> forall k :: 0 <= k < |rows| ==> t.value[k] == ParseRow(rows[k], parse).value
  {
    if |rows| == 0 then Some([])
    else
      var head := ParseRow(rows[0], parse);
      var tail := ParseTable(rows[1..], parse);
      if head.Some? && tail.Some? then Some([head.value] + tail.value)
      else
        assert exists k, j :: 0 <= k < |rows| && 0 <= j < |rows[k]| && parse(rows[k][j]).None? by {
          if head.Some? {
            var k', j' :| 0 <= k' < |rows[1..]| && 0 <= j' < |rows[1..][k']| && parse(rows[1..][k'][j']).None?;
            assert rows[1..][k'] == rows[k' + 1];
          }
        }
        None
  }
}
