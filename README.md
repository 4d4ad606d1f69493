# BRO CPT sounding script: payload decoding and reference depths

This project models the logic of `get_bro-cpt_by_broid.py`, a script that fetches one
cone penetration test (CPT) sounding from the BRO registry, decodes the numeric
payload embedded in its XML, and plots cone resistance and friction ratio against
depth relative to the NAP datum. Two pieces of the script are modelled and proved:

1. **The payload row splitter** (lines 42-50). The text of `<cptcommon:values>` is
   stripped, split on `;`, blank segments are dropped, and each remaining segment is
   split on `,`. The tokens are then converted to numbers, and one bad token fails
   the whole table.
2. **The reference frame** (lines 34-39, 56, 64). The surface level
   `surface_level_z` is read from `<cptcommon:offset>` only when that element has a
   non-empty text. Every sample is drawn at `surface_level_z - depth`, where depth is
   column 0. The dashed ground line is drawn at `surface_level_z`.

The modules follow this split:

- `Optional` holds `Option` and `Result`.
- `PyStrings` holds the two Python string operations the splitter uses:
  `strip` (over the `str.isspace` characters) and `split` with one separator.
  It also holds `join`, which the script never calls. `join` is there to state
  what `split` keeps, because it is `split`'s inverse.
- `Payload` holds the splitter, the element-text guard and the token-to-number table.
- `ReferenceFrame` holds the offset reading and the reference-depth series.
- `CptScript` runs the whole script as one function. Its inputs are the HTTP
  status, the two element texts (`None` when the element is absent or has no text)
  and the two number parsers. Its output is the printed messages plus either the
  figure or the exception that stops the script.

The plotting code sits outside the `if` of line 21, so it still runs after a
failed fetch or a missing element, and neither of those ever gives a figure. A
`ValueError` at line 36 or line 47 ends the script before the plotting code runs. Once it reaches the plotting code, the
script stops at the first lookup that fails, in the order line 56 reads them:

1. `df` itself: a `NameError` when no table was built.
2. `df[3]`: a `KeyError` when no row has four values. A whitespace-only values
   text gives an empty table, so it stops here.
3. `surface_level_z`: a `NameError` when no offset was assigned.

Line 68 then reads `df[24]`, which raises a `KeyError` when no row has 25 values.

Three behaviours of the script are worth stating plainly:

- A missing or empty offset text leaves `surface_level_z` unassigned. There is no
  0.0 default.
- A values text made only of whitespace passes the `values_elem.text` test and
  gives a table with no rows.
- No row length is checked. Rows may have different lengths. The only column
  checks are the pandas lookups `df[3]` and `df[24]`.

Number parsing (`float()` at line 36, `pd.to_numeric` at line 47) is an abstract
partial function `string -> Option<real>`, passed in as a parameter. Numbers are
exact `real`s.

## Model

| member | source | states |
|---|---|---|
| `PyStrings.IsSpace` | get_bro-cpt_by_broid.py:44-45 | the characters `strip()` removes are exactly the 29 characters for which Python's `str.isspace()` holds, listed one by one |
| `PyStrings.TrimLeft` | get_bro-cpt_by_broid.py:44 | the left half of `strip()`: the result is no longer than the input and does not start with whitespace |
| `PyStrings.TrimRight` | get_bro-cpt_by_broid.py:44 | the right half of `strip()`: the result is no longer than the input and does not end with whitespace |
| `PyStrings.TrimLeftIsSuffix` | get_bro-cpt_by_broid.py:44 | the left trim keeps a suffix of the input, and everything it drops is whitespace |
| `PyStrings.TrimRightIsPrefix` | get_bro-cpt_by_broid.py:44 | the right trim keeps a prefix of the input, and everything it drops is whitespace |
| `PyStrings.Strip` | get_bro-cpt_by_broid.py:44 | `str.strip()`: the result neither starts nor ends with a whitespace character |
| `PyStrings.StripIsSlice` | get_bro-cpt_by_broid.py:44 | `strip()` returns a contiguous slice of its input, and both margins it removes are all whitespace |
| `PyStrings.StripEmptyIffAllSpace` | get_bro-cpt_by_broid.py:45 | a segment strips to the empty string exactly when every character of it is whitespace, in both directions |
| `PyStrings.StripIgnoresPadding` | get_bro-cpt_by_broid.py:44 | adding whitespace before and after a string does not change its `strip()` |
| `PyStrings.StripIdempotent` | get_bro-cpt_by_broid.py:44 | stripping twice gives the same result as stripping once |
| `PyStrings.Split` | get_bro-cpt_by_broid.py:44-45 | `str.split(sep)`: there is one more piece than there are separators, and no piece contains the separator |
| `PyStrings.JoinSplit` | get_bro-cpt_by_broid.py:44-45 | joining the pieces of a split with the same separator gives back the original string, so no character is lost |
| `PyStrings.SplitJoin` | get_bro-cpt_by_broid.py:44-45 | splitting a join of one or more parts that do not contain the separator gives back the parts |
| `PyStrings.SplitTrailingSeparator` | get_bro-cpt_by_broid.py:44 | a trailing separator adds exactly one empty piece at the end |
| `Payload.Segments` | get_bro-cpt_by_broid.py:44 | the stripped payload splits into one more segment than it has `;` characters |
| `Payload.IsBlank` | get_bro-cpt_by_broid.py:45 | the test `line.strip()` is false exactly when the segment is all whitespace |
| `Payload.NonBlank` | get_bro-cpt_by_broid.py:45 | the `if line.strip()` filter never adds segments, and no segment it keeps is all whitespace |
| `Payload.SplitRows` | get_bro-cpt_by_broid.py:45 | one token row per kept segment; each row's token count is the segment's number of `,` plus one |
| `Payload.SplitPayload` | get_bro-cpt_by_broid.py:44-45 | the number of rows equals the number of non-blank segments, and every row has at least one token |
| `Payload.NonBlankAppend` | get_bro-cpt_by_broid.py:45 | the blank filter distributes over concatenation, so it keeps the segments in their original order |
| `Payload.NonBlankSingle` | get_bro-cpt_by_broid.py:45 | the blank filter drops a single segment exactly when `segment.strip()` is empty |
| `Payload.NonBlankMembers` | get_bro-cpt_by_broid.py:45 | a string survives the filter exactly when it is one of the segments and is not all whitespace |
| `Payload.DecodeValues` | get_bro-cpt_by_broid.py:42-50 | a token table exists exactly when the element text is present and non-empty, and it is then the split payload |
| `Payload.RowRejoins` | get_bro-cpt_by_broid.py:45 | each row, re-joined with `,`, equals exactly the kept segment it came from (nothing is trimmed); its token count is that segment's `,` count plus one |
| `Payload.SplitPayloadIgnoresPadding` | get_bro-cpt_by_broid.py:44 | surrounding whitespace does not change the rows, and neither does stripping the text before decoding it |
| `Payload.TrailingSemicolonAddsNoRow` | get_bro-cpt_by_broid.py:44-45 | on a text that does not end with whitespace, adding a trailing `;` does not change the rows |
| `Payload.WhitespacePayloadIsEmptyTable` | get_bro-cpt_by_broid.py:43-45 | a non-empty text made only of whitespace gives a table, and that table has no rows |
| `Payload.DecodeEncode` | get_bro-cpt_by_broid.py:44-45 | take rows of tokens with no separator and no whitespace, where no row encodes to an empty segment; joining them with `,` and `;` and then decoding gives the same rows back |
| `Payload.ParseRow` | get_bro-cpt_by_broid.py:47 | a row converts exactly when every token converts; the result keeps the row's length and holds each token's value |
| `Payload.ParseTable` | get_bro-cpt_by_broid.py:46-47 | the table converts exactly when every token of every row converts (one bad token fails the whole table); the rows keep their number and order, and each row is that row's conversion |
| `ReferenceFrame.ReadOffset` | get_bro-cpt_by_broid.py:34-39 | the offset is assigned exactly when the element text is present, non-empty and a number, and it is then that number; an absent or empty text assigns nothing (no 0.0 default); a text that is not a number gives a `ValueError` |
| `ReferenceFrame.DepthColumn` | get_bro-cpt_by_broid.py:56 | `df[0]`: one depth per row, equal to that row's first value |
| `ReferenceFrame.ReferenceDepths` | get_bro-cpt_by_broid.py:56 | the series has the same length as the depth column, and element i is `z - depth[i]` |
| `ReferenceFrame.GroundLineAtZeroDepth` | get_bro-cpt_by_broid.py:56-64 | the ground line height `z` equals the reference depth of every sample at depth 0 |
| `ReferenceFrame.ReferenceDepthsStrictlyDecreasing` | get_bro-cpt_by_broid.py:56 | a strictly larger depth gives a strictly smaller reference depth, and the converse also holds |
| `ReferenceFrame.ReferenceDepthsInvolution` | get_bro-cpt_by_broid.py:56 | applying the transform again with the same surface level gives back the depths |
| `ReferenceFrame.ReferenceDepthsExample` | get_bro-cpt_by_broid.py:56 | with surface level 10.0, depths 0.0 and 1.0 are drawn at 10.0 and 9.0 |
| `CptScript.Width` | get_bro-cpt_by_broid.py:46 | the number of columns pandas gives the table: no row is longer, and some row of a non-empty table is that long |
| `CptScript.HasColumn` | get_bro-cpt_by_broid.py:56-68 | `df[index]` exists, so no `KeyError` is raised, exactly when `index` is below the table's width |
| `CptScript.BuildTable` | get_bro-cpt_by_broid.py:42-50 | there is no table exactly when the element text is absent or empty. A table is built exactly when the text is present and non-empty and every token of every split row converts. A built table has one row per split row, each of the same length and none empty, and each entry is the converted token |
| `CptScript.Draw` | get_bro-cpt_by_broid.py:55-68 | the plot succeeds exactly when `df` and `surface_level_z` are both defined and column 24 exists; it then draws the ground line at `z` and the samples at the reference depths of column 0. Otherwise it fails with the first of: `NameError` on `df`, `KeyError` on column 3, `NameError` on `surface_level_z`, `KeyError` on column 24 |
| `CptScript.Run` | get_bro-cpt_by_broid.py:19-68 | a non-200 status prints the status and then stops with `NameError` on `df`. With status 200, an offset text that is not a number stops the script at line 36 with `ValueError`, before anything is printed and before the values element is read. Otherwise the offset message comes first when there is no offset text, then the values message when there is no values text. A token that is not a number stops the script at line 47 with `ValueError`. No values text stops it with `NameError` on `df`. A built table is then plotted exactly as `Draw` states, with `surface_level_z` defined exactly when the offset was assigned |
| `CptScript.RunFigure` | get_bro-cpt_by_broid.py:21-68 | a figure is produced exactly when the status is 200, the offset is read, every token converts and column 24 exists; the figure then has no messages, its ground line is at `z`, and its samples are at `z - depth` |
| `CptScript.MissingOffsetGivesNoFigure` | get_bro-cpt_by_broid.py:34-56 | with no offset text no run gives a figure, whatever the status. When the status is 200, the first message is the offset message, and if a table with column 3 is built the script stops with `NameError` on `surface_level_z` instead of using 0 |
| `CptScript.MissingValuesGivesNoFigure` | get_bro-cpt_by_broid.py:42-56 | take a status-200 run with no values text, whose offset text is a number or is absent or empty. Its last message is the values message, and the script stops with `NameError` on `df` |
| `CptScript.BothMissingPrintsBoth` | get_bro-cpt_by_broid.py:34-56 | in a status-200 run with neither text, the script prints the offset message and then the values message, and stops with `NameError` on `df` |
| `CptScript.WhitespaceValuesStopAtColumn3` | get_bro-cpt_by_broid.py:43-56 | in a status-200 run whose offset text is not a bad number, a values text made only of whitespace stops the script with `KeyError` on `df[3]` |

## Left out

- The HTTP request (line 19) is network I/O. Only its status code is an input.
- `ET.fromstring` and the namespaced `find` (lines 23-34, 42) are a foreign XML
  library. Each element is replaced by its text as an `Option<string>`; `None`
  covers both "element absent" and "element without text". The model assumes
  the document parses: the `ParseError` that `ET.fromstring` (line 23) raises on
  a malformed document under status 200 has no outcome in it.
- The number parsing of `float()` and `pd.to_numeric` is IEEE floating point
  inside foreign code. It is an abstract `string -> Option<real>` parameter.
- `pd.DataFrame` pads short rows with NaN. The model keeps rows ragged: a column
  exists when some row reaches it. The values of columns 3 and 24 (cone resistance
  and friction ratio) are not modelled; only whether those columns exist is.
- `print(df.head(100))` (line 48) is console output and is not among the messages.
- The matplotlib calls (lines 55-71) are plotting: figure size, labels, title, axis
  limits, grid, colours, `twiny` and `invert_xaxis`. Only the plotted vertical
  coordinates and the ground line height are kept.
- `os.path.expanduser` and `savefig` (lines 74-78) are filesystem output.
- Numbers are exact `real`s, not 64-bit floats. `ReferenceFrame.ReferenceDepthsStrictlyDecreasing`
  and `ReferenceFrame.ReferenceDepthsInvolution` hold only in exact arithmetic. For
  float64, line 56 can round: `1e17 - 0.0 == 1e17 - 1.0`, and `z - (z - d)` need not
  equal `d`. `float()` at line 36 also accepts `"nan"` and `"inf"`. At line 47,
  `pd.to_numeric` turns a `"nan"` token into NaN, and it may do the same for an
  empty token, as in `"1,,2"` or a trailing `,`. A `Parser` has no value for
  NaN or infinity. For such a token the model either fails with
  `TokenNotANumber` or gives some real number, depending on the parser passed in.
- `Payload.NonBlank`: its own contract states that it never adds segments and keeps no
  blank one. That it keeps exactly the non-blank segments, in their order, is
  stated by `Payload.NonBlankAppend`, `Payload.NonBlankSingle` and
  `Payload.NonBlankMembers`.
