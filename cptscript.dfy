/** The script get_bro-cpt_by_broid.py as one function from its inputs (the HTTP
    status, the texts of the two XML elements, and the two number parsers) to
    what it prints and what it draws, or the exception that stops it. */
module CptScript {
  import opened Optional
  import opened PyStrings
  import opened Payload
  import opened ReferenceFrame

  /** The messages the script prints (lines 39, 50 and 52). */
  datatype Message = NoOffsetElement | NoValuesElement | FetchFailed(status: int)

  /** The two module-level names the plotting code reads. */
  datatype Name = Df | SurfaceLevelZ

  /** The exceptions that end the script before the figure is saved. */
  datatype Failure =
    | OffsetNotANumber          // `float()` at line 36 raises ValueError
    | TokenNotANumber           // `pd.to_numeric` at line 47 raises ValueError
    | NameUndefined(name: Name) // a name never assigned is read: NameError
    | ColumnMissing(index: nat) // `df[index]` on a table without that column: KeyError

  /** The two things of the figure the model keeps: the vertical coordinates of
      the plotted samples and the height of the dashed ground line. */
  datatype Figure = Figure(referenceDepths: seq<real>, groundLine: real)

  datatype Outcome = Outcome(messages: seq<Message>, result: Result<Figure, Failure>)

  /** What lines 42-50 leave behind in `df`. */
  datatype TableStep = Built(table: seq<seq<real>>) | NoValues | NotNumeric

  /** The number of columns pandas gives a table built from these rows: the
      length of the longest row (shorter rows are padded). */
  function Width(table: seq<seq<real>>): (w: nat)
    ensures forall k :: 0 <= k < |table| ==> |table[k]| <= w
    ensures |table| > 0 ==> exists k :: 0 <= k < |table| && |table[k]| == w
    ensures |table| == 0 ==> w == 0
  {
    if |table| == 0 then 0
    else
      var rest := Width(table[1..]);
      assert forall k :: 1 <= k < |table| ==> table[k] == table[1..][k - 1];
      if |table[0]| >= rest then |table[0]| else rest
  }

  /** The table has a column `index`, so that `df[index]` does not raise `KeyError`:
      some row is longer than `index`. */
  predicate HasColumn(table: seq<seq<real>>, index: nat)
    ensures HasColumn(table, index) <==> index < Width(table)
  {
    exists k :: 0 <= k < |table| && index < |table[k]|
  }

  predicate RowsNonEmpty(table: seq<seq<real>>) {
    forall k :: 0 <= k < |table| ==> |table[k]| >= 1
  }

  /** Lines 42-50: split the values text and convert every token. */
  function BuildTable(valuesText: Option<string>, numericOf: Parser): (step: TableStep)
    ensures step.NoValues? <==> valuesText.None? || valuesText.value == ""
    ensures step.Built? <==>
              valuesText.Some? && valuesText.value != ""
              && forall k, j :: 0 <= k < |SplitPayload(valuesText.value)|
                                && 0 <= j < |SplitPayload(valuesText.value)[k]|
                                ==> numericOf(SplitPayload(valuesText.value)[k][j]).Some?
    ensures step.Built? ==> RowsNonEmpty(step.table)
                            && |step.table| == |SplitPayload(valuesText.value)|
    ensures step.Built? ==> forall k :: 0 <= k < |step.table| ==>
                              |step.table[k]| == |SplitPayload(valuesText.value)[k]|
    ensures step.Built? ==> forall k, j :: 0 <= k < |SplitPayload(valuesText.value)|
                                          && 0 <= j < |SplitPayload(valuesText.value)[k]|
                                          ==> step.table[k][j] == numericOf(SplitPayload(valuesText.value)[k][j]).value
  {
    match DecodeValues(valuesText)
    case None => NoValues
    case Some(rows) =>
      match ParseTable(rows, numericOf)
      case Some(table) =>
        assert forall k :: 0 <= k < |table| ==> table[k] == ParseRow(rows[k], numericOf).value;
        Built(table)
      case None => NotNumeric
  }

  /** Lines 55-68: the plotting code reads `df[3]`, then `surface_level_z`
      and `df[0]` (line 56), draws the ground line at `surface_level_z`
      (line 64) and then reads `df[24]` (line 68). */
  function Draw(offset: Option<real>, df: Option<seq<seq<real>>>): (r: Result<Figure, Failure>)
    requires df.Some? ==> RowsNonEmpty(df.value)
    ensures r.Ok? <==> df.Some? && offset.Some? && HasColumn(df.value, 24)
    ensures df.None? ==> r == Err(NameUndefined(Df))
    ensures df.Some? && !HasColumn(df.value, 3) ==> r == Err(ColumnMissing(3))
    ensures df.Some? && HasColumn(df.value, 3) && offset.None? ==> r == Err(NameUndefined(SurfaceLevelZ))
    ensures (df.Some? && offset.Some? && HasColumn(df.value, 3) && !HasColumn(df.value, 24))
            ==> r == Err(ColumnMissing(24))
    ensures r.Ok? ==> r.value.groundLine == offset.value
                      && r.value.referenceDepths == ReferenceDepths(offset.value, DepthColumn(df.value))
  {
    if df.None? then Err(NameUndefined(Df))
    else if !HasColumn(df.value, 3) then Err(ColumnMissing(3))
    else if offset.None? then Err(NameUndefined(SurfaceLevelZ))
    else
      var refs := ReferenceDepths(offset.value, DepthColumn(df.value));
      if !HasColumn(df.value, 24) then Err(ColumnMissing(24))
      else Ok(Figure(refs, offset.value))
  }

  /** The whole script. The parsing of lines 22-50 runs only when the status is
      200 (line 21). The plotting code sits outside that `if`, so it still runs
      after a failed fetch or a missing element; a `ValueError` at line 36 or 47
      ends the script before it. */
  function Run(status: int, offsetText: Option<string>, valuesText: Option<string>,
               floatOf: Parser, numericOf: Parser): (o: Outcome)
    ensures status != 200 ==> o == Outcome([FetchFailed(status)], Err(NameUndefined(Df)))
    ensures status == 200 && ReadOffset(offsetText, floatOf).NotANumber?
            ==> o == Outcome([], Err(OffsetNotANumber))
    ensures status == 200 && !ReadOffset(offsetText, floatOf).NotANumber?
            ==> o.messages == (if ReadOffset(offsetText, floatOf).NotAssigned? then [NoOffsetElement] else [])
                                  + (if BuildTable(valuesText, numericOf).NoValues? then [NoValuesElement] else [])
    ensures (status == 200 && !ReadOffset(offsetText, floatOf).NotANumber?
             && BuildTable(valuesText, numericOf).NotNumeric?)
            ==> o.result == Err(TokenNotANumber)
    ensures (status == 200 && !ReadOffset(offsetText, floatOf).NotANumber?
             && BuildTable(valuesText, numericOf).Built?)
            ==> o.result == Draw(if ReadOffset(offsetText, floatOf).Assigned?
                                 then Some(ReadOffset(offsetText, floatOf).z) else None,
                                 Some(BuildTable(valuesText, numericOf).table))
    ensures (status == 200 && !ReadOffset(offsetText, floatOf).NotANumber?
             && BuildTable(valuesText, numericOf).NoValues?)
            ==> o.result == Err(NameUndefined(Df))
  {
    if status != 200 then Outcome([FetchFailed(status)], Draw(None, None))
    else
      var reading := ReadOffset(offsetText, floatOf);
      if reading.NotANumber? then Outcome([], Err(OffsetNotANumber))
      else
        var offset := if reading.Assigned? then Some(reading.z) else None;
        var noted := if reading.NotAssigned? then [NoOffsetElement] else [];
        match BuildTable(valuesText, numericOf)
        case NoValues => Outcome(noted + [NoValuesElement], Draw(offset, None))
        case NotNumeric => Outcome(noted, Err(TokenNotANumber))
        case Built(table) => Outcome(noted, Draw(offset, Some(table)))
  }

  /** A figure is produced exactly when the fetch succeeded, the offset was read,
      every token of the values is a number and the table reaches column 24;
      it shows the reference depths `z - depth` of column 0 and the ground line at `z`. */
  lemma RunFigure(status: int, offsetText: Option<string>, valuesText: Option<string>,
                  floatOf: Parser, numericOf: Parser)
    ensures var o := Run(status, offsetText, valuesText, floatOf, numericOf);
            o.result.Ok? <==>
              status == 200
              && ReadOffset(offsetText, floatOf).Assigned?
              && BuildTable(valuesText, numericOf).Built?
              && HasColumn(BuildTable(valuesText, numericOf).table, 24)
    ensures var o := Run(status, offsetText, valuesText, floatOf, numericOf);
            o.result.Ok? ==>
              var z := ReadOffset(offsetText, floatOf).z;
              var table := BuildTable(valuesText, numericOf).table;
              o.messages == []
              && o.result.value.groundLine == z
              && o.result.value.referenceDepths == ReferenceDepths(z, DepthColumn(table))
  {
  }

  /** Without an offset text nothing is assigned to `surface_level_z`: no figure
      is ever produced, a message is printed, and as soon as the table has a
      column 3 the script stops on the undefined name rather than using 0. */
  lemma MissingOffsetGivesNoFigure(status: int, offsetText: Option<string>, valuesText: Option<string>,
                                   floatOf: Parser, numericOf: Parser)
    requires offsetText.None? || offsetText.value == ""
    ensures var o := Run(status, offsetText, valuesText, floatOf, numericOf);
            o.result.Err?
            && (status == 200 ==> |o.messages| >= 1 && o.messages[0] == NoOffsetElement)
    ensures var o := Run(status, offsetText, valuesText, floatOf, numericOf);
            var step := BuildTable(valuesText, numericOf);
            status == 200 && step.Built? && HasColumn(step.table, 3) ==>
              o == Outcome([NoOffsetElement], Err(NameUndefined(SurfaceLevelZ)))
  {
  }

  /** Without a values text no table exists: the message is the last thing
      printed and the plotting code stops on the undefined `df`. */
  lemma MissingValuesGivesNoFigure(offsetText: Option<string>, valuesText: Option<string>,
                                   floatOf: Parser, numericOf: Parser)
    requires valuesText.None? || valuesText.value == ""
    requires !ReadOffset(offsetText, floatOf).NotANumber?
    ensures var o := Run(200, offsetText, valuesText, floatOf, numericOf);
            |o.messages| >= 1 && o.messages[|o.messages| - 1] == NoValuesElement
            && o.result == Err(NameUndefined(Df))
  {
  }

  /** Lines 36-39 run before lines 42-50: with both texts missing, both messages
      are printed, the offset one first. */
  lemma BothMissingPrintsBoth(offsetText: Option<string>, valuesText: Option<string>,
                              floatOf: Parser, numericOf: Parser)
    requires offsetText.None? || offsetText.value == ""
    requires valuesText.None? || valuesText.value == ""
    ensures Run(200, offsetText, valuesText, floatOf, numericOf)
            == Outcome([NoOffsetElement, NoValuesElement], Err(NameUndefined(Df)))
  {
  }

  /** A values text made only of whitespace gives a table with no rows and so no
      column 3: once the offset text is not a bad number, the script stops on
      `df[3]` (line 56) whether or not `surface_level_z` was assigned. */
  lemma WhitespaceValuesStopAtColumn3(offsetText: Option<string>, text: string,
                                      floatOf: Parser, numericOf: Parser)
    requires text != "" && AllSpace(text)
    requires !ReadOffset(offsetText, floatOf).NotANumber?
    ensures Run(200, offsetText, Some(text), floatOf, numericOf).result == Err(ColumnMissing(3))
  {
    WhitespacePayloadIsEmptyTable(text);
  }
}
