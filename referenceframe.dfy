/** The vertical reference frame of the chart: the surface level read from
    `<cptcommon:offset>` (get_bro-cpt_by_broid.py, lines 34-39) and the
    reference depths `surface_level_z - df[0]` drawn against it (line 56). */
module ReferenceFrame {
  import opened Optional
  import opened Payload

  /** What lines 34-39 leave behind: `surface_level_z` bound to a number, not
      bound at all (the message branch), or a `ValueError` from `float()`. */
  datatype OffsetReading = Assigned(z: real) | NotAssigned | NotANumber

  /** Lines 34-39: the offset is converted only when the element exists and its
      text is non-empty; otherwise nothing is assigned (there is no 0.0 default). */
  function ReadOffset(text: Option<string>, floatOf: Parser): (r: OffsetReading)
    ensures r.NotAssigned? <==> text.None? || text.value == ""
    ensures r.Assigned? <==> text.Some? && text.value != "" && floatOf(text.value).Some?
    ensures r.Assigned? ==> r.z == floatOf(text.value).value
  {
    if text.Some? && text.value != "" then
      match floatOf(text.value)
      case Some(z) => Assigned(z)
      case None => NotANumber
    else NotAssigned
  }

  /** Column 0 of the table, `df[0]`: the depth below the surface of every sample.
      Every decoded row has at least one token, so column 0 has no gaps. */
  function DepthColumn(table: seq<seq<real>>): (depths: seq<real>)
    requires forall k :: 0 <= k < |table| ==> |table[k]| >= 1
    ensures |depths| == |table|
    ensures forall k :: 0 <= k < |table| ==> depths[k] == table[k][0]
  {
    if |table| == 0 then [] else [table[0][0]] + DepthColumn(table[1..])
  }

  /** `surface_level_z - df[0]` (line 56): the element-wise reference depth
      series, one entry per depth, each `z - depth`. */
  function ReferenceDepths(z: real, depths: seq<real>): (r: seq<real>)
    ensures |r| == |depths|
    ensures forall i :: 0 <= i < |r| ==> r[i] == z - depths[i]
  {
    if |depths| == 0 then [] else [z - depths[0]] + ReferenceDepths(z, depths[1..])
  }

  /** The ground line of line 64 is drawn at `z`, which is the reference depth of
      every sample taken at depth 0. */
  lemma GroundLineAtZeroDepth(z: real, depths: seq<real>, i: nat)
    requires i < |depths| && depths[i] == 0.0
    ensures ReferenceDepths(z, depths)[i] == z
  {
  }

  /** The transform is strictly decreasing, in both directions: a deeper sample
      is drawn strictly lower, and a sample drawn lower is deeper. */
  lemma ReferenceDepthsStrictlyDecreasing(z: real, depths: seq<real>, i: nat, j: nat)
    requires i < |depths| && j < |depths|
    ensures depths[i] < depths[j] <==> ReferenceDepths(z, depths)[i] > ReferenceDepths(z, depths)[j]
  {
  }

  /** The depths can be recovered from the reference depths: the transform is its
      own inverse for a fixed surface level. */
  lemma ReferenceDepthsInvolution(z: real, depths: seq<real>)
    ensures ReferenceDepths(z, ReferenceDepths(z, depths)) == depths
  {
  }

  /** Surface level 10.0 with samples at depths 0.0 and 1.0. */
  lemma ReferenceDepthsExample()
    ensures ReferenceDepths(10.0, [0.0, 1.0]) == [10.0, 9.0]
  {
  }
}
