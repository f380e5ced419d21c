/** The remapping of the `Hat` label column (train_hat_male.py, lines 39-42):
    four `df.loc[df.Hat == from, 'Hat'] = to` statements run one after the
    other over a column of strings. */
module LabelRemap {
  import opened Decimal

  /** The raw label markers named in the comment above the remap. */
  const Markers: seq<string> := ["-1", "0", "1", "2"]

  /** One `df.loc[df.Hat == from, 'Hat'] = to`: every entry equal to `from`
      becomes `to`; all other entries keep their value. */
  function Assign(col: seq<string>, from: string, to: string): (r: seq<string>)
    ensures |r| == |col|
    ensures forall i :: 0 <= i < |col| && col[i] == from ==> r[i] == to
    ensures forall i :: 0 <= i < |col| && col[i] != from ==> r[i] == col[i]
  {
    seq(|col|, i requires 0 <= i < |col| => if col[i] == from then to else col[i])
  }

  /** The four assignments as written, in order. Each later one also matches
      the values written by the earlier ones, so every marker ends as "3". */
  function ChainedRemap(col: seq<string>): (r: seq<string>)
    ensures |r| == |col|
    ensures forall i :: 0 <= i < |col| ==> r[i] == if col[i] in Markers then "3" else col[i]
  {
    Assign(Assign(Assign(Assign(col, "-1", "0"), "0", "1"), "1", "2"), "2", "3")
  }

  /** The same statement on the mutable column: a vectorised write over all rows. */
  method AssignInPlace(hat: array<string>, from: string, to: string)
    modifies hat
    ensures hat[..] == Assign(old(hat[..]), from, to)
  {
    for i := 0 to hat.Length
      invariant forall k :: 0 <= k < i ==> hat[k] == (if old(hat[k]) == from then to else old(hat[k]))
      invariant forall k :: i <= k < hat.Length ==> hat[k] == old(hat[k])
    {
      if hat[i] == from {
        hat[i] := to;
      }
    }
  }

  /** Lines 39-42 run on the column in place. */
  method ChainedRemapInPlace(hat: array<string>)
    modifies hat
    ensures hat[..] == ChainedRemap(old(hat[..]))
  {
    AssignInPlace(hat, "-1", "0");
    AssignInPlace(hat, "0", "1");
    AssignInPlace(hat, "1", "2");
    AssignInPlace(hat, "2", "3");
  }

  /** What each of the four lines writes for its own marker, applied once:
      "-1" -> "0", "0" -> "1", "1" -> "2", "2" -> "3"; any other value is
      left unchanged, as the statements leave it. */
  function IntendedLabel(v: string): (r: string)
    ensures v !in Markers ==> r == v
    ensures v in Markers ==> r in ["0", "1", "2", "3"]
  {
    if v == "-1" then "0"
    else if v == "0" then "1"
    else if v == "1" then "2"
    else if v == "2" then "3"
    else v
  }

  /** The remap with each marker rewritten exactly once. */
  function IntendedRemap(col: seq<string>): (r: seq<string>)
    ensures |r| == |col|
    ensures forall i :: 0 <= i < |col| ==> r[i] == IntendedLabel(col[i])
  {
    seq(|col|, i requires 0 <= i < |col| => IntendedLabel(col[i]))
  }

  /** The corrected remap on the mutable column: one pass, one write per row. */
  method IntendedRemapInPlace(hat: array<string>)
    modifies hat
    ensures hat[..] == IntendedRemap(old(hat[..]))
  {
    for i := 0 to hat.Length
      invariant forall k :: 0 <= k < i ==> hat[k] == IntendedLabel(old(hat[k]))
      invariant forall k :: i <= k < hat.Length ==> hat[k] == old(hat[k])
    {
      hat[i] := IntendedLabel(hat[i]);
    }
  }

  /** As written, the four distinct markers all collapse into one class. */
  lemma ChainedRemapMergesMarkers()
    ensures ChainedRemap(Markers) == ["3", "3", "3", "3"]
    ensures IntendedRemap(Markers) == ["0", "1", "2", "3"]
  {
  }

  /** The intended remap keeps distinct markers distinct and adds one to the
      label in decimal: the string form of the `+ 1` shift at lines 84-86. */
  lemma IntendedLabelIsShift(l: int)
    requires -1 <= l <= 2
    ensures IntToDecimal(l) in Markers
    ensures IntendedLabel(IntToDecimal(l)) == IntToDecimal(l + 1)
  {
    assert IntToDecimal(-1) == "-1";
    assert IntToDecimal(0) == "0" && IntToDecimal(1) == "1" && IntToDecimal(2) == "2" && IntToDecimal(3) == "3";
  }

  /** The intended remap is one-to-one on the markers; the chained remap
      sends any two of them to the same value. */
  lemma MarkersStayDistinct(a: string, b: string)
    requires a in Markers && b in Markers
    ensures IntendedLabel(a) == IntendedLabel(b) <==> a == b
    ensures ChainedRemap([a, b]) == ["3", "3"]
  {
  }
}
