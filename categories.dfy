/** The label shift of train_hat_male.py (lines 83-86) and its use as
    category codes (lines 114-115, 119-120): `frame['Hat'].values + 1` is
    passed to `pd.Categorical.from_codes` with categories [0, 1, 2, 3]. */
module Categories {
  import opened Splitter

  datatype Option<T> = None | Some(value: T)

  /** `TargetNames = np.asarray([0, 1, 2, 3])`. */
  const TargetNames: seq<int> := [0, 1, 2, 3]

  /** `frame['Hat'].values`: the labels of the given rows, in order. */
  function RowLabels(labels: seq<int>, rows: seq<nat>): (values: seq<int>)
    requires forall i :: 0 <= i < |rows| ==> rows[i] < |labels|
    ensures |values| == |rows|
    ensures forall i :: 0 <= i < |rows| ==> values[i] == labels[rows[i]]
  {
    seq(|rows|, i requires 0 <= i < |rows| => labels[rows[i]])
  }

  /** `values + 1`: a label of one of the classes becomes a code in the
      range of TargetNames, and two labels get the same code exactly when
      they are the same label. */
  function Shift(values: seq<int>): (codes: seq<int>)
    ensures |codes| == |values|
    ensures forall i :: 0 <= i < |values| ==> codes[i] == values[i] + 1
    ensures forall i :: 0 <= i < |values| ==> (values[i] in Classes <==> 0 <= codes[i] < |TargetNames|)
    ensures forall i, j :: 0 <= i < |values| && 0 <= j < |values| ==> (codes[i] == codes[j] <==> values[i] == values[j])
  {
    seq(|values|, i requires 0 <= i < |values| => values[i] + 1)
  }

  /** What `pd.Categorical.from_codes(codes, categories)` returns: the
      category each code names, a missing value for code -1, and a
      ValueError when a code is below -1 or past the last category. */
  datatype Categorical = Values(values: seq<Option<int>>) | CodesOutOfRange

  function FromCodes(codes: seq<int>, categories: seq<int>): (r: Categorical)
    ensures r.Values? <==> forall i :: 0 <= i < |codes| ==> -1 <= codes[i] < |categories|
    ensures r.Values? ==> |r.values| == |codes|
    ensures r.Values? ==> forall i :: 0 <= i < |codes| ==> (r.values[i].None? <==> codes[i] == -1)
    ensures r.Values? ==> forall i :: 0 <= i < |codes| && codes[i] != -1 ==> r.values[i] == Some(categories[codes[i]])
  {
    if forall i :: 0 <= i < |codes| ==> -1 <= codes[i] < |categories| then
      Values(seq(|codes|, i requires 0 <= i < |codes| && -1 <= codes[i] < |categories| =>
        if codes[i] == -1 then None else Some(categories[codes[i]])))
    else CodesOutOfRange
  }

  /** Adding one maps the four class labels one-to-one onto the codes of
      TargetNames, and each code names itself as category. */
  lemma ShiftOntoTargetNames(l: int)
    ensures l in Classes <==> 0 <= l + 1 < |TargetNames|
    ensures l in Classes ==> TargetNames[l + 1] == l + 1
    ensures forall k :: 0 <= k < |TargetNames| ==> TargetNames[k] - 1 in Classes
  {
  }

  /** Shifted labels of rows of the four classes decode without error and
      without a missing value: row i gets category label + 1. */
  lemma ShiftedLabelsDecode(values: seq<int>)
    requires forall i :: 0 <= i < |values| ==> values[i] in Classes
    ensures FromCodes(Shift(values), TargetNames).Values?
    ensures forall i :: 0 <= i < |values| ==> FromCodes(Shift(values), TargetNames).values[i] == Some(values[i] + 1)
  {
  }

  /** Without the shift, a row labelled -1 would silently get no category. */
  lemma UnshiftedLabelIsMissing(values: seq<int>, i: nat)
    requires forall k :: 0 <= k < |values| ==> values[k] in Classes
    requires i < |values| && values[i] == -1
    ensures FromCodes(values, TargetNames).Values?
    ensures FromCodes(values, TargetNames).values[i] == None
  {
  }

  /** The rows of one fold part, all of the four classes, decode to label + 1. */
  lemma PartCategoriesDecode(labels: seq<int>, rows: seq<nat>)
    requires forall i :: 0 <= i < |rows| ==> rows[i] < |labels| && labels[rows[i]] in Classes
    ensures FromCodes(Shift(RowLabels(labels, rows)), TargetNames).Values?
    ensures forall i :: 0 <= i < |rows| ==>
              FromCodes(Shift(RowLabels(labels, rows)), TargetNames).values[i] == Some(labels[rows[i]] + 1)
  {
    ShiftedLabelsDecode(RowLabels(labels, rows));
  }

  lemma MembersLabelled(labels: seq<int>, rows: seq<nat>)
    requires forall r: nat :: r in rows ==> r < |labels| && labels[r] in Classes
    ensures forall i :: 0 <= i < |rows| ==> rows[i] < |labels| && labels[rows[i]] in Classes
  {
    forall i | 0 <= i < |rows|
      ensures rows[i] < |labels| && labels[rows[i]] in Classes
    {
      assert rows[i] in rows;
    }
  }

  /** Every row of `train` and of `test` is a row of one of the four classes. */
  lemma FoldRowsLabelled(labels: seq<int>, folds: seq<Fold>)
    requires SplitsClasses(labels, Classes, folds)
    ensures forall i :: 0 <= i < |Assemble(folds).train| ==>
              Assemble(folds).train[i] < |labels| && labels[Assemble(folds).train[i]] in Classes
    ensures forall i :: 0 <= i < |Assemble(folds).test| ==>
              Assemble(folds).test[i] < |labels| && labels[Assemble(folds).test[i]] in Classes
  {
    var a := Assemble(folds);
    SplitPartitionsLabelledRows(labels, folds);
    MembersLabelled(labels, a.train);
    MembersLabelled(labels, a.test);
  }

  /** Lines 83-86 and 119-120 after the split of lines 67-78: every train and
      every test row gets the category of its label plus one. */
  lemma FoldCategoriesDecode(labels: seq<int>, folds: seq<Fold>)
    requires SplitsClasses(labels, Classes, folds)
    ensures var train := Assemble(folds).train;
      && (forall i :: 0 <= i < |train| ==> train[i] < |labels|)
      && FromCodes(Shift(RowLabels(labels, train)), TargetNames).Values?
      && forall i :: 0 <= i < |train| ==>
           FromCodes(Shift(RowLabels(labels, train)), TargetNames).values[i] == Some(labels[train[i]] + 1)
    ensures var test := Assemble(folds).test;
      && (forall i :: 0 <= i < |test| ==> test[i] < |labels|)
      && FromCodes(Shift(RowLabels(labels, test)), TargetNames).Values?
      && forall i :: 0 <= i < |test| ==>
           FromCodes(Shift(RowLabels(labels, test)), TargetNames).values[i] == Some(labels[test[i]] + 1)
  {
    var a := Assemble(folds);
    FoldRowsLabelled(labels, folds);
    PartCategoriesDecode(labels, a.train);
    PartCategoriesDecode(labels, a.test);
  }
}
