/** The per-class split of train_hat_male.py (lines 67-81): filter the rows
    of each label, split each class's rows into a train and a test part,
    concatenate the parts, and flag the train rows in `is_train`.

    A row is its position in the data frame (the default index 0..n-1 that
    `read_csv` gives), and `labels[r]` is its integer `Hat` value.
    `train_test_split` is not modelled: any split of a class's rows into two
    parts that together hold exactly those rows is allowed. */
module Splitter {

  /** The label values the script filters on, in the order it filters them. */
  const Classes: seq<int> := [-1, 0, 1, 2]

  ghost predicate StrictlyIncreasing(rows: seq<nat>) {
    forall i, j :: 0 <= i < j < |rows| ==> rows[i] < rows[j]
  }

  /** The rows at or after `from` whose label is in `wanted`, in frame order:
      the boolean-mask selection `df[mask]`. */
  function SelectRows(labels: seq<int>, wanted: set<int>, from: nat): (rows: seq<nat>)
    requires from <= |labels|
    ensures forall r :: r in rows <==> from <= r < |labels| && labels[r] in wanted
    ensures forall k :: 0 <= k < |rows| ==> from <= rows[k]
    ensures StrictlyIncreasing(rows)
    decreases |labels| - from
  {
    if from == |labels| then []
    else if labels[from] in wanted then [from] + SelectRows(labels, wanted, from + 1)
    else SelectRows(labels, wanted, from + 1)
  }

  /** `df[df['Hat'] == c]`: the rows of class c. */
  function ClassRows(labels: seq<int>, c: int): (rows: seq<nat>)
    ensures forall r: nat :: r in rows <==> r < |labels| && labels[r] == c
    ensures StrictlyIncreasing(rows)
  {
    SelectRows(labels, {c}, 0)
  }

  /** A selection that no row at or after `from` qualifies for is empty. */
  lemma {:induction false} SelectNone(labels: seq<int>, wanted: set<int>, from: nat)
    requires from <= |labels|
    requires forall r :: from <= r < |labels| ==> labels[r] !in wanted
    ensures SelectRows(labels, wanted, from) == []
    decreases |labels| - from
  {
    if from < |labels| {
      SelectNone(labels, wanted, from + 1);
    }
  }

  /** A class's two parts as `train_test_split` returns them. */
  datatype Fold = Fold(train: seq<nat>, test: seq<nat>)

  /** What `train_test_split(rows, test_size=0.2)` may return: a non-empty
      train part and a non-empty test part that together hold exactly the
      given rows, each as often as there. The test part has ceil(0.2 * n)
      rows, at least one for n >= 1, and the call raises `ValueError` when
      that leaves the train part empty, that is for fewer than two rows. */
  ghost predicate IsSplitOf(f: Fold, rows: seq<nat>) {
    && |rows| >= 2
    && |f.train| >= 1 && |f.test| >= 1
    && SameRows(f, rows)
  }

  /** The two parts together hold exactly the given rows, each as often as there. */
  ghost predicate SameRows(f: Fold, rows: seq<nat>) {
    multiset(f.train) + multiset(f.test) == multiset(rows)
  }

  /** A class with fewer than two rows has no split: the script stops at the
      `train_test_split` call of that class. */
  lemma NoSplitOfFewerThanTwo(rows: seq<nat>)
    requires |rows| < 2
    ensures forall f :: !IsSplitOf(f, rows)
  {
  }

  /** When every label is 3, as after the chained remap of lines 39-42 and
      the cast of line 44, none of the four classes has a row, so the first
      `train_test_split` call (line 72) has no split to return. */
  lemma MergedLabelsStopSplit(labels: seq<int>)
    requires forall r :: 0 <= r < |labels| ==> labels[r] == 3
    ensures forall c :: c in Classes ==> ClassRows(labels, c) == []
    ensures forall c, f :: c in Classes ==> !IsSplitOf(f, ClassRows(labels, c))
  {
    forall c | c in Classes
      ensures ClassRows(labels, c) == []
    {
      SelectNone(labels, {c}, 0);
    }
  }

  /** A class that can be split has at least two rows carrying its label. */
  lemma SplitClassHasTwoRows(labels: seq<int>, c: int, f: Fold)
    requires IsSplitOf(f, ClassRows(labels, c))
    ensures exists r, q :: 0 <= r < q < |labels| && labels[r] == c && labels[q] == c
  {
    var rows := ClassRows(labels, c);
    assert rows[0] in rows && rows[1] in rows;
    assert rows[0] < rows[1];
  }

  /** `pd.concat` of the train parts and of the test parts, in class order. */
  function Assemble(folds: seq<Fold>): (r: Fold)
    ensures multiset(r.train) + multiset(r.test) == SumParts(folds)
    decreases |folds|
  {
    if folds == [] then Fold([], [])
    else
      var rest := Assemble(folds[1..]);
      Fold(folds[0].train + rest.train, folds[0].test + rest.test)
  }

  /** Every row of class k's train part lands in `train`, and every row of
      its test part in `test`. */
  lemma {:induction false} AssembleKeepsSides(folds: seq<Fold>, k: nat)
    requires k < |folds|
    ensures forall x :: x in folds[k].train ==> x in Assemble(folds).train
    ensures forall x :: x in folds[k].test ==> x in Assemble(folds).test
    decreases k
  {
    if k > 0 {
      AssembleKeepsSides(folds[1..], k - 1);
      assert folds[1..][k - 1] == folds[k];
    }
  }

  /** `train` holds only rows of train parts and `test` only rows of test
      parts: the concatenation adds no row and moves none across. */
  lemma {:induction false} AssembleOnlyParts(folds: seq<Fold>)
    ensures forall x :: x in Assemble(folds).train ==> exists k :: 0 <= k < |folds| && x in folds[k].train
    ensures forall x :: x in Assemble(folds).test ==> exists k :: 0 <= k < |folds| && x in folds[k].test
    decreases |folds|
  {
    if folds != [] {
      AssembleOnlyParts(folds[1..]);
      forall x | x in Assemble(folds[1..]).train
        ensures exists k :: 0 <= k < |folds| && x in folds[k].train
      {
        var k :| 0 <= k < |folds| - 1 && x in folds[1..][k].train;
        assert folds[1..][k] == folds[k + 1];
      }
      forall x | x in Assemble(folds[1..]).test
        ensures exists k :: 0 <= k < |folds| && x in folds[k].test
      {
        var k :| 0 <= k < |folds| - 1 && x in folds[1..][k].test;
        assert folds[1..][k] == folds[k + 1];
      }
    }
  }

  /** All rows of all parts, counted with multiplicity. */
  ghost function SumParts(folds: seq<Fold>): multiset<nat>
    decreases |folds|
  {
    if folds == [] then multiset{}
    else multiset(folds[0].train) + multiset(folds[0].test) + SumParts(folds[1..])
  }

  /** A strictly increasing sequence holds each row at most once. */
  lemma {:induction false} CountInIncreasing(rows: seq<nat>, r: nat)
    requires StrictlyIncreasing(rows)
    ensures multiset(rows)[r] == if r in rows then 1 else 0
    decreases |rows|
  {
    if rows != [] {
      assert rows == [rows[0]] + rows[1..];
      CountInIncreasing(rows[1..], r);
      if r == rows[0] {
        assert r !in rows[1..];
      }
    }
  }

  /** One class's two parts hold each row of that class once, and no other row. */
  lemma FoldCount(labels: seq<int>, c: int, f: Fold, r: nat)
    requires SameRows(f, ClassRows(labels, c))
    ensures multiset(f.train)[r] + multiset(f.test)[r] == if r < |labels| && labels[r] == c then 1 else 0
  {
    CountInIncreasing(ClassRows(labels, c), r);
  }

  ghost predicate Distinct(classes: seq<int>) {
    forall i, j :: 0 <= i < j < |classes| ==> classes[i] != classes[j]
  }

  /** Fold k is a split of the rows of class k, for every k: what the
      `train_test_split` calls of lines 72-75 guarantee. */
  ghost predicate SplitsClasses(labels: seq<int>, classes: seq<int>, folds: seq<Fold>) {
    |folds| == |classes| && forall k :: 0 <= k < |folds| ==> IsSplitOf(folds[k], ClassRows(labels, classes[k]))
  }

  /** Fold k holds exactly the rows of class k, for every k. */
  ghost predicate CoversClasses(labels: seq<int>, classes: seq<int>, folds: seq<Fold>) {
    |folds| == |classes| && forall k :: 0 <= k < |folds| ==> SameRows(folds[k], ClassRows(labels, classes[k]))
  }

  lemma SplitsClassesCover(labels: seq<int>, classes: seq<int>, folds: seq<Fold>)
    requires SplitsClasses(labels, classes, folds)
    ensures CoversClasses(labels, classes, folds)
  {
  }

  lemma ClassesDistinct()
    ensures Distinct(Classes)
  {
  }

  /** The first class is not among the rest, and the rest are distinct. */
  lemma DistinctTail(classes: seq<int>)
    requires classes != [] && Distinct(classes)
    ensures classes[0] !in classes[1..] && Distinct(classes[1..])
  {
  }

  /** Dropping the first class and its fold keeps the folds matched to their classes. */
  lemma CoversClassesTail(labels: seq<int>, classes: seq<int>, folds: seq<Fold>)
    requires folds != [] && CoversClasses(labels, classes, folds)
    ensures SameRows(folds[0], ClassRows(labels, classes[0]))
    ensures CoversClasses(labels, classes[1..], folds[1..])
  {
  }

  /** Splitting each of a list of distinct classes and concatenating the
      parts uses every row of those classes exactly once, and no other row. */
  lemma {:induction false} AssembleCounts(labels: seq<int>, classes: seq<int>, folds: seq<Fold>, r: nat)
    requires CoversClasses(labels, classes, folds) && Distinct(classes)
    ensures SumParts(folds)[r] == if r < |labels| && labels[r] in classes then 1 else 0
    decreases |folds|
  {
    if folds != [] {
      CoversClassesTail(labels, classes, folds);
      DistinctTail(classes);
      FoldCount(labels, classes[0], folds[0], r);
      AssembleCounts(labels, classes[1..], folds[1..], r);
      assert classes == [classes[0]] + classes[1..];
    }
  }

  /** Per-row counts of one and zero make `train` and `test` a partition. */
  lemma CountsMakePartition(train: seq<nat>, test: seq<nat>, labels: seq<int>)
    requires forall r: nat :: multiset(train)[r] + multiset(test)[r] == if r < |labels| && labels[r] in Classes then 1 else 0
    ensures forall r :: r in train ==> r !in test
    ensures forall r: nat :: r in train || r in test <==> r < |labels| && labels[r] in Classes
  {
    forall r: nat ensures (r in train ==> r !in test) && (r in train || r in test <==> r < |labels| && labels[r] in Classes) {
      assert r in train <==> multiset(train)[r] > 0;
      assert r in test <==> multiset(test)[r] > 0;
    }
  }

  /** Lines 67-70: rows of two different classes never coincide. */
  lemma ClassRowsDisjoint(labels: seq<int>, c: int, d: int)
    requires c != d
    ensures forall r :: r in ClassRows(labels, c) ==> r !in ClassRows(labels, d)
  {
  }

  /** Lines 67-78: `train` and
      `test` share no row, hold no row twice, and together hold exactly the
      rows whose label is one of the four classes. */
  lemma SplitPartitionsLabelledRows(labels: seq<int>, folds: seq<Fold>)
    requires SplitsClasses(labels, Classes, folds)
    ensures forall r: nat :: multiset(Assemble(folds).train)[r] + multiset(Assemble(folds).test)[r]
                             == if r < |labels| && labels[r] in Classes then 1 else 0
    ensures forall r :: r in Assemble(folds).train ==> r !in Assemble(folds).test
    ensures forall r: nat :: r in Assemble(folds).train || r in Assemble(folds).test <==> r < |labels| && labels[r] in Classes
  {
    var a := Assemble(folds);
    ClassesDistinct();
    SplitsClassesCover(labels, Classes, folds);
    forall r: nat ensures multiset(a.train)[r] + multiset(a.test)[r] == if r < |labels| && labels[r] in Classes then 1 else 0 {
      AssembleCounts(labels, Classes, folds, r);
    }
    CountsMakePartition(a.train, a.test, labels);
  }

  /** Lines 80-81: `df['is_train'] = 0`, then 1 on the rows of `train`. */
  method MarkTrainRows(n: nat, train: seq<nat>) returns (isTrain: array<int>)
    requires forall r :: r in train ==> r < n
    ensures isTrain.Length == n
    ensures forall r :: 0 <= r < n ==> isTrain[r] == if r in train then 1 else 0
  {
    isTrain := new int[n](_ => 0);
    for k := 0 to |train|
      invariant forall r :: 0 <= r < n ==> isTrain[r] == if r in train[..k] then 1 else 0
    {
      assert train[k] in train;
      isTrain[train[k]] := 1;
    }
  }

  /** After the split, `is_train` is 1 exactly on the rows of `train`: 0 on
      every test row and on every row whose label is none of the classes. */
  lemma TrainFlagSeparatesFolds(labels: seq<int>, folds: seq<Fold>, isTrain: seq<int>)
    requires SplitsClasses(labels, Classes, folds)
    requires |isTrain| == |labels|
    requires forall r :: 0 <= r < |labels| ==> isTrain[r] == if r in Assemble(folds).train then 1 else 0
    ensures forall r :: r in Assemble(folds).train ==> r < |labels| && isTrain[r] == 1
    ensures forall r :: r in Assemble(folds).test ==> r < |labels| && isTrain[r] == 0
    ensures forall r :: 0 <= r < |labels| && labels[r] !in Classes ==> isTrain[r] == 0
  {
    SplitPartitionsLabelledRows(labels, folds);
  }

  /** Per class: every row `train_test_split` put in class k's train part
      gets `is_train` 1, and every row it put in its test part gets 0. */
  lemma TrainFlagFollowsParts(labels: seq<int>, folds: seq<Fold>, isTrain: seq<int>, k: nat)
    requires SplitsClasses(labels, Classes, folds)
    requires |isTrain| == |labels|
    requires forall r :: 0 <= r < |labels| ==> isTrain[r] == if r in Assemble(folds).train then 1 else 0
    requires k < |folds|
    ensures forall r :: r in folds[k].train ==> r < |labels| && isTrain[r] == 1
    ensures forall r :: r in folds[k].test ==> r < |labels| && isTrain[r] == 0
  {
    TrainFlagSeparatesFolds(labels, folds, isTrain);
    AssembleKeepsSides(folds, k);
  }
}
