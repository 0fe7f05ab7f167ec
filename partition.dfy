/**
 * `partition_ds`, which both trainers carry in the same form: a dataset,
 * taken as a fixed sequence, is cut into train, validation and test parts
 * with `tf.data.Dataset.take` and `skip`.
 */
module Partition {
  import opened Wrappers

  /** What `partition_ds` raises when its split fractions do not add up to 1. */
  datatype PartitionError = AssertionError

  datatype Split<T> = Split(train: seq<T>, val: seq<T>, test: seq<T>)

  /** `Dataset.take(count)`: the first `count` elements; a negative count, or one past the end, keeps them all. */
  function Take<T>(ds: seq<T>, count: int): (r: seq<T>)
    ensures |r| == if 0 <= count <= |ds| then count else |ds|
    ensures r == ds[..|r|]
  {
    if count < 0 || count >= |ds| then ds else ds[..count]
  }

  /** `Dataset.skip(count)`: all but the first `count` elements; a negative count, or one past the end, skips them all. */
  function Skip<T>(ds: seq<T>, count: int): (r: seq<T>)
    ensures |r| == if 0 <= count <= |ds| then |ds| - count else 0
    ensures r == ds[|ds| - |r|..]
  {
    if count < 0 || count >= |ds| then [] else ds[count..]
  }

  /** What `take` keeps and `skip` drops are the same elements, so together they give back the dataset. */
  lemma TakeSkip<T>(ds: seq<T>, count: int)
    ensures Take(ds, count) + Skip(ds, count) == ds
  {
    if !(count < 0 || count >= |ds|) {
      assert ds[..count] + ds[count..] == ds;
    }
  }

  /** Python's `int()` of a float: truncation toward zero. */
  function Trunc(x: real): (r: int)
    ensures 0.0 <= x ==> 0 <= r && r as real <= x < r as real + 1.0
    ensures x < 0.0 ==> r <= 0 && x <= r as real < x + 1.0
  {
    if x >= 0.0 then x.Floor else -((-x).Floor)
  }

  /**
   * The number of elements a split fraction asks for, `int(split * ds_size)`:
   * for a non-negative fraction, the whole number of elements its share of
   * the dataset contains.
   */
  function SplitSize(split: real, n: nat): (k: int)
    ensures 0.0 <= split ==> 0 <= k && k as real <= split * n as real < k as real + 1.0
    ensures split < 0.0 ==> k <= 0
  {
    Trunc(split * n as real)
  }

  /**
   * `partition_ds(ds, train_split, val_split, test_split)`: fails its
   * assertion unless the fractions add up to 1; otherwise train is the first
   * `int(train_split * n)` elements, validation the next `int(val_split * n)`,
   * and test the rest.
   */
  function PartitionDs<T>(ds: seq<T>, trainSplit: real, valSplit: real, testSplit: real): (r: Result<Split<T>, PartitionError>)
    ensures r.Err? <==> trainSplit + testSplit + valSplit != 1.0
  {
    if trainSplit + testSplit + valSplit != 1.0 then Err(AssertionError)
    else
      var trainSize := SplitSize(trainSplit, |ds|);
      var valSize := SplitSize(valSplit, |ds|);
      Ok(Split(Take(ds, trainSize), Take(Skip(ds, trainSize), valSize), Skip(Skip(ds, trainSize), valSize)))
  }

  lemma Associate<T>(a: seq<T>, b: seq<T>, c: seq<T>)
    ensures a + b + c == a + (b + c)
  {
  }

  /** Taking a part, then a part of the rest, then the rest of the rest, gives back the dataset. */
  lemma TakeSkipTwice<T>(ds: seq<T>, first: int, second: int)
    ensures Take(ds, first) + Take(Skip(ds, first), second) + Skip(Skip(ds, first), second) == ds
  {
    var front, rest := Take(ds, first), Skip(ds, first);
    var middle, back := Take(rest, second), Skip(rest, second);
    TakeSkip(ds, first);
    TakeSkip(rest, second);
    Associate(front, middle, back);
  }

  /**
   * Whatever the fractions, a partition loses and repeats nothing: train,
   * validation and test, in that order, are the dataset.
   */
  lemma PartitionCovers<T>(ds: seq<T>, trainSplit: real, valSplit: real, testSplit: real)
    requires PartitionDs(ds, trainSplit, valSplit, testSplit).Ok?
    ensures var p := PartitionDs(ds, trainSplit, valSplit, testSplit).value; p.train + p.val + p.test == ds
  {
    TakeSkipTwice(ds, SplitSize(trainSplit, |ds|), SplitSize(valSplit, |ds|));
  }

  lemma MulNonneg(a: real, b: real)
    requires 0.0 <= a && 0.0 <= b
    ensures 0.0 <= a * b
  {
  }

  /** A fraction between 0 and 1 asks for between 0 and n elements, and no more than the fraction of n. */
  lemma SplitSizeBounds(split: real, n: nat)
    requires 0.0 <= split <= 1.0
    ensures 0 <= SplitSize(split, n) <= n
    ensures SplitSize(split, n) as real <= split * n as real
  {
    var m := n as real;
    MulNonneg(split, m);
    MulNonneg(1.0 - split, m);
    assert (1.0 - split) * m == m - split * m;
  }

  /** Two fractions that leave a third between 0 and 1 ask for no more than n elements together. */
  lemma SplitSizesFit(trainSplit: real, valSplit: real, testSplit: real, n: nat)
    requires 0.0 <= trainSplit <= 1.0 && 0.0 <= valSplit <= 1.0 && 0.0 <= testSplit
    requires trainSplit + testSplit + valSplit == 1.0
    ensures SplitSize(trainSplit, n) + SplitSize(valSplit, n) <= n
  {
    var m := n as real;
    SplitSizeBounds(trainSplit, n);
    SplitSizeBounds(valSplit, n);
    MulNonneg(testSplit, m);
    assert trainSplit * m + valSplit * m + testSplit * m == (trainSplit + valSplit + testSplit) * m;
  }

  /**
   * With fractions between 0 and 1 that add up to 1, train has exactly
   * `int(train_split * n)` elements, validation exactly `int(val_split * n)`
   * (which is all that is left after train when fewer remain), and test
   * absorbs whatever the truncations left over.
   */
  lemma PartitionSizes<T>(ds: seq<T>, trainSplit: real, valSplit: real, testSplit: real)
    requires 0.0 <= trainSplit <= 1.0 && 0.0 <= valSplit <= 1.0 && 0.0 <= testSplit <= 1.0
    requires trainSplit + testSplit + valSplit == 1.0
    ensures var p := PartitionDs(ds, trainSplit, valSplit, testSplit).value;
            var trainSize := SplitSize(trainSplit, |ds|);
            var valSize := SplitSize(valSplit, |ds|);
            |p.train| == trainSize &&
            |p.val| == (if valSize <= |ds| - trainSize then valSize else |ds| - trainSize) &&
            |p.val| == valSize &&
            |p.test| == |ds| - |p.train| - |p.val|
  {
    SplitSizeBounds(trainSplit, |ds|);
    SplitSizeBounds(valSplit, |ds|);
    SplitSizesFit(trainSplit, valSplit, testSplit, |ds|);
  }
}
