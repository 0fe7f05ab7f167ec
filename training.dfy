/**
 * The decisions in the two `train` functions around the TensorFlow work:
 * where the images come from, and the name the trained model is saved under,
 * `<dataset>_<%Y%m%d-%H%M%S timestamp>`.
 */
module Training {
  import opened Wrappers
  import JsonWrite
  import JsonRead
  import JsonRoundTrip

  /** The images to train on: the `tfds` example dataset, or the directory of a dataset. */
  datatype DataSource = Example | Directory(path: string)

  /** What the image classifier's `train` raises for a dataset it cannot find. */
  datatype TrainError = NotADirectoryError(dataset: string)

  /** `EXAMPLE_DATASET` of the image classifier's settings. */
  const ExampleDataset := "fashion_mnist"

  /**
   * trainer.py `train`: the example dataset when it is asked for by name
   * (`exampleName`) or when no dataset path is given, else the given path.
   */
  function TrainerSource(datasetName: string, datasetPath: Option<string>, exampleName: string): (s: DataSource)
    ensures s.Example? <==> datasetName == exampleName || datasetPath.None?
    ensures s.Directory? ==> datasetPath == Some(s.path)
  {
    if datasetName == exampleName || datasetPath.None? then Example else Directory(datasetPath.value)
  }

  /**
   * ImageClassifier `train`: the example dataset exactly when it is named;
   * any other name must be a directory under the dataset directory
   * (`datasetDirs` lists the ones that exist), else `NotADirectoryError`.
   */
  function ClassifierSource(dataset: string, datasetDirs: set<string>): (r: Result<DataSource, TrainError>)
    ensures r == Ok(Example) <==> dataset == ExampleDataset
    ensures r.Err? <==> dataset != ExampleDataset && dataset !in datasetDirs
    ensures r.Err? ==> r.error == NotADirectoryError(dataset)
    ensures r.Ok? && r.value.Directory? ==> r.value.path == dataset && dataset in datasetDirs
  {
    if dataset == ExampleDataset then Ok(Example)
    else if dataset !in datasetDirs then Err(NotADirectoryError(dataset))
    else Ok(Directory(dataset))
  }

  /** A moment as `datetime.now()` gives it, to the second. */
  datatype DateTime = DateTime(year: nat, month: nat, day: nat, hour: nat, minute: nat, second: nat)

  predicate ValidDateTime(t: DateTime)
  {
    1 <= t.year <= 9999 && 1 <= t.month <= 12 && 1 <= t.day <= 31 && t.hour < 24 && t.minute < 60 && t.second < 60
  }

  function Pow10(k: nat): (p: nat)
    ensures p >= 1
  {
    if k == 0 then 1 else 10 * Pow10(k - 1)
  }

  /** The last `width` decimal digits of `n`, with leading zeros. */
  function Padded(n: nat, width: nat): (s: string)
    ensures |s| == width && forall i :: 0 <= i < width ==> JsonWrite.IsDigit(s[i])
  {
    if width == 0 then "" else Padded(n / 10, width - 1) + [JsonWrite.DigitChar(n % 10)]
  }

  /** Reading the digits back gives the number whenever it fits in `width` digits. */
  lemma {:induction false} PaddedRoundTrip(n: nat, width: nat)
    requires n < Pow10(width)
    ensures JsonRead.DigitsValue(Padded(n, width)) == n
  {
    if width > 0 {
      PaddedRoundTrip(n / 10, width - 1);
      var s := Padded(n, width);
      assert s[..width - 1] == Padded(n / 10, width - 1);
      JsonRoundTrip.DigitCharValue(n % 10);
    }
  }

  /** `strftime("%Y%m%d-%H%M%S")` */
  function Timestamp(t: DateTime): (s: string)
    ensures |s| == 15 && s[8] == '-'
  {
    Padded(t.year, 4) + Padded(t.month, 2) + Padded(t.day, 2) + "-" + Padded(t.hour, 2) + Padded(t.minute, 2) + Padded(t.second, 2)
  }

  predicate AllDigits(s: string)
  {
    forall i :: 0 <= i < |s| ==> JsonWrite.IsDigit(s[i])
  }

  /** The moment a timestamp stands for, when the text is one. */
  function ParseTimestamp(s: string): Option<DateTime>
  {
    if |s| != 15 || s[8] != '-' || !AllDigits(s[..8]) || !AllDigits(s[9..]) then None
    else
      Some(DateTime(JsonRead.DigitsValue(s[..4]), JsonRead.DigitsValue(s[4..6]), JsonRead.DigitsValue(s[6..8]),
                    JsonRead.DigitsValue(s[9..11]), JsonRead.DigitsValue(s[11..13]), JsonRead.DigitsValue(s[13..])))
  }

  /** Where the six fields sit in `YYYYmmdd-HHMMSS`. */
  lemma TimestampFields(year: string, month: string, day: string, hour: string, minute: string, second: string)
    requires |year| == 4 && |month| == 2 && |day| == 2 && |hour| == 2 && |minute| == 2 && |second| == 2
    requires AllDigits(year) && AllDigits(month) && AllDigits(day) && AllDigits(hour) && AllDigits(minute) && AllDigits(second)
    ensures var s := year + month + day + "-" + hour + minute + second;
            s[..4] == year && s[4..6] == month && s[6..8] == day &&
            s[9..11] == hour && s[11..13] == minute && s[13..] == second &&
            AllDigits(s[..8]) && AllDigits(s[9..])
  {
    var date, time := year + month + day, hour + minute + second;
    var s := year + month + day + "-" + hour + minute + second;
    assert s == date + "-" + time;
    assert s[..8] == date && s[9..] == time;
    assert date[..4] == year && date[4..6] == month && date[6..] == day;
    assert time[..2] == hour && time[2..4] == minute && time[4..] == second;
  }

  /** A timestamp reads back as the moment it was made from, so distinct moments give distinct timestamps. */
  lemma TimestampRoundTrip(t: DateTime)
    requires ValidDateTime(t)
    ensures ParseTimestamp(Timestamp(t)) == Some(t)
  {
    TimestampFields(Padded(t.year, 4), Padded(t.month, 2), Padded(t.day, 2),
                    Padded(t.hour, 2), Padded(t.minute, 2), Padded(t.second, 2));
    assert Pow10(2) == 100 && Pow10(4) == 10000;
    PaddedRoundTrip(t.year, 4);
    PaddedRoundTrip(t.month, 2);
    PaddedRoundTrip(t.day, 2);
    PaddedRoundTrip(t.hour, 2);
    PaddedRoundTrip(t.minute, 2);
    PaddedRoundTrip(t.second, 2);
  }

  /** `'_'.join((dataset, timestamp))`, the name the model is saved under. */
  function ModelName(dataset: string, t: DateTime): (name: string)
    ensures |name| == |dataset| + 16
  {
    dataset + "_" + Timestamp(t)
  }

  /** The dataset and moment of a saved model's name: the part before the 16-character `_<timestamp>` suffix, and that timestamp. */
  function ParseModelName(name: string): Option<(string, DateTime)>
  {
    if |name| < 16 || name[|name| - 16] != '_' then None
    else
      match ParseTimestamp(name[|name| - 15..])
      case None => None
      case Some(t) => Some((name[..|name| - 16], t))
  }

  /** A model name reads back as the dataset and the moment it was saved. */
  lemma ModelNameRoundTrip(dataset: string, t: DateTime)
    requires ValidDateTime(t)
    ensures ParseModelName(ModelName(dataset, t)) == Some((dataset, t))
  {
    var name := ModelName(dataset, t);
    assert name[..|name| - 16] == dataset;
    assert name[|name| - 15..] == Timestamp(t);
    TimestampRoundTrip(t);
  }

  /** Two saved models share a name only when they come from the same dataset at the same second. */
  lemma ModelNameInjective(d1: string, t1: DateTime, d2: string, t2: DateTime)
    requires ValidDateTime(t1) && ValidDateTime(t2)
    ensures ModelName(d1, t1) == ModelName(d2, t2) <==> d1 == d2 && t1 == t2
  {
    ModelNameRoundTrip(d1, t1);
    ModelNameRoundTrip(d2, t2);
  }
}
