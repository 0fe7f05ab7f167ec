/**
 * The label half of `get_image_label_from_path`, which both trainers carry
 * in the same form: split the file path on the separator, compare its
 * second-to-last component (the class directory) with every class name, and
 * take the index of the first match (`tf.argmax` of the comparisons).
 */
module Labels {
  import opened Wrappers

  /** What the lookup raises: a path with fewer than two components, or an empty class list (argmax over nothing). */
  datatype LabelError = TooFewComponents | NoClasses

  /** `tf.strings.split(path, sep)`: the pieces between separators, empty ones included. */
  function Split(s: string, sep: char): (parts: seq<string>)
    ensures |parts| >= 1
  {
    if s == [] then [""]
    else
      var rest := Split(s[1..], sep);
      if s[0] == sep then [""] + rest else [[s[0]] + rest[0]] + rest[1..]
  }

  /** The pieces joined back with the separator. */
  function Join(parts: seq<string>, sep: char): string
    requires |parts| >= 1
  {
    if |parts| == 1 then parts[0] else parts[0] + [sep] + Join(parts[1..], sep)
  }

  /** No piece of a split contains the separator. */
  lemma {:induction false} SplitHasNoSeparator(s: string, sep: char)
    ensures forall i :: 0 <= i < |Split(s, sep)| ==> sep !in Split(s, sep)[i]
  {
    if s != [] {
      SplitHasNoSeparator(s[1..], sep);
      var rest := Split(s[1..], sep);
      if s[0] != sep {
        assert sep !in rest[0];
        assert forall i :: 1 <= i < |Split(s, sep)| ==> Split(s, sep)[i] == rest[i];
      }
    }
  }

  /** Joining the pieces of a split gives back the path. */
  lemma {:induction false} JoinSplit(s: string, sep: char)
    ensures Join(Split(s, sep), sep) == s
  {
    if s != [] {
      JoinSplit(s[1..], sep);
      var rest := Split(s[1..], sep);
      if s[0] == sep {
        assert Split(s, sep)[1..] == rest;
      } else if |rest| == 1 {
        assert Split(s, sep) == [[s[0]] + rest[0]];
      } else {
        var parts := Split(s, sep);
        assert parts[1..] == rest[1..];
        assert Join(rest, sep) == rest[0] + [sep] + Join(rest[1..], sep);
      }
    }
  }

  /** A piece without separators splits into itself. */
  lemma {:induction false} SplitPlain(s: string, sep: char)
    requires sep !in s
    ensures Split(s, sep) == [s]
  {
    if s != [] {
      assert forall c :: c in s[1..] ==> c in s;
      SplitPlain(s[1..], sep);
      assert [s[0]] + s[1..] == s;
    }
  }

  /** Splitting at a separator splits each side on its own. */
  lemma {:induction false} SplitAt(a: string, b: string, sep: char)
    ensures Split(a + [sep] + b, sep) == Split(a, sep) + Split(b, sep)
  {
    if a == [] {
      assert ([] + [sep] + b)[1..] == b;
    } else {
      assert (a + [sep] + b)[1..] == a[1..] + [sep] + b;
      SplitAt(a[1..], b, sep);
    }
  }

  /** Splitting pieces without separators joined by the separator gives back the pieces. */
  lemma {:induction false} SplitJoin(parts: seq<string>, sep: char)
    requires |parts| >= 1 && forall i :: 0 <= i < |parts| ==> sep !in parts[i]
    ensures Split(Join(parts, sep), sep) == parts
  {
    if |parts| == 1 {
      SplitPlain(parts[0], sep);
    } else {
      SplitJoin(parts[1..], sep);
      SplitPlain(parts[0], sep);
      SplitAt(parts[0], Join(parts[1..], sep), sep);
    }
  }

  /**
   * `tf.argmax(name == class_names)`: the first class equal to `name`, or 0
   * when none is. That is what argmax returns on the CPU; TensorFlow's
   * documentation leaves open which index wins a tie, and when no class
   * matches every comparison ties.
   */
  function ArgMax(name: string, classNames: seq<string>): (k: nat)
    ensures k < |classNames| || k == 0
    ensures k < |classNames| && classNames[k] == name ==> forall j :: 0 <= j < k ==> classNames[j] != name
    ensures name in classNames ==> k < |classNames| && classNames[k] == name
    ensures name !in classNames ==> k == 0
  {
    if classNames == [] || classNames[0] == name then 0
    else if name in classNames[1..] then 1 + ArgMax(name, classNames[1..])
    else 0
  }

  /** A path splits into two or more pieces exactly when it contains the separator. */
  lemma SplitCount(s: string, sep: char)
    ensures |Split(s, sep)| >= 2 <==> sep in s
  {
    if sep !in s {
      SplitPlain(s, sep);
    } else if |Split(s, sep)| == 1 {
      JoinSplit(s, sep);
      SplitHasNoSeparator(s, sep);
      assert false;
    }
  }

  /**
   * The label of an image file: the position of its class directory among
   * the class names. A path without a separator has no directory component
   * to index, and an empty class list leaves argmax nothing to choose from.
   */
  function Label(path: string, sep: char, classNames: seq<string>): (r: Result<nat, LabelError>)
    ensures r == Err(TooFewComponents) <==> sep !in path
    ensures r == Err(NoClasses) <==> sep in path && classNames == []
    ensures r.Ok? ==> r.value < |classNames|
  {
    SplitCount(path, sep);
    var parts := Split(path, sep);
    if |parts| < 2 then Err(TooFewComponents)
    else if classNames == [] then Err(NoClasses)
    else Ok(ArgMax(parts[|parts| - 2], classNames))
  }

  /** No name occurs twice, as in the sorted list of a directory's sub-directories. */
  predicate Distinct(names: seq<string>)
  {
    forall i, j :: 0 <= i < j < |names| ==> names[i] != names[j]
  }

  /**
   * A file `root/<class>/<file>` listed from the dataset directory is labelled
   * with the position of `<class>` in a list of distinct class names;
   * a directory that is not a class gets label 0.
   */
  lemma LabelOfListedFile(root: string, cls: string, file: string, sep: char, classNames: seq<string>, k: nat)
    requires sep !in cls && sep !in file && classNames != []
    requires Distinct(classNames)
    ensures k < |classNames| && classNames[k] == cls ==> Label(root + [sep] + cls + [sep] + file, sep, classNames) == Ok(k)
    ensures cls !in classNames ==> Label(root + [sep] + cls + [sep] + file, sep, classNames) == Ok(0)
  {
    var path := root + [sep] + cls + [sep] + file;
    assert path == root + [sep] + (cls + [sep] + file);
    SplitAt(root, cls + [sep] + file, sep);
    SplitAt(cls, file, sep);
    SplitPlain(cls, sep);
    SplitPlain(file, sep);
    var parts := Split(path, sep);
    assert parts == Split(root, sep) + [cls, file];
    assert parts[|parts| - 2] == cls;
  }
}
