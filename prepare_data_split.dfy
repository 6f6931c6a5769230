/**
 * The train/validation split (backend/prepare_data_split.py,
 * `split_dataset`): every sub-directory of the source is a class; its image
 * files are shuffled and cut at `int(len(images) * train_ratio)` into a
 * training part and a validation part, copied under data/train/<class> and
 * data/val/<class>.
 *
 * The source tree is given as a value (entries in `iterdir` order), the
 * shuffle as the permuted list it produces for each class, and the output
 * directory as a map from class name to the file names copied into it.
 */
module PrepareDataSplit {
  import opened Text

  /** The default `train_ratio`. */
  const DefaultTrainRatio: real := 0.8

  /** A directory entry: a file, or a directory with its own entries. */
  datatype Entry = File(name: string) | Dir(name: string, entries: seq<Entry>)

  /** Entries of one directory have distinct names. */
  predicate DistinctNames(entries: seq<Entry>)
  {
    forall i, j :: 0 <= i < j < |entries| ==> entries[i].name != entries[j].name
  }

  // ---------------------------------------------------------------------
  // Selecting classes and images

  /** The sub-directories of the source, in listing order. */
  function ClassDirs(source: seq<Entry>): (r: seq<Entry>)
    ensures forall e :: e in r <==> e in source && e.Dir?
    ensures |r| <= |source|
  {
    if source == [] then []
    else (if source[0].Dir? then [source[0]] else []) + ClassDirs(source[1..])
  }

  /** `[d.name for d in source_path.iterdir() if d.is_dir()]`. */
  function Classes(source: seq<Entry>): (r: seq<string>)
    ensures |r| == |ClassDirs(source)|
    ensures forall i :: 0 <= i < |r| ==> r[i] == ClassDirs(source)[i].name
  {
    seq(|ClassDirs(source)|, i requires 0 <= i < |ClassDirs(source)| => ClassDirs(source)[i].name)
  }

  /** The classes are exactly the names of the source's sub-directories. */
  lemma ClassesAreSubdirectories(source: seq<Entry>)
    ensures forall n :: n in Classes(source) <==> exists e :: e in source && e.Dir? && e.name == n
  {
    var dirs := ClassDirs(source);
    forall n | n in Classes(source)
      ensures exists e :: e in source && e.Dir? && e.name == n
    {
      var i :| 0 <= i < |dirs| && Classes(source)[i] == n;
      assert dirs[i] in dirs;
    }
    forall n | exists e :: e in source && e.Dir? && e.name == n
      ensures n in Classes(source)
    {
      var e :| e in source && e.Dir? && e.name == n;
      var i :| 0 <= i < |dirs| && dirs[i] == e;
      assert Classes(source)[i] == n;
    }
  }

  lemma {:induction false} ClassDirsDistinct(source: seq<Entry>)
    requires DistinctNames(source)
    ensures DistinctNames(ClassDirs(source))
  {
    if source != [] {
      ClassDirsDistinct(source[1..]);
      var rest := ClassDirs(source[1..]);
      if source[0].Dir? {
        forall j | 0 <= j < |rest|
          ensures source[0].name != rest[j].name
        {
          assert rest[j] in source[1..];
        }
      }
    }
  }

  lemma ClassesDistinct(source: seq<Entry>)
    requires DistinctNames(source)
    ensures forall m, n :: 0 <= m < n < |Classes(source)| ==> Classes(source)[m] != Classes(source)[n]
  {
    ClassDirsDistinct(source);
  }

  /** `PurePath.suffix`: from the last dot on, unless that dot starts or ends the name. */
  function Suffix(name: string): (r: string)
    ensures r != "" ==> 1 < |r| < |name| && r == name[|name| - |r|..] && r[0] == '.'
    ensures r != "" ==> forall j :: 0 < j < |r| ==> r[j] != '.'
    ensures r == "" <==> (forall j :: 0 < j < |name| ==> name[j] != '.') || (name != [] && name[|name| - 1] == '.')
  {
    var i := LastIndex(name, '.');
    if 0 < i < |name| - 1 then name[i..] else ""
  }

  predicate IsImageName(name: string)
  {
    Lower(Suffix(name)) in {".jpg", ".jpeg", ".png"}
  }

  /** `name` ends, ignoring case, with `sfx`, and something comes before it. */
  predicate EndsWithCI(name: string, sfx: string)
  {
    |sfx| < |name| && Lower(name[|name| - |sfx|..]) == sfx
  }

  lemma LowerDot(s: string, i: nat)
    requires i < |s|
    ensures Lower(s)[i] == '.' <==> s[i] == '.'
  {
  }

  lemma SuffixIs(name: string, sfx: string)
    requires sfx == ".jpg" || sfx == ".jpeg" || sfx == ".png"
    requires EndsWithCI(name, sfx)
    ensures Suffix(name) == name[|name| - |sfx|..]
  {
    var k := |name| - |sfx|;
    var t := name[k..];
    LowerDot(t, 0);
    assert name[k] == '.';
    forall j | k < j < |name|
      ensures name[j] != '.'
    {
      LowerDot(t, j - k);
    }
  }

  /** A file is an image exactly when its name ends in .jpg, .jpeg or .png in any case, after a non-empty stem. */
  lemma IsImageNameIff(name: string)
    ensures IsImageName(name) <==> EndsWithCI(name, ".jpg") || EndsWithCI(name, ".jpeg") || EndsWithCI(name, ".png")
  {
    if EndsWithCI(name, ".jpg") {
      SuffixIs(name, ".jpg");
    } else if EndsWithCI(name, ".jpeg") {
      SuffixIs(name, ".jpeg");
    } else if EndsWithCI(name, ".png") {
      SuffixIs(name, ".png");
    } else if IsImageName(name) {
      SuffixEnds(name);
    }
  }

  /** A name with a non-empty suffix ends, ignoring case, with its lower-cased suffix. */
  lemma SuffixEnds(name: string)
    requires Suffix(name) != ""
    ensures EndsWithCI(name, Lower(Suffix(name)))
  {
    var i := LastIndex(name, '.');
    assert Suffix(name) == name[i..] && 0 < i;
  }

  /** `[f for f in cls_path.iterdir() if f.is_file() and f.suffix.lower() in [...]]`, as names. */
  function Images(entries: seq<Entry>): (r: seq<string>)
    ensures forall n :: n in r <==> File(n) in entries && IsImageName(n)
    ensures |r| <= |entries|
  {
    if entries == [] then []
    else
      (if entries[0].File? && IsImageName(entries[0].name) then [entries[0].name] else [])
      + Images(entries[1..])
  }

  // ---------------------------------------------------------------------
  // The split

  /** Python's `int(x)`: truncation toward zero. */
  function Trunc(x: real): (r: int)
    ensures 0.0 <= x ==> 0 <= r && r as real <= x < r as real + 1.0
    ensures x < 0.0 ==> r <= 0 && r as real - 1.0 < x <= r as real
  {
    if x >= 0.0 then x.Floor else -((-x).Floor)
  }

  /** `int(len(images) * train_ratio)`. */
  function SplitIndex(n: nat, ratio: real): (r: int)
    ensures 0.0 <= ratio ==> 0 <= r && r as real <= n as real * ratio < r as real + 1.0
  {
    ScaleSign(n as real, ratio);
    Trunc(n as real * ratio)
  }

  /** The default ratio puts ⌊4n/5⌋ images into train. */
  lemma DefaultSplitIndex(n: nat)
    ensures SplitIndex(n, DefaultTrainRatio) == 4 * n / 5
  {
    var x := n as real * DefaultTrainRatio;
    assert x == (4 * n) as real / 5.0;
    var q := 4 * n / 5;
    assert q as real <= x < q as real + 1.0;
  }

  lemma ScaleSign(a: real, r: real)
    requires a >= 0.0
    ensures r >= 0.0 ==> a * r >= 0.0
  {
    if r >= 0.0 {
      ProductNonNegative(a, r);
    }
  }

  /** For a ratio between 0 and 1 the split index is the floor of `n * ratio`, between 0 and `n`. */
  lemma SplitIndexInRange(n: nat, ratio: real)
    requires 0.0 <= ratio <= 1.0
    ensures SplitIndex(n, ratio) == (n as real * ratio).Floor
    ensures 0 <= SplitIndex(n, ratio) <= n
  {
    ScaleBounds(n as real, ratio);
    FloorBounds(n as real * ratio, n);
  }

  /** A real between 0 and `n` has its floor between 0 and `n`, and truncating it is taking the floor. */
  lemma FloorBounds(x: real, n: nat)
    requires 0.0 <= x <= n as real
    ensures Trunc(x) == x.Floor
    ensures 0 <= x.Floor <= n
  {
  }

  /** Scaling a non-negative number by a ratio in [0, 1] keeps it between 0 and itself. */
  lemma ScaleBounds(a: real, r: real)
    requires a >= 0.0 && 0.0 <= r <= 1.0
    ensures 0.0 <= a * r <= a
  {
    ProductNonNegative(a, r);
    ProductNonNegative(a, 1.0 - r);
    assert a * (1.0 - r) == a - a * r;
  }

  lemma ProductNonNegative(x: real, y: real)
    requires x >= 0.0 && y >= 0.0
    ensures x * y >= 0.0
  {
  }

  /** Where a Python slice bound `i` falls in a list of length `n`: negative counts from the end, both clamped. */
  function SliceBound(i: int, n: nat): (b: nat)
    ensures b <= n
    ensures 0 <= i <= n ==> b == i
  {
    if i < 0 then (if n + i < 0 then 0 else n + i) else if i > n then n else i
  }

  /** `images[:split_idx]` of the shuffled list. */
  function TrainPart(shuffled: seq<string>, ratio: real): (r: seq<string>)
    ensures |r| <= |shuffled| && r == shuffled[..|r|]
  {
    shuffled[..SliceBound(SplitIndex(|shuffled|, ratio), |shuffled|)]
  }

  /** `images[split_idx:]` of the shuffled list. */
  function ValPart(shuffled: seq<string>, ratio: real): (r: seq<string>)
    ensures |r| <= |shuffled| && r == shuffled[|shuffled| - |r|..]
  {
    shuffled[SliceBound(SplitIndex(|shuffled|, ratio), |shuffled|)..]
  }

  /**
   * The two parts partition the shuffled list, whatever the ratio: training
   * then validation gives it back, so every image lands in exactly one part;
   * for a ratio in [0, 1] the training part has `int(len * ratio)` images.
   */
  lemma SplitPartitions(shuffled: seq<string>, ratio: real)
    ensures TrainPart(shuffled, ratio) + ValPart(shuffled, ratio) == shuffled
    ensures multiset(TrainPart(shuffled, ratio)) + multiset(ValPart(shuffled, ratio)) == multiset(shuffled)
    ensures 0.0 <= ratio <= 1.0 ==> |TrainPart(shuffled, ratio)| == SplitIndex(|shuffled|, ratio)
  {
    var b := SliceBound(SplitIndex(|shuffled|, ratio), |shuffled|);
    assert shuffled == shuffled[..b] + shuffled[b..];
    if 0.0 <= ratio <= 1.0 {
      SplitIndexInRange(|shuffled|, ratio);
    }
  }

  /** The shuffled images of one class are split into parts holding exactly that class's images. */
  lemma SplitKeepsImages(entries: seq<Entry>, shuffled: seq<string>, ratio: real)
    requires multiset(shuffled) == multiset(Images(entries))
    ensures multiset(TrainPart(shuffled, ratio)) + multiset(ValPart(shuffled, ratio)) == multiset(Images(entries))
    ensures forall n :: n in TrainPart(shuffled, ratio) || n in ValPart(shuffled, ratio) <==> File(n) in entries && IsImageName(n)
  {
    SplitPartitions(shuffled, ratio);
    var t, v := TrainPart(shuffled, ratio), ValPart(shuffled, ratio);
    forall n
      ensures n in t || n in v <==> n in Images(entries)
    {
      assert n in t || n in v <==> n in multiset(t) + multiset(v);
    }
  }

  /** The shuffle: the list `random.shuffle` leaves for class number `i` is a permutation of its images. */
  ghost predicate ShufflesOf(source: seq<Entry>, shuffles: seq<seq<string>>)
  {
    && |shuffles| == |ClassDirs(source)|
    && forall i :: 0 <= i < |shuffles| ==> multiset(shuffles[i]) == multiset(Images(ClassDirs(source)[i].entries))
  }

  /**
   * Storing the i-th class's part keeps the parts already stored for the
   * classes before it, since class names are distinct.
   */
  lemma UpdateKeepsEarlier(dirs: map<string, seq<string>>, classes: seq<string>, parts: seq<seq<string>>, i: nat)
    requires i < |classes| == |parts|
    requires forall m, n :: 0 <= m < n < |classes| ==> classes[m] != classes[n]
    requires forall m :: 0 <= m < i ==> classes[m] in dirs && dirs[classes[m]] == parts[m]
    ensures var updated := dirs[classes[i] := parts[i]];
      forall m :: 0 <= m <= i ==> updated[classes[m]] == parts[m]
  {
  }

  /** The names in a list, as a set. */
  function SetOf(names: seq<string>): (r: set<string>)
    ensures forall n :: n in r <==> n in names
  {
    set n | n in names
  }

  lemma SetOfAppend(names: seq<string>, n: string)
    ensures SetOf(names + [n]) == SetOf(names) + {n}
  {
  }

  /** The output directory `data`: for each class directory under train/ and val/, the file names copied into it, in order. */
  class DataDir {
    var train: map<string, seq<string>>
    var val: map<string, seq<string>>

    constructor ()
      ensures train == map[] && val == map[]
    {
      train := map[];
      val := map[];
    }

    /** The `shutil.copy2` loop into data/train/<cls>, one image at a time. */
    method CopyToTrain(cls: string, images: seq<string>)
      requires cls in train && train[cls] == []
      modifies this`train
      ensures train == old(train)[cls := images]
    {
      var j := 0;
      while j < |images|
        invariant 0 <= j <= |images|
        invariant train == old(train)[cls := images[..j]]
      {
        train := train[cls := train[cls] + [images[j]]];
        assert images[..j + 1] == images[..j] + [images[j]];
        j := j + 1;
      }
      assert images[..j] == images;
    }

    /** The `shutil.copy2` loop into data/val/<cls>, one image at a time. */
    method CopyToVal(cls: string, images: seq<string>)
      requires cls in val && val[cls] == []
      modifies this`val
      ensures val == old(val)[cls := images]
    {
      var j := 0;
      while j < |images|
        invariant 0 <= j <= |images|
        invariant val == old(val)[cls := images[..j]]
      {
        val := val[cls := val[cls] + [images[j]]];
        assert images[..j + 1] == images[..j] + [images[j]];
        j := j + 1;
      }
      assert images[..j] == images;
    }

    /** One class: create its two directories, cut its shuffled images at the split index and copy both parts. */
    method SplitClass(cls: string, images: seq<string>, ratio: real)
      modifies this
      ensures train == old(train)[cls := TrainPart(images, ratio)]
      ensures val == old(val)[cls := ValPart(images, ratio)]
    {
      train := train[cls := []];
      val := val[cls := []];
      var splitIdx := SliceBound(SplitIndex(|images|, ratio), |images|);
      CopyToTrain(cls, images[..splitIdx]);
      CopyToVal(cls, images[splitIdx..]);
    }

    /** The `for cls in classes` loop, over distinct class names. */
    method SplitClasses(classes: seq<string>, ratio: real, shuffles: seq<seq<string>>)
      requires |shuffles| == |classes|
      requires forall m, n :: 0 <= m < n < |classes| ==> classes[m] != classes[n]
      requires train == map[] && val == map[]
      modifies this
      ensures train.Keys == SetOf(classes) && val.Keys == train.Keys
      ensures forall m :: 0 <= m < |classes| ==>
        train[classes[m]] == TrainPart(shuffles[m], ratio) && val[classes[m]] == ValPart(shuffles[m], ratio)
    {
      ghost var trainParts := seq(|classes|, m requires 0 <= m < |classes| => TrainPart(shuffles[m], ratio));
      ghost var valParts := seq(|classes|, m requires 0 <= m < |classes| => ValPart(shuffles[m], ratio));
      var i := 0;
      while i < |classes|
        invariant 0 <= i <= |classes|
        invariant train.Keys == SetOf(classes[..i]) && val.Keys == train.Keys
        invariant forall m :: 0 <= m < i ==> train[classes[m]] == trainParts[m] && val[classes[m]] == valParts[m]
      {
        var cls := classes[i];
        assert classes[..i + 1] == classes[..i] + [cls];
        SetOfAppend(classes[..i], cls);
        ghost var train0, val0 := train, val;
        SplitClass(cls, shuffles[i], ratio);
        UpdateKeepsEarlier(train0, classes, trainParts, i);
        UpdateKeepsEarlier(val0, classes, valParts, i);
        i := i + 1;
      }
      assert classes[..i] == classes;
    }

    /**
     * `split_dataset(source_dir, train_ratio)`, with the shuffle results
     * given: the previous output is removed first, so the output holds
     * exactly the current classes, each with a train and a val directory
     * (even an empty one) holding the two parts of its shuffled images.
     */
    method SplitDataset(source: seq<Entry>, ratio: real, shuffles: seq<seq<string>>)
      requires DistinctNames(source)
      requires ShufflesOf(source, shuffles)
      modifies this
      ensures train.Keys == val.Keys == SetOf(Classes(source))
      ensures forall i :: 0 <= i < |shuffles| ==>
        var c := Classes(source)[i];
        train[c] == TrainPart(shuffles[i], ratio) && val[c] == ValPart(shuffles[i], ratio)
    {
      train := map[];
      val := map[];
      var classes := Classes(source);
      ClassesDistinct(source);
      SplitClasses(classes, ratio, shuffles);
    }
  }
}
