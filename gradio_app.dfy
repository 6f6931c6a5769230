/*
 * The Gradio front end (app.py): `predict_leaf`, which turns one
 * classifier run into a Markdown report and a confidence table, and
 * `get_trained_labels_text`, which lists the trained leaf types.
 *
 * The classifier is a parameter: `model` maps an uploaded image to either
 * an exception message or the run's top-1 index, top-1 confidence and the
 * per-class (name, probability) pairs in class-index order.
 */
module GradioApp {
  import opened Wrappers
  import opened Text
  import opened Ranking

  /** Only classes above 1% confidence reach the table. */
  const Threshold: real := 1.0 / 100.0
  /** Number of lines of the "All Predictions" list. */
  const Shown: nat := 5
  const NoImageMessage: string := "Please upload an image"
  const ErrorPrefix: string := "\U{274C} Error: "
  const NoLabelsMessage: string := "No trained models yet. Using base model."
  const LabelsPrefix: string := "**Trained leaf types:** "
  const Separator: string := ", "

  /** An uploaded image; its pixels are not modelled. */
  datatype LeafImage = LeafImage(id: nat)

  datatype ModelRun =
    | Raised(message: string)
    | Classified(top1: nat, top1conf: real, classes: seq<Scored>)

  /**
   * The report `predict_leaf` renders: a plain notice, or the Markdown
   * result with the title-cased species, its confidence and the shown
   * lines (title-cased name, confidence). Percent formatting is not
   * modelled: confidences stay fractions.
   */
  datatype Report =
    | Notice(text: string)
    | Result(species: string, confidence: real, lines: seq<Scored>)

  // ---------------------------------------------------------------------
  // The probability dictionary
  // ---------------------------------------------------------------------

  /** The keys of a dict held as a sequence of pairs, in insertion order. */
  function Names(d: seq<Scored>): (r: seq<string>)
    ensures |r| == |d|
    ensures forall i :: 0 <= i < |d| ==> r[i] == d[i].name
  {
    seq(|d|, i requires 0 <= i < |d| => d[i].name)
  }

  predicate DistinctNames(s: seq<Scored>)
  {
    forall i, j :: 0 <= i < j < |s| ==> s[i].name != s[j].name
  }

  /**
   * `d[e.name] = e.prob` on an insertion-ordered dict held as a sequence:
   * an existing key keeps its place and takes the new value, a new key
   * goes at the end.
   */
  function DictSet(d: seq<Scored>, e: Scored): (r: seq<Scored>)
    ensures e.name !in Names(d) ==> r == d + [e]
    ensures e.name in Names(d) ==> Names(r) == Names(d)
    ensures e in r
    ensures forall x :: x in r ==> x == e || x in d
  {
    if d == [] then [e]
    else
      NamesCons(d[0], d[1..]);
      assert [d[0]] + d[1..] == d;
      if d[0].name == e.name then
        NamesCons(e, d[1..]);
        [e] + d[1..]
      else
        var t := DictSet(d[1..], e);
        NamesCons(d[0], t);
        [d[0]] + t
  }

  lemma NamesCons(x: Scored, t: seq<Scored>)
    ensures Names([x] + t) == [x.name] + Names(t)
  {
  }

  /** Setting a key keeps the keys distinct. */
  lemma DictSetDistinct(d: seq<Scored>, e: Scored)
    requires DistinctNames(d)
    ensures DistinctNames(DictSet(d, e))
  {
    var r := DictSet(d, e);
    if e.name in Names(d) {
      assert Names(r) == Names(d);
      forall i, j | 0 <= i < j < |r| ensures r[i].name != r[j].name {
        assert Names(r)[i] == Names(d)[i] && Names(r)[j] == Names(d)[j];
      }
    } else {
      forall i | 0 <= i < |d| ensures d[i].name != e.name {
        assert Names(d)[i] == d[i].name;
      }
    }
  }

  /**
   * The dictionary the first loop of `predict_leaf` has built after the
   * pairs `s`: every pair above the threshold is stored under its name.
   */
  function ProbsDict(s: seq<Scored>): (d: seq<Scored>)
  {
    if s == [] then []
    else
      var d := ProbsDict(s[..|s| - 1]);
      var last := s[|s| - 1];
      if last.prob > Threshold then DictSet(d, last) else d
  }

  /** The pairs of `s` above the threshold, in order. */
  function Above(s: seq<Scored>): (r: seq<Scored>)
    ensures forall x :: x in r <==> x in s && x.prob > Threshold
  {
    if s == [] then []
    else
      var last := s[|s| - 1];
      assert s == s[..|s| - 1] + [last];
      Above(s[..|s| - 1]) + (if last.prob > Threshold then [last] else [])
  }

  /** Every entry of the dictionary is a pair of the run above the threshold. */
  lemma {:induction false} ProbsDictAboveThreshold(s: seq<Scored>)
    ensures forall x :: x in ProbsDict(s) ==> x in s && x.prob > Threshold
    decreases |s|
  {
    if s != [] {
      ProbsDictAboveThreshold(s[..|s| - 1]);
    }
  }

  /**
   * The dictionary has distinct keys, every entry is a pair of the run
   * above the threshold, and every class above the threshold has a key.
   */
  lemma {:induction false} ProbsDictShape(s: seq<Scored>)
    ensures DistinctNames(ProbsDict(s))
    ensures forall x :: x in ProbsDict(s) ==> x in s && x.prob > Threshold
    ensures forall i :: 0 <= i < |s| && s[i].prob > Threshold ==> s[i].name in Names(ProbsDict(s))
    decreases |s|
  {
    if s != [] {
      var p := s[..|s| - 1];
      var last := s[|s| - 1];
      ProbsDictShape(p);
      ProbsDictAboveThreshold(s);
      var d := ProbsDict(p);
      if last.prob > Threshold {
        DictSetDistinct(d, last);
        var r := DictSet(d, last);
        assert last.name in Names(r) by {
          var k :| 0 <= k < |r| && r[k] == last;
          assert Names(r)[k] == last.name;
        }
        forall i | 0 <= i < |p| && p[i].prob > Threshold
          ensures p[i].name in Names(r)
        {
          assert p[i].name in Names(d);
          var k :| 0 <= k < |d| && Names(d)[k] == p[i].name;
          if last.name !in Names(d) {
            assert r[k] == d[k];
            assert Names(r)[k] == p[i].name;
          }
        }
      }
      forall i | 0 <= i < |s| - 1 ensures s[i] == p[i] { }
    }
  }

  /**
   * When the class names are distinct, as a trained classifier's are, the
   * dictionary is exactly the classes above 1%, in class-index order.
   */
  lemma {:induction false} ProbsDictIsAbove(s: seq<Scored>)
    requires DistinctNames(s)
    ensures ProbsDict(s) == Above(s)
    decreases |s|
  {
    if s != [] {
      var p := s[..|s| - 1];
      var last := s[|s| - 1];
      assert DistinctNames(p);
      ProbsDictIsAbove(p);
      ProbsDictShape(p);
      var d := ProbsDict(p);
      forall k | 0 <= k < |d| ensures Names(d)[k] != last.name {
        var j :| 0 <= j < |p| && p[j] == d[k];
        assert s[j] == p[j];
      }
    }
  }

  // ---------------------------------------------------------------------
  // The report
  // ---------------------------------------------------------------------

  /** Each pair with its name title-cased (`name.title()`). */
  function Titled(s: seq<Scored>): (r: seq<Scored>)
    ensures |r| == |s|
    ensures forall i :: 0 <= i < |s| ==> r[i] == Scored(Title(s[i].name), s[i].prob)
  {
    seq(|s|, i requires 0 <= i < |s| => Scored(Title(s[i].name), s[i].prob))
  }

  /** `predict_leaf` on one image and one classifier. */
  method PredictLeaf(image: Option<LeafImage>, model: LeafImage -> ModelRun)
    returns (report: Report, probs: Option<seq<Scored>>)
    ensures image.None? ==> report == Notice(NoImageMessage) && probs.None?
    ensures image.Some? && model(image.value).Raised? ==>
      report == Notice(ErrorPrefix + model(image.value).message) && probs.None?
    ensures image.Some? && model(image.value).Classified?
            && model(image.value).top1 >= |model(image.value).classes| ==>
      report == Notice(ErrorPrefix + Decimal(model(image.value).top1)) && probs.None?
    ensures image.Some? && model(image.value).Classified?
            && model(image.value).top1 < |model(image.value).classes| ==>
      var run := model(image.value);
      var table := SortDesc(ProbsDict(run.classes));
      probs == Some(table)
      && report == Result(Title(run.classes[run.top1].name), run.top1conf,
                          Titled(Top(ProbsDict(run.classes), Shown)))
  {
    if image.None? {
      return Notice(NoImageMessage), None;
    }
    var run := model(image.value);
    if run.Raised? {
      return Notice(ErrorPrefix + run.message), None;
    }
    if run.top1 >= |run.classes| {
      // `results[0].names[top1_index]` raises KeyError; its text is the key.
      return Notice(ErrorPrefix + Decimal(run.top1)), None;
    }
    var species := run.classes[run.top1].name;
    var dict := CollectProbs(run.classes);
    var sorted := SortDesc(dict);
    // `list(sorted_probs.items())[:5]`
    var shown := sorted[..Min(Shown, |sorted|)];
    var lines := TitleLines(shown);
    return Result(Title(species), run.top1conf, lines), Some(sorted);
  }

  /** The first loop of `predict_leaf`: the dict of classes above 1%. */
  method CollectProbs(classes: seq<Scored>) returns (dict: seq<Scored>)
    ensures dict == ProbsDict(classes)
  {
    dict := [];
    var i := 0;
    while i < |classes|
      invariant 0 <= i <= |classes|
      invariant dict == ProbsDict(classes[..i])
    {
      assert classes[..i + 1][..i] == classes[..i];
      if classes[i].prob > Threshold {
        dict := DictSet(dict, classes[i]);
      }
      i := i + 1;
    }
    assert classes[..i] == classes;
  }

  /** The second loop of `predict_leaf`: one title-cased line per entry. */
  method TitleLines(shown: seq<Scored>) returns (lines: seq<Scored>)
    ensures lines == Titled(shown)
  {
    lines := [];
    var j := 0;
    while j < |shown|
      invariant 0 <= j <= |shown|
      invariant lines == Titled(shown[..j])
    {
      lines := lines + [Scored(Title(shown[j].name), shown[j].prob)];
      j := j + 1;
    }
    assert shown[..j] == shown;
  }

  /**
   * What the report shows: at most five lines, in non-increasing
   * confidence, each a class above 1% with its name title-cased, and no
   * class left off the list scores higher than one shown.
   */
  lemma ShownLines(s: seq<Scored>)
    ensures var lines := Titled(Top(ProbsDict(s), Shown));
            |lines| == Min(Shown, |ProbsDict(s)|)
            && NonIncreasing(lines)
            && (forall i :: 0 <= i < |lines| ==> lines[i].prob > Threshold)
            && (forall i, x :: 0 <= i < |lines| && x in ProbsDict(s) && x !in Top(ProbsDict(s), Shown) ==>
                  x.prob <= lines[i].prob)
  {
    var d := ProbsDict(s);
    var top := Top(d, Shown);
    var lines := Titled(top);
    forall i | 0 <= i < |lines| ensures lines[i].prob > Threshold {
      assert top[i] in multiset(d);
      ProbsDictAboveThreshold(s);
    }
    TopDominates(d, Shown);
    forall i, x | 0 <= i < |lines| && x in d && x !in top
      ensures x.prob <= lines[i].prob
    {
      assert top[i] in top;
    }
  }

  // ---------------------------------------------------------------------
  // Trained labels
  // ---------------------------------------------------------------------

  /** `", ".join(xs)`. */
  function JoinComma(xs: seq<string>): (r: string)
    ensures xs == [] ==> r == ""
    ensures |xs| == 1 ==> r == xs[0]
  {
    if xs == [] then ""
    else if |xs| == 1 then xs[0]
    else JoinComma(xs[..|xs| - 1]) + Separator + xs[|xs| - 1]
  }

  /** Each label title-cased. */
  function TitleAll(labels: seq<string>): (r: seq<string>)
    ensures |r| == |labels|
    ensures forall i :: 0 <= i < |labels| ==> r[i] == Title(labels[i])
  {
    seq(|labels|, i requires 0 <= i < |labels| => Title(labels[i]))
  }

  /** `get_trained_labels_text` for the labels read at start-up. */
  function TrainedLabelsText(labels: seq<string>): (r: string)
  {
    if labels == [] then NoLabelsMessage
    else LabelsPrefix + JoinComma(TitleAll(labels))
  }

  /** Drops the one space a separator leaves in front of an item. */
  function DropSpace(t: string): string
  {
    if t != [] && t[0] == ' ' then t[1..] else t
  }

  /** Splits a joined list back into items at each comma. */
  function SplitComma(s: string): (r: seq<string>)
    ensures |r| >= 1
    decreases |s|
  {
    var i := LastIndex(s, ',');
    if i < 0 then [s]
    else SplitComma(s[..i]) + [DropSpace(s[i + 1..])]
  }

  predicate NoComma(s: string)
  {
    ',' !in s
  }

  /** The separator before a comma-free last item holds the last comma. */
  lemma LastComma(jp: string, last: string)
    requires NoComma(last)
    ensures var s := jp + Separator + last;
      && LastIndex(s, ',') == |jp|
      && s[..|jp|] == jp
      && DropSpace(s[|jp| + 1..]) == last
  {
    var s := jp + Separator + last;
    var n := |jp|;
    assert s[n] == ',';
    forall k | n < k < |s| ensures s[k] != ',' {
      assert s[k] == (" " + last)[k - n - 1];
      if k > n + 1 {
        assert s[k] == last[k - n - 2];
      }
    }
    assert s[n + 1..] == " " + last;
  }

  /** Splitting recovers a comma-free last item. */
  lemma SplitLast(jp: string, last: string)
    requires NoComma(last)
    ensures SplitComma(jp + Separator + last) == SplitComma(jp) + [last]
  {
    var s := jp + Separator + last;
    LastComma(jp, last);
    assert SplitComma(s) == SplitComma(s[..|jp|]) + [DropSpace(s[|jp| + 1..])];
  }

  lemma ButLastAndLast<T>(s: seq<T>)
    requires s != []
    ensures s[..|s| - 1] + [s[|s| - 1]] == s
  {
  }

  /** Joining items that hold no comma can be undone. */
  lemma {:induction false} SplitJoin(xs: seq<string>)
    requires xs != []
    requires forall i :: 0 <= i < |xs| ==> NoComma(xs[i])
    ensures SplitComma(JoinComma(xs)) == xs
    decreases |xs|
  {
    if |xs| == 1 {
      assert LastIndex(xs[0], ',') < 0;
    } else {
      var p := xs[..|xs| - 1];
      var last := xs[|xs| - 1];
      assert JoinComma(xs) == JoinComma(p) + Separator + last;
      SplitLast(JoinComma(p), last);
      SplitJoin(p);
      ButLastAndLast(xs);
    }
  }

  /** Title-casing keeps every comma and adds none. */
  lemma TitleNoComma(s: string)
    requires NoComma(s)
    ensures NoComma(Title(s))
  {
  }

  /**
   * With no labels the text says the base model is in use; otherwise it
   * is the heading followed by the title-cased labels, in order, which a
   * reader recovers by splitting at the commas when no label holds one.
   */
  lemma TrainedLabelsListed(labels: seq<string>)
    ensures labels == [] ==> TrainedLabelsText(labels) == NoLabelsMessage
    ensures labels != [] ==>
      var r := TrainedLabelsText(labels);
      |LabelsPrefix| <= |r| && r[..|LabelsPrefix|] == LabelsPrefix
    ensures labels != [] && (forall i :: 0 <= i < |labels| ==> NoComma(labels[i])) ==>
      var r := TrainedLabelsText(labels);
      SplitComma(r[|LabelsPrefix|..]) == TitleAll(labels)
  {
    if labels != [] {
      var r := TrainedLabelsText(labels);
      var t := TitleAll(labels);
      assert r[..|LabelsPrefix|] == LabelsPrefix;
      assert r[|LabelsPrefix|..] == JoinComma(t);
      if forall i :: 0 <= i < |labels| ==> NoComma(labels[i]) {
        forall i | 0 <= i < |t| ensures NoComma(t[i]) {
          TitleNoComma(labels[i]);
        }
        SplitJoin(t);
      }
    }
  }
}
