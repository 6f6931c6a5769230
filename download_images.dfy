/**
 * The image downloader (backend/download_images.py, `download_images`):
 * for every keyword it derives a folder, searches with up to three attempts,
 * and downloads hits until `max_images` files are saved.
 *
 * The image search and the HTTP downloads are inputs: `search(k, a)` is
 * what attempt `a` for keyword number `k` gives, and every hit says whether
 * fetching and writing its URL succeeds. Directory creation, file writes,
 * sleeping and printing are recorded in the returned reports instead of
 * being performed.
 */
module DownloadImages {
  import opened Wrappers
  import opened Text

  const MaxRetries: nat := 3
  /** Extra hits asked for on top of `max_images`, since some downloads fail. */
  const ExtraResults: int := 30
  const DefaultRoot: string := "dataset"

  /** One search hit: a dict with an `image` URL (and whether its download and write succeed), or one without that key. */
  datatype Hit = Image(url: string, downloads: bool) | NoImageKey

  /** One search attempt: it raised, or it returned a list of hits (possibly empty). */
  datatype Attempt = Raised | Returned(hits: seq<Hit>)

  /** What the retry loop does, in order: a search request, or a back-off sleep. */
  datatype RetryEvent = Searched(query: string, maxResults: int) | Slept(seconds: nat)

  datatype RetryOutcome = RetryOutcome(hits: seq<Hit>, events: seq<RetryEvent>)

  datatype DownloadOutcome = DownloadOutcome(saved: seq<string>, aborted: bool)

  /**
   * How a keyword ends: no hits after the retries (`continue`), all hits
   * handled or the cap reached, or a hit without `image` raised out of the
   * loop into the outer `except`.
   */
  datatype Ending = NoResults | Finished | Aborted

  /** Everything one keyword does: the directory it creates, its searches and sleeps, the files it writes. */
  datatype KeywordReport = KeywordReport(saveDir: string, events: seq<RetryEvent>, saved: seq<string>, ending: Ending)

  // ---------------------------------------------------------------------
  // Names

  /** `s.split(' ')[0]`: everything before the first space. */
  function FirstToken(s: string): (r: string)
    ensures r <= s
    ensures forall i :: 0 <= i < |r| ==> r[i] != ' '
    ensures |r| < |s| ==> s[|r|] == ' '
  {
    if s == [] || s[0] == ' ' then [] else [s[0]] + FirstToken(s[1..])
  }

  /** The folder of a keyword: its first space-separated word, lower-cased ("Hibiscus leaf" gives "hibiscus"). */
  function FolderName(keyword: string): (r: string)
    ensures |r| <= |keyword|
    ensures forall i :: 0 <= i < |r| ==> r[i] != ' ' && !IsUpper(r[i]) && r[i] == LowerChar(keyword[i])
    ensures |r| < |keyword| ==> keyword[|r|] == ' '
  {
    Lower(FirstToken(keyword))
  }

  /** `Path(dir) / name`; an empty name adds nothing. */
  function Join(dir: string, name: string): string
  {
    if name == "" then dir else dir + "/" + name
  }

  /** The save directory: under `base_dir` when it is given and non-empty, else under "dataset". */
  function SaveDir(baseDir: Option<string>, folder: string): (r: string)
    ensures baseDir.Some? && baseDir.value != "" ==> r == Join(baseDir.value, folder)
    ensures baseDir.None? || baseDir.value == "" ==> r == Join(DefaultRoot, folder)
  {
    match baseDir
    case Some(b) => if b != "" then Join(b, folder) else Join(DefaultRoot, folder)
    case None => Join(DefaultRoot, folder)
  }

  /** The extension of a downloaded image: ".png" when the URL mentions png, otherwise ".jpg". */
  function Extension(url: string): (ext: string)
    ensures ext == ".png" || ext == ".jpg"
    ensures ext == ".png" <==> Contains(Lower(url), "png")
  {
    if Contains(Lower(url), "png") then ".png" else ".jpg"
  }

  /** `f"{folder_name}_{count:03d}{ext}"`. */
  function FileName(folder: string, count: nat, ext: string): string
  {
    folder + "_" + ZeroPad(count, 3) + ext
  }

  /** A file name is the folder, `_`, at least three digits that read back as the count, and the extension. */
  lemma FileNameParts(folder: string, count: nat, ext: string)
    ensures var r := FileName(folder, count, ext);
      var digits := r[|folder| + 1..|r| - |ext|];
      && |r| >= |folder| + 4 + |ext|
      && r[..|folder|] == folder && r[|folder|] == '_' && r[|r| - |ext|..] == ext
      && AllDigits(digits) && ParseDecimal(digits) == count
  {
    var r := FileName(folder, count, ext);
    assert r[|folder| + 1..|r| - |ext|] == ZeroPad(count, 3);
    ZeroPadRoundTrip(count, 3);
  }

  /** The path the URL is saved under as the file numbered `n` of the folder. */
  function SavedName(dir: string, folder: string, n: nat, url: string): string
  {
    Join(dir, FileName(folder, n, Extension(url)))
  }

  lemma ConcatAssoc<T>(a: seq<T>, b: seq<T>, c: seq<T>)
    ensures a + b + c == a + (b + c)
  {
  }

  lemma CancelPrefix(p: string, x: string, y: string)
    requires p + x == p + y
    ensures x == y
  {
    assert x == (p + x)[|p|..];
    assert y == (p + y)[|p|..];
  }

  lemma CancelSuffix(x: string, e: string, y: string, f: string)
    requires x + e == y + f && |e| == |f|
    ensures x == y
  {
    assert x == (x + e)[..|x|];
    assert y == (y + f)[..|y|];
  }

  lemma JoinFileName(dir: string, folder: string, count: nat, ext: string)
    ensures Join(dir, FileName(folder, count, ext)) == (dir + "/" + folder + "_") + (ZeroPad(count, 3) + ext)
  {
    var name := FileName(folder, count, ext);
    assert name[|folder|] == '_';
    ConcatAssoc(folder + "_", ZeroPad(count, 3), ext);
    ConcatAssoc(dir + "/", folder + "_", ZeroPad(count, 3) + ext);
  }

  /** Two file names in one folder with image extensions are equal only when their counts are. */
  lemma FileNamesDistinct(dir: string, folder: string, m: nat, n: nat, extM: string, extN: string)
    requires |extM| == 4 && |extN| == 4
    requires Join(dir, FileName(folder, m, extM)) == Join(dir, FileName(folder, n, extN))
    ensures m == n
  {
    var a, b := ZeroPad(m, 3), ZeroPad(n, 3);
    var p := dir + "/" + folder + "_";
    JoinFileName(dir, folder, m, extM);
    JoinFileName(dir, folder, n, extN);
    CancelPrefix(p, a + extM, b + extN);
    CancelSuffix(a, extM, b, extN);
    ZeroPadInjective(m, n, 3);
  }

  // ---------------------------------------------------------------------
  // The retry loop

  predicate Found(a: Attempt)
  {
    a.Returned? && a.hits != []
  }

  /** The pause after a failed attempt: 2, then 4 seconds, none after the last. */
  function Backoff(attempt: nat): (ev: seq<RetryEvent>)
    ensures ev == [] || ev == [Slept(2)] || ev == [Slept(4)]
  {
    if attempt < MaxRetries - 1 then [Slept(2 * (attempt + 1))] else []
  }

  /**
   * What one attempt logs: its search, then the backoff when it raised.
   * An empty answer is retried at once.
   */
  function AttemptEvents(keyword: string, maxImages: int, a: Attempt, attempt: nat): seq<RetryEvent>
  {
    [Searched(keyword, maxImages + ExtraResults)] + (if a.Raised? then Backoff(attempt) else [])
  }

  /** One attempt logs one search, followed by a 2 * (attempt + 1) second sleep exactly when it raised and is not the last. */
  lemma AttemptEventsShape(keyword: string, maxImages: int, a: Attempt, attempt: nat)
    ensures var ev := AttemptEvents(keyword, maxImages, a, attempt);
      && 1 <= |ev| <= 2 && ev[0] == Searched(keyword, maxImages + ExtraResults)
      && (|ev| == 2 <==> a.Raised? && attempt + 1 < MaxRetries)
      && (|ev| == 2 ==> ev[1] == Slept(2 * (attempt + 1)))
      && CountSearches(ev) == 1
  {
    var ev := AttemptEvents(keyword, maxImages, a, attempt);
    assert CountSearches(ev) == 1 + CountSearches(ev[1..]);
  }

  /**
   * The search loop from attempt `attempt` on: every attempt asks for
   * `max_images + 30` hits and stops the loop when it returns some.
   */
  function RetryFrom(k: nat, keyword: string, maxImages: int, search: (nat, nat) -> Attempt, attempt: nat): RetryOutcome
    decreases MaxRetries - attempt
  {
    if attempt >= MaxRetries then RetryOutcome([], [])
    else
      var a := search(k, attempt);
      var ev := AttemptEvents(keyword, maxImages, a, attempt);
      if Found(a) then RetryOutcome(a.hits, ev)
      else
        var rest := RetryFrom(k, keyword, maxImages, search, attempt + 1);
        RetryOutcome(rest.hits, ev + rest.events)
  }

  function Retry(k: nat, keyword: string, maxImages: int, search: (nat, nat) -> Attempt): RetryOutcome
  {
    RetryFrom(k, keyword, maxImages, search, 0)
  }

  function CountSearches(events: seq<RetryEvent>): nat
  {
    if events == [] then 0 else (if events[0].Searched? then 1 else 0) + CountSearches(events[1..])
  }

  lemma CountSearchesAppend(a: seq<RetryEvent>, b: seq<RetryEvent>)
    ensures CountSearches(a + b) == CountSearches(a) + CountSearches(b)
  {
    if a == [] {
      assert a + b == b;
    } else {
      assert (a + b)[1..] == a[1..] + b;
      CountSearchesAppend(a[1..], b);
    }
  }

  /** The first attempt from `attempt` on that returns hits, or `MaxRetries`. */
  function FirstFound(k: nat, search: (nat, nat) -> Attempt, attempt: nat): nat
    decreases MaxRetries - attempt
  {
    if attempt >= MaxRetries then MaxRetries
    else if Found(search(k, attempt)) then attempt
    else FirstFound(k, search, attempt + 1)
  }

  lemma {:induction false} FirstFoundIsFirst(k: nat, search: (nat, nat) -> Attempt, attempt: nat)
    requires attempt <= MaxRetries
    ensures var f := FirstFound(k, search, attempt);
      && attempt <= f <= MaxRetries
      && (f < MaxRetries ==> Found(search(k, f)))
      && forall b :: attempt <= b < f ==> !Found(search(k, b))
    decreases MaxRetries - attempt
  {
    if attempt < MaxRetries && !Found(search(k, attempt)) {
      FirstFoundIsFirst(k, search, attempt + 1);
    }
  }

  /** The loop ends with the hits of the first attempt that returns some, if any does. */
  lemma {:induction false} RetryFromHits(k: nat, keyword: string, maxImages: int, search: (nat, nat) -> Attempt, attempt: nat)
    requires attempt <= MaxRetries
    ensures var f := FirstFound(k, search, attempt);
      RetryFrom(k, keyword, maxImages, search, attempt).hits
        == (if f < MaxRetries && search(k, f).Returned? then search(k, f).hits else [])
    decreases MaxRetries - attempt
  {
    if attempt < MaxRetries && !Found(search(k, attempt)) {
      RetryFromHits(k, keyword, maxImages, search, attempt + 1);
    }
  }

  /** The loop searches once per attempt up to the first that returns hits (every attempt when none does). */
  lemma {:induction false} RetryFromCount(k: nat, keyword: string, maxImages: int, search: (nat, nat) -> Attempt, attempt: nat)
    requires attempt <= MaxRetries
    ensures var f := FirstFound(k, search, attempt);
      CountSearches(RetryFrom(k, keyword, maxImages, search, attempt).events)
        == (if f < MaxRetries then f + 1 else MaxRetries) - attempt
    decreases MaxRetries - attempt
  {
    if attempt < MaxRetries {
      var step := AttemptEvents(keyword, maxImages, search(k, attempt), attempt);
      var f := FirstFound(k, search, attempt);
      var count := CountSearches(RetryFrom(k, keyword, maxImages, search, attempt).events);
      if Found(search(k, attempt)) {
        assert RetryFrom(k, keyword, maxImages, search, attempt).events == step;
        assert f == attempt && count == 1;
      } else {
        var rest := RetryFrom(k, keyword, maxImages, search, attempt + 1).events;
        RetryFromCount(k, keyword, maxImages, search, attempt + 1);
        assert RetryFrom(k, keyword, maxImages, search, attempt).events == step + rest;
        CountSearchesAppend(step, rest);
        assert f == FirstFound(k, search, attempt + 1);
        assert count == 1 + CountSearches(rest);
      }
    } else {
      assert RetryFrom(k, keyword, maxImages, search, attempt).events == [];
      assert FirstFound(k, search, attempt) == MaxRetries;
    }
  }

  /**
   * The search result is the first non-empty answer among the three
   * attempts, and exactly the attempts up to that one are made (all three
   * when none answers).
   */
  lemma RetryFromFindsFirst(k: nat, keyword: string, maxImages: int, search: (nat, nat) -> Attempt, attempt: nat)
    requires attempt <= MaxRetries
    ensures var r := RetryFrom(k, keyword, maxImages, search, attempt);
      && (r.hits != [] <==> exists a :: attempt <= a < MaxRetries && Found(search(k, a)))
      && (r.hits == [] ==> CountSearches(r.events) == MaxRetries - attempt)
      && (r.hits != [] ==> exists a :: attempt <= a < MaxRetries && search(k, a) == Returned(r.hits)
                             && CountSearches(r.events) == a + 1 - attempt
                             && forall b :: attempt <= b < a ==> !Found(search(k, b)))
  {
    var f := FirstFound(k, search, attempt);
    FirstFoundIsFirst(k, search, attempt);
    RetryFromHits(k, keyword, maxImages, search, attempt);
    RetryFromCount(k, keyword, maxImages, search, attempt);
  }

  /** With all attempts made there are between one and three searches. */
  lemma RetrySearchesBounded(k: nat, keyword: string, maxImages: int, search: (nat, nat) -> Attempt, attempt: nat)
    requires attempt < MaxRetries
    ensures 1 <= CountSearches(RetryFrom(k, keyword, maxImages, search, attempt).events) <= MaxRetries - attempt
  {
    FirstFoundIsFirst(k, search, attempt);
    RetryFromCount(k, keyword, maxImages, search, attempt);
  }

  /** Every search in the log asks for `query` with `maxResults` results. */
  predicate SearchesAsk(ev: seq<RetryEvent>, query: string, maxResults: int)
  {
    forall i :: 0 <= i < |ev| && ev[i].Searched? ==> ev[i] == Searched(query, maxResults)
  }

  lemma SearchesAskConcat(a: seq<RetryEvent>, b: seq<RetryEvent>, query: string, maxResults: int)
    requires SearchesAsk(a, query, maxResults) && SearchesAsk(b, query, maxResults)
    ensures SearchesAsk(a + b, query, maxResults)
  {
    forall i | 0 <= i < |a + b| && (a + b)[i].Searched?
      ensures (a + b)[i] == Searched(query, maxResults)
    {
      if i >= |a| {
        assert (a + b)[i] == b[i - |a|];
      } else {
        assert (a + b)[i] == a[i];
      }
    }
  }

  /** The loop's log is one attempt's events, followed by the rest of the loop when that attempt found nothing. */
  lemma RetryFromEvents(k: nat, keyword: string, maxImages: int, search: (nat, nat) -> Attempt, attempt: nat)
    requires attempt < MaxRetries
    ensures var step := AttemptEvents(keyword, maxImages, search(k, attempt), attempt);
      RetryFrom(k, keyword, maxImages, search, attempt).events
        == step + (if Found(search(k, attempt)) then [] else RetryFrom(k, keyword, maxImages, search, attempt + 1).events)
  {
    var step := AttemptEvents(keyword, maxImages, search(k, attempt), attempt);
    assert step + [] == step;
  }

  /** Every search the loop makes asks for `max_images + 30` hits for the keyword. */
  lemma {:induction false} RetrySearchesAsk(k: nat, keyword: string, maxImages: int, search: (nat, nat) -> Attempt, attempt: nat)
    requires attempt <= MaxRetries
    ensures SearchesAsk(RetryFrom(k, keyword, maxImages, search, attempt).events, keyword, maxImages + ExtraResults)
    decreases MaxRetries - attempt
  {
    if attempt < MaxRetries {
      var step := AttemptEvents(keyword, maxImages, search(k, attempt), attempt);
      var rest := if Found(search(k, attempt)) then [] else RetryFrom(k, keyword, maxImages, search, attempt + 1).events;
      RetryFromEvents(k, keyword, maxImages, search, attempt);
      AttemptEventsShape(keyword, maxImages, search(k, attempt), attempt);
      assert SearchesAsk(step, keyword, maxImages + ExtraResults);
      if !Found(search(k, attempt)) {
        RetrySearchesAsk(k, keyword, maxImages, search, attempt + 1);
      }
      SearchesAskConcat(step, rest, keyword, maxImages + ExtraResults);
    }
  }

  /** A sleep at `i` lies between two searches and lasts 2 or 4 seconds. */
  predicate SleepBetween(ev: seq<RetryEvent>, i: int)
    requires 0 <= i < |ev| && ev[i].Slept?
  {
    0 < i < |ev| - 1 && ev[i - 1].Searched? && ev[i + 1].Searched?
    && (ev[i].seconds == 2 || ev[i].seconds == 4)
  }

  predicate SleepsBetween(ev: seq<RetryEvent>)
  {
    forall i :: 0 <= i < |ev| && ev[i].Slept? ==> SleepBetween(ev, i)
  }

  /** One attempt's events followed by a well-formed remainder that starts with a search stay well-formed. */
  lemma SleepsBetweenConcat(step: seq<RetryEvent>, rest: seq<RetryEvent>)
    requires 1 <= |step| <= 2 && step[0].Searched?
    requires |step| == 2 ==> step[1].Slept? && (step[1].seconds == 2 || step[1].seconds == 4)
    requires |step| == 2 ==> rest != []
    requires rest != [] ==> rest[0].Searched?
    requires SleepsBetween(rest)
    ensures SleepsBetween(step + rest)
  {
    var ev := step + rest;
    forall i | 0 <= i < |ev| && ev[i].Slept?
      ensures SleepBetween(ev, i)
    {
      if i >= |step| {
        assert ev[i] == rest[i - |step|];
        assert SleepBetween(rest, i - |step|);
        assert ev[i - 1] == rest[i - 1 - |step|];
        assert ev[i + 1] == rest[i + 1 - |step|];
      } else {
        assert ev[i + 1] == rest[0];
      }
    }
  }

  /** A log that starts and ends with a search. */
  predicate SearchEnds(ev: seq<RetryEvent>)
  {
    ev != [] && ev[0].Searched? && ev[|ev| - 1].Searched?
  }

  lemma SearchEndsConcat(step: seq<RetryEvent>, rest: seq<RetryEvent>)
    requires step != [] && step[0].Searched?
    requires rest == [] ==> |step| == 1
    requires rest != [] ==> SearchEnds(rest)
    ensures SearchEnds(step + rest)
  {
    if rest != [] {
      assert (step + rest)[|step + rest| - 1] == rest[|rest| - 1];
    } else {
      assert step + rest == step;
    }
  }

  /** The loop's log starts and ends with a search, and is empty only when no attempt is left. */
  lemma {:induction false} RetryEventsEnds(k: nat, keyword: string, maxImages: int, search: (nat, nat) -> Attempt, attempt: nat)
    requires attempt <= MaxRetries
    ensures var ev := RetryFrom(k, keyword, maxImages, search, attempt).events;
      (attempt < MaxRetries ==> SearchEnds(ev)) && (attempt == MaxRetries ==> ev == [])
    decreases MaxRetries - attempt
  {
    if attempt < MaxRetries {
      var step := AttemptEvents(keyword, maxImages, search(k, attempt), attempt);
      RetryFromEvents(k, keyword, maxImages, search, attempt);
      AttemptEventsShape(keyword, maxImages, search(k, attempt), attempt);
      if Found(search(k, attempt)) {
        SearchEndsConcat(step, []);
      } else {
        RetryEventsEnds(k, keyword, maxImages, search, attempt + 1);
        SearchEndsConcat(step, RetryFrom(k, keyword, maxImages, search, attempt + 1).events);
      }
    }
  }

  /**
   * Sleeps happen only between attempts: each follows a search, is followed
   * by another search, and lasts 2 * (attempt + 1) seconds, i.e. 2 or 4.
   */
  lemma {:induction false} RetrySleepsBetweenAttempts(k: nat, keyword: string, maxImages: int, search: (nat, nat) -> Attempt, attempt: nat)
    requires attempt <= MaxRetries
    ensures SleepsBetween(RetryFrom(k, keyword, maxImages, search, attempt).events)
    decreases MaxRetries - attempt
  {
    if attempt < MaxRetries {
      var step := AttemptEvents(keyword, maxImages, search(k, attempt), attempt);
      RetryFromEvents(k, keyword, maxImages, search, attempt);
      AttemptEventsShape(keyword, maxImages, search(k, attempt), attempt);
      if Found(search(k, attempt)) {
        SleepsBetweenConcat(step, []);
      } else {
        RetrySleepsBetweenAttempts(k, keyword, maxImages, search, attempt + 1);
        RetryEventsEnds(k, keyword, maxImages, search, attempt + 1);
        SleepsBetweenConcat(step, RetryFrom(k, keyword, maxImages, search, attempt + 1).events);
      }
    }
  }

  /** An attempt that returns hits ends the loop with them, after its one search. */
  lemma RetryFromFound(k: nat, keyword: string, maxImages: int, search: (nat, nat) -> Attempt, attempt: nat)
    requires attempt < MaxRetries && Found(search(k, attempt))
    ensures RetryFrom(k, keyword, maxImages, search, attempt)
      == RetryOutcome(search(k, attempt).hits, [Searched(keyword, maxImages + ExtraResults)])
  {
  }

  /** Any other attempt logs its events and hands over to the next one. */
  lemma RetryFromNext(k: nat, keyword: string, maxImages: int, search: (nat, nat) -> Attempt, attempt: nat, before: seq<RetryEvent>)
    requires attempt < MaxRetries && !Found(search(k, attempt))
    ensures var rest := RetryFrom(k, keyword, maxImages, search, attempt + 1);
      var step := AttemptEvents(keyword, maxImages, search(k, attempt), attempt);
      && RetryFrom(k, keyword, maxImages, search, attempt).hits == rest.hits
      && before + RetryFrom(k, keyword, maxImages, search, attempt).events == (before + step) + rest.events
  {
    var rest := RetryFrom(k, keyword, maxImages, search, attempt + 1);
    var step := AttemptEvents(keyword, maxImages, search(k, attempt), attempt);
    ConcatAssoc(before, step, rest.events);
  }

  /** The retry loop of `download_images`, run against the given search answers. */
  method SearchWithRetry(k: nat, keyword: string, maxImages: int, search: (nat, nat) -> Attempt)
    returns (results: seq<Hit>, events: seq<RetryEvent>)
    ensures RetryOutcome(results, events) == Retry(k, keyword, maxImages, search)
  {
    results := [];
    events := [];
    var attempt: nat := 0;
    ghost var total := Retry(k, keyword, maxImages, search);
    while attempt < MaxRetries
      invariant attempt <= MaxRetries
      invariant results == []
      invariant total.hits == RetryFrom(k, keyword, maxImages, search, attempt).hits
      invariant total.events == events + RetryFrom(k, keyword, maxImages, search, attempt).events
      decreases MaxRetries - attempt
    {
      var answer := search(k, attempt);
      ghost var before := events;
      events := events + [Searched(keyword, maxImages + ExtraResults)];
      if answer.Returned? && answer.hits != [] {
        RetryFromFound(k, keyword, maxImages, search, attempt);
        results := answer.hits;
        return;
      }
      if answer.Raised? {
        ConcatAssoc(before, [Searched(keyword, maxImages + ExtraResults)], Backoff(attempt));
        events := events + Backoff(attempt);
      } else {
        assert [Searched(keyword, maxImages + ExtraResults)] + [] == [Searched(keyword, maxImages + ExtraResults)];
      }
      RetryFromNext(k, keyword, maxImages, search, attempt, before);
      attempt := attempt + 1;
    }
  }

  // ---------------------------------------------------------------------
  // The download loop

  /** How many more files may be saved once `count` are. */
  function Room(maxImages: int, count: nat): nat
  {
    if maxImages - count > 0 then maxImages - count else 0
  }

  /**
   * The download loop from `count` saved files on: stop at the cap, save a
   * hit that downloads under the next number, skip one that fails without
   * using a number, and abort on a hit without an `image` key.
   */
  function DownloadFrom(dir: string, folder: string, hits: seq<Hit>, maxImages: int, count: nat): DownloadOutcome
  {
    if hits == [] || count >= maxImages then DownloadOutcome([], false)
    else match hits[0]
      case NoImageKey => DownloadOutcome([], true)
      case Image(url, ok) =>
        if ok then
          var rest := DownloadFrom(dir, folder, hits[1..], maxImages, count + 1);
          DownloadOutcome([SavedName(dir, folder, count, url)] + rest.saved, rest.aborted)
        else DownloadFrom(dir, folder, hits[1..], maxImages, count)
  }

  /** The URLs that download successfully, in order, up to the first hit without an `image` key. */
  function Downloadable(hits: seq<Hit>): seq<string>
  {
    if hits == [] then []
    else match hits[0]
      case NoImageKey => []
      case Image(url, ok) => (if ok then [url] else []) + Downloadable(hits[1..])
  }

  predicate HasNoImageKey(hits: seq<Hit>)
  {
    exists i :: 0 <= i < |hits| && hits[i].NoImageKey?
  }

  lemma HasNoImageKeyTail(hits: seq<Hit>)
    requires hits != [] && hits[0].Image?
    ensures HasNoImageKey(hits) <==> HasNoImageKey(hits[1..])
  {
    var tail := hits[1..];
    if HasNoImageKey(hits) {
      var i :| 0 <= i < |hits| && hits[i].NoImageKey?;
      assert tail[i - 1].NoImageKey?;
    }
    if HasNoImageKey(tail) {
      var i :| 0 <= i < |tail| && tail[i].NoImageKey?;
      assert hits[i + 1].NoImageKey?;
    }
  }

  /** How many files the loop saves, and when it aborts. */
  lemma {:induction false} DownloadFromCount(dir: string, folder: string, hits: seq<Hit>, maxImages: int, count: nat)
    ensures var d := DownloadFrom(dir, folder, hits, maxImages, count);
      var urls := Downloadable(hits);
      && |d.saved| == Min(Room(maxImages, count), |urls|)
      && (d.aborted <==> HasNoImageKey(hits) && |urls| < Room(maxImages, count))
    decreases |hits|
  {
    if hits != [] && count < maxImages {
      if hits[0].NoImageKey? {
        assert HasNoImageKey(hits);
      } else {
        HasNoImageKeyTail(hits);
        if hits[0].downloads {
          DownloadFromCount(dir, folder, hits[1..], maxImages, count + 1);
        } else {
          DownloadFromCount(dir, folder, hits[1..], maxImages, count);
        }
      }
    }
  }

  /** Putting one more name in front of a list numbered from `count + 1` gives a list numbered from `count`. */
  lemma NumberedShift<T>(name: (nat, T) -> string, count: nat, x: T, more: seq<T>, rest: seq<string>)
    requires |rest| <= |more|
    requires forall i :: 0 <= i < |rest| ==> rest[i] == name(count + 1 + i, more[i])
    ensures var named, xs := [name(count, x)] + rest, [x] + more;
      forall i :: 0 <= i < |named| ==> named[i] == name(count + i, xs[i])
  {
    var named, xs := [name(count, x)] + rest, [x] + more;
    forall i | 0 < i < |named|
      ensures named[i] == name(count + i, xs[i])
    {
      assert named[i] == rest[i - 1];
      assert xs[i] == more[i - 1];
      assert count + i == count + 1 + (i - 1);
    }
  }

  /** Saving one more file in front shifts the numbering of the rest by one. */
  lemma SavedNamesShift(dir: string, folder: string, count: nat, url: string, more: seq<string>, rest: seq<string>)
    requires |rest| <= |more|
    requires forall i :: 0 <= i < |rest| ==> rest[i] == SavedName(dir, folder, count + 1 + i, more[i])
    ensures var saved, urls := [SavedName(dir, folder, count, url)] + rest, [url] + more;
      forall i :: 0 <= i < |saved| ==> saved[i] == SavedName(dir, folder, count + i, urls[i])
  {
    NumberedShift((n, u) => SavedName(dir, folder, n, u), count, url, more, rest);
  }

  /** The saved files are named after the downloadable URLs, in order, numbered from `count`. */
  lemma {:induction false} DownloadFromNames(dir: string, folder: string, hits: seq<Hit>, maxImages: int, count: nat)
    ensures var d := DownloadFrom(dir, folder, hits, maxImages, count);
      var urls := Downloadable(hits);
      |d.saved| <= |urls| && forall i :: 0 <= i < |d.saved| ==> d.saved[i] == SavedName(dir, folder, count + i, urls[i])
    decreases |hits|
  {
    var d := DownloadFrom(dir, folder, hits, maxImages, count);
    if hits != [] && count < maxImages && hits[0].Image? {
      var tail := hits[1..];
      if hits[0].downloads {
        DownloadFromNames(dir, folder, tail, maxImages, count + 1);
        var rest := DownloadFrom(dir, folder, tail, maxImages, count + 1).saved;
        assert d.saved == [SavedName(dir, folder, count, hits[0].url)] + rest;
        assert Downloadable(hits) == [hits[0].url] + Downloadable(tail);
        SavedNamesShift(dir, folder, count, hits[0].url, Downloadable(tail), rest);
      } else {
        DownloadFromNames(dir, folder, tail, maxImages, count);
        assert d == DownloadFrom(dir, folder, tail, maxImages, count);
        assert Downloadable(hits) == Downloadable(tail);
      }
    } else {
      assert d.saved == [];
    }
  }

  /**
   * What the download loop saves, stated without the loop: the successful
   * URLs, cut at the cap, numbered consecutively from `count`; it aborts
   * exactly when a hit without `image` is reached before the cap.
   */
  lemma DownloadFromSaves(dir: string, folder: string, hits: seq<Hit>, maxImages: int, count: nat)
    ensures var d := DownloadFrom(dir, folder, hits, maxImages, count);
      var urls := Downloadable(hits);
      && |d.saved| == Min(Room(maxImages, count), |urls|)
      && (forall i :: 0 <= i < |d.saved| ==> d.saved[i] == SavedName(dir, folder, count + i, urls[i]))
      && (d.aborted <==> HasNoImageKey(hits) && |urls| < Room(maxImages, count))
  {
    DownloadFromCount(dir, folder, hits, maxImages, count);
    DownloadFromNames(dir, folder, hits, maxImages, count);
  }

  /** `count` never passes `max_images`: at most `max_images` files per keyword (none when it is not positive). */
  lemma DownloadBounded(dir: string, folder: string, hits: seq<Hit>, maxImages: int)
    ensures |DownloadFrom(dir, folder, hits, maxImages, 0).saved| <= Room(maxImages, 0)
  {
    DownloadFromSaves(dir, folder, hits, maxImages, 0);
  }

  /** The files saved for one keyword have pairwise different paths: their counts differ. */
  lemma SavedPathsDistinct(dir: string, folder: string, hits: seq<Hit>, maxImages: int)
    ensures var saved := DownloadFrom(dir, folder, hits, maxImages, 0).saved;
      forall i, j :: 0 <= i < j < |saved| ==> saved[i] != saved[j]
  {
    var saved := DownloadFrom(dir, folder, hits, maxImages, 0).saved;
    var urls := Downloadable(hits);
    DownloadFromSaves(dir, folder, hits, maxImages, 0);
    forall i, j | 0 <= i < j < |saved|
      ensures saved[i] != saved[j]
    {
      if saved[i] == saved[j] {
        FileNamesDistinct(dir, folder, i, j, Extension(urls[i]), Extension(urls[j]));
      }
    }
  }

  /** The download loop of `download_images`, run against the given download outcomes. */
  method DownloadHits(dir: string, folder: string, hits: seq<Hit>, maxImages: int)
    returns (saved: seq<string>, aborted: bool)
    ensures DownloadOutcome(saved, aborted) == DownloadFrom(dir, folder, hits, maxImages, 0)
  {
    saved := [];
    aborted := false;
    var count: nat := 0;
    var i := 0;
    while i < |hits|
      invariant 0 <= i <= |hits|
      invariant !aborted
      invariant DownloadFrom(dir, folder, hits, maxImages, 0).saved == saved + DownloadFrom(dir, folder, hits[i..], maxImages, count).saved
      invariant DownloadFrom(dir, folder, hits, maxImages, 0).aborted == DownloadFrom(dir, folder, hits[i..], maxImages, count).aborted
    {
      if count >= maxImages {
        break;
      }
      match hits[i] {
        case NoImageKey =>
          aborted := true;
          break;
        case Image(url, ok) =>
          if ok {
            saved := saved + [Join(dir, FileName(folder, count, Extension(url)))];
            count := count + 1;
          }
      }
      assert hits[i..][1..] == hits[i + 1..];
      i := i + 1;
    }
  }

  // ---------------------------------------------------------------------
  // Whole keywords

  /** Everything keyword number `k` does. */
  function KeywordRun(k: nat, keyword: string, maxImages: int, baseDir: Option<string>, search: (nat, nat) -> Attempt): KeywordReport
  {
    var folder := FolderName(keyword);
    var dir := SaveDir(baseDir, folder);
    var r := Retry(k, keyword, maxImages, search);
    if r.hits == [] then KeywordReport(dir, r.events, [], NoResults)
    else
      var d := DownloadFrom(dir, folder, r.hits, maxImages, 0);
      KeywordReport(dir, r.events, d.saved, if d.aborted then Aborted else Finished)
  }

  /** A keyword whose three attempts all fail or come back empty downloads nothing; otherwise downloads start from the first non-empty answer. */
  lemma KeywordWithoutResults(k: nat, keyword: string, maxImages: int, baseDir: Option<string>, search: (nat, nat) -> Attempt)
    ensures var rep := KeywordRun(k, keyword, maxImages, baseDir, search);
      && (rep.ending == NoResults <==> forall a :: 0 <= a < MaxRetries ==> !Found(search(k, a)))
      && (rep.ending == NoResults ==> rep.saved == [] && CountSearches(rep.events) == MaxRetries)
  {
    RetryFromFindsFirst(k, keyword, maxImages, search, 0);
  }

  method DownloadKeyword(k: nat, keyword: string, maxImages: int, baseDir: Option<string>, search: (nat, nat) -> Attempt)
    returns (report: KeywordReport)
    ensures report == KeywordRun(k, keyword, maxImages, baseDir, search)
  {
    var folder := FolderName(keyword);
    var dir := SaveDir(baseDir, folder);
    var results, events := SearchWithRetry(k, keyword, maxImages, search);
    if results == [] {
      return KeywordReport(dir, events, [], NoResults);
    }
    var saved, aborted := DownloadHits(dir, folder, results, maxImages);
    report := KeywordReport(dir, events, saved, if aborted then Aborted else Finished);
  }

  /** `download_images(keywords, max_images, base_dir)`: one report per keyword, in order; `count` starts afresh for each. */
  method DownloadAll(keywords: seq<string>, maxImages: int, baseDir: Option<string>, search: (nat, nat) -> Attempt)
    returns (reports: seq<KeywordReport>)
    ensures |reports| == |keywords|
    ensures forall k :: 0 <= k < |keywords| ==> reports[k] == KeywordRun(k, keywords[k], maxImages, baseDir, search)
  {
    ghost var expected := seq(|keywords|, j requires 0 <= j < |keywords| => KeywordRun(j, keywords[j], maxImages, baseDir, search));
    reports := [];
    var k := 0;
    while k < |keywords|
      invariant 0 <= k <= |keywords|
      invariant reports == expected[..k]
    {
      var report := DownloadKeyword(k, keywords[k], maxImages, baseDir, search);
      assert expected[..k + 1] == expected[..k] + [report];
      reports := reports + [report];
      k := k + 1;
    }
    assert reports == expected;
  }
}
