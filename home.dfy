/**
 * The prediction page (frontend/src/Home.jsx): its five pieces of React
 * state, the handlers that change them, the enabling conditions of its two
 * buttons and the "Other Possibilities" ranking.
 *
 * Each async handler is split at its `await`: a `Handle…` method runs the
 * part before the request is sent (guard, `setLoading(true)`) and returns
 * the request, and `ReceiveReply` runs the rest once the reply (or the
 * connection failure) arrives, ending with the `finally` that clears
 * `loading`. Other events may happen in between, as in the browser.
 */
module Home {
  import opened Wrappers
  import opened Ranking

  /** A file picked in the file input; its bytes are not modelled. */
  datatype ImageFile = ImageFile(name: string)

  /** What the preview `<img>` shows: an object URL of a picked file, or a typed URL. */
  datatype Preview = FromFile(file: ImageFile) | FromUrl(url: string)

  /** The JSON body of a successful POST /predict: `class`, `confidence`, `all_probs` (in the order the server sent). */
  datatype Prediction = Prediction(species: string, confidence: real, allProbs: seq<Scored>)

  /** How `fetch` and `response.json()` end: an OK reply, a non-OK reply with its `error`, or a thrown error. */
  datatype Reply = Ok(data: Prediction) | NotOk(error: string) | ConnectFailure

  /** The request sent to POST /predict: a multipart file or a JSON `{url}`. */
  datatype Request = PredictFile(file: ImageFile) | PredictUrl(url: string)

  const ConnectFailureAlert: string := "Failed to connect to the server."

  /** The alert a reply raises, if any. */
  function AlertFor(reply: Reply): (alert: Option<string>)
    ensures alert.None? <==> reply.Ok?
    ensures reply.NotOk? ==> alert == Some("Error: " + reply.error)
    ensures reply.ConnectFailure? ==> alert == Some(ConnectFailureAlert)
  {
    match reply
    case Ok(_) => None
    case NotOk(error) => Some("Error: " + error)
    case ConnectFailure => Some(ConnectFailureAlert)
  }

  /** The "Other Possibilities" list: the four best entries of `all_probs`, best first. */
  function OtherPossibilities(data: Prediction): (r: seq<Scored>)
    ensures |r| == Min(4, |data.allProbs|)
    ensures NonIncreasing(r)
    ensures multiset(r) <= multiset(data.allProbs)
  {
    Top(data.allProbs, 4)
  }

  /** Entries left out of the list never score above one that is listed. */
  lemma OtherPossibilitiesAreBest(data: Prediction)
    ensures forall e, t :: e in data.allProbs && e !in OtherPossibilities(data) && t in OtherPossibilities(data)
              ==> e.prob <= t.prob
  {
    TopDominates(data.allProbs, 4);
  }

  /** The list is the first four of the stable sort: equal scores keep their `all_probs` order. */
  lemma OtherPossibilitiesStable(data: Prediction, sorted: seq<Scored>)
    requires NonIncreasing(sorted) && SameTies(sorted, data.allProbs)
    ensures |sorted| == |data.allProbs| && OtherPossibilities(data) == sorted[..Min(4, |data.allProbs|)]
  {
    TopIsStablePrefix(data.allProbs, 4, sorted);
  }

  /** The winning class is not filtered out: when it strictly beats every other entry it heads the list. */
  lemma WinnerHeadsOtherPossibilities(data: Prediction)
    requires Scored(data.species, data.confidence) in data.allProbs
    requires forall e :: e in data.allProbs && e != Scored(data.species, data.confidence) ==> e.prob < data.confidence
    ensures OtherPossibilities(data) != [] && OtherPossibilities(data)[0] == Scored(data.species, data.confidence)
  {
    TopHeadIsMaximum(data.allProbs, 4);
  }

  class HomePage {
    var file: Option<ImageFile>
    var preview: Option<Preview>
    var imageUrl: string
    var result: Option<Prediction>
    var loading: bool
    /** The request whose `await` has not resumed yet. */
    var inFlight: Option<Request>

    /** A file and a URL are never both chosen; `loading` is set exactly while a request is in flight. */
    ghost predicate Valid()
      reads this
    {
      && !(file.Some? && imageUrl != "")
      && (loading <==> inFlight.Some?)
    }

    constructor ()
      ensures Valid()
      ensures file == None && preview == None && imageUrl == "" && result == None
      ensures !loading && inFlight == None
    {
      file := None;
      preview := None;
      imageUrl := "";
      result := None;
      loading := false;
      inFlight := None;
    }

    /** `disabled={!file || loading}` on "Identify Leaf". */
    predicate IdentifyEnabled()
      reads this
    {
      file.Some? && !loading
    }

    /** `disabled={!imageUrl || loading}` on "Go". */
    predicate GoEnabled()
      reads this
    {
      imageUrl != "" && !loading
    }

    /** `handleFileChange`: `selected` is `e.target.files[0]`, None when the picker was dismissed. */
    method HandleFileChange(selected: Option<ImageFile>)
      requires Valid()
      modifies this
      ensures Valid()
      ensures selected.None? ==> unchanged(this)
      ensures selected.Some? ==>
        && file == selected && imageUrl == "" && preview == Some(FromFile(selected.value)) && result == None
        && loading == old(loading) && inFlight == old(inFlight)
    {
      if selected.Some? {
        file := selected;
        imageUrl := "";
        preview := Some(FromFile(selected.value));
        result := None;
      }
    }

    /** The URL input's `onChange`: an empty value leaves the preview as it was. */
    method HandleUrlChange(value: string)
      requires Valid()
      modifies this
      ensures Valid()
      ensures imageUrl == value && file == None
      ensures preview == if value != "" then Some(FromUrl(value)) else old(preview)
      ensures result == old(result) && loading == old(loading) && inFlight == old(inFlight)
    {
      imageUrl := value;
      file := None;
      if value != "" {
        preview := Some(FromUrl(value));
      }
    }

    /**
     * `handleUpload` up to its `await`: nothing without a file, otherwise
     * `loading` goes up and the file is sent. Its only caller is the
     * "Identify Leaf" button, which is disabled while loading.
     */
    method HandleUpload() returns (sent: Option<Request>)
      requires Valid() && !loading
      modifies this
      ensures Valid()
      ensures old(file).None? ==> sent.None? && unchanged(this)
      ensures old(file).Some? ==> sent == Some(PredictFile(old(file).value)) && loading && inFlight == sent
      ensures file == old(file) && imageUrl == old(imageUrl) && preview == old(preview) && result == old(result)
      ensures sent.Some? ==> !IdentifyEnabled() && !GoEnabled()
    {
      if file.None? {
        return None;
      }
      loading := true;
      sent := Some(PredictFile(file.value));
      inFlight := sent;
    }

    /** `handleUrlUpload` up to its `await`: nothing with an empty URL, otherwise `loading` goes up and the URL is sent. */
    method HandleUrlUpload() returns (sent: Option<Request>)
      requires Valid() && !loading
      modifies this
      ensures Valid()
      ensures old(imageUrl) == "" ==> sent.None? && unchanged(this)
      ensures old(imageUrl) != "" ==> sent == Some(PredictUrl(old(imageUrl))) && loading && inFlight == sent
      ensures file == old(file) && imageUrl == old(imageUrl) && preview == old(preview) && result == old(result)
      ensures sent.Some? ==> !IdentifyEnabled() && !GoEnabled()
    {
      if imageUrl == "" {
        return None;
      }
      loading := true;
      sent := Some(PredictUrl(imageUrl));
      inFlight := sent;
    }

    /**
     * The rest of either upload handler once the reply is in: the result is
     * replaced only by an OK reply, any other outcome raises an alert, and
     * the `finally` always clears `loading`.
     */
    method ReceiveReply(reply: Reply) returns (alert: Option<string>)
      requires Valid() && loading
      modifies this
      ensures Valid() && !loading && inFlight.None?
      ensures result == if reply.Ok? then Some(reply.data) else old(result)
      ensures alert == AlertFor(reply)
      ensures file == old(file) && imageUrl == old(imageUrl) && preview == old(preview)
    {
      alert := None;
      match reply {
        case Ok(data) =>
          result := Some(data);
        case NotOk(error) =>
          alert := Some("Error: " + error);
        case ConnectFailure =>
          alert := Some(ConnectFailureAlert);
      }
      loading := false;
      inFlight := None;
    }
  }

  /** The two buttons are never enabled together, since a file and a URL are never both chosen. */
  lemma ButtonsExclusive(page: HomePage)
    requires page.Valid()
    ensures !(page.IdentifyEnabled() && page.GoEnabled())
  {
  }

  /** A whole identification by file: the page ends idle whatever the reply, with the result replaced only on success. */
  method IdentifyByFile(page: HomePage, reply: Reply) returns (alert: Option<string>)
    requires page.Valid() && !page.loading && page.file.Some?
    modifies page
    ensures page.Valid() && !page.loading
    ensures page.result == if reply.Ok? then Some(reply.data) else old(page.result)
    ensures page.file == old(page.file) && page.imageUrl == old(page.imageUrl)
  {
    var sent := page.HandleUpload();
    alert := page.ReceiveReply(reply);
  }
}
