/**
 * The decisions of the `result` and `status` views of `tib/views.py`: which
 * response a text submission gets and how a project-status tuple becomes a
 * progress report. Writing files, creating the project, fetching pages,
 * the URL validator and reading the markers are outside the model; the
 * validator is a parameter.
 */
module Views {
  import opened Common
  import Utils

  // ---------------------------------------------------------------------
  // Python string operations
  // ---------------------------------------------------------------------

  /** `s.startswith(w)`. */
  predicate StartsWith(s: string, w: string) {
    |w| <= |s| && s[..|w|] == w
  }

  /** `w` occurs in `s` starting at index `k`. */
  predicate OccursAt(s: string, w: string, k: int) {
    0 <= k && k + |w| <= |s| && s[k..k + |w|] == w
  }

  /** `w in s`. */
  predicate Contains(s: string, w: string) {
    exists k :: 0 <= k <= |s| - |w| && OccursAt(s, w, k)
  }

  /** `s.replace('https://', 'http://')`: occurrences replaced left to right, without overlap. */
  function ReplaceHttps(s: string): string
    decreases |s|
  {
    if |s| < 8 then s
    else if s[..8] == "https://" then "http://" + ReplaceHttps(s[8..])
    else [s[0]] + ReplaceHttps(s[1..])
  }

  /** A replaced string begins with text free of 'h' only if the original began with it. */
  lemma {:induction false} PrefixWithoutH(t: string, w: string)
    requires 'h' !in w
    ensures StartsWith(ReplaceHttps(t), w) ==> StartsWith(t, w)
    decreases |t|
  {
    if |w| == 0 {
      assert t[..0] == w;
    } else if |t| < 8 {
      assert ReplaceHttps(t) == t;
    } else if t[..8] != "https://" {
      var r := ReplaceHttps(t[1..]);
      assert ReplaceHttps(t) == [t[0]] + r;
      PrefixWithoutH(t[1..], w[1..]);
      if StartsWith(ReplaceHttps(t), w) {
        assert r[..|w| - 1] == w[1..];
        assert t[..|w|] == [t[0]] + t[1..][..|w| - 1];
      }
    } else {
      assert ReplaceHttps(t)[0] == 'h';
      assert w[0] in w;
    }
  }

  /** `http://` followed by text without `https://` has no `https://` either. */
  lemma HttpPrefixAddsNoHttps(v: string)
    requires !Contains(v, "https://")
    ensures !Contains("http://" + v, "https://")
  {
    var s := "http://" + v;
    forall k | 0 <= k <= |s| - 8
      ensures !OccursAt(s, "https://", k)
    {
      if k == 0 {
        assert s[k..k + 8][4] == ':';
      } else if k < 7 {
        assert s[k..k + 8][0] == "http://"[k] != 'h';
      } else {
        assert s[k..k + 8] == v[k - 7..k + 1];
        assert !OccursAt(v, "https://", k - 7);
      }
    }
  }

  /** After the replacement no `https://` is left. */
  lemma {:induction false} ReplaceHttpsRemovesAll(s: string)
    ensures !Contains(ReplaceHttps(s), "https://")
    decreases |s|
  {
    if |s| >= 8 {
      if s[..8] == "https://" {
        ReplaceHttpsRemovesAll(s[8..]);
        HttpPrefixAddsNoHttps(ReplaceHttps(s[8..]));
      } else {
        var r := ReplaceHttps(s[1..]);
        ReplaceHttpsRemovesAll(s[1..]);
        var out := [s[0]] + r;
        assert ReplaceHttps(s) == out;
        forall k | 0 <= k <= |out| - 8
          ensures !OccursAt(out, "https://", k)
        {
          if k == 0 {
            if out[..8] == "https://" {
              assert out[1..8] == out[..8][1..8] == "ttps://";
              assert r[..7] == out[1..8];
              PrefixWithoutH(s[1..], "ttps://");
            }
          } else {
            assert out[k..k + 8] == r[k - 1..k + 7];
            assert !OccursAt(r, "https://", k - 1);
          }
        }
      }
    }
  }

  /** Text without `https://` comes through the replacement unchanged. */
  lemma {:induction false} ReplaceHttpsKeepsClean(s: string)
    requires !Contains(s, "https://")
    ensures ReplaceHttps(s) == s
    decreases |s|
  {
    if |s| >= 8 {
      assert !OccursAt(s, "https://", 0);
      assert s[0..8] == s[..8];
      forall k | 0 <= k <= |s[1..]| - 8
        ensures !OccursAt(s[1..], "https://", k)
      {
        assert s[1..][k..k + 8] == s[k + 1..k + 9];
        assert !OccursAt(s, "https://", k + 1);
      }
      ReplaceHttpsKeepsClean(s[1..]);
      assert [s[0]] + s[1..] == s;
    }
  }

  // ---------------------------------------------------------------------
  // `result` (lines 24-73)
  // ---------------------------------------------------------------------

  /** The submitted form: whether it came by POST and its fields. */
  datatype Request = Request(isPost: bool, post: map<string, string>)

  /** The response `result` gives, or the step it goes on to. */
  datatype Submission =
    | BadRequest               // line 73: only POST is accepted
    | TextError                // line 34: pasted text of the wrong length
    | WikiError                // lines 47 and 53: a link the site does not take
    | FromText(text: string)   // lines 55-71: a project is created from the text
    | FromWiki(url: string)    // lines 50-51, then 55-71: the page is fetched and used
    | MissingField(key: string) // line 37: neither field present, the lookup raises

  const MinText := 5000
  const MaxText := 105000

  /** Lines 37-40: `https://` becomes `http://`, and `http://` is added in front when missing. */
  function NormaliseUrl(url: string): (r: string)
    ensures StartsWith(r, "http://")
    ensures !Contains(r, "https://")
  {
    var replaced := ReplaceHttps(url);
    ReplaceHttpsRemovesAll(url);
    if StartsWith(replaced, "http://") then replaced
    else
      HttpPrefixAddsNoHttps(replaced);
      "http://" + replaced
  }

  /** Normalising twice changes nothing more, and a normal link is left as it is. */
  lemma NormaliseUrlIdempotent(url: string)
    ensures NormaliseUrl(NormaliseUrl(url)) == NormaliseUrl(url)
    ensures StartsWith(url, "http://") && !Contains(url, "https://") ==> NormaliseUrl(url) == url
  {
    ReplaceHttpsKeepsClean(NormaliseUrl(url));
    if StartsWith(url, "http://") && !Contains(url, "https://") {
      ReplaceHttpsKeepsClean(url);
    }
  }

  /** An `https` link becomes the same link over `http`. */
  lemma NormaliseUrlDowngradesHttps(rest: string)
    requires !Contains(rest, "https://")
    ensures NormaliseUrl("https://" + rest) == "http://" + rest
  {
    var s := "https://" + rest;
    assert s[..8] == "https://" && s[8..] == rest;
    ReplaceHttpsKeepsClean(rest);
    assert ReplaceHttps(s) == "http://" + rest;
    assert ("http://" + rest)[..7] == "http://";
  }

  /** Lines 28-53: the decision `result` makes about a request. */
  function Submit(req: Request, isValidUrl: string -> bool): (r: Submission)
    ensures r == BadRequest <==> !req.isPost
    ensures r.FromText? <==>
              req.isPost && "text_content" in req.post && MinText <= |req.post["text_content"]| <= MaxText
    ensures r.FromText? ==> r.text == req.post["text_content"]
    ensures r == TextError <==>
              req.isPost && "text_content" in req.post && !(MinText <= |req.post["text_content"]| <= MaxText)
    ensures r.FromWiki? ==>
              && req.isPost && "text_content" !in req.post && "wiki_url" in req.post
              && r.url == NormaliseUrl(req.post["wiki_url"]) && isValidUrl(r.url)
              && StartsWith(r.url, "http://") && Contains(r.url, "wikipedia.org/wiki/")
    ensures r.MissingField? <==> req.isPost && "text_content" !in req.post && "wiki_url" !in req.post
  {
    if !req.isPost then BadRequest
    else if "text_content" in req.post then
      var text := req.post["text_content"];
      if |text| < MinText || |text| > MaxText then TextError else FromText(text)
    else if "wiki_url" !in req.post then MissingField("wiki_url")
    else
      var url := NormaliseUrl(req.post["wiki_url"]);
      if !isValidUrl(url) then WikiError
      else if Contains(url, "wikipedia.org/wiki/") then FromWiki(url)
      else WikiError
  }

  /** A valid link is refused exactly when it does not point into `wikipedia.org/wiki/`. */
  lemma WikiLinksOnly(req: Request, isValidUrl: string -> bool)
    requires req.isPost && "text_content" !in req.post && "wiki_url" in req.post
    requires isValidUrl(NormaliseUrl(req.post["wiki_url"]))
    ensures Submit(req, isValidUrl) == WikiError <==> !Contains(NormaliseUrl(req.post["wiki_url"]), "wikipedia.org/wiki/")
  {
  }

  // ---------------------------------------------------------------------
  // `status` (lines 75-101)
  // ---------------------------------------------------------------------

  /** The tuple `get_project_status` returns: stage name, stage state, message, project link. */
  datatype ProjectStatus = ProjectStatus(stage: Option<string>, state: Option<string>, message: Option<string>, href: string)

  /** What the call at line 82 produced. */
  datatype StatusFetch =
    | FetchFailed                  // it raised ResourceError
    | NoResult                     // a false value
    | Fetched(status: ProjectStatus)

  /** The response `status` gives. */
  datatype StatusReply =
    | FetchError                                // line 84
    | Running(progress: int, completed: bool)   // lines 87 and 101
    | Finished(markers: Utils.Concepts)         // lines 88-96: progress 100, completed, with the markers
    | MapRaised(error: Utils.PyError)           // line 91: `get_concepts` raised
    | ProjectFailed(message: Option<string>)    // line 99
    | UnknownStage(stage: Option<string>)       // line 101: the stage is no key of STATUS_MAP

  function Progress(r: StatusReply): Option<int> {
    match r
    case Running(progress, _) => Some(progress)
    case Finished(_) => Some(100)
    case _ => None
  }

  function Completed(r: StatusReply): bool {
    r.Finished? || (r.Running? && r.completed)
  }

  /** A stage other than MAP that STATUS_MAP knows. */
  predicate KnownStage(status: ProjectStatus) {
    status.stage != Some("MAP") && status.stage.Some? && status.stage.value in Utils.StatusMap
  }

  /**
   * Lines 81-101. `markers` is the document `get_markers` returns for the
   * finished project; only the MAP branch reads it.
   */
  function Status(fetch: StatusFetch, p: Utils.Parsers, markers: Utils.Element): (r: StatusReply)
    ensures fetch.FetchFailed? <==> r == FetchError
    ensures fetch.NoResult? ==> r == Running(0, false)
    ensures r.Finished? <==> fetch.Fetched? && fetch.status.stage == Some("MAP") && Utils.Converted(p, markers).Ok?
    ensures r.Finished? ==> r.markers == Utils.Converted(p, markers).value
    ensures r.MapRaised? <==> fetch.Fetched? && fetch.status.stage == Some("MAP") && Utils.Converted(p, markers).Err?
    ensures r.MapRaised? ==> r.error == Utils.Converted(p, markers).error
    ensures r.ProjectFailed? <==> fetch.Fetched? && fetch.status.stage != Some("MAP") && fetch.status.state == Some("error")
    ensures r.ProjectFailed? ==> r.message == fetch.status.message
    ensures fetch.Fetched? && fetch.status.state != Some("error") && KnownStage(fetch.status) ==>
              r == Running(Utils.StatusMap[fetch.status.stage.value], false)
    ensures r.Running? ==> !Completed(r) && (Progress(r) == Some(0) || 11 <= Progress(r).value <= 90)
    ensures r.Running? && Progress(r) != Some(0) ==>
              fetch.Fetched? && KnownStage(fetch.status) && Progress(r) == Some(Utils.StatusMap[fetch.status.stage.value])
    ensures r.UnknownStage? <==>
              && fetch.Fetched? && fetch.status.stage != Some("MAP") && fetch.status.state != Some("error")
              && !KnownStage(fetch.status)
  {
    Utils.StatusMapAscends();
    match fetch
    case FetchFailed => FetchError
    case NoResult => Running(0, false)
    case Fetched(status) =>
      if status.stage == Some("MAP") then
        match Utils.Converted(p, markers)
        case Ok(concepts) => Finished(concepts)
        case Err(e) => MapRaised(e)
      else if status.state == Some("error") then ProjectFailed(status.message)
      else if KnownStage(status) then Running(Utils.StatusMap[status.stage.value], false)
      else UnknownStage(status.stage)
  }

  /**
   * The MAP stage is checked before the error state, so a finished map is
   * reported even when the state says error.
   */
  lemma MapBeforeError(status: ProjectStatus, p: Utils.Parsers, markers: Utils.Element)
    requires status.stage == Some("MAP") && status.state == Some("error")
    ensures !Status(Fetched(status), p, markers).ProjectFailed?
    ensures Utils.Converted(p, markers).Ok? ==>
              Completed(Status(Fetched(status), p, markers)) && Progress(Status(Fetched(status), p, markers)) == Some(100)
  {
  }

  /**
   * A finished project whose markers document has an `mst` element before
   * any `markers` element, with a node that has edges, is not reported as
   * finished: `get_concepts` raises, a KeyError unless an earlier element
   * already raised.
   */
  lemma MstFirstMapRaises(status: ProjectStatus, p: Utils.Parsers, markers: Utils.Element, i: nat, j: nat, id: int)
    requires status.stage == Some("MAP")
    requires i < |markers.children| && markers.children[i].tag == "mst"
    requires forall k :: 0 <= k < i ==> markers.children[k].tag != "markers"
    requires var nodes := markers.children[i].children;
             && j < |nodes| && Utils.EdgeFree(nodes[..j])
             && nodes[j].children != [] && nodes[j].children[0].children != []
             && Utils.IntAttr(p, nodes[j], "id") == Ok(id)
    ensures Status(Fetched(status), p, markers).MapRaised?
    ensures Utils.FoldOk(Utils.MarkerStepWith(p), Utils.NoConcepts, markers.children[..i]).Ok? ==>
              Status(Fetched(status), p, markers) == MapRaised(Utils.IdKeyError(id))
  {
    Utils.MstBeforeMarkersFails(p, markers, i, j, id);
  }

  /** A later stage reports a larger progress than an earlier one. */
  lemma ProgressFollowsStages(a: ProjectStatus, b: ProjectStatus, i: nat, j: nat, p: Utils.Parsers, markers: Utils.Element)
    requires i < j < |Utils.Stages|
    requires a.stage == Some(Utils.Stages[i]) && b.stage == Some(Utils.Stages[j])
    requires a.state != Some("error") && b.state != Some("error")
    ensures Status(Fetched(a), p, markers).Running? && Status(Fetched(b), p, markers).Running?
    ensures Progress(Status(Fetched(a), p, markers)).value < Progress(Status(Fetched(b), p, markers)).value
  {
    Utils.StatusMapAscends();
  }
}
