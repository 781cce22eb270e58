/** Searching every registered subtitle engine and merging what they return
    (main.go: OSDBSearch, PodnapisiSearch, SearchSubs, languageAdaptation).
    The two engines' network clients are not modelled: an OpenSubtitles client
    is the outcome of each of its calls, and the Podnapisi library search is a
    function from the search parameters to its outcome. */
module Providers {
  import opened Common

  /** `languageAdaptation`: language codes as OpenSubtitles expects them. */
  const LanguageAdaptation: map<string, string> :=
    map["en" := "eng", "pl" := "pol", "pol" := "pol", "ro" := "ro", "all" := "all"]

  /** The OpenSubtitles language for a code: the table's entry when there is
      one, otherwise the code itself (unmapped codes are not rejected). */
  function AdaptLanguage(code: string): (r: string)
    ensures code in LanguageAdaptation ==> r == LanguageAdaptation[code]
    ensures code !in LanguageAdaptation ==> r == code
  {
    if code in LanguageAdaptation then LanguageAdaptation[code] else code
  }

  /** Adapting an adapted code changes nothing: every value of the table is
      either unmapped or mapped to itself. */
  lemma AdaptLanguageIdempotent(code: string)
    ensures AdaptLanguage(AdaptLanguage(code)) == AdaptLanguage(code)
  {
    assert "eng" !in LanguageAdaptation;
  }

  /** The filter map of one OpenSubtitles search request. */
  function OsdbSearchParams(p: ShowSearchParams): (m: map<string, string>)
    ensures "query" in m && m["query"] == p.name
    ensures "sublanguageid" in m && m["sublanguageid"] == AdaptLanguage(p.language)
    ensures "season" in m <==> p.season != RequiredIntNotPassed
    ensures "season" in m ==> m["season"] == p.season
    ensures "episode" in m <==> p.episode != RequiredIntNotPassed
    ensures "episode" in m ==> m["episode"] == p.episode
    ensures m.Keys <= {"query", "sublanguageid", "season", "episode"}
  {
    var base := map["query" := p.name, "sublanguageid" := AdaptLanguage(p.language)];
    var withSeason := if p.season != RequiredIntNotPassed then base["season" := p.season] else base;
    if p.episode != RequiredIntNotPassed then withSeason["episode" := p.episode] else withSeason
  }

  /** The fields of an OpenSubtitles search hit that the tool reads. */
  datatype OsdbSubtitle = OsdbSubtitle(
    movieReleaseName: string,
    seriesSeason: string,
    seriesEpisode: string,
    languageName: string,
    zipDownloadLink: string)

  /** An OpenSubtitles client, given by what each of its calls returns:
      creating it, logging in, and searching with a filter map. */
  datatype OsdbClient = OsdbClient(
    newClient: Outcome,
    logIn: Outcome,
    searchSubtitles: map<string, string> -> Result<seq<OsdbSubtitle>>)

  /** A registered search engine. */
  datatype Engine =
    | OsdbEngine(client: OsdbClient)
    | PodnapisiEngine(search: ShowSearchParams -> Result<seq<Subtitle>>)

  /** `subtitleSearchEngines`: whatever the parameters, the OpenSubtitles
      search is asked first and the Podnapisi search second. */
  function SubtitleSearchEngines(
    client: OsdbClient, podnapisiSearch: ShowSearchParams -> Result<seq<Subtitle>>): (engines: seq<Engine>)
    ensures forall p :: Outcomes(engines, p) == [OsdbOutcome(client, p), podnapisiSearch(p)]
  {
    [OsdbEngine(client), PodnapisiEngine(podnapisiSearch)]
  }

  function FromOsdb(sub: OsdbSubtitle): Subtitle {
    Subtitle(sub.movieReleaseName, [sub.movieReleaseName], sub.seriesSeason,
             sub.seriesEpisode, sub.languageName, sub.zipDownloadLink)
  }

  function FromOsdbAll(subz: seq<OsdbSubtitle>): seq<Subtitle> {
    seq(|subz|, i requires 0 <= i < |subz| => FromOsdb(subz[i]))
  }

  /** Converts OpenSubtitles hits into canonical subtitles, one for one and in
      order. */
  method ToCanonical(subz: seq<OsdbSubtitle>) returns (out: seq<Subtitle>)
    ensures |out| == |subz|
    ensures forall i :: 0 <= i < |subz| ==>
      && out[i].title == subz[i].movieReleaseName
      && out[i].releases == [subz[i].movieReleaseName]
      && out[i].season == subz[i].seriesSeason
      && out[i].episode == subz[i].seriesEpisode
      && out[i].language == subz[i].languageName
      && out[i].url == subz[i].zipDownloadLink
    ensures out == FromOsdbAll(subz)
  {
    out := [];
    for i := 0 to |subz|
      invariant out == FromOsdbAll(subz[..i])
    {
      out := out + [FromOsdb(subz[i])];
    }
    assert subz[..|subz|] == subz;
  }

  /** What one OpenSubtitles search returns: the error of the first step that
      fails, or the converted hits. */
  function OsdbOutcome(client: OsdbClient, p: ShowSearchParams): Result<seq<Subtitle>> {
    if client.newClient.Fail? then Err(client.newClient.error)
    else if client.logIn.Fail? then Err(client.logIn.error)
    else match client.searchSubtitles(OsdbSearchParams(p))
      case Err(e) => Err(e)
      case Ok(subz) => Ok(FromOsdbAll(subz))
  }

  /** `OSDBSearch.Search`. */
  method OsdbSearch(client: OsdbClient, p: ShowSearchParams) returns (r: Result<seq<Subtitle>>)
    ensures r.Ok? <==>
      client.newClient.Pass? && client.logIn.Pass? && client.searchSubtitles(OsdbSearchParams(p)).Ok?
    ensures r.Ok? ==> |r.value| == |client.searchSubtitles(OsdbSearchParams(p)).value|
    ensures client.newClient.Fail? ==> r == Err(client.newClient.error)
    ensures client.newClient.Pass? && client.logIn.Fail? ==> r == Err(client.logIn.error)
    ensures r == OsdbOutcome(client, p)
  {
    if client.newClient.Fail? {
      return Err(client.newClient.error);
    }
    if client.logIn.Fail? {
      return Err(client.logIn.error);
    }
    var osdbSearchParams := OsdbSearchParams(p);
    var response := client.searchSubtitles(osdbSearchParams);
    if response.Err? {
      return Err(response.error);
    }
    var converted := ToCanonical(response.value);
    return Ok(converted);
  }

  /** What one engine returns for the parameters. */
  function EngineOutcome(e: Engine, p: ShowSearchParams): Result<seq<Subtitle>> {
    match e
    case OsdbEngine(client) => OsdbOutcome(client, p)
    case PodnapisiEngine(search) => search(p)
  }

  /** `SubtitleSearcher.Search`, dispatched on the engine. */
  method Search(e: Engine, p: ShowSearchParams) returns (r: Result<seq<Subtitle>>)
    ensures r == EngineOutcome(e, p)
  {
    match e
    case OsdbEngine(client) =>
      r := OsdbSearch(client, p);
    case PodnapisiEngine(search) =>
      r := search(p);
  }

  /** The outcomes of all engines, in registration order. */
  function Outcomes(engines: seq<Engine>, p: ShowSearchParams): (outs: seq<Result<seq<Subtitle>>>)
    ensures |outs| == |engines|
  {
    seq(|engines|, i requires 0 <= i < |engines| => EngineOutcome(engines[i], p))
  }

  /** What one outcome adds to the merged list. */
  function Contribution(o: Result<seq<Subtitle>>): seq<Subtitle> {
    if o.Ok? then o.value else []
  }

  /** The successful lists, concatenated in order. */
  function Merged(outs: seq<Result<seq<Subtitle>>>): seq<Subtitle>
    decreases |outs|
  {
    if |outs| == 0 then []
    else Merged(outs[..|outs| - 1]) + Contribution(outs[|outs| - 1])
  }

  /** The failure messages, in order. */
  function Failures(outs: seq<Result<seq<Subtitle>>>): seq<string>
    decreases |outs|
  {
    if |outs| == 0 then []
    else Failures(outs[..|outs| - 1]) + (if outs[|outs| - 1].Err? then [outs[|outs| - 1].error] else [])
  }

  /** How one failure is written into the combined error. */
  function ErrorPiece(msg: string): string {
    "error:" + msg + " "
  }

  function ErrorText(msgs: seq<string>): string
    decreases |msgs|
  {
    if |msgs| == 0 then "" else ErrorText(msgs[..|msgs| - 1]) + ErrorPiece(msgs[|msgs| - 1])
  }

  /** The combined error: present when its text is not empty. */
  function CombinedError(outs: seq<Result<seq<Subtitle>>>): Option<string> {
    var text := ErrorText(Failures(outs));
    if text != "" then Some(text) else None
  }

  /** `SearchSubs`: runs every engine, in order and without stopping at a
      failure, and returns the merged results together with the combined
      error. */
  method SearchSubs(engines: seq<Engine>, p: ShowSearchParams) returns (subz: seq<Subtitle>, err: Option<string>)
    ensures subz == Merged(Outcomes(engines, p))
    ensures err == CombinedError(Outcomes(engines, p))
  {
    ghost var outs := Outcomes(engines, p);
    subz := [];
    var subSearchErrors: seq<string> := [];
    for i := 0 to |engines|
      invariant subz == Merged(outs[..i])
      invariant subSearchErrors == Failures(outs[..i])
    {
      var subs := Search(engines[i], p);
      assert outs[..i + 1][..i] == outs[..i];
      if subs.Ok? {
        subz := subz + subs.value;
      } else {
        subSearchErrors := subSearchErrors + [subs.error];
      }
    }
    assert outs[..|engines|] == outs;

    var errorString := "";
    for j := 0 to |subSearchErrors|
      invariant errorString == ErrorText(subSearchErrors[..j])
    {
      assert subSearchErrors[..j + 1][..j] == subSearchErrors[..j];
      errorString := errorString + "error:" + subSearchErrors[j] + " ";
    }
    assert subSearchErrors[..|subSearchErrors|] == subSearchErrors;

    if errorString != "" {
      err := Some(errorString);
    } else {
      err := None;
    }
  }

  lemma {:induction false} MergedAppend(a: seq<Result<seq<Subtitle>>>, b: seq<Result<seq<Subtitle>>>)
    ensures Merged(a + b) == Merged(a) + Merged(b)
    decreases |b|
  {
    if |b| == 0 {
      assert a + b == a;
    } else {
      var last := |b| - 1;
      assert (a + b)[..|a + b| - 1] == a + b[..last];
      MergedAppend(a, b[..last]);
    }
  }

  lemma {:induction false} FailuresAppend(a: seq<Result<seq<Subtitle>>>, b: seq<Result<seq<Subtitle>>>)
    ensures Failures(a + b) == Failures(a) + Failures(b)
    decreases |b|
  {
    if |b| == 0 {
      assert a + b == a;
    } else {
      var last := |b| - 1;
      assert (a + b)[..|a + b| - 1] == a + b[..last];
      FailuresAppend(a, b[..last]);
    }
  }

  lemma {:induction false} ErrorTextAppend(a: seq<string>, b: seq<string>)
    ensures ErrorText(a + b) == ErrorText(a) + ErrorText(b)
    decreases |b|
  {
    if |b| == 0 {
      assert a + b == a;
    } else {
      var last := |b| - 1;
      assert (a + b)[..|a + b| - 1] == a + b[..last];
      ErrorTextAppend(a, b[..last]);
    }
  }

  /** The merged list splits around any one engine's contribution. */
  lemma MergedAround(before: seq<Result<seq<Subtitle>>>, o: Result<seq<Subtitle>>, after: seq<Result<seq<Subtitle>>>)
    ensures Merged(before + [o] + after) == Merged(before) + Contribution(o) + Merged(after)
  {
    MergedAppend(before + [o], after);
    MergedAppend(before, [o]);
    assert [o][..0] == [];
  }

  /** Merge order: a successful engine's list sits, whole and in its own
      order, between the lists of the engines before it and after it. */
  lemma MergeOrder(before: seq<Result<seq<Subtitle>>>, o: Result<seq<Subtitle>>, after: seq<Result<seq<Subtitle>>>)
    requires o.Ok?
    ensures Merged(before + [o] + after) == Merged(before) + o.value + Merged(after)
  {
    MergedAround(before, o, after);
  }

  /** A failed engine contributes nothing to the merged list, and the engines
      after it still do. */
  lemma FailureContributesNothing(
    before: seq<Result<seq<Subtitle>>>, o: Result<seq<Subtitle>>, after: seq<Result<seq<Subtitle>>>)
    requires o.Err?
    ensures Merged(before + [o] + after) == Merged(before) + Merged(after)
  {
    MergedAround(before, o, after);
  }

  lemma {:induction false} NoFailuresIffAllOk(outs: seq<Result<seq<Subtitle>>>)
    ensures Failures(outs) == [] <==> forall i :: 0 <= i < |outs| ==> outs[i].Ok?
    decreases |outs|
  {
    if |outs| > 0 {
      var init := outs[..|outs| - 1];
      NoFailuresIffAllOk(init);
      assert forall i :: 0 <= i < |init| ==> init[i] == outs[i];
    }
  }

  lemma ErrorTextEmptyIffNoMessages(msgs: seq<string>)
    ensures ErrorText(msgs) == "" <==> msgs == []
  {
    if |msgs| > 0 {
      assert |ErrorPiece(msgs[|msgs| - 1])| > 0;
    }
  }

  /** Error presence: the combined error is absent exactly when every engine
      succeeded. */
  lemma NoErrorIffAllSucceed(outs: seq<Result<seq<Subtitle>>>)
    ensures CombinedError(outs).None? <==> forall i :: 0 <= i < |outs| ==> outs[i].Ok?
  {
    NoFailuresIffAllOk(outs);
    ErrorTextEmptyIffNoMessages(Failures(outs));
  }

  /** No failure is dropped: a failed engine's message appears in the combined
      error, after the messages of the engines before it and before those of
      the engines after it. */
  lemma FailureIsReported(outs: seq<Result<seq<Subtitle>>>, i: nat)
    requires i < |outs| && outs[i].Err?
    ensures CombinedError(outs) ==
      Some(ErrorText(Failures(outs[..i])) + ErrorPiece(outs[i].error) + ErrorText(Failures(outs[i + 1..])))
  {
    assert outs == outs[..i] + [outs[i]] + outs[i + 1..];
    FailuresAppend(outs[..i] + [outs[i]], outs[i + 1..]);
    FailuresAppend(outs[..i], [outs[i]]);
    assert ([] + [outs[i]])[..0] == [];
    assert Failures([outs[i]]) == [outs[i].error];
    var before, after := Failures(outs[..i]), Failures(outs[i + 1..]);
    ErrorTextAppend(before + [outs[i].error], after);
    ErrorTextAppend(before, [outs[i].error]);
    assert ([] + [outs[i].error])[..0] == [];
    assert |ErrorPiece(outs[i].error)| > 0;
  }

  /** When every engine fails the merged list is empty and the error present. */
  lemma {:induction false} AllFailed(outs: seq<Result<seq<Subtitle>>>)
    requires |outs| > 0
    requires forall i :: 0 <= i < |outs| ==> outs[i].Err?
    ensures Merged(outs) == [] && CombinedError(outs).Some?
    decreases |outs|
  {
    NoErrorIffAllSucceed(outs);
    if |outs| > 1 {
      AllFailed(outs[..|outs| - 1]);
    }
  }

  /** For the registered engines, the OpenSubtitles results come first, then
      the Podnapisi ones, and the error names the failures in that order. */
  lemma RegisteredOrder(
    client: OsdbClient, podnapisiSearch: ShowSearchParams -> Result<seq<Subtitle>>, p: ShowSearchParams)
    ensures Merged(Outcomes(SubtitleSearchEngines(client, podnapisiSearch), p)) ==
      Contribution(OsdbOutcome(client, p)) + Contribution(podnapisiSearch(p))
    ensures CombinedError(Outcomes(SubtitleSearchEngines(client, podnapisiSearch), p)).None? <==>
      OsdbOutcome(client, p).Ok? && podnapisiSearch(p).Ok?
  {
    var outs := Outcomes(SubtitleSearchEngines(client, podnapisiSearch), p);
    assert outs == [OsdbOutcome(client, p), podnapisiSearch(p)];
    assert outs[..1][..0] == [];
    assert Merged(outs[..1]) == Contribution(OsdbOutcome(client, p));
    NoErrorIffAllSucceed(outs);
  }
}
