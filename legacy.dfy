/** The older revision of the tool (src/github.com/International/subtitle-tool/
    main.go), which searched Podnapisi alone through its XML interface:
    parseParams, the request built by searchSubtitles, and the entry loop of
    downloadSubtitle. */
module Legacy {
  import opened Common
  import opened Text
  import opened QueryEscape
  import Archive
  import Cli

  /** This revision's "all languages" sentinel is upper case. */
  const AllLanguages := "ALL"

  const SearchUrl := "https://www.podnapisi.net/subtitles/search/old?"

  /** `ShowSearchParams` of this revision: the flag values themselves. */
  datatype SearchParams = SearchParams(
    name: string,
    season: string,
    episode: string,
    download: bool,
    language: string,
    limit: int,
    outputFolder: string,
    editorName: string)

  const NameRequired := "name of show is required"
  const SeasonEpisodeRequired := "make sure to send a parameter for season and episode"

  /** `parseParams`: a show name, a season and an episode are all required. */
  function ParseParams(f: SearchParams): (r: Result<SearchParams>)
    ensures r.Ok? <==> f.name != ShowNotPassed && f.season != RequiredIntNotPassed && f.episode != RequiredIntNotPassed
    ensures r.Ok? ==> r.value == f
    ensures f.name == ShowNotPassed ==> r == Err(NameRequired)
    ensures f.name != ShowNotPassed && (f.season == RequiredIntNotPassed || f.episode == RequiredIntNotPassed) ==>
      r == Err(SeasonEpisodeRequired)
  {
    if f.name == ShowNotPassed then Err(NameRequired)
    else if f.season == RequiredIntNotPassed || f.episode == RequiredIntNotPassed then Err(SeasonEpisodeRequired)
    else Ok(f)
  }

  /** The same flags as the current revision sees them. */
  function AsCurrentFlags(f: SearchParams): Cli.Flags {
    Cli.Flags(f.name, f.season, f.episode, f.language, f.download, false, Cli.NoSpecialOutput,
              f.outputFolder, f.editorName, f.limit)
  }

  /** This revision's validation is stricter than the current one: whatever it
      accepts the current revision accepts with the same search parameters, and
      a missing season is accepted now but was refused then. */
  lemma ValidationIsStricter(f: SearchParams)
    ensures ParseParams(f).Ok? ==> Cli.ParseParams(AsCurrentFlags(f)).Ok?
    ensures ParseParams(f).Ok? ==>
      Cli.ParseParams(AsCurrentFlags(f)).value.search == ShowSearchParams(f.name, f.season, f.episode, f.language, f.limit)
    ensures f.name != ShowNotPassed && f.season == RequiredIntNotPassed ==>
      ParseParams(f).Err? && Cli.ParseParams(AsCurrentFlags(f)).Ok?
  {
  }

  /** The parameter map of `searchSubtitles`. */
  function PodnapisiParams(p: SearchParams): (m: map<string, string>)
    ensures "sK" in m && m["sK"] == p.name
    ensures "sTS" in m && m["sTS"] == p.season
    ensures "sTE" in m && m["sTE"] == p.episode
    ensures "sXML" in m && m["sXML"] == "1"
    ensures "sL" in m <==> p.language != AllLanguages
    ensures "sL" in m ==> m["sL"] == p.language
    ensures m.Keys <= {"sK", "sTS", "sTE", "sL", "sXML"}
  {
    var named := map["sK" := p.name, "sTS" := p.season, "sTE" := p.episode];
    var withLanguage := if p.language != AllLanguages then named["sL" := p.language] else named;
    withLanguage["sXML" := "1"]
  }

  /** One `key=value` segment of the query string. */
  function Segment(key: string, value: string): string {
    key + "=" + Escape(value)
  }

  function Segments(m: map<string, string>, order: seq<string>): (segs: seq<string>)
    requires forall i :: 0 <= i < |order| ==> order[i] in m
    ensures |segs| == |order|
    ensures forall i :: 0 <= i < |order| ==> segs[i] == Segment(order[i], m[order[i]])
  {
    seq(|order|, i requires 0 <= i < |order| => Segment(order[i], m[order[i]]))
  }

  /** Writing one more key appends its segment. */
  lemma SegmentsSnoc(m: map<string, string>, order: seq<string>, key: string)
    requires forall i :: 0 <= i < |order| ==> order[i] in m
    requires key in m
    ensures Segments(m, order + [key]) == Segments(m, order) + [key + "=" + Escape(m[key])]
  {
  }

  /** `order` visits every key of `m` exactly once, as ranging over a Go map
      does (in an order the language leaves unspecified). */
  ghost predicate IsKeyOrder(order: seq<string>, m: map<string, string>) {
    && (forall k :: k in m <==> k in order)
    && (forall i, j :: 0 <= i < j < |order| ==> order[i] != order[j])
  }

  /** `searchSubtitles` up to the request: the search URL followed by one
      `key=QueryEscape(value)` segment per parameter, joined by `&`, in the
      order in which the map is ranged over; that order is returned too. */
  method SearchRequestUrl(p: SearchParams) returns (fullUrl: string, order: seq<string>)
    ensures IsKeyOrder(order, PodnapisiParams(p))
    ensures fullUrl == SearchUrl + Join(Segments(PodnapisiParams(p), order), "&")
  {
    var params := PodnapisiParams(p);
    var requestParams: seq<string> := [];
    var remaining := params.Keys;
    order := [];
    while remaining != {}
      invariant forall k :: k in params <==> k in remaining || k in order
      invariant forall k :: k in order ==> k !in remaining
      invariant forall i, j :: 0 <= i < j < |order| ==> order[i] != order[j]
      invariant forall i :: 0 <= i < |order| ==> order[i] in params
      invariant requestParams == Segments(params, order)
      decreases |remaining|
    {
      var key :| key in remaining;
      SegmentsSnoc(params, order, key);
      requestParams := requestParams + [key + "=" + Escape(params[key])];
      order := order + [key];
      remaining := remaining - {key};
    }
    var queryString := Join(requestParams, "&");
    fullUrl := SearchUrl + queryString;
  }

  /** Decodes one segment into its key and the bytes of its value. */
  function DecodeSegment(seg: string): Option<(string, seq<byte>)> {
    var parts := Split(seg, '=');
    if |parts| != 2 then None
    else match Unescape(parts[1])
      case None => None
      case Some(value) => Some((parts[0], value))
  }

  /** A segment decodes to its key and the UTF-8 bytes of its value, since the
      escaped value holds no `=`. */
  lemma SegmentDecodes(key: string, value: string)
    requires '=' !in key
    ensures DecodeSegment(Segment(key, value)) == Some((key, EncodeUtf8(value)))
  {
    var escaped := Escape(value);
    assert Segment(key, value) == Join([key, escaped], "=");
    SplitJoin([key, escaped], '=');
  }

  /** Every segment can be told apart: there is at least one, no parameter
      name holds `=`, and no segment holds the `&` that joins them. */
  lemma SegmentsAreSeparable(p: SearchParams, order: seq<string>)
    requires IsKeyOrder(order, PodnapisiParams(p))
    ensures |order| > 0
    ensures forall i :: 0 <= i < |order| ==> order[i] in PodnapisiParams(p) && '=' !in order[i]
    ensures forall i :: 0 <= i < |order| ==> '&' !in Segments(PodnapisiParams(p), order)[i]
  {
    var m := PodnapisiParams(p);
    assert "sK" in order;
    var segs := Segments(m, order);
    forall i | 0 <= i < |order|
      ensures '=' !in order[i] && '&' !in segs[i]
    {
      var key := order[i];
      assert key in {"sK", "sTS", "sTE", "sL", "sXML"};
      assert '&' !in key && '=' !in key;
      SegmentHasNoAmpersand(key, m[key]);
    }
  }

  lemma SegmentHasNoAmpersand(key: string, value: string)
    requires '&' !in key
    ensures '&' !in Segment(key, value)
  {
    var escaped := Escape(value);
    assert forall c :: c in key + "=" + escaped ==> c in key || c == '=' || c in escaped;
  }

  /** The query string is unambiguous: split at `&` it gives back one segment
      per parameter, in the order they were written, each of which decodes by
      `SegmentDecodes`. */
  lemma QueryStringSplits(p: SearchParams, order: seq<string>)
    requires IsKeyOrder(order, PodnapisiParams(p))
    ensures forall i :: 0 <= i < |order| ==> order[i] in PodnapisiParams(p)
    ensures Split(Join(Segments(PodnapisiParams(p), order), "&"), '&') == Segments(PodnapisiParams(p), order)
  {
    SegmentsAreSeparable(p, order);
    SplitJoin(Segments(PodnapisiParams(p), order), '&');
  }

  /** `downloadSubtitle` of this revision: the entry loop has no relevance
      test, so every entry is extracted. */
  method DownloadSubtitle(outputFolder: string, archive: seq<Archive.ArchiveEntry>) returns (r: Result<string>)
    ensures r == Archive.Unpack(outputFolder, archive, false, "")
  {
    var outputDest := "";
    for i := 0 to |archive|
      invariant Archive.Unpack(outputFolder, archive, false, "") == Archive.Unpack(outputFolder, archive[i..], false, outputDest)
    {
      var file := archive[i];
      assert archive[i..][1..] == archive[i + 1..];
      if file.extraction.Fail? {
        return Err(file.extraction.error);
      }
      outputDest := Archive.PathJoin(outputFolder, file.name);
    }
    if outputDest == "" {
      return Err(Archive.NoFilesInArchive);
    }
    return Ok(outputDest);
  }

  /** Without the relevance test the download ends with the last entry of the
      archive, and fails with "no files in the archive" exactly when the
      archive is empty. */
  lemma DownloadPicksLastEntry(outputFolder: string, archive: seq<Archive.ArchiveEntry>)
    requires outputFolder != "" || forall i :: 0 <= i < |archive| ==> archive[i].name != ""
    requires Archive.ExtractionsPass(archive, false)
    ensures Archive.Unpack(outputFolder, archive, false, "") == Err(Archive.NoFilesInArchive) <==> archive == []
    ensures archive != [] ==>
      Archive.Unpack(outputFolder, archive, false, "") == Ok(Archive.PathJoin(outputFolder, archive[|archive| - 1].name))
  {
    Archive.UnpackPicksLast(outputFolder, archive, false, "");
  }
}
