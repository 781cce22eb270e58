/** The command-line rules of the current revision (main.go: parseParams and
    the format check of formatSubtitles). Flag parsing itself is not modelled:
    the input is the value of every flag after parsing. */
module Cli {
  import opened Common

  const AllLanguages := "all"
  const NoSpecialOutput := "normal"

  /** `SUPPORTED_FORMATS`. */
  const SupportedFormats: seq<string> := ["json"]

  /** The values of the flags -name, -season, -episode, -language, -download,
      -verbose, -format, -output, -editor and -limit. */
  datatype Flags = Flags(
    name: string,
    season: string,
    episode: string,
    language: string,
    download: bool,
    verbose: bool,
    format: string,
    output: string,
    editor: string,
    limit: int)

  /** The flag values when none is given on the command line. */
  const DefaultFlags := Flags(ShowNotPassed, RequiredIntNotPassed, RequiredIntNotPassed, AllLanguages,
                              false, false, NoSpecialOutput, CurrentFolder, NoEditor, NoLimit)

  /** `cliParams`. */
  datatype CliParams = CliParams(
    outputFolder: string,
    editorName: string,
    download: bool,
    outputFormat: string,
    quiet: bool,
    search: ShowSearchParams)

  const NameRequired := "name of show is required"

  /** `parseParams`: fails only when no show name was given; otherwise every
      flag is carried over (the -verbose flag lands in the `Quiet` field). */
  function ParseParams(f: Flags): (r: Result<CliParams>)
    ensures r.Err? <==> f.name == ShowNotPassed
    ensures r.Err? ==> r.error == NameRequired
    ensures r.Ok? ==> r.value.search == ShowSearchParams(f.name, f.season, f.episode, f.language, f.limit)
    ensures r.Ok? ==> r.value.outputFolder == f.output && r.value.editorName == f.editor
    ensures r.Ok? ==> r.value.download == f.download && r.value.outputFormat == f.format
    ensures r.Ok? ==> r.value.quiet == f.verbose
  {
    if f.name == ShowNotPassed then Err(NameRequired)
    else Ok(CliParams(f.output, f.editor, f.download, f.format, f.verbose,
                      ShowSearchParams(f.name, f.season, f.episode, f.language, f.limit)))
  }

  /** Without a -name flag the tool refuses to start. */
  lemma DefaultsAreRejected()
    ensures ParseParams(DefaultFlags) == Err(NameRequired)
  {
  }

  /** The check at the start of `formatSubtitles`: the format must be one of
      the supported formats. */
  method CheckFormat(format: string) returns (r: Outcome)
    ensures r.Pass? <==> format == "json"
    ensures r.Fail? ==> r.error == "format " + format + " not supported"
  {
    var validFormatType := false;
    for k := 0 to |SupportedFormats|
      invariant validFormatType <==> format in SupportedFormats[..k]
    {
      if SupportedFormats[k] == format {
        validFormatType := true;
        break;
      }
    }
    assert SupportedFormats[..|SupportedFormats|] == ["json"];
    if !validFormatType {
      return Fail("format " + format + " not supported");
    }
    return Pass;
  }
}
