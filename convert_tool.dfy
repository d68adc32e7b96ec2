/**
 * The `convert` tool: checks both formats, settles the output directory (the caller's, or a
 * `converted_output` folder beside the first existing input file, or in the current
 * directory), reads the API secret and hands over to the file-persisting conversion. It then
 * maps the JSON text the service returns to an array with one success envelope per character.
 */
module ConvertTools {

  import opened Wrappers
  import opened Text
  import opened Paths
  import opened Dictionaries
  import opened Helpers
  import opened ConvertServices

  /** The process state the tool reads: `CONVERTAPI_SECRET` and the current directory. */
  datatype Environment = Environment(secret: Option<string>, currentDirectory: string)

  /** The envelopes one call answers with, and the effects the service performed for it. */
  datatype ToolOutcome = ToolOutcome(envelopes: seq<Envelope>, effects: seq<Effect>)

  const FromFormatRequired := "fromFormat is required (e.g., 'docx', 'xlsx', 'jpg')."
  const ToFormatRequired := "toFormat is required (e.g., 'pdf', 'png', 'html')."
  const DefaultOutputFolder := "converted_output"
  /** The message of the `InvalidOperationException` thrown when the secret is not set. */
  const SecretMissing := "ConvertAPI secret is not configured. Set CONVERTAPI_SECRET environment variable."
  /** The message of the `ArgumentException` the service's constructor throws on a blank secret. */
  const SecretBlank := "ConvertAPI secret cannot be null or empty. (Parameter 'apiSecret')"

  /** The tool's catch-all: any exception becomes OPERATION_FAILED with its message. */
  function Failed(message: string): Envelope
  {
    ErrorResponse("Conversion operation failed", OperationFailed, Some(message))
  }

  /** A file parameter naming a non-blank path that exists. */
  predicate HoldsExistingFile(e: Entry, existing: set<string>)
  {
    e.value.Some? && !IsBlank(e.value.value) && e.value.value in existing
  }

  /** The index of the first entry holding an existing file, if any. */
  function FirstExisting(d: Dictionary, existing: set<string>): (r: Option<nat>)
    ensures r.Some? ==> r.value < |d| && HoldsExistingFile(d[r.value], existing)
    ensures r.Some? ==> forall j :: 0 <= j < r.value ==> !HoldsExistingFile(d[j], existing)
    ensures r.None? ==> forall j :: 0 <= j < |d| ==> !HoldsExistingFile(d[j], existing)
  {
    if d == [] then None
    else if HoldsExistingFile(d[0], existing) then Some(0)
    else match FirstExisting(d[1..], existing)
      case None => None
      case Some(i) => Some(i + 1)
  }

  /** `firstFileDir`: the directory name of the first existing file parameter. */
  function FirstFileDirectory(fileParameters: Option<Dictionary>, existing: set<string>): Option<string>
  {
    if fileParameters.None? then None
    else match FirstExisting(fileParameters.value, existing)
      case None => None
      case Some(i) => GetDirectoryName(fileParameters.value[i].value.value)
  }

  /** The folder the default output directory is placed in. */
  function DefaultBase(fileParameters: Option<Dictionary>, existing: set<string>, currentDirectory: string): string
  {
    match FirstFileDirectory(fileParameters, existing)
    case Some(dir) => dir
    case None => currentDirectory
  }

  /** `outputDirectory ??= Path.Combine(firstFileDir ?? Directory.GetCurrentDirectory(), "converted_output")`. */
  function ResolvedOutputDirectory(outputDirectory: Option<string>, fileParameters: Option<Dictionary>,
                                   existing: set<string>, currentDirectory: string): string
  {
    if outputDirectory.Some? then outputDirectory.value
    else Combine(DefaultBase(fileParameters, existing, currentDirectory), DefaultOutputFolder)
  }

  /** The result mapping: one single-URL success envelope per character of `text`. */
  function PerCharacter(text: string): seq<Envelope>
  {
    seq(|text|, i requires 0 <= i < |text| => SuccessResponse([[text[i]]]))
  }

  /**
   * The host as the service sees it from the tool: the tool passes no cancellation token, so
   * the service's token is never cancelled.
   */
  function ToolHost(host: Host): Host
  {
    host.(cancellationRequested := false)
  }

  /** What `ConvertTool.Convert` answers and which effects it causes. */
  function ConvertOutcome(fromFormat: string, toFormat: string, parameters: Option<Dictionary>,
                          fileParameters: Option<Dictionary>, outputDirectory: Option<string>,
                          env: Environment, host: Host): ToolOutcome
  {
    if IsBlank(fromFormat) then ToolOutcome([ErrorResponse(FromFormatRequired, InvalidArgument, None)], [])
    else if IsBlank(toFormat) then ToolOutcome([ErrorResponse(ToFormatRequired, InvalidArgument, None)], [])
    else if env.secret.None? then ToolOutcome([Failed(SecretMissing)], [])
    else if IsBlank(env.secret.value) then ToolOutcome([Failed(SecretBlank)], [])
    else
      var directory := ResolvedOutputDirectory(outputDirectory, fileParameters, host.existingFiles, env.currentDirectory);
      var service := ConvertToDirectoryOutcome(fromFormat, toFormat, directory, parameters, fileParameters, ToolHost(host));
      ToolOutcome(PerCharacter(Serialize(service.envelope)), service.effects)
  }

  /** The `foreach` over the file parameters that stops at the first existing file. */
  method FindFirstFileDirectory(fileParameters: Option<Dictionary>, existing: set<string>) returns (firstFileDir: Option<string>)
    ensures firstFileDir == FirstFileDirectory(fileParameters, existing)
  {
    firstFileDir := None;
    if fileParameters.Some? {
      var entries := fileParameters.value;
      var i := 0;
      while i < |entries|
        invariant 0 <= i <= |entries|
        invariant forall j :: 0 <= j < i ==> !HoldsExistingFile(entries[j], existing)
      {
        var value := entries[i].value;
        if value.Some? && !IsBlank(value.value) && value.value in existing {
          assert FirstExisting(entries, existing) == Some(i);
          firstFileDir := GetDirectoryName(value.value);
          break;
        }
        i := i + 1;
      }
    }
  }

  /** `outputDirectory ??= Path.Combine(firstFileDir ?? Directory.GetCurrentDirectory(), "converted_output")`. */
  method ResolveOutputDirectory(outputDirectory: Option<string>, fileParameters: Option<Dictionary>,
                                existing: set<string>, currentDirectory: string) returns (directory: string)
    ensures directory == ResolvedOutputDirectory(outputDirectory, fileParameters, existing, currentDirectory)
  {
    var firstFileDir := FindFirstFileDirectory(fileParameters, existing);
    directory := if outputDirectory.Some? then outputDirectory.value
                 else Combine(if firstFileDir.Some? then firstFileDir.value else currentDirectory, DefaultOutputFolder);
  }

  /**
   * `ConvertTool.Convert`: the texts it returns. Every exit builds its envelopes with
   * `BuildErrorResponse` or `BuildSuccessResponse`; here `ConvertEnvelopes` settles on the
   * envelopes and `Serialize` picks the builder for each.
   */
  method Convert(fromFormat: string, toFormat: string, parameters: Option<Dictionary>,
                 fileParameters: Option<Dictionary>, outputDirectory: Option<string>,
                 env: Environment, host: Host) returns (responses: seq<string>, ghost trace: seq<Effect>)
    ensures var o := ConvertOutcome(fromFormat, toFormat, parameters, fileParameters, outputDirectory, env, host);
      |responses| == |o.envelopes| && forall i :: 0 <= i < |responses| ==> responses[i] == Serialize(o.envelopes[i])
    ensures trace == ConvertOutcome(fromFormat, toFormat, parameters, fileParameters, outputDirectory, env, host).effects
  {
    var envelopes;
    envelopes, trace := ConvertEnvelopes(fromFormat, toFormat, parameters, fileParameters, outputDirectory, env, host);
    responses := seq(|envelopes|, i requires 0 <= i < |envelopes| => Serialize(envelopes[i]));
  }

  /** The checks, the directory defaulting, the secret and the per-character mapping. */
  method ConvertEnvelopes(fromFormat: string, toFormat: string, parameters: Option<Dictionary>,
                          fileParameters: Option<Dictionary>, outputDirectory: Option<string>,
                          env: Environment, host: Host) returns (envelopes: seq<Envelope>, ghost trace: seq<Effect>)
    ensures envelopes == ConvertOutcome(fromFormat, toFormat, parameters, fileParameters, outputDirectory, env, host).envelopes
    ensures trace == ConvertOutcome(fromFormat, toFormat, parameters, fileParameters, outputDirectory, env, host).effects
  {
    if IsBlank(fromFormat) {
      return [ErrorResponse(FromFormatRequired, InvalidArgument, None)], [];
    }
    if IsBlank(toFormat) {
      return [ErrorResponse(ToFormatRequired, InvalidArgument, None)], [];
    }
    var directory := ResolveOutputDirectory(outputDirectory, fileParameters, host.existingFiles, env.currentDirectory);
    if env.secret.None? {
      return [Failed(SecretMissing)], [];
    }
    if IsBlank(env.secret.value) {
      return [Failed(SecretBlank)], [];
    }
    var service := new ConvertService(env.secret.value);
    var text;
    text, trace := service.ConvertToDirectory(fromFormat, toFormat, directory, parameters, fileParameters, ToolHost(host));
    envelopes := seq(|text|, i requires 0 <= i < |text| => SuccessResponse([[text[i]]]));
  }

  // What the tool promises.

  /** Every envelope's text is non-empty, so every path answers with at least one envelope. */
  lemma SerializeNonEmpty(e: Envelope)
    ensures |Serialize(e)| > 0
  {
    match e
    case ErrorResponse(message, code, details) =>
      assert Serialize(e) == ErrorHead + ErrorFieldsText(message, code, details);
    case SuccessResponse(data) =>
      assert Serialize(e) == SuccessHead + (ArrayText(data) + Close);
  }

  /**
   * A blank format is the tool's only INVALID_ARGUMENT: the source format is checked first, the
   * envelope has no details, and the service is not reached. A blank output directory passed in
   * is rejected by the service, and that rejection comes back character by character.
   */
  lemma ConvertInvalidArgument(fromFormat: string, toFormat: string, parameters: Option<Dictionary>,
                               fileParameters: Option<Dictionary>, outputDirectory: Option<string>,
                               env: Environment, host: Host)
    ensures var o := ConvertOutcome(fromFormat, toFormat, parameters, fileParameters, outputDirectory, env, host);
      (exists i :: 0 <= i < |o.envelopes| && o.envelopes[i].ErrorResponse? && o.envelopes[i].code == InvalidArgument)
        <==> (IsBlank(fromFormat) || IsBlank(toFormat))
    ensures var o := ConvertOutcome(fromFormat, toFormat, parameters, fileParameters, outputDirectory, env, host);
      && (IsBlank(fromFormat) ==> o == ToolOutcome([ErrorResponse(FromFormatRequired, InvalidArgument, None)], []))
      && (!IsBlank(fromFormat) && IsBlank(toFormat) ==> o == ToolOutcome([ErrorResponse(ToFormatRequired, InvalidArgument, None)], []))
  {
    var o := ConvertOutcome(fromFormat, toFormat, parameters, fileParameters, outputDirectory, env, host);
    if IsBlank(fromFormat) || IsBlank(toFormat) {
      assert o.envelopes[0].ErrorResponse? && o.envelopes[0].code == InvalidArgument;
    }
  }

  /**
   * Without a secret the answer is a single OPERATION_FAILED envelope carrying the exception's
   * message, and the service is never called: no directory, no upload, no download.
   */
  lemma ConvertWithoutSecret(fromFormat: string, toFormat: string, parameters: Option<Dictionary>,
                             fileParameters: Option<Dictionary>, outputDirectory: Option<string>,
                             env: Environment, host: Host)
    requires !IsBlank(fromFormat) && !IsBlank(toFormat)
    requires env.secret.None? || IsBlank(env.secret.value)
    ensures var o := ConvertOutcome(fromFormat, toFormat, parameters, fileParameters, outputDirectory, env, host);
      && |o.envelopes| == 1 && o.envelopes[0].ErrorResponse? && o.envelopes[0].code == OperationFailed
      && o.envelopes[0].details == Some(if env.secret.None? then SecretMissing else SecretBlank)
      && o.effects == []
  {
  }

  /**
   * Once the service is called, the answer has one envelope per character of the service's
   * text, each a success holding that single character as its only "URL", whatever the service
   * answered (even an error); the characters in order give back the service's text. The text is
   * the model's `Serialize`, which escapes fewer characters than the .NET encoder, so the count
   * of envelopes is the model's, not the serializer's.
   */
  lemma ConvertWrapsEachCharacter(fromFormat: string, toFormat: string, parameters: Option<Dictionary>,
                                  fileParameters: Option<Dictionary>, outputDirectory: Option<string>,
                                  env: Environment, host: Host)
    requires !IsBlank(fromFormat) && !IsBlank(toFormat) && env.secret.Some? && !IsBlank(env.secret.value)
    ensures var directory := ResolvedOutputDirectory(outputDirectory, fileParameters, host.existingFiles, env.currentDirectory);
      var service := ConvertToDirectoryOutcome(fromFormat, toFormat, directory, parameters, fileParameters, ToolHost(host));
      var text := Serialize(service.envelope);
      var o := ConvertOutcome(fromFormat, toFormat, parameters, fileParameters, outputDirectory, env, host);
      && o.effects == service.effects
      && |o.envelopes| == |text| > 0
      && (forall i :: 0 <= i < |o.envelopes| ==> o.envelopes[i].SuccessResponse? && o.envelopes[i].data == [[text[i]]])
      && Reassembled(o.envelopes) == text
  {
    var directory := ResolvedOutputDirectory(outputDirectory, fileParameters, host.existingFiles, env.currentDirectory);
    var service := ConvertToDirectoryOutcome(fromFormat, toFormat, directory, parameters, fileParameters, ToolHost(host));
    SerializeNonEmpty(service.envelope);
    ReassembledPerCharacter(Serialize(service.envelope));
  }

  /** The characters the per-character envelopes carry, put back together. */
  function Reassembled(envelopes: seq<Envelope>): string
  {
    if envelopes == [] then []
    else
      var first := envelopes[0];
      (if first.SuccessResponse? && |first.data| == 1 then first.data[0] else []) + Reassembled(envelopes[1..])
  }

  lemma {:induction false} ReassembledPerCharacter(text: string)
    ensures Reassembled(PerCharacter(text)) == text
  {
    if text != [] {
      assert PerCharacter(text)[1..] == PerCharacter(text[1..]);
      ReassembledPerCharacter(text[1..]);
      assert [text[0]] + text[1..] == text;
    }
  }

  /** Every path answers with at least one envelope, and every text parses back to its envelope. */
  lemma ConvertAnswers(fromFormat: string, toFormat: string, parameters: Option<Dictionary>,
                       fileParameters: Option<Dictionary>, outputDirectory: Option<string>,
                       env: Environment, host: Host)
    ensures var o := ConvertOutcome(fromFormat, toFormat, parameters, fileParameters, outputDirectory, env, host);
      && |o.envelopes| >= 1
      && forall i :: 0 <= i < |o.envelopes| ==> ParseEnvelope(Serialize(o.envelopes[i])) == Some(o.envelopes[i])
  {
    var o := ConvertOutcome(fromFormat, toFormat, parameters, fileParameters, outputDirectory, env, host);
    if !IsBlank(fromFormat) && !IsBlank(toFormat) && env.secret.Some? && !IsBlank(env.secret.value) {
      ConvertWrapsEachCharacter(fromFormat, toFormat, parameters, fileParameters, outputDirectory, env, host);
    }
    forall i | 0 <= i < |o.envelopes| ensures ParseEnvelope(Serialize(o.envelopes[i])) == Some(o.envelopes[i]) {
      SerializeRoundTrip(o.envelopes[i]);
    }
  }

  /** The tool's answer and effects never depend on a cancellation request. */
  lemma ConvertIgnoresCancellation(fromFormat: string, toFormat: string, parameters: Option<Dictionary>,
                                   fileParameters: Option<Dictionary>, outputDirectory: Option<string>,
                                   env: Environment, host: Host)
    ensures ConvertOutcome(fromFormat, toFormat, parameters, fileParameters, outputDirectory, env, host) ==
            ConvertOutcome(fromFormat, toFormat, parameters, fileParameters, outputDirectory, env,
                           host.(cancellationRequested := !host.cancellationRequested))
  {
    assert ToolHost(host) == ToolHost(host.(cancellationRequested := !host.cancellationRequested));
  }

  // The output directory.

  /** `converted_output` is a single non-empty path segment. */
  lemma DefaultFolderIsSegment()
    ensures DefaultOutputFolder != [] && !IsSeparator(DefaultOutputFolder[0])
    ensures forall i :: 0 <= i < |DefaultOutputFolder| ==> !IsSeparator(DefaultOutputFolder[i])
  {
  }

  /** The default directory ends in `converted_output` and, below a proper directory, is its child. */
  lemma {:induction false} DefaultDirectoryBelow(base: string)
    ensures var r := Combine(base, DefaultOutputFolder);
      base <= r && r[|r| - |DefaultOutputFolder|..] == DefaultOutputFolder
    ensures base != [] && !IsSeparator(base[|base| - 1]) ==>
      GetDirectoryName(Combine(base, DefaultOutputFolder)) == Some(CollapseSeparators(base))
    ensures base != [] && !IsSeparator(base[|base| - 1]) && NoRepeatedSeparator(base) ==>
      GetDirectoryName(Combine(base, DefaultOutputFolder)) == Some(base)
  {
    DefaultFolderIsSegment();
    CombineCases(base, DefaultOutputFolder);
    if base != [] && !IsSeparator(base[|base| - 1]) {
      DirectoryOfCombined(base, DefaultOutputFolder);
    }
  }

  /**
   * A directory given by the caller is used as it is, even blank; otherwise the default is a
   * `converted_output` folder whose parent is the first existing file's directory, or the
   * current directory (runs of separators collapsed) when there is none.
   */
  lemma {:induction false} OutputDirectoryDefaulting(outputDirectory: Option<string>, fileParameters: Option<Dictionary>,
                                                     existing: set<string>, currentDirectory: string)
    ensures outputDirectory.Some? ==> ResolvedOutputDirectory(outputDirectory, fileParameters, existing, currentDirectory) == outputDirectory.value
    ensures var base := DefaultBase(fileParameters, existing, currentDirectory);
      var r := ResolvedOutputDirectory(outputDirectory, fileParameters, existing, currentDirectory);
      outputDirectory.None? ==>
        && base <= r && r[|r| - |DefaultOutputFolder|..] == DefaultOutputFolder
        && (base != [] && !IsSeparator(base[|base| - 1]) ==> GetDirectoryName(r) == Some(CollapseSeparators(base)))
        && (FirstFileDirectory(fileParameters, existing).Some? && base != [] && !IsSeparator(base[|base| - 1]) ==>
              GetDirectoryName(r) == Some(base))
    ensures (fileParameters.None? || FirstExisting(fileParameters.value, existing).None?) ==>
      DefaultBase(fileParameters, existing, currentDirectory) == currentDirectory
  {
    DefaultDirectoryBelow(DefaultBase(fileParameters, existing, currentDirectory));
  }

  /**
   * Only the first existing file decides the base directory: entries after it are never looked
   * at, and blank, null or missing paths before it are passed over.
   */
  lemma {:induction false} FirstFileWins(d: Dictionary, more: Dictionary, existing: set<string>)
    requires FirstExisting(d, existing).Some?
    ensures FirstExisting(d + more, existing) == FirstExisting(d, existing)
    ensures FirstFileDirectory(Some(d + more), existing) == FirstFileDirectory(Some(d), existing)
  {
    var i := FirstExisting(d, existing).value;
    assert (d + more)[i] == d[i];
    assert forall j :: 0 <= j < i ==> (d + more)[j] == d[j];
  }

  lemma {:induction false} SkippedEntryIgnored(e: Entry, d: Dictionary, existing: set<string>)
    requires !HoldsExistingFile(e, existing)
    ensures FirstFileDirectory(Some([e] + d), existing) == FirstFileDirectory(Some(d), existing)
  {
    assert ([e] + d)[1..] == d;
  }

  // The result mapping as written, and as evidently intended.

  /** The checks that must pass before the service is called. */
  predicate ReachesService(fromFormat: string, toFormat: string, env: Environment)
  {
    !IsBlank(fromFormat) && !IsBlank(toFormat) && env.secret.Some? && !IsBlank(env.secret.value)
  }

  /**
   * As written, the service's answer does not reach the caller: every envelope is a success
   * holding one character, so no saved path of two or more characters appears in any of them,
   * and an error the service reports comes back as successes.
   */
  lemma PerCharacterLosesAnswer(fromFormat: string, toFormat: string, parameters: Option<Dictionary>,
                                fileParameters: Option<Dictionary>, outputDirectory: Option<string>,
                                env: Environment, host: Host, path: string)
    requires ReachesService(fromFormat, toFormat, env) && |path| >= 2
    ensures var o := ConvertOutcome(fromFormat, toFormat, parameters, fileParameters, outputDirectory, env, host);
      && o.envelopes != []
      && forall i :: 0 <= i < |o.envelopes| ==> o.envelopes[i].SuccessResponse? && path !in o.envelopes[i].data
  {
    ConvertWrapsEachCharacter(fromFormat, toFormat, parameters, fileParameters, outputDirectory, env, host);
  }

  /** The envelope the file-persisting conversion answers with, once it is called. */
  function ServiceEnvelope(fromFormat: string, toFormat: string, parameters: Option<Dictionary>,
                           fileParameters: Option<Dictionary>, outputDirectory: Option<string>,
                           env: Environment, host: Host): Envelope
  {
    var directory := ResolvedOutputDirectory(outputDirectory, fileParameters, host.existingFiles, env.currentDirectory);
    ConvertToDirectoryOutcome(fromFormat, toFormat, directory, parameters, fileParameters, ToolHost(host)).envelope
  }

  /** The evidently intended answer: the service's own envelope, passed on as one element. */
  function IntendedConvertOutcome(fromFormat: string, toFormat: string, parameters: Option<Dictionary>,
                                  fileParameters: Option<Dictionary>, outputDirectory: Option<string>,
                                  env: Environment, host: Host): ToolOutcome
  {
    var o := ConvertOutcome(fromFormat, toFormat, parameters, fileParameters, outputDirectory, env, host);
    if ReachesService(fromFormat, toFormat, env) then
      ToolOutcome([ServiceEnvelope(fromFormat, toFormat, parameters, fileParameters, outputDirectory, env, host)], o.effects)
    else o
  }

  /**
   * With the intended mapping the caller reads back exactly what the service answered (its
   * saved paths, or its error) from a single text, and the refusals before the service stay
   * as they are.
   */
  lemma IntendedConvertPassesAnswer(fromFormat: string, toFormat: string, parameters: Option<Dictionary>,
                                    fileParameters: Option<Dictionary>, outputDirectory: Option<string>,
                                    env: Environment, host: Host)
    ensures var o := IntendedConvertOutcome(fromFormat, toFormat, parameters, fileParameters, outputDirectory, env, host);
      && |o.envelopes| == 1
      && o.effects == ConvertOutcome(fromFormat, toFormat, parameters, fileParameters, outputDirectory, env, host).effects
      && (ReachesService(fromFormat, toFormat, env) ==>
            ParseEnvelope(Serialize(o.envelopes[0])) == Some(ServiceEnvelope(fromFormat, toFormat, parameters, fileParameters, outputDirectory, env, host)))
      && (!ReachesService(fromFormat, toFormat, env) ==>
            o == ConvertOutcome(fromFormat, toFormat, parameters, fileParameters, outputDirectory, env, host))
  {
    SerializeRoundTrip(ServiceEnvelope(fromFormat, toFormat, parameters, fileParameters, outputDirectory, env, host));
  }
}
