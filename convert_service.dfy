/**
 * The conversion pipeline: validate, check cancellation, (create the output directory), assemble
 * the outbound parameters, call the conversion API, and then either return the result URLs or
 * download and save every result file, mapping each failure to one error envelope.
 *
 * Everything the pipeline asks of the outside world is an input: whether cancellation was
 * requested, whether creating the directory fails, which files exist, what the API call does,
 * and, per returned file, what downloading and writing it does. The ghost trace records the
 * effects the pipeline has on that world, in order.
 */
module ConvertServices {

  import opened Wrappers
  import opened Text
  import opened Paths
  import opened Dictionaries
  import opened Helpers
  import opened Models

  /** An exception that reaches the outer handlers of either overload. */
  datatype Exception =
    | OperationCanceled(message: string)
    | ConvertApiException(response: Option<string>)
    | OtherException(message: string)

  /** An exception thrown while downloading one result file or writing it to disk. */
  datatype StepFailure =
    | HttpFailure(message: string)      // HttpRequestException
    | IOFailure(message: string)        // IOException
    | StepCancelled(message: string)    // OperationCanceledException
    | OtherFailure(message: string)     // any other exception

  /**
   * A file the API returns, with what downloading it and then writing it will throw, if
   * anything (the write is only reached when the download succeeds).
   */
  datatype ResultFile = ResultFile(fileName: string, url: string, download: Option<StepFailure>, write: Option<StepFailure>)
  {
    predicate Saved()
    {
      download.None? && write.None?
    }

    /** The exception that ends the attempt on this file. */
    function Failure(): StepFailure
      requires !Saved()
    {
      if download.Some? then download.value else write.value
    }
  }

  /** The API call: the `Files` it returns (possibly null), or the exception it throws. */
  datatype ApiOutcome = ApiReturned(files: Option<seq<ResultFile>>) | ApiThrew(ex: Exception)

  /** The outside world as one call sees it. */
  datatype Host = Host(
    cancellationRequested: bool,
    directoryFailure: Option<string>,   // the message `Directory.CreateDirectory` throws with
    existingFiles: set<string>,         // the paths `File.Exists` accepts
    api: ApiOutcome)

  /** An outbound API parameter: an inline string value or a local file to upload. */
  datatype ConvertParam = StringParam(name: string, value: string) | FileParam(name: string, path: string)

  datatype Effect =
    | CreateDirectory(path: string)
    | InvokeApi(fromFormat: string, toFormat: string, params: seq<ConvertParam>)
    | Download(url: string)
    | WriteFile(path: string)

  /** The envelope returned and the effects performed, in order. */
  datatype Outcome = Outcome(envelope: Envelope, effects: seq<Effect>)

  /** `o`, after `effects` have already been performed. */
  function Preceded(effects: seq<Effect>, o: Outcome): Outcome
  {
    Outcome(o.envelope, effects + o.effects)
  }

  const CancellationMessage := "The operation was canceled."

  /** The INVALID_ARGUMENT envelope for a blank argument. */
  function MissingArgument(message: string, parameter: string): Envelope
  {
    ErrorResponse(message, InvalidArgument, Some(parameter + " parameter cannot be null or empty."))
  }

  /** The DIRECTORY_ERROR envelope for a directory that could not be created. */
  function DirectoryNotCreated(outputDirectory: string, message: string): Envelope
  {
    ErrorResponse("Failed to create output directory.", DirectoryError,
                  Some("Unable to create directory '" + (outputDirectory + ("': " + message))))
  }

  /** The FILE_NOT_FOUND envelope for a file parameter whose file does not exist. */
  function FileMissing(key: string, path: string): Envelope
  {
    ErrorResponse("File for parameter '" + (key + "' not found."), FileNotFound,
                  Some("The file '" + (path + "' does not exist.")))
  }

  const SourceFormatRequired := "Source format is required."
  const TargetFormatRequired := "Target format is required."
  const OutputDirectoryRequired := "Output directory is required."

  /** The outer `catch` blocks, shared by both overloads. */
  function Catch(ex: Exception): (e: Envelope)
    ensures e.ErrorResponse?
    ensures e.code == OperationCancelled <==> ex.OperationCanceled?
    ensures e.code == ApiError <==> ex.ConvertApiException?
    ensures e.code == OperationFailed <==> ex.OtherException?
    ensures ex.ConvertApiException? ==> e.details == ex.response
  {
    match ex
    case OperationCanceled(m) => ErrorResponse("Conversion operation was cancelled.", OperationCancelled, Some(m))
    case ConvertApiException(r) => ErrorResponse("ConvertAPI service error occurred.", ApiError, r)
    case OtherException(m) => ErrorResponse("Conversion operation failed.", OperationFailed, Some(m))
  }

  const NoFiles := ErrorResponse(
    "No files returned from ConvertAPI.", NoFilesReturned,
    Some("The conversion completed but did not produce any output files."))

  // Assembling the outbound parameters.

  /** A string parameter is forwarded unless its key is blank or its value null. */
  predicate IsForwarded(e: Entry)
  {
    !IsBlank(e.key) && e.value.Some?
  }

  /** The string parameters, in enumeration order. */
  function StringParams(d: Dictionary): seq<ConvertParam>
  {
    if d == [] then []
    else if IsForwarded(d[0]) then [StringParam(d[0].key, d[0].value.value)] + StringParams(d[1..])
    else StringParams(d[1..])
  }

  function StringParamsOf(parameters: Option<Dictionary>): seq<ConvertParam>
  {
    if parameters.None? then [] else StringParams(parameters.value)
  }

  /**
   * Exactly the entries with a non-blank key and a non-null value are forwarded, as string
   * parameters; an empty or white-space value is forwarded as it is.
   */
  lemma {:induction false} StringParamsMembers(d: Dictionary, p: ConvertParam)
    ensures p in StringParams(d) <==> p.StringParam? && Entry(p.name, Some(p.value)) in d && !IsBlank(p.name)
  {
    if d != [] {
      StringParamsMembers(d[1..], p);
      assert d == [d[0]] + d[1..];
    }
  }

  /** A file parameter is skipped when its key or its path is blank (or null). */
  predicate IsFileSkipped(e: Entry)
  {
    IsBlank(e.key) || e.value.None? || IsBlank(e.value.value)
  }

  datatype FileParamsResult = FileParamsFound(params: seq<ConvertParam>) | MissingFile(key: string, path: string)

  /** The file parameters in enumeration order, or the first one whose file does not exist. */
  function FileParams(d: Dictionary, existing: set<string>): FileParamsResult
  {
    if d == [] then FileParamsFound([])
    else if IsFileSkipped(d[0]) then FileParams(d[1..], existing)
    else if d[0].value.value !in existing then MissingFile(d[0].key, d[0].value.value)
    else Prefixed([FileParam(d[0].key, d[0].value.value)], FileParams(d[1..], existing))
  }

  function Prefixed(ps: seq<ConvertParam>, r: FileParamsResult): FileParamsResult
  {
    if r.FileParamsFound? then FileParamsFound(ps + r.params) else r
  }

  function FileParamsOf(fileParameters: Option<Dictionary>, existing: set<string>): FileParamsResult
  {
    if fileParameters.None? then FileParamsFound([]) else FileParams(fileParameters.value, existing)
  }

  /**
   * A missing file is reported for the FIRST entry that is neither skipped nor present: every
   * entry before it is skipped or names an existing file.
   */
  lemma {:induction false} MissingFileIsFirst(d: Dictionary, existing: set<string>)
    requires FileParams(d, existing).MissingFile?
    ensures exists i ::
              && 0 <= i < |d|
              && d[i] == Entry(FileParams(d, existing).key, Some(FileParams(d, existing).path))
              && !IsFileSkipped(d[i]) && d[i].value.value !in existing
              && (forall j :: 0 <= j < i ==> IsFileSkipped(d[j]) || d[j].value.value in existing)
  {
    var r := FileParams(d, existing);
    if IsFileSkipped(d[0]) || d[0].value.value in existing {
      MissingFileIsFirst(d[1..], existing);
      var i :| 0 <= i < |d[1..]| && d[1..][i] == Entry(r.key, Some(r.path))
        && !IsFileSkipped(d[1..][i]) && d[1..][i].value.value !in existing
        && forall j :: 0 <= j < i ==> IsFileSkipped(d[1..][j]) || d[1..][j].value.value in existing;
      assert d[i + 1] == d[1..][i];
      assert forall j :: 0 <= j < i + 1 ==> IsFileSkipped(d[j]) || d[j].value.value in existing by {
        forall j | 0 <= j < i + 1 ensures IsFileSkipped(d[j]) || d[j].value.value in existing {
          if j > 0 {
            assert d[j] == d[1..][j - 1];
          }
        }
      }
    } else {
      assert d[0] == Entry(r.key, Some(r.path));
    }
  }

  /**
   * When no file is missing, exactly the non-skipped entries are forwarded, as file
   * parameters, and each names an existing file.
   */
  lemma {:induction false} FileParamsMembers(d: Dictionary, existing: set<string>, p: ConvertParam)
    requires FileParams(d, existing).FileParamsFound?
    ensures p in FileParams(d, existing).params <==>
      p.FileParam? && Entry(p.name, Some(p.path)) in d && !IsBlank(p.name) && !IsBlank(p.path)
    ensures p in FileParams(d, existing).params ==> p.path in existing
  {
    if d != [] {
      FileParamsMembers(d[1..], existing, p);
      assert d == [d[0]] + d[1..];
    }
  }

  // The in-memory conversion (the first overload).

  function Urls(files: seq<ResultFile>): (r: seq<string>)
    ensures |r| == |files|
    ensures forall i :: 0 <= i < |files| ==> r[i] == files[i].url
  {
    seq(|files|, i requires 0 <= i < |files| => files[i].url)
  }

  /** What the first overload answers once the API call has been made. */
  function UrlsEnvelope(api: ApiOutcome): Envelope
  {
    match api
    case ApiThrew(ex) => Catch(ex)
    case ApiReturned(files) =>
      if files.None? || |files.value| == 0 then NoFiles else SuccessResponse(Urls(files.value))
  }

  function ConvertRequestOutcome(request: ClientRequestParamsRemote, host: Host): Outcome
  {
    if IsBlank(request.fromFormat) then
      Outcome(MissingArgument(SourceFormatRequired, "FromFormat"), [])
    else if IsBlank(request.toFormat) then
      Outcome(MissingArgument(TargetFormatRequired, "ToFormat"), [])
    else if host.cancellationRequested then
      Outcome(Catch(OperationCanceled(CancellationMessage)), [])
    else
      var call := InvokeApi(ToLower(request.fromFormat), ToLower(request.toFormat), StringParamsOf(request.parameters));
      Outcome(UrlsEnvelope(host.api), [call])
  }

  // The file-persisting conversion (the second overload).

  /**
   * The envelope for a file that could not be saved: the loop's own handlers name the file, and
   * anything else reaches the outer handlers.
   */
  function FetchError(file: ResultFile): (e: Envelope)
    requires !file.Saved()
    ensures e.ErrorResponse?
    ensures e.code == DownloadError <==> file.Failure().HttpFailure?
    ensures e.code == FileWriteError <==> file.Failure().IOFailure?
    ensures e.code == OperationCancelled <==> file.Failure().StepCancelled?
    ensures e.code == OperationFailed <==> file.Failure().OtherFailure?
    ensures e.details == Some(file.Failure().message)
    ensures file.Failure().HttpFailure? ==> e.message == "Failed to download file '" + file.fileName + "'."
    ensures file.Failure().IOFailure? ==> e.message == "Failed to save file '" + file.fileName + "'."
  {
    match file.Failure()
    case HttpFailure(m) => ErrorResponse("Failed to download file '" + (file.fileName + "'."), DownloadError, Some(m))
    case IOFailure(m) => ErrorResponse("Failed to save file '" + (file.fileName + "'."), FileWriteError, Some(m))
    case StepCancelled(m) => Catch(OperationCanceled(m))
    case OtherFailure(m) => Catch(OtherException(m))
  }

  /** The effects of attempting one file: the download, and the write when the download succeeded. */
  function Attempt(dir: string, file: ResultFile): seq<Effect>
  {
    if file.download.None? then [Download(file.url), WriteFile(Combine(dir, file.fileName))]
    else [Download(file.url)]
  }

  /** Downloads and saves `files` one after the other, `saved` holding the paths already written. */
  function SaveFiles(dir: string, files: seq<ResultFile>, saved: seq<string>): Outcome
  {
    if files == [] then Outcome(SuccessResponse(saved), [])
    else
      var file := files[0];
      if file.Saved() then
        Preceded(Attempt(dir, file), SaveFiles(dir, files[1..], saved + [Combine(dir, file.fileName)]))
      else Outcome(FetchError(file), Attempt(dir, file))
  }

  lemma SaveFilesUnfold(dir: string, files: seq<ResultFile>, saved: seq<string>)
    requires files != []
    ensures files[0].Saved() ==>
              SaveFiles(dir, files, saved) == Preceded(Attempt(dir, files[0]), SaveFiles(dir, files[1..], saved + [Combine(dir, files[0].fileName)]))
    ensures !files[0].Saved() ==> SaveFiles(dir, files, saved) == Outcome(FetchError(files[0]), Attempt(dir, files[0]))
  {
  }

  /** What the second overload answers once the API call has been made. */
  function SavedEnvelope(dir: string, api: ApiOutcome): Outcome
  {
    match api
    case ApiThrew(ex) => Outcome(Catch(ex), [])
    case ApiReturned(files) =>
      if files.None? || |files.value| == 0 then Outcome(NoFiles, []) else SaveFiles(dir, files.value, [])
  }

  function ConvertToDirectoryOutcome(fromFormat: string, toFormat: string, outputDirectory: string,
                                     parameters: Option<Dictionary>, fileParameters: Option<Dictionary>,
                                     host: Host): Outcome
  {
    if IsBlank(fromFormat) then
      Outcome(MissingArgument(SourceFormatRequired, "fromFormat"), [])
    else if IsBlank(toFormat) then
      Outcome(MissingArgument(TargetFormatRequired, "toFormat"), [])
    else if IsBlank(outputDirectory) then
      Outcome(MissingArgument(OutputDirectoryRequired, "outputDirectory"), [])
    else if host.cancellationRequested then
      Outcome(Catch(OperationCanceled(CancellationMessage)), [])
    else InDirectoryOutcome(fromFormat, toFormat, outputDirectory, parameters, fileParameters, host)
  }

  /** The second overload once the arguments are checked: from the creation of the directory on. */
  function InDirectoryOutcome(fromFormat: string, toFormat: string, outputDirectory: string,
                              parameters: Option<Dictionary>, fileParameters: Option<Dictionary>,
                              host: Host): Outcome
  {
    if host.directoryFailure.Some? then
      Outcome(DirectoryNotCreated(outputDirectory, host.directoryFailure.value), [CreateDirectory(outputDirectory)])
    else
      match FileParamsOf(fileParameters, host.existingFiles)
      case MissingFile(key, path) =>
        Outcome(FileMissing(key, path), [CreateDirectory(outputDirectory)])
      case FileParamsFound(fileParams) =>
        var call := InvokeApi(ToLower(fromFormat), ToLower(toFormat), StringParamsOf(parameters) + fileParams);
        var after := SavedEnvelope(outputDirectory, host.api);
        Outcome(after.envelope, [CreateDirectory(outputDirectory), call] + after.effects)
  }

  /** The loop over `Parameters` that builds the string parameters. */
  method CollectStringParams(parameters: Option<Dictionary>) returns (convertParams: seq<ConvertParam>)
    ensures convertParams == StringParamsOf(parameters)
  {
    convertParams := [];
    if parameters.Some? {
      var entries := parameters.value;
      var i := 0;
      while i < |entries|
        invariant 0 <= i <= |entries|
        invariant convertParams + StringParams(entries[i..]) == StringParams(entries)
      {
        var param := entries[i];
        assert entries[i..] == [param] + entries[i + 1..];
        if !IsBlank(param.key) && param.value.Some? {
          convertParams := convertParams + [StringParam(param.key, param.value.value)];
        }
        i := i + 1;
      }
    }
  }

  /** The loop over `fileParameters`: the file parameters, or the first missing file. */
  method CollectFileParams(fileParameters: Option<Dictionary>, existing: set<string>) returns (r: FileParamsResult)
    ensures r == FileParamsOf(fileParameters, existing)
  {
    var fileParams: seq<ConvertParam> := [];
    if fileParameters.Some? {
      var entries := fileParameters.value;
      var j := 0;
      while j < |entries|
        invariant 0 <= j <= |entries|
        invariant FileParams(entries, existing) == Prefixed(fileParams, FileParams(entries[j..], existing))
      {
        var fileParam := entries[j];
        assert entries[j..] == [fileParam] + entries[j + 1..];
        if IsBlank(fileParam.key) || fileParam.value.None? || IsBlank(fileParam.value.value) {
          j := j + 1;
          continue;
        }
        if fileParam.value.value !in existing {
          return MissingFile(fileParam.key, fileParam.value.value);
        }
        fileParams := fileParams + [FileParam(fileParam.key, fileParam.value.value)];
        j := j + 1;
      }
      assert entries[|entries|..] == [];
    }
    r := FileParamsFound(fileParams);
  }

  /** One pass of the download-and-save loop: download `file`, then write it under `dir`. */
  method SaveOne(dir: string, file: ResultFile) returns (filePath: string, ghost effects: seq<Effect>)
    ensures filePath == Combine(dir, file.fileName)
    ensures effects == Attempt(dir, file)
  {
    filePath := Combine(dir, file.fileName);
    effects := [Download(file.url)];
    if file.download.None? {
      effects := effects + [WriteFile(filePath)];
    }
  }

  /** The download-and-save loop over the returned files: the envelope it ends with. */
  method SaveAll(dir: string, files: seq<ResultFile>) returns (response: Envelope, ghost trace: seq<Effect>)
    ensures response == SaveFiles(dir, files, []).envelope
    ensures trace == SaveFiles(dir, files, []).effects
  {
    trace := [];
    var savedPaths: seq<string> := [];
    var k := 0;
    while k < |files|
      invariant 0 <= k <= |files|
      invariant SaveFiles(dir, files, []) == Preceded(trace, SaveFiles(dir, files[k..], savedPaths))
    {
      var file := files[k];
      assert files[k..][0] == file && files[k..][1..] == files[k + 1..];
      SaveFilesUnfold(dir, files[k..], savedPaths);
      var filePath, effects := SaveOne(dir, file);
      trace := trace + effects;
      if !file.Saved() {
        return FetchError(file), trace;
      }
      savedPaths := savedPaths + [filePath];
      k := k + 1;
    }
    response := SuccessResponse(savedPaths);
  }

  /**
   * `ConvertService`: holds the API client made from the secret.
   *
   * Every exit of both overloads returns `BuildErrorResponse` or `BuildSuccessResponse` of the
   * envelope it has settled on; here the `...Response` methods settle on the envelope and the
   * overloads return its text, `Serialize` picking the builder for the envelope's kind.
   */
  class ConvertService {

    const apiSecret: string

    /** The constructor throws on a blank secret; callers check that first. */
    constructor (apiSecret: string)
      requires !IsBlank(apiSecret)
      ensures this.apiSecret == apiSecret
    {
      this.apiSecret := apiSecret;
    }

    /** The first `ConvertAsync` overload: convert and answer with the result URLs. */
    method ConvertRequest(request: ClientRequestParamsRemote, host: Host) returns (text: string, ghost trace: seq<Effect>)
      ensures text == Serialize(ConvertRequestOutcome(request, host).envelope)
      ensures trace == ConvertRequestOutcome(request, host).effects
    {
      var response;
      response, trace := ConvertRequestResponse(request, host);
      text := Serialize(response);
    }

    method ConvertRequestResponse(request: ClientRequestParamsRemote, host: Host) returns (response: Envelope, ghost trace: seq<Effect>)
      ensures response == ConvertRequestOutcome(request, host).envelope
      ensures trace == ConvertRequestOutcome(request, host).effects
    {
      trace := [];
      if IsBlank(request.fromFormat) {
        return MissingArgument(SourceFormatRequired, "FromFormat"), trace;
      }
      if IsBlank(request.toFormat) {
        return MissingArgument(TargetFormatRequired, "ToFormat"), trace;
      }
      if host.cancellationRequested {
        return Catch(OperationCanceled(CancellationMessage)), trace;
      }
      var convertParams := CollectStringParams(request.parameters);
      trace := [InvokeApi(ToLower(request.fromFormat), ToLower(request.toFormat), convertParams)];
      match host.api {
        case ApiThrew(ex) =>
          response := Catch(ex);
        case ApiReturned(files) =>
          if files.None? || |files.value| == 0 {
            response := NoFiles;
          } else {
            response := SuccessResponse(Urls(files.value));
          }
      }
    }

    /** The second `ConvertAsync` overload: convert, then download and save every result file. */
    method ConvertToDirectory(fromFormat: string, toFormat: string, outputDirectory: string,
                              parameters: Option<Dictionary>, fileParameters: Option<Dictionary>,
                              host: Host) returns (text: string, ghost trace: seq<Effect>)
      ensures text == Serialize(ConvertToDirectoryOutcome(fromFormat, toFormat, outputDirectory, parameters, fileParameters, host).envelope)
      ensures trace == ConvertToDirectoryOutcome(fromFormat, toFormat, outputDirectory, parameters, fileParameters, host).effects
    {
      var response;
      response, trace := ConvertToDirectoryResponse(fromFormat, toFormat, outputDirectory, parameters, fileParameters, host);
      text := Serialize(response);
    }

    method ConvertToDirectoryResponse(fromFormat: string, toFormat: string, outputDirectory: string,
                                      parameters: Option<Dictionary>, fileParameters: Option<Dictionary>,
                                      host: Host) returns (response: Envelope, ghost trace: seq<Effect>)
      ensures response == ConvertToDirectoryOutcome(fromFormat, toFormat, outputDirectory, parameters, fileParameters, host).envelope
      ensures trace == ConvertToDirectoryOutcome(fromFormat, toFormat, outputDirectory, parameters, fileParameters, host).effects
    {
      trace := [];
      if IsBlank(fromFormat) {
        return MissingArgument(SourceFormatRequired, "fromFormat"), trace;
      }
      if IsBlank(toFormat) {
        return MissingArgument(TargetFormatRequired, "toFormat"), trace;
      }
      if IsBlank(outputDirectory) {
        return MissingArgument(OutputDirectoryRequired, "outputDirectory"), trace;
      }
      if host.cancellationRequested {
        return Catch(OperationCanceled(CancellationMessage)), trace;
      }
      response, trace := InDirectoryResponse(fromFormat, toFormat, outputDirectory, parameters, fileParameters, host);
    }

    method InDirectoryResponse(fromFormat: string, toFormat: string, outputDirectory: string,
                               parameters: Option<Dictionary>, fileParameters: Option<Dictionary>,
                               host: Host) returns (response: Envelope, ghost trace: seq<Effect>)
      ensures response == InDirectoryOutcome(fromFormat, toFormat, outputDirectory, parameters, fileParameters, host).envelope
      ensures trace == InDirectoryOutcome(fromFormat, toFormat, outputDirectory, parameters, fileParameters, host).effects
    {
      trace := [CreateDirectory(outputDirectory)];
      if host.directoryFailure.Some? {
        return DirectoryNotCreated(outputDirectory, host.directoryFailure.value), trace;
      }
      var convertParams := CollectStringParams(parameters);
      var fileParams := CollectFileParams(fileParameters, host.existingFiles);
      if fileParams.MissingFile? {
        return FileMissing(fileParams.key, fileParams.path), trace;
      }
      trace := trace + [InvokeApi(ToLower(fromFormat), ToLower(toFormat), convertParams + fileParams.params)];
      match host.api {
        case ApiThrew(ex) =>
          response := Catch(ex);
        case ApiReturned(files) =>
          if files.None? || |files.value| == 0 {
            response := NoFiles;
          } else {
            ghost var saved;
            response, saved := SaveAll(outputDirectory, files.value);
            trace := trace + saved;
          }
      }
    }
  }
}
