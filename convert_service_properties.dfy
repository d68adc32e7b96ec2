/**
 * What the two conversion pipelines promise, stated over their specifications: the order of
 * the checks, which effects each outcome has had, what reaches the API, and how the download
 * loop stops.
 */
module ConvertServiceProperties {

  import opened Wrappers
  import opened Text
  import opened Paths
  import opened Dictionaries
  import opened Helpers
  import opened Models
  import opened ConvertServices

  // The download-and-save loop.

  /** Every file was downloaded and written without an exception. */
  predicate AllSaved(files: seq<ResultFile>)
  {
    forall i :: 0 <= i < |files| ==> files[i].Saved()
  }

  /** The paths the files are saved under, in order. */
  function SavedPaths(dir: string, files: seq<ResultFile>): (r: seq<string>)
    ensures |r| == |files|
  {
    seq(|files|, i requires 0 <= i < |files| => Combine(dir, files[i].fileName))
  }

  /** The effects of attempting each file in turn. */
  function Attempts(dir: string, files: seq<ResultFile>): seq<Effect>
  {
    if files == [] then [] else Attempt(dir, files[0]) + Attempts(dir, files[1..])
  }

  /**
   * When every file is saved, the answer lists every saved path in the order of the files, and
   * every file was downloaded and then written.
   */
  lemma {:induction false} SaveFilesAllSaved(dir: string, files: seq<ResultFile>, saved: seq<string>)
    requires AllSaved(files)
    ensures SaveFiles(dir, files, saved) == Outcome(SuccessResponse(saved + SavedPaths(dir, files)), Attempts(dir, files))
  {
    if files == [] {
      assert saved + SavedPaths(dir, files) == saved;
    } else {
      assert files[0].Saved();
      var path := Combine(dir, files[0].fileName);
      assert AllSaved(files[1..]) by {
        forall i | 0 <= i < |files[1..]| ensures files[1..][i].Saved() {
          assert files[1..][i] == files[i + 1];
        }
      }
      SaveFilesAllSaved(dir, files[1..], saved + [path]);
      assert SavedPaths(dir, files) == [path] + SavedPaths(dir, files[1..]);
      assert (saved + [path]) + SavedPaths(dir, files[1..]) == saved + SavedPaths(dir, files);
    }
  }

  /**
   * The loop stops at the first file that fails: the answer is that file's error, the files
   * before it stay downloaded and written (nothing is undone), and no later file is attempted.
   */
  lemma {:induction false} SaveFilesStopsAtFirstFailure(dir: string, files: seq<ResultFile>, saved: seq<string>, i: nat)
    requires i < |files| && !files[i].Saved()
    requires AllSaved(files[..i])
    ensures SaveFiles(dir, files, saved) == Outcome(FetchError(files[i]), Attempts(dir, files[..i]) + Attempt(dir, files[i]))
  {
    if i == 0 {
      assert files[..0] == [];
    } else {
      SavedPrefixTail(files, i);
      assert files[1..][i - 1] == files[i];
      SaveFilesStopsAtFirstFailure(dir, files[1..], saved + [Combine(dir, files[0].fileName)], i - 1);
      assert Attempts(dir, files[..i]) == Attempt(dir, files[0]) + Attempts(dir, files[1..][..i - 1]);
    }
  }

  /** A saved prefix is its saved first file followed by a saved prefix of the rest. */
  lemma SavedPrefixTail(files: seq<ResultFile>, i: nat)
    requires 0 < i <= |files| && AllSaved(files[..i])
    ensures files[0].Saved() && AllSaved(files[1..][..i - 1])
    ensures files[..i] == [files[0]] + files[1..][..i - 1]
  {
    assert files[0] == files[..i][0];
    var before := files[1..][..i - 1];
    forall j | 0 <= j < |before| ensures before[j].Saved() {
      assert before[j] == files[..i][j + 1];
    }
  }

  /** The loop's errors are the ones its handlers and the outer handlers produce. */
  lemma {:induction false} SaveFilesCodes(dir: string, files: seq<ResultFile>, saved: seq<string>)
    ensures SaveFiles(dir, files, saved).envelope.ErrorResponse? ==>
              SaveFiles(dir, files, saved).envelope.code in {DownloadError, FileWriteError, OperationCancelled, OperationFailed}
  {
    if files != [] && files[0].Saved() {
      SaveFilesCodes(dir, files[1..], saved + [Combine(dir, files[0].fileName)]);
    }
  }

  // The file-persisting overload.

  /** The arguments every overload checks before anything else. */
  predicate ArgumentsPresent(fromFormat: string, toFormat: string, outputDirectory: string)
  {
    !IsBlank(fromFormat) && !IsBlank(toFormat) && !IsBlank(outputDirectory)
  }

  /** The API is called once the checks before it pass. */
  predicate ReachesApi(fromFormat: string, toFormat: string, outputDirectory: string,
                       fileParameters: Option<Dictionary>, host: Host)
  {
    && ArgumentsPresent(fromFormat, toFormat, outputDirectory)
    && !host.cancellationRequested
    && host.directoryFailure.None?
    && FileParamsOf(fileParameters, host.existingFiles).FileParamsFound?
  }

  /**
   * INVALID_ARGUMENT comes exactly from a blank argument, checked in the order source format,
   * target format, output directory, and before anything is done.
   */
  lemma ToDirectoryInvalidArgument(fromFormat: string, toFormat: string, outputDirectory: string,
                                   parameters: Option<Dictionary>, fileParameters: Option<Dictionary>, host: Host)
    ensures var o := ConvertToDirectoryOutcome(fromFormat, toFormat, outputDirectory, parameters, fileParameters, host);
      (o.envelope.ErrorResponse? && o.envelope.code == InvalidArgument) <==> !ArgumentsPresent(fromFormat, toFormat, outputDirectory)
    ensures var o := ConvertToDirectoryOutcome(fromFormat, toFormat, outputDirectory, parameters, fileParameters, host);
      && (IsBlank(fromFormat) ==> o == Outcome(MissingArgument(SourceFormatRequired, "fromFormat"), []))
      && (!IsBlank(fromFormat) && IsBlank(toFormat) ==> o == Outcome(MissingArgument(TargetFormatRequired, "toFormat"), []))
      && (!IsBlank(fromFormat) && !IsBlank(toFormat) && IsBlank(outputDirectory) ==>
            o == Outcome(MissingArgument(OutputDirectoryRequired, "outputDirectory"), []))
  {
    if ArgumentsPresent(fromFormat, toFormat, outputDirectory) && !host.cancellationRequested && host.directoryFailure.None?
       && FileParamsOf(fileParameters, host.existingFiles).FileParamsFound? && host.api.ApiReturned?
       && host.api.files.Some? && |host.api.files.value| > 0 {
      SaveFilesCodes(outputDirectory, host.api.files.value, []);
    }
  }

  /** Cancellation requested once the arguments are checked: OPERATION_CANCELLED, nothing done. */
  lemma ToDirectoryCancelled(fromFormat: string, toFormat: string, outputDirectory: string,
                             parameters: Option<Dictionary>, fileParameters: Option<Dictionary>, host: Host)
    requires ArgumentsPresent(fromFormat, toFormat, outputDirectory) && host.cancellationRequested
    ensures ConvertToDirectoryOutcome(fromFormat, toFormat, outputDirectory, parameters, fileParameters, host) ==
            Outcome(ErrorResponse("Conversion operation was cancelled.", OperationCancelled, Some(CancellationMessage)), [])
  {
  }

  /**
   * DIRECTORY_ERROR comes exactly from a failure to create the directory, and then the creation
   * was the only thing attempted: the API is never called.
   */
  lemma ToDirectoryDirectoryError(fromFormat: string, toFormat: string, outputDirectory: string,
                                  parameters: Option<Dictionary>, fileParameters: Option<Dictionary>, host: Host)
    ensures var o := ConvertToDirectoryOutcome(fromFormat, toFormat, outputDirectory, parameters, fileParameters, host);
      (o.envelope.ErrorResponse? && o.envelope.code == DirectoryError) <==>
      (ArgumentsPresent(fromFormat, toFormat, outputDirectory) && !host.cancellationRequested && host.directoryFailure.Some?)
    ensures var o := ConvertToDirectoryOutcome(fromFormat, toFormat, outputDirectory, parameters, fileParameters, host);
      o.envelope.ErrorResponse? && o.envelope.code == DirectoryError ==> o.effects == [CreateDirectory(outputDirectory)]
  {
    if ReachesApi(fromFormat, toFormat, outputDirectory, fileParameters, host) && host.api.ApiReturned?
       && host.api.files.Some? && |host.api.files.value| > 0 {
      SaveFilesCodes(outputDirectory, host.api.files.value, []);
    }
  }

  /**
   * A file parameter whose file does not exist gives FILE_NOT_FOUND naming its key and path,
   * after the directory was created and without calling the API.
   */
  lemma ToDirectoryFileNotFound(fromFormat: string, toFormat: string, outputDirectory: string,
                                parameters: Option<Dictionary>, fileParameters: Option<Dictionary>, host: Host)
    requires ArgumentsPresent(fromFormat, toFormat, outputDirectory) && !host.cancellationRequested && host.directoryFailure.None?
    requires FileParamsOf(fileParameters, host.existingFiles).MissingFile?
    ensures var missing := FileParamsOf(fileParameters, host.existingFiles);
      ConvertToDirectoryOutcome(fromFormat, toFormat, outputDirectory, parameters, fileParameters, host) ==
      Outcome(FileMissing(missing.key, missing.path), [CreateDirectory(outputDirectory)])
    ensures FileMissing(FileParamsOf(fileParameters, host.existingFiles).key, FileParamsOf(fileParameters, host.existingFiles).path).code == FileNotFound
  {
  }

  /**
   * The API is called exactly when every check before it passes, once, with both formats
   * lower-cased and the string parameters followed by the file parameters.
   */
  lemma ToDirectoryApiCall(fromFormat: string, toFormat: string, outputDirectory: string,
                           parameters: Option<Dictionary>, fileParameters: Option<Dictionary>, host: Host)
    ensures var o := ConvertToDirectoryOutcome(fromFormat, toFormat, outputDirectory, parameters, fileParameters, host);
      (exists i :: 0 <= i < |o.effects| && o.effects[i].InvokeApi?) <==> ReachesApi(fromFormat, toFormat, outputDirectory, fileParameters, host)
    ensures var o := ConvertToDirectoryOutcome(fromFormat, toFormat, outputDirectory, parameters, fileParameters, host);
      ReachesApi(fromFormat, toFormat, outputDirectory, fileParameters, host) ==>
        |o.effects| >= 2 && o.effects[..2] == [CreateDirectory(outputDirectory),
          InvokeApi(ToLower(fromFormat), ToLower(toFormat),
                    StringParamsOf(parameters) + FileParamsOf(fileParameters, host.existingFiles).params)]
  {
    var o := ConvertToDirectoryOutcome(fromFormat, toFormat, outputDirectory, parameters, fileParameters, host);
    if ReachesApi(fromFormat, toFormat, outputDirectory, fileParameters, host) {
      var call := InvokeApi(ToLower(fromFormat), ToLower(toFormat),
                            StringParamsOf(parameters) + FileParamsOf(fileParameters, host.existingFiles).params);
      var after := SavedEnvelope(outputDirectory, host.api);
      assert o.effects == [CreateDirectory(outputDirectory), call] + after.effects;
      assert o.effects[1] == call;
    } else {
      assert forall i :: 0 <= i < |o.effects| ==> !o.effects[i].InvokeApi?;
    }
  }

  /** The loop answers with success exactly when every file was saved. */
  lemma {:induction false} SaveFilesSucceeds(dir: string, files: seq<ResultFile>, saved: seq<string>)
    ensures SaveFiles(dir, files, saved).envelope.SuccessResponse? <==> AllSaved(files)
  {
    if files != [] && files[0].Saved() {
      SaveFilesSucceeds(dir, files[1..], saved + [Combine(dir, files[0].fileName)]);
      if !AllSaved(files) {
        var i :| 0 <= i < |files| && !files[i].Saved();
        assert files[1..][i - 1] == files[i];
      } else {
        assert forall i :: 0 <= i < |files[1..]| ==> files[1..][i] == files[i + 1];
      }
    }
  }

  /**
   * What the API hands back decides the answer once it is called: its exception mapped by type,
   * NO_FILES_RETURNED for a null or empty list, or the download loop over the list.
   */
  lemma ToDirectoryApiResult(fromFormat: string, toFormat: string, outputDirectory: string,
                             parameters: Option<Dictionary>, fileParameters: Option<Dictionary>, host: Host)
    requires ReachesApi(fromFormat, toFormat, outputDirectory, fileParameters, host)
    ensures var o := ConvertToDirectoryOutcome(fromFormat, toFormat, outputDirectory, parameters, fileParameters, host);
      && (host.api.ApiThrew? ==> o.envelope == Catch(host.api.ex) && |o.effects| == 2)
      && (host.api.ApiReturned? && (host.api.files.None? || host.api.files.value == []) ==>
            o.envelope == NoFiles && |o.effects| == 2)
      && (host.api.ApiReturned? && host.api.files.Some? && host.api.files.value != [] ==>
            o.envelope == SaveFiles(outputDirectory, host.api.files.value, []).envelope &&
            o.effects[2..] == SaveFiles(outputDirectory, host.api.files.value, []).effects)
  {
  }

  /**
   * SUCCESS exactly when the API returned files and every one of them was saved; the answer then
   * lists the saved paths in the order the API returned the files.
   */
  lemma ToDirectorySuccess(fromFormat: string, toFormat: string, outputDirectory: string,
                           parameters: Option<Dictionary>, fileParameters: Option<Dictionary>, host: Host)
    ensures var o := ConvertToDirectoryOutcome(fromFormat, toFormat, outputDirectory, parameters, fileParameters, host);
      o.envelope.SuccessResponse? <==>
        (&& ReachesApi(fromFormat, toFormat, outputDirectory, fileParameters, host)
         && host.api.ApiReturned? && host.api.files.Some? && host.api.files.value != []
         && AllSaved(host.api.files.value))
    ensures var o := ConvertToDirectoryOutcome(fromFormat, toFormat, outputDirectory, parameters, fileParameters, host);
      o.envelope.SuccessResponse? ==> o.envelope.data == SavedPaths(outputDirectory, host.api.files.value)
  {
    if ReachesApi(fromFormat, toFormat, outputDirectory, fileParameters, host) && host.api.ApiReturned?
       && host.api.files.Some? && host.api.files.value != [] {
      var files := host.api.files.value;
      SaveFilesSucceeds(outputDirectory, files, []);
      if AllSaved(files) {
        SaveFilesAllSaved(outputDirectory, files, []);
        assert [] + SavedPaths(outputDirectory, files) == SavedPaths(outputDirectory, files);
      }
    }
  }

  // The URL-returning overload.

  /** INVALID_ARGUMENT exactly from a blank format, the source format first; nothing is done. */
  lemma RequestInvalidArgument(request: ClientRequestParamsRemote, host: Host)
    ensures var o := ConvertRequestOutcome(request, host);
      (o.envelope.ErrorResponse? && o.envelope.code == InvalidArgument) <==> (IsBlank(request.fromFormat) || IsBlank(request.toFormat))
    ensures var o := ConvertRequestOutcome(request, host);
      && (IsBlank(request.fromFormat) ==> o == Outcome(MissingArgument(SourceFormatRequired, "FromFormat"), []))
      && (!IsBlank(request.fromFormat) && IsBlank(request.toFormat) ==> o == Outcome(MissingArgument(TargetFormatRequired, "ToFormat"), []))
  {
  }

  /** The all-default request is refused for its missing source format. */
  lemma DefaultRequestRejected(host: Host)
    ensures ConvertRequestOutcome(DefaultRequest, host) == Outcome(MissingArgument(SourceFormatRequired, "FromFormat"), [])
  {
    assert IsBlank(DefaultRequest.fromFormat);
  }

  /**
   * The API is called exactly when both formats are present and no cancellation is requested,
   * once, with both formats lower-cased and only the forwarded string parameters.
   */
  lemma RequestApiCall(request: ClientRequestParamsRemote, host: Host)
    ensures var o := ConvertRequestOutcome(request, host);
      && (!IsBlank(request.fromFormat) && !IsBlank(request.toFormat) && !host.cancellationRequested ==>
            o.effects == [InvokeApi(ToLower(request.fromFormat), ToLower(request.toFormat), StringParamsOf(request.parameters))])
      && (IsBlank(request.fromFormat) || IsBlank(request.toFormat) || host.cancellationRequested ==> o.effects == [])
    ensures request.parameters.None? ==> StringParamsOf(request.parameters) == []
  {
  }

  /**
   * Once the API is called: its exception mapped by type, NO_FILES_RETURNED for a null or empty
   * list, and otherwise SUCCESS with one URL per returned file, in order.
   */
  lemma RequestApiResult(request: ClientRequestParamsRemote, host: Host)
    requires !IsBlank(request.fromFormat) && !IsBlank(request.toFormat) && !host.cancellationRequested
    ensures var e := ConvertRequestOutcome(request, host).envelope;
      && (host.api.ApiThrew? ==> e == Catch(host.api.ex))
      && (host.api.ApiReturned? && (host.api.files.None? || host.api.files.value == []) ==> e == NoFiles)
      && (host.api.ApiReturned? && host.api.files.Some? && host.api.files.value != [] ==>
            && e.SuccessResponse? && |e.data| == |host.api.files.value|
            && forall i :: 0 <= i < |e.data| ==> e.data[i] == host.api.files.value[i].url)
  {
  }

  /** Cancellation requested once the formats are checked: OPERATION_CANCELLED, nothing done. */
  lemma RequestCancelled(request: ClientRequestParamsRemote, host: Host)
    requires !IsBlank(request.fromFormat) && !IsBlank(request.toFormat) && host.cancellationRequested
    ensures ConvertRequestOutcome(request, host) ==
            Outcome(ErrorResponse("Conversion operation was cancelled.", OperationCancelled, Some(CancellationMessage)), [])
  {
  }
}
