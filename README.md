# ConvertAPI MCP server: conversion core in Dafny

This project models the conversion path of the ConvertAPI MCP server, a .NET tool server that
converts files between formats through the ConvertAPI web service. It covers the following parts of the server.

- **`FlexibleParameterConverter`**, the JSON converter that reads a conversion parameter
  object into a `Dictionary<string, string>`. Every JSON kind is coerced to a string: numbers
  keep their raw text, booleans become `"true"`/`"false"`, `null` becomes `""`, and arrays
  are comma-joined. `Write` emits the dictionary back as string properties.
- **`Helpers`**, the two builders of the JSON envelopes every operation answers with: an
  error `{error, message, code, details}` and a success `{success, data}`.
- **`ClientRequestParamsRemote`**, the request record of the URL-returning conversion.
- **`ConvertService.ConvertAsync`**, both overloads:
  - The URL-returning overload checks both formats and cancellation. It forwards the
    non-blank-keyed, non-null string parameters, calls the API with lower-cased formats, and
    answers with the result URLs.
  - The file-persisting overload checks the output directory as well and creates it. It adds
    the existing local files as file parameters and calls the API. It then downloads and
    writes every result file in turn, and answers with the saved paths.
  - Every failure becomes one envelope with one of nine error codes.
- **`ConvertTool.Convert`**, the MCP tool on top of the file-persisting overload:
  - It checks both formats.
  - It picks an output directory when none is given: a `converted_output` folder beside the
    first existing input file, or in the current directory.
  - It reads `CONVERTAPI_SECRET`, then calls the service.
  - It maps the service's JSON text to an array of envelopes, one per character of that
    text.

How the outside world enters the model:

- The ConvertAPI SDK, HTTP downloads, the file system, the cancellation token and the
  environment are parameters:
  - `Host` holds the cancellation flag, the failure of `Directory.CreateDirectory` if any,
    the set of paths `File.Exists` accepts, and what the API call returns or throws. Each
    returned file records what its download and its write throw, if anything.
  - `Environment` holds the secret and the current directory.
- The operations return their envelope and, as a ghost trace, the effects they performed
  (create the directory, call the API, download, write).
- Each operation that the source writes with loops and early returns is a method. It is
  proved equal to a specification function (`ConvertRequestOutcome`,
  `ConvertToDirectoryOutcome`, `ConvertOutcome`, `ReadSpec`, `FileParamsOf`, `SaveFiles`, …).
  The lemmas state the promises about those functions.

Modules, one per source file plus shared helpers:

| module | file |
|---|---|
| `Wrappers` | the `Option` type |
| `Text` | `string.IsNullOrWhiteSpace`, `ToLowerInvariant` on ASCII, `string.Join` |
| `Paths` | `Path.Combine` and `Path.GetDirectoryName` on a Unix host |
| `Dictionaries` | `Dictionary<string, string>` as an insertion-ordered list of entries |
| `FlexibleParameterConverter` | the converter's `Read` and `Write` |
| `Helpers` | the envelope datatype, the builders, and a parser proving each text readable |
| `Models` | `ClientRequestParamsRemote` and the binding of its `Parameters` |
| `ConvertServices` | both `ConvertAsync` overloads, in class `ConvertService` |
| `ConvertServiceProperties` | the promises of both overloads |
| `ConvertTools` | `ConvertTool.Convert` |

Two behaviours of the code that the model keeps:

- `ConvertTool.Convert` enumerates the service's JSON text character by character. The model
  keeps that behaviour (see Findings).
- Dictionaries keep insertion order, because the order of the forwarded parameters and the
  tool's choice of the first existing input file follow it.

## Model

| member | source | states |
|---|---|---|
| Text.ToLower | CA.MCP.Core/Services/ConvertService.cs:72-73 | the lower-cased format has the same length, no upper-case ASCII letter, and each character is unchanged or its lower-case letter |
| Paths.CombineCases | CA.MCP.Core/Services/ConvertService.cs:219 | a rooted second path replaces the first; an empty one leaves the first; otherwise the result starts with the first path and ends with the second |
| Paths.GetDirectoryName | CA.MCP.Local/Tools/ConvertTool.cs:58 | null exactly for a root or empty path; otherwise shorter than the path, with every run of separators collapsed to one |
| Paths.CollapseKeepsClean | CA.MCP.Local/Tools/ConvertTool.cs:58 | the separator collapse leaves a path without repeated separators unchanged |
| Paths.CleanDirectoryNameIsPrefix | CA.MCP.Local/Tools/ConvertTool.cs:58 | for a path without repeated separators, the directory name is a prefix of the path |
| Paths.DirectoryOfBareName | CA.MCP.Local/Tools/ConvertTool.cs:58 | a bare file name has the empty directory name (not null) |
| Paths.DirectoryOfCombined | CA.MCP.Local/Tools/ConvertTool.cs:64 | the directory name of `Combine(dir, name)` is `dir` with its separator runs collapsed, so `dir` itself when it has none |
| Dictionaries.Get | CA.MCP.Core/Infrastructure/FlexibleParameterConverter.cs:45 | a lookup finds a value exactly when the key is present |
| Dictionaries.Put | CA.MCP.Core/Infrastructure/FlexibleParameterConverter.cs:45 | after `d[k] = v` the key maps to `v`; the keys stay in place, with `k` appended when it is new |
| Dictionaries.PutOtherKey | CA.MCP.Core/Infrastructure/FlexibleParameterConverter.cs:45 | storing one key leaves every other key's value unchanged |
| Dictionaries.PutKeepsValid | CA.MCP.Core/Infrastructure/FlexibleParameterConverter.cs:45 | keys stay unique |
| Dictionaries.PutNewKeyAppends | CA.MCP.Core/Infrastructure/FlexibleParameterConverter.cs:45 | a new key is enumerated last |
| FlexibleParameterConverter.Read | CA.MCP.Core/Infrastructure/FlexibleParameterConverter.cs:8-49 | the reading loop equals its specification; a reader not on `{` gives null; a result dictionary has unique keys and no null value |
| FlexibleParameterConverter.ReadPropertiesValid | CA.MCP.Core/Infrastructure/FlexibleParameterConverter.cs:13-48 | reading keeps keys unique and stores no null |
| FlexibleParameterConverter.ReadPropertiesStep | CA.MCP.Core/Infrastructure/FlexibleParameterConverter.cs:23-45 | a name and its value are stored, coerced, and the reading goes on after them |
| FlexibleParameterConverter.ReadPropertiesOfObject | CA.MCP.Core/Infrastructure/FlexibleParameterConverter.cs:15-46 | a well-formed object body is read into the dictionary that stores its properties in order |
| FlexibleParameterConverter.ReadObject | CA.MCP.Core/Infrastructure/FlexibleParameterConverter.cs:15-18 | `{}` gives an empty dictionary; a whole object gives its properties stored in order |
| FlexibleParameterConverter.ReadRejectsNonName | CA.MCP.Core/Infrastructure/FlexibleParameterConverter.cs:20-21 | a token in key position that is neither a name nor `}` throws, naming the token type |
| FlexibleParameterConverter.StoreAllLastWins | CA.MCP.Core/Infrastructure/FlexibleParameterConverter.cs:45 | each key holds the coercion of the last value given for it; keys never named keep their value |
| FlexibleParameterConverter.Coerce | CA.MCP.Core/Infrastructure/FlexibleParameterConverter.cs:29-43 | a string is stored unquoted, a number as its raw lexeme, booleans as `"true"`/`"false"`, null as `""`, an array as its element texts joined with `,`, and an object as its raw JSON text |
| FlexibleParameterConverter.ArrayCoercionSplits | CA.MCP.Core/Infrastructure/FlexibleParameterConverter.cs:36-40 | splitting an array's coercion at commas gives back its element texts when none holds a comma |
| FlexibleParameterConverter.ArrayCoercionIsAmbiguous | CA.MCP.Core/Infrastructure/FlexibleParameterConverter.cs:36-40 | `["a,b"]` and `["a","b"]` coerce to the same string |
| FlexibleParameterConverter.NullCoercions | CA.MCP.Core/Infrastructure/FlexibleParameterConverter.cs:35-40 | a null property becomes `""`, a null array element `"null"` |
| FlexibleParameterConverter.PutKeepsNonNull | CA.MCP.Core/Infrastructure/FlexibleParameterConverter.cs:45 | storing a string keeps every value non-null |
| FlexibleParameterConverter.Write | CA.MCP.Core/Infrastructure/FlexibleParameterConverter.cs:51-57 | `Write` emits `{`, one string property per entry in order, then `}` |
| FlexibleParameterConverter.WriteThenRead | CA.MCP.Core/Infrastructure/FlexibleParameterConverter.cs:8-57 | reading what `Write` emits gives the same dictionary in the same order, with nulls read back as `""` |
| Helpers.BuildErrorResponse | CA.MCP.Core/Infrastructure/Helpers.cs:7-17 | the error text parses back to its message, code and details (null details read back as null) |
| Helpers.BuildSuccessResponse | CA.MCP.Core/Infrastructure/Helpers.cs:19-27 | the success text parses back to its URL list, order and duplicates kept |
| Helpers.EnvelopeTextsDisjoint | CA.MCP.Core/Infrastructure/Helpers.cs:7-27 | no error text equals a success text |
| Helpers.SerializeRoundTrip | CA.MCP.Core/Infrastructure/Helpers.cs:7-27 | every envelope's text parses back to that envelope |
| Helpers.SerializeInjective | CA.MCP.Core/Infrastructure/Helpers.cs:7-27 | different envelopes have different texts |
| Helpers.CodeFromNameOfName | CA.MCP.Core/Infrastructure/Helpers.cs:7-17 | each code's wire name reads back as that code |
| Models.BindParameters | CA.MCP.Core/Models/ClientRequestParamsRemote.cs:20-22 | a bound `Parameters` map has unique keys and only string values; a non-object gives null |
| ConvertServiceProperties.DefaultRequestRejected | CA.MCP.Core/Models/ClientRequestParamsRemote.cs:12-23 | the default request is refused for its empty source format, with nothing done |
| ConvertServices.Catch | CA.MCP.Core/Services/ConvertService.cs:89-105 | cancellation gives OPERATION_CANCELLED, an API exception API_ERROR with its response as details, anything else OPERATION_FAILED |
| ConvertServices.StringParamsMembers | CA.MCP.Core/Services/ConvertService.cs:59-69 | a string parameter is forwarded exactly when its key is non-blank and its value non-null |
| ConvertServices.MissingFileIsFirst | CA.MCP.Core/Services/ConvertService.cs:179-198 | FILE_NOT_FOUND names the first entry that is not skipped and whose file does not exist |
| ConvertServices.FileParamsMembers | CA.MCP.Core/Services/ConvertService.cs:179-198 | a file parameter is uploaded exactly when key and path are non-blank; every uploaded path exists |
| ConvertServices.CollectStringParams | CA.MCP.Core/Services/ConvertService.cs:166-176 | the loop collects exactly the specified string parameters, in order |
| ConvertServices.CollectFileParams | CA.MCP.Core/Services/ConvertService.cs:179-198 | the loop with `continue` and early return collects the file parameters or stops at the first missing file |
| ConvertServices.SaveAll | CA.MCP.Core/Services/ConvertService.cs:213-252 | the download loop answers, and has performed, what the specification `SaveFiles` says |
| ConvertServices.ConvertService.constructor | CA.MCP.Core/Services/ConvertService.cs:14-22 | a service holds the non-blank secret it was built with |
| ConvertServices.ConvertService.ConvertRequest | CA.MCP.Core/Services/ConvertService.cs:36-106 | answers the text of the specified envelope and performs the specified effects |
| ConvertServices.ConvertService.ConvertRequestResponse | CA.MCP.Core/Services/ConvertService.cs:38-105 | the early returns and handlers settle on the specified envelope |
| ConvertServices.ConvertService.ConvertToDirectory | CA.MCP.Core/Services/ConvertService.cs:120-271 | answers the text of the specified envelope and performs the specified effects |
| ConvertServices.ConvertService.ConvertToDirectoryResponse | CA.MCP.Core/Services/ConvertService.cs:128-148 | the argument checks and the cancellation check settle on the specified envelope |
| ConvertServices.ConvertService.InDirectoryResponse | CA.MCP.Core/Services/ConvertService.cs:150-252 | directory creation, parameter assembly, the API call and the download loop settle on the specified envelope |
| ConvertServiceProperties.RequestInvalidArgument | CA.MCP.Core/Services/ConvertService.cs:40-50 | INVALID_ARGUMENT exactly for a blank format, source format first, with nothing done |
| ConvertServiceProperties.RequestCancelled | CA.MCP.Core/Services/ConvertService.cs:52 | cancellation after the checks gives OPERATION_CANCELLED with nothing done |
| ConvertServiceProperties.RequestApiCall | CA.MCP.Core/Services/ConvertService.cs:52-75 | the API is called once, exactly when the checks pass, with lower-cased formats and the forwarded string parameters |
| ConvertServiceProperties.RequestApiResult | CA.MCP.Core/Services/ConvertService.cs:71-87 | an API exception maps by type; a null or empty list gives NO_FILES_RETURNED; otherwise SUCCESS with the file URLs in order |
| ConvertServiceProperties.ToDirectoryInvalidArgument | CA.MCP.Core/Services/ConvertService.cs:130-146 | INVALID_ARGUMENT exactly for a blank argument, checked source format, target format, directory, with nothing done |
| ConvertServiceProperties.ToDirectoryCancelled | CA.MCP.Core/Services/ConvertService.cs:148 | cancellation after the checks gives OPERATION_CANCELLED with nothing done |
| ConvertServiceProperties.ToDirectoryDirectoryError | CA.MCP.Core/Services/ConvertService.cs:150-158 | DIRECTORY_ERROR exactly when creating the directory fails, and then only that was attempted |
| ConvertServiceProperties.ToDirectoryFileNotFound | CA.MCP.Core/Services/ConvertService.cs:186-193 | a missing file gives FILE_NOT_FOUND naming key and path, after the directory and before any API call |
| ConvertServiceProperties.ToDirectoryApiCall | CA.MCP.Core/Services/ConvertService.cs:163-204 | the API is called exactly when every earlier check passes, after the directory, with lower-cased formats and string parameters before file parameters |
| ConvertServiceProperties.ToDirectoryApiResult | CA.MCP.Core/Services/ConvertService.cs:200-210 | an API exception maps by type, a null or empty list gives NO_FILES_RETURNED, and otherwise the download loop decides |
| ConvertServiceProperties.ToDirectorySuccess | CA.MCP.Core/Services/ConvertService.cs:213-252 | SUCCESS exactly when files came back and all were saved; it lists the saved paths in the API's order |
| ConvertServiceProperties.SaveFilesAllSaved | CA.MCP.Core/Services/ConvertService.cs:213-252 | when every file saves, each was downloaded then written, and the answer lists every path in order |
| ConvertServiceProperties.SaveFilesStopsAtFirstFailure | CA.MCP.Core/Services/ConvertService.cs:215-247 | the first failing file ends the loop with its error; earlier files stay written; later files are never attempted |
| ConvertServiceProperties.SaveFilesSucceeds | CA.MCP.Core/Services/ConvertService.cs:213-252 | the loop succeeds exactly when every file is saved |
| ConvertServiceProperties.SaveFilesCodes | CA.MCP.Core/Services/ConvertService.cs:232-270 | the loop fails only with DOWNLOAD_ERROR, FILE_WRITE_ERROR, OPERATION_CANCELLED or OPERATION_FAILED |
| ConvertServices.FetchError | CA.MCP.Core/Services/ConvertService.cs:232-247 | each exception a file can end with has its own code (DOWNLOAD_ERROR, FILE_WRITE_ERROR, or the outer OPERATION_CANCELLED / OPERATION_FAILED), with the exception message as details; a failed download or save names the file in its message |
| ConvertTools.FirstExisting | CA.MCP.Local/Tools/ConvertTool.cs:52-62 | the index found holds a non-blank existing path and no earlier entry does; none is found only when no entry does |
| ConvertTools.FindFirstFileDirectory | CA.MCP.Local/Tools/ConvertTool.cs:51-62 | the `foreach` with `break` yields the directory name of the first existing file |
| ConvertTools.ResolveOutputDirectory | CA.MCP.Local/Tools/ConvertTool.cs:50-64 | the directory settled on is the specified one: the caller's, else `converted_output` under the first existing file's directory or the current directory |
| ConvertTools.OutputDirectoryDefaulting | CA.MCP.Local/Tools/ConvertTool.cs:64 | a given directory is kept even when blank; the default ends in `converted_output`, and its directory name is the base directory: the first existing file's directory, or the current directory with its separator runs collapsed |
| ConvertTools.FirstFileWins | CA.MCP.Local/Tools/ConvertTool.cs:51-62 | entries after the first existing file do not change the choice |
| ConvertTools.SkippedEntryIgnored | CA.MCP.Local/Tools/ConvertTool.cs:56 | a blank, null or missing path before it does not change the choice |
| ConvertTools.ConvertEnvelopes | CA.MCP.Local/Tools/ConvertTool.cs:42-83 | the checks, the defaulting, the secret and the mapping settle on the specified envelopes and effects |
| ConvertTools.Convert | CA.MCP.Local/Tools/ConvertTool.cs:35-84 | the returned texts are the specified envelopes' texts, one per element |
| ConvertTools.ConvertInvalidArgument | CA.MCP.Local/Tools/ConvertTool.cs:44-47 | the tool's INVALID_ARGUMENT comes exactly from a blank format, source first, with null details and no service call |
| ConvertTools.ConvertWithoutSecret | CA.MCP.Local/Tools/ConvertTool.cs:66-83 | a missing or blank secret gives one OPERATION_FAILED envelope with the exception message, and the service is never called |
| ConvertTools.ConvertWrapsEachCharacter | CA.MCP.Local/Tools/ConvertTool.cs:77 | one success envelope per character of the service's text, even for an error; the characters in order give back that text |
| ConvertTools.ReassembledPerCharacter | CA.MCP.Local/Tools/ConvertTool.cs:77 | the per-character envelopes give back the text they were made from |
| ConvertTools.ConvertIgnoresCancellation | CA.MCP.Local/Tools/ConvertTool.cs:70-75 | the service is called without a cancellation token, so a cancellation request never changes the tool's answer or effects |
| ConvertTools.ConvertAnswers | CA.MCP.Local/Tools/ConvertTool.cs:42-83 | every path answers with at least one envelope, and every answer text parses back to its envelope |
| ConvertTools.PerCharacterLosesAnswer | CA.MCP.Local/Tools/ConvertTool.cs:77 | as written, no saved path of two or more characters appears in any envelope |
| ConvertTools.IntendedConvertPassesAnswer | CA.MCP.Local/Tools/ConvertTool.cs:77 | with the intended mapping the caller reads back the service's own envelope |

## Left out

- JSON layout: the envelope texts use the serializer's indented layout but escape only `"` (as `\"`) and `\`. The default encoder of `JsonSerializer.Serialize` writes `"` as `\u0022`, writes `\` as `\\`, and writes `'`, `&`, `<`, `>`, `+`, `` ` `` and every non-ASCII character as `\uXXXX`. Of the control characters, backspace, tab, line feed, form feed and carriage return get the short escapes `\b`, `\t`, `\n`, `\f` and `\r`; the rest are written as `\uXXXX`. So the real texts differ from the model's even for plain ASCII: several messages hold `'`, and result URLs often hold `&`. The model proves that each text reads back, not byte equality with the serializer.
- ConvertTools.Convert: the number and contents of its per-character envelopes follow the model's text, not the serializer's; for example, each `'` is one envelope here and six (`\u0027`) in .NET. .NET also enumerates UTF-16 code units, where a Dafny `string` holds Unicode scalar values. The serializer's text is all ASCII, so the two agree on it, but the model's text keeps non-ASCII characters unescaped, one envelope each.
- Models.BindParameters: "a non-object gives null" holds for a single-token value only. For a top-level array `Read` returns without consuming it, and the serializer then throws a `JsonException`; the model answers `Bound(None)` there.
- JSON reading: the reader is a token sequence, and each property value arrives as one parsed value. UTF-8 decoding, number syntax and the serializer's check that the converter consumed the whole value are not modelled.
- The coercion switch's default branch (`_ => string.Empty`) is unreachable for parsed values, and has no case in the model.
- `IsNullOrWhiteSpace` and `ToLowerInvariant` use the .NET whitespace set and ASCII case mapping. Full Unicode case mapping is not modelled.
- `Path.Combine` and `Path.GetDirectoryName` follow Unix rules ('/' only). Windows drive roots, `\`, and the exceptions on invalid characters are not modelled.
- Asynchrony: the cancellation token is one flag read where `ThrowIfCancellationRequested` runs. A cancellation that arrives during a download surfaces as that file's `StepCancelled` failure. `ConvertTool.Convert` passes no token, so on that path the flag is always clear.
- Logging (`ILogger`, `Console.Error`) has no effect on results and is not modelled.
- The ConvertAPI SDK, `HttpClient`, `Directory.CreateDirectory`, `File.Exists` and `File.WriteAllBytesAsync` are oracle inputs in `Host`. A partly written file left by a failed write is not modelled.
- A null request, null format strings, or a null `Url` or `FileName` in a file the SDK returns: the model's strings are never null. In the source, a null `Url` or `FileName` throws at CA.MCP.Core/Services/ConvertService.cs:83 or :219 and ends as OPERATION_FAILED through the outer handlers; that path is not modelled. Null dictionary values are modelled.
- The catalog operations (`OpenApiSchemaService`, `InformationTool`) and `Program.cs` are not part of this model.
- ConvertServices.ConvertService.constructor: requires a non-blank secret instead of throwing. The tool checks the secret first, and models the thrown `ArgumentException` as its message.

## Findings

| source | as written | input that shows it | evidently intended | confidence | as-written member | corrected member |
|---|---|---|---|---|---|---|
| CA.MCP.Local/Tools/ConvertTool.cs:77 | `outputs` is the service's JSON text (a `string`), so `Select` enumerates its characters and wraps each one as a one-URL success envelope | any successful conversion: a saved path such as `out/a.pdf` appears in no returned envelope; a service error also comes back as success envelopes | return the service's envelope itself | high; not executed | ConvertTools.PerCharacterLosesAnswer | ConvertTools.IntendedConvertPassesAnswer |

`ConvertTools.Convert` models the mapping as written. `ConvertTools.IntendedConvertOutcome` is the corrected result, and nothing else in the model depends on the tool's answer.
