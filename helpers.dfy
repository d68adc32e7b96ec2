/**
 * The two response envelopes every operation answers with, and their JSON text.
 *
 * The text follows the indented layout of `JsonSerializer` (two-space indent, one property per
 * line, "\n" line breaks, `[]` for an empty array), but escapes only `"` (as `\"`) and `\`. The
 * default encoder behind `JsonSerializer.Serialize` writes `"` as `\u0022`; it also writes `'`,
 * `&`, `<`, `>`, `+`, `` ` `` and every non-ASCII character as `\uXXXX`, and the control characters
 * as `\b`, `\t`, `\n`, `\f`, `\r` or `\uXXXX`. So the model's text is a faithful JSON reading of
 * the envelope but not the serializer's exact text.
 * `ParseEnvelope` reads the model's text back, which shows the text determines the envelope.
 */
module Helpers {

  import opened Wrappers

  /** The stable, machine-readable failure codes. */
  datatype ErrorCode =
    | InvalidArgument
    | OperationCancelled
    | DirectoryError
    | FileNotFound
    | NoFilesReturned
    | ApiError
    | DownloadError
    | FileWriteError
    | OperationFailed
  {
    function Name(): string
    {
      match this
      case InvalidArgument => "INVALID_ARGUMENT"
      case OperationCancelled => "OPERATION_CANCELLED"
      case DirectoryError => "DIRECTORY_ERROR"
      case FileNotFound => "FILE_NOT_FOUND"
      case NoFilesReturned => "NO_FILES_RETURNED"
      case ApiError => "API_ERROR"
      case DownloadError => "DOWNLOAD_ERROR"
      case FileWriteError => "FILE_WRITE_ERROR"
      case OperationFailed => "OPERATION_FAILED"
    }
  }

  function CodeFromName(name: string): Option<ErrorCode>
  {
    if name == "INVALID_ARGUMENT" then Some(InvalidArgument)
    else if name == "OPERATION_CANCELLED" then Some(OperationCancelled)
    else if name == "DIRECTORY_ERROR" then Some(DirectoryError)
    else if name == "FILE_NOT_FOUND" then Some(FileNotFound)
    else if name == "NO_FILES_RETURNED" then Some(NoFilesReturned)
    else if name == "API_ERROR" then Some(ApiError)
    else if name == "DOWNLOAD_ERROR" then Some(DownloadError)
    else if name == "FILE_WRITE_ERROR" then Some(FileWriteError)
    else if name == "OPERATION_FAILED" then Some(OperationFailed)
    else None
  }

  /**
   * The two shapes: `{ error, message, code, details }` and `{ success, data }`. Neither has a
   * field of the other, and `details` is always there, possibly null.
   */
  datatype Envelope =
    | ErrorResponse(message: string, code: ErrorCode, details: Option<string>)
    | SuccessResponse(data: seq<string>)

  function EscapeChar(c: char): string
  {
    if c == '"' || c == '\\' then ['\\', c] else [c]
  }

  function Escape(s: string): string
  {
    if s == [] then [] else EscapeChar(s[0]) + Escape(s[1..])
  }

  /** A JSON string literal. */
  function Quote(s: string): string
  {
    "\"" + Escape(s) + "\""
  }

  function NullableText(s: Option<string>): string
  {
    if s.None? then "null" else Quote(s.value)
  }

  const ErrorHead := "{\n  \"error\": true,\n  \"message\": "
  const CodeField := ",\n  \"code\": "
  const DetailsField := ",\n  \"details\": "
  const SuccessHead := "{\n  \"success\": true,\n  \"data\": "
  const ArrayOpen := "[\n    "
  const ItemSeparator := ",\n    "
  const ArrayClose := "\n  ]"
  const EmptyArray := "[]"
  const Close := "\n}"

  /** The array items after the first one, and the closing bracket. */
  function ItemsRest(items: seq<string>): string
  {
    if items == [] then ArrayClose else ItemSeparator + (Quote(items[0]) + ItemsRest(items[1..]))
  }

  function ArrayText(items: seq<string>): string
  {
    if items == [] then EmptyArray else ArrayOpen + (Quote(items[0]) + ItemsRest(items[1..]))
  }

  /** The error envelope's text from the message on. */
  function ErrorFieldsText(message: string, code: ErrorCode, details: Option<string>): string
  {
    Quote(message) + (CodeField + (Quote(code.Name()) + (DetailsField + (NullableText(details) + Close))))
  }

  /** `Helpers.BuildErrorResponse`: the error text reads back as exactly the envelope it was built from. */
  function BuildErrorResponse(message: string, code: ErrorCode, details: Option<string> := None): (r: string)
    ensures ParseEnvelope(r) == Some(ErrorResponse(message, code, details))
  {
    ErrorTextParses(message, code, details);
    ErrorHead + ErrorFieldsText(message, code, details)
  }

  /**
   * `Helpers.BuildSuccessResponse`: the success text reads back as a success envelope with the
   * same data, in the same order.
   */
  function BuildSuccessResponse(urls: seq<string>): (r: string)
    ensures ParseEnvelope(r) == Some(SuccessResponse(urls))
  {
    SuccessTextParses(urls);
    SuccessHead + (ArrayText(urls) + Close)
  }

  /** The text of an envelope, by the builder for its kind. */
  function Serialize(e: Envelope): string
  {
    match e
    case ErrorResponse(message, code, details) => BuildErrorResponse(message, code, details)
    case SuccessResponse(data) => BuildSuccessResponse(data)
  }

  // Reading the text back.

  /** The text after `prefix`, if `s` starts with it. */
  function After(prefix: string, s: string): (r: Option<string>)
    ensures r.Some? ==> |r.value| <= |s|
  {
    if prefix <= s then Some(s[|prefix|..]) else None
  }

  function Prepend(c: char, r: Option<(string, string)>): Option<(string, string)>
  {
    match r
    case None => None
    case Some((content, rest)) => Some(([c] + content, rest))
  }

  /** The content of a string literal whose opening quote is already consumed, and what follows. */
  function ReadEscaped(s: string): (r: Option<(string, string)>)
    ensures r.Some? ==> |r.value.1| < |s|
  {
    if s == [] then None
    else if s[0] == '"' then Some(("", s[1..]))
    else if s[0] == '\\' then
      if |s| >= 2 && (s[1] == '"' || s[1] == '\\') then Prepend(s[1], ReadEscaped(s[2..])) else None
    else Prepend(s[0], ReadEscaped(s[1..]))
  }

  function Unquote(s: string): (r: Option<(string, string)>)
    ensures r.Some? ==> |r.value.1| < |s|
  {
    if s != [] && s[0] == '"' then ReadEscaped(s[1..]) else None
  }

  function ParseNullable(s: string): (r: Option<(Option<string>, string)>)
  {
    if "null" <= s then Some((None, s[4..]))
    else
      var p :- Unquote(s);
      Some((Some(p.0), p.1))
  }

  /** Array items from the first one on, up to and including the closing bracket. */
  function ParseItems(s: string): (r: Option<(seq<string>, string)>)
    decreases |s|
  {
    var p :- Unquote(s);
    if ItemSeparator <= p.1 then
      var more :- ParseItems(p.1[|ItemSeparator|..]);
      Some(([p.0] + more.0, more.1))
    else if ArrayClose <= p.1 then Some(([p.0], p.1[|ArrayClose|..]))
    else None
  }

  function ParseArray(s: string): Option<(seq<string>, string)>
  {
    if EmptyArray <= s then Some(([], s[|EmptyArray|..]))
    else
      var rest :- After(ArrayOpen, s);
      ParseItems(rest)
  }

  /** Reads an envelope's text; `None` when the text is not one. */
  function ParseEnvelope(text: string): Option<Envelope>
  {
    if ErrorHead <= text then ParseErrorFields(text[|ErrorHead|..])
    else if SuccessHead <= text then ParseSuccessFields(text[|SuccessHead|..])
    else None
  }

  /** The error envelope's fields, from the message on. */
  function ParseErrorFields(s: string): Option<Envelope>
  {
    var m :- Unquote(s);
    var r1 :- After(CodeField, m.1);
    var c :- Unquote(r1);
    var code :- CodeFromName(c.0);
    var r2 :- After(DetailsField, c.1);
    var d :- ParseNullable(r2);
    if d.1 == Close then Some(ErrorResponse(m.0, code, d.0)) else None
  }

  /** The success envelope's fields, from the data array on. */
  function ParseSuccessFields(s: string): Option<Envelope>
  {
    var a :- ParseArray(s);
    if a.1 == Close then Some(SuccessResponse(a.0)) else None
  }

  // The round trip.

  lemma {:induction false} ReadEscapedEscape(s: string, rest: string)
    ensures ReadEscaped(Escape(s) + "\"" + rest) == Some((s, rest))
  {
    if s == [] {
      assert Escape(s) + "\"" + rest == "\"" + rest;
    } else {
      var c := s[0];
      var after := Escape(s[1..]) + "\"" + rest;
      var t := Escape(s) + "\"" + rest;
      assert t == EscapeChar(c) + after;
      ReadEscapedEscape(s[1..], rest);
      if c == '"' || c == '\\' {
        assert t[0] == '\\' && t[1] == c && t[2..] == after;
      } else {
        assert t[0] == c && t[1..] == after;
      }
      assert [c] + s[1..] == s;
    }
  }

  lemma UnquoteQuote(s: string, rest: string)
    ensures Unquote(Quote(s) + rest) == Some((s, rest))
  {
    var t := Quote(s) + rest;
    assert t == "\"" + (Escape(s) + "\"" + rest);
    assert t[1..] == Escape(s) + "\"" + rest;
    ReadEscapedEscape(s, rest);
  }

  lemma AfterPrefix(prefix: string, rest: string)
    ensures After(prefix, prefix + rest) == Some(rest)
  {
    assert (prefix + rest)[..|prefix|] == prefix;
  }

  lemma {:induction false} ParseItemsRoundTrip(items: seq<string>, tail: string)
    requires items != []
    ensures ParseItems(Quote(items[0]) + (ItemsRest(items[1..]) + tail)) == Some((items, tail))
  {
    var after := ItemsRest(items[1..]) + tail;
    UnquoteQuote(items[0], after);
    if items[1..] == [] {
      assert after == ArrayClose + tail;
      assert !(ItemSeparator <= after) by {
        assert after[0] == '\n';
      }
      AfterPrefix(ArrayClose, tail);
      assert [items[0]] == items;
    } else {
      var rest := items[1..];
      var inner := Quote(rest[0]) + (ItemsRest(rest[1..]) + tail);
      assert after == ItemSeparator + inner;
      AfterPrefix(ItemSeparator, inner);
      ParseItemsRoundTrip(rest, tail);
      assert [items[0]] + rest == items;
    }
  }

  lemma ParseArrayRoundTrip(items: seq<string>, tail: string)
    ensures ParseArray(ArrayText(items) + tail) == Some((items, tail))
  {
    if items == [] {
      AfterPrefix(EmptyArray, tail);
    } else {
      var inner := Quote(items[0]) + (ItemsRest(items[1..]) + tail);
      assert ArrayText(items) + tail == ArrayOpen + inner;
      assert !(EmptyArray <= ArrayText(items) + tail) by {
        assert (ArrayText(items) + tail)[1] == '\n';
      }
      AfterPrefix(ArrayOpen, inner);
      ParseItemsRoundTrip(items, tail);
    }
  }

  lemma ParseNullableRoundTrip(s: Option<string>, tail: string)
    ensures ParseNullable(NullableText(s) + tail) == Some((s, tail))
  {
    if s.None? {
      AfterPrefix("null", tail);
    } else {
      assert (NullableText(s) + tail)[0] == '"';
      UnquoteQuote(s.value, tail);
    }
  }

  lemma CodeFromNameOfName(code: ErrorCode)
    ensures CodeFromName(code.Name()) == Some(code)
  {
  }

  lemma ParseErrorFieldsRoundTrip(message: string, code: ErrorCode, details: Option<string>)
    ensures ParseErrorFields(ErrorFieldsText(message, code, details)) == Some(ErrorResponse(message, code, details))
  {
    var r3 := NullableText(details) + Close;
    var r2 := Quote(code.Name()) + (DetailsField + r3);
    UnquoteQuote(message, CodeField + r2);
    AfterPrefix(CodeField, r2);
    UnquoteQuote(code.Name(), DetailsField + r3);
    CodeFromNameOfName(code);
    AfterPrefix(DetailsField, r3);
    ParseNullableRoundTrip(details, Close);
  }

  lemma ErrorTextParses(message: string, code: ErrorCode, details: Option<string>)
    ensures ParseEnvelope(ErrorHead + ErrorFieldsText(message, code, details)) == Some(ErrorResponse(message, code, details))
  {
    var body := ErrorFieldsText(message, code, details);
    AfterPrefix(ErrorHead, body);
    ParseErrorFieldsRoundTrip(message, code, details);
  }

  lemma SuccessTextParses(urls: seq<string>)
    ensures ParseEnvelope(SuccessHead + (ArrayText(urls) + Close)) == Some(SuccessResponse(urls))
  {
    var text := SuccessHead + (ArrayText(urls) + Close);
    assert !(ErrorHead <= text) by {
      assert text[5] == 's' && ErrorHead[5] == 'e';
    }
    AfterPrefix(SuccessHead, ArrayText(urls) + Close);
    ParseArrayRoundTrip(urls, Close);
  }

  /** An error envelope's text is never a success envelope's text, and the reverse. */
  lemma EnvelopeTextsDisjoint(message: string, code: ErrorCode, details: Option<string>, urls: seq<string>)
    ensures BuildErrorResponse(message, code, details) != BuildSuccessResponse(urls)
  {
    assert ParseEnvelope(BuildErrorResponse(message, code, details)) != ParseEnvelope(BuildSuccessResponse(urls));
  }

  /** Every envelope's text reads back as that envelope. */
  lemma SerializeRoundTrip(e: Envelope)
    ensures ParseEnvelope(Serialize(e)) == Some(e)
  {
    match e
    case ErrorResponse(message, code, details) =>
    case SuccessResponse(data) =>
  }

  /** Different envelopes have different texts. */
  lemma SerializeInjective(e1: Envelope, e2: Envelope)
    requires Serialize(e1) == Serialize(e2)
    ensures e1 == e2
  {
    SerializeRoundTrip(e1);
    SerializeRoundTrip(e2);
  }
}
