/**
 * The JSON converter that turns a loosely typed JSON object into a string-to-string dictionary:
 * `Read` walks the reader's tokens and coerces each property value by its kind, `Write` emits
 * every entry as a string property.
 *
 * The reader is a sequence of tokens. A property value, however deep, is one `Value` token
 * carrying the parsed value, which is what `JsonDocument.ParseValue` hands back; raw number,
 * array and object text is carried as it was received, without being re-derived from a lexer.
 */
module FlexibleParameterConverter {

  import opened Wrappers
  import opened Text
  import opened Dictionaries

  /** A parsed JSON value (`JsonElement`) with the raw text the coercion needs. */
  datatype JsonValue =
    | JString(value: string)
    | JNumber(raw: string)
    | JTrue
    | JFalse
    | JNull
    | JArray(elements: seq<JsonValue>, raw: string)
    | JObject(raw: string)

  /** A position of `Utf8JsonReader` inside the object being read. */
  datatype Token =
    | StartObject
    | EndObject
    | PropertyName(name: string)
    | Value(value: JsonValue)

  /** The `JsonTokenType` name of a token: the first token of a value for a `Value`. */
  function TokenTypeName(t: Token): string
  {
    match t
    case StartObject => "StartObject"
    case EndObject => "EndObject"
    case PropertyName(_) => "PropertyName"
    case Value(v) =>
      match v
      case JString(_) => "String"
      case JNumber(_) => "Number"
      case JTrue => "True"
      case JFalse => "False"
      case JNull => "Null"
      case JArray(_, _) => "StartArray"
      case JObject(_) => "StartObject"
  }

  /** `GetRawText()` of a value that is not a string. */
  function RawText(v: JsonValue): string
    requires !v.JString?
  {
    match v
    case JNumber(raw) => raw
    case JTrue => "true"
    case JFalse => "false"
    case JNull => "null"
    case JArray(_, raw) => raw
    case JObject(raw) => raw
  }

  /** The text of one array element: a string unquoted, anything else its raw text. */
  function ElementText(e: JsonValue): string
  {
    if e.JString? then e.value else RawText(e)
  }

  function ElementTexts(elements: seq<JsonValue>): (r: seq<string>)
    ensures |r| == |elements|
    ensures forall i :: 0 <= i < |r| ==> r[i] == ElementText(elements[i])
  {
    seq(|elements|, i requires 0 <= i < |elements| => ElementText(elements[i]))
  }

  /**
   * The value-kind switch: the string stored for one property value. A string is stored
   * unquoted, `null` as the empty string, an array as its element texts joined with commas, and a
   * number, a boolean or an object as its own JSON text.
   */
  function Coerce(v: JsonValue): (r: string)
    ensures v.JString? ==> r == v.value
    ensures v.JNull? ==> r == ""
    ensures v.JArray? ==> r == Join(",", ElementTexts(v.elements))
    ensures v.JNumber? || v.JTrue? || v.JFalse? || v.JObject? ==> r == RawText(v)
  {
    match v
    case JString(s) => s
    case JNumber(raw) => raw
    case JTrue => "true"
    case JFalse => "false"
    case JNull => ""
    case JArray(elements, _) => Join(",", ElementTexts(elements))
    case JObject(raw) => raw
  }

  /** An array's elements can be recovered from its coercion when no element text holds a comma. */
  lemma ArrayCoercionSplits(elements: seq<JsonValue>, raw: string)
    requires |elements| >= 1
    requires forall i :: 0 <= i < |elements| ==> ',' !in ElementText(elements[i])
    ensures Split(Coerce(JArray(elements, raw)), ',') == ElementTexts(elements)
  {
    SplitJoin(ElementTexts(elements), ',');
  }

  /** Commas inside string elements are not escaped: two different arrays coerce alike. */
  lemma ArrayCoercionIsAmbiguous(raw1: string, raw2: string)
    ensures Coerce(JArray([JString("a,b")], raw1)) == Coerce(JArray([JString("a"), JString("b")], raw2)) == "a,b"
  {
    assert ElementTexts([JString("a,b")]) == ["a,b"];
    assert ElementTexts([JString("a"), JString("b")]) == ["a", "b"];
    assert Join(",", ["a", "b"]) == "a" + "," + Join(",", ["b"]) == "a,b";
  }

  /** A `null` property becomes the empty string, while a `null` array element becomes "null". */
  lemma NullCoercions(raw: string)
    ensures Coerce(JNull) == "" && Coerce(JArray([JNull], raw)) == "null"
  {
    assert ElementTexts([JNull]) == ["null"];
  }

  /** What `Read` hands back: C# null, a dictionary, or a thrown `JsonException`. */
  datatype ReadResult = NullResult | Parsed(dictionary: Dictionary) | JsonError(message: string)

  function PropertyNameExpected(t: Token): string
  {
    "Expected property name, got " + TokenTypeName(t)
  }

  /** Stands for the message `JsonDocument.ParseValue` throws with when no value follows a name. */
  const ValueExpected := "Expected a JSON value after the property name."

  predicate NonNullValues(d: Dictionary)
  {
    forall i :: 0 <= i < |d| ==> d[i].value.Some?
  }

  lemma {:induction false} PutKeepsNonNull(d: Dictionary, k: string, v: string)
    requires NonNullValues(d)
    ensures NonNullValues(Put(d, k, Some(v)))
  {
    if d != [] && d[0].key != k {
      PutKeepsNonNull(d[1..], k, v);
    }
  }

  /** The reading loop after the opening brace, as a fold over the remaining tokens. */
  function ReadProperties(d: Dictionary, tokens: seq<Token>): ReadResult
    decreases |tokens|
  {
    if tokens == [] then Parsed(d)
    else if tokens[0] == EndObject then Parsed(d)
    else if !tokens[0].PropertyName? then JsonError(PropertyNameExpected(tokens[0]))
    else if |tokens| < 2 || !tokens[1].Value? then JsonError(ValueExpected)
    else
      ReadProperties(Put(d, tokens[0].name, Some(Coerce(tokens[1].value))), tokens[2..])
  }

  /** Reading keeps keys unique and never stores null. */
  lemma {:induction false} ReadPropertiesValid(d: Dictionary, tokens: seq<Token>)
    requires Valid(d) && NonNullValues(d)
    ensures ReadProperties(d, tokens).Parsed? ==>
              Valid(ReadProperties(d, tokens).dictionary) && NonNullValues(ReadProperties(d, tokens).dictionary)
    decreases |tokens|
  {
    if tokens != [] && tokens[0] != EndObject && tokens[0].PropertyName? && |tokens| >= 2 && tokens[1].Value? {
      var v := Coerce(tokens[1].value);
      PutKeepsValid(d, tokens[0].name, Some(v));
      PutKeepsNonNull(d, tokens[0].name, v);
      ReadPropertiesValid(Put(d, tokens[0].name, Some(v)), tokens[2..]);
    }
  }

  /** One name/value pair is stored and the reading goes on after it. */
  lemma ReadPropertiesStep(d: Dictionary, name: string, value: JsonValue, rest: seq<Token>)
    ensures ReadProperties(d, [PropertyName(name), Value(value)] + rest) ==
            ReadProperties(Put(d, name, Some(Coerce(value))), rest)
  {
    var tokens := [PropertyName(name), Value(value)] + rest;
    assert tokens[2..] == rest;
  }

  /**
   * What `Read` returns when the reader stands on `current` with `tokens` still to come. An
   * object the reader stands on is always `StartObject` followed by its own tokens; the single
   * `Value(JObject(_))` token only stands for an object nested as a property's value, which
   * `JsonDocument.ParseValue` consumes whole. So a `current` other than `StartObject` is not an
   * object, and `Read` answers null.
   */
  function ReadSpec(current: Token, tokens: seq<Token>): ReadResult
  {
    if current != StartObject then NullResult else ReadProperties([], tokens)
  }

  method Read(current: Token, tokens: seq<Token>) returns (r: ReadResult)
    ensures r == ReadSpec(current, tokens)
    ensures current != StartObject ==> r == NullResult
    ensures r.Parsed? ==> Valid(r.dictionary) && NonNullValues(r.dictionary)
  {
    if current != StartObject {
      return NullResult;
    }
    ReadPropertiesValid([], tokens);
    var dictionary: Dictionary := [];
    var i := 0;
    while i < |tokens|
      invariant 0 <= i <= |tokens|
      invariant ReadProperties(dictionary, tokens[i..]) == ReadProperties([], tokens)
    {
      var token := tokens[i];
      if token == EndObject {
        return Parsed(dictionary);
      }
      if !token.PropertyName? {
        return JsonError(PropertyNameExpected(token));
      }
      var key := token.name;
      i := i + 1;
      if i == |tokens| || !tokens[i].Value? {
        return JsonError(ValueExpected);
      }
      var value := Coerce(tokens[i].value);
      assert tokens[i - 1..][2..] == tokens[i + 1..];
      dictionary := Put(dictionary, key, Some(value));
      i := i + 1;
    }
    return Parsed(dictionary);
  }

  /** One name/value pair of a JSON object, as written. */
  datatype Property = Property(name: string, value: JsonValue)

  /** The reader's tokens for a sequence of properties. */
  function PropertyTokens(props: seq<Property>): (r: seq<Token>)
    ensures |r| == 2 * |props|
  {
    if props == [] then []
    else [PropertyName(props[0].name), Value(props[0].value)] + PropertyTokens(props[1..])
  }

  lemma {:induction false} PropertyTokensAppend(props: seq<Property>, p: Property)
    ensures PropertyTokens(props + [p]) == PropertyTokens(props) + [PropertyName(p.name), Value(p.value)]
  {
    if props != [] {
      assert (props + [p])[1..] == props[1..] + [p];
      PropertyTokensAppend(props[1..], p);
    }
  }

  /** The dictionary built by storing each property's coerced value in turn. */
  function StoreAll(d: Dictionary, props: seq<Property>): Dictionary
    decreases |props|
  {
    if props == [] then d
    else StoreAll(Put(d, props[0].name, Some(Coerce(props[0].value))), props[1..])
  }

  /** The value of the last property named `k`, if any. */
  function LastValue(props: seq<Property>, k: string): (r: Option<JsonValue>)
    ensures r.Some? <==> exists i :: 0 <= i < |props| && props[i].name == k
  {
    if props == [] then None
    else
      var later := LastValue(props[1..], k);
      assert forall i :: 1 <= i < |props| ==> props[i] == props[1..][i - 1];
      if later.Some? then later
      else if props[0].name == k then Some(props[0].value)
      else None
  }

  /** A well-formed object body is read into the dictionary that stores its properties in order. */
  lemma {:induction false} ReadPropertiesOfObject(d: Dictionary, props: seq<Property>, tail: seq<Token>)
    ensures ReadProperties(d, PropertyTokens(props) + [EndObject] + tail) == Parsed(StoreAll(d, props))
    decreases |props|
  {
    if props == [] {
      assert PropertyTokens(props) + [EndObject] + tail == [EndObject] + tail;
    } else {
      var rest := PropertyTokens(props[1..]) + [EndObject] + tail;
      assert PropertyTokens(props) + [EndObject] + tail == [PropertyName(props[0].name), Value(props[0].value)] + rest;
      ReadPropertiesStep(d, props[0].name, props[0].value, rest);
      ReadPropertiesOfObject(Put(d, props[0].name, Some(Coerce(props[0].value))), props[1..], tail);
    }
  }

  /** `{}` yields an empty dictionary; a whole object yields its properties, stored in order. */
  lemma ReadObject(props: seq<Property>, tail: seq<Token>)
    ensures ReadSpec(StartObject, [EndObject] + tail) == Parsed([])
    ensures ReadSpec(StartObject, PropertyTokens(props) + [EndObject] + tail) == Parsed(StoreAll([], props))
  {
    ReadPropertiesOfObject([], [], tail);
    ReadPropertiesOfObject([], props, tail);
  }

  /**
   * A token in key position that is neither a property name nor the closing brace makes the
   * reading throw, naming that token's type.
   */
  lemma {:induction false} ReadRejectsNonName(d: Dictionary, props: seq<Property>, t: Token, tail: seq<Token>)
    requires !t.PropertyName? && t != EndObject
    ensures ReadProperties(d, PropertyTokens(props) + [t] + tail) == JsonError(PropertyNameExpected(t))
    decreases |props|
  {
    var tokens := PropertyTokens(props) + [t] + tail;
    if props == [] {
      assert tokens[0] == t;
    } else {
      assert tokens[0] == PropertyName(props[0].name) && tokens[1] == Value(props[0].value);
      assert tokens[2..] == PropertyTokens(props[1..]) + [t] + tail;
      ReadRejectsNonName(Put(d, props[0].name, Some(Coerce(props[0].value))), props[1..], t, tail);
    }
  }

  /**
   * Each key ends up holding the coercion of the LAST value given for it (a duplicate key
   * overwrites), and a key no property names is left as it was.
   */
  lemma {:induction false} StoreAllLastWins(d: Dictionary, props: seq<Property>, k: string)
    ensures Get(StoreAll(d, props), k) ==
      match LastValue(props, k)
      case Some(v) => Some(Some(Coerce(v)))
      case None => Get(d, k)
    decreases |props|
  {
    if props != [] {
      var p := props[0];
      var d' := Put(d, p.name, Some(Coerce(p.value)));
      StoreAllLastWins(d', props[1..], k);
      if p.name != k {
        PutOtherKey(d, p.name, Some(Coerce(p.value)), k);
      }
    }
  }

  /** How `Write` spells one entry: a string property, or `null` for a null value. */
  function WrittenProperty(e: Entry): Property
  {
    Property(e.key, if e.value.Some? then JString(e.value.value) else JNull)
  }

  function WrittenProperties(d: Dictionary): (r: seq<Property>)
    ensures |r| == |d|
    ensures forall i :: 0 <= i < |d| ==> r[i] == WrittenProperty(d[i])
  {
    seq(|d|, i requires 0 <= i < |d| => WrittenProperty(d[i]))
  }

  method Write(d: Dictionary) returns (tokens: seq<Token>)
    ensures tokens == [StartObject] + PropertyTokens(WrittenProperties(d)) + [EndObject]
  {
    tokens := [StartObject];
    var i := 0;
    while i < |d|
      invariant 0 <= i <= |d|
      invariant tokens == [StartObject] + PropertyTokens(WrittenProperties(d[..i]))
    {
      var p := WrittenProperty(d[i]);
      assert WrittenProperties(d[..i + 1]) == WrittenProperties(d[..i]) + [p];
      PropertyTokensAppend(WrittenProperties(d[..i]), p);
      tokens := tokens + [PropertyName(p.name), Value(p.value)];
      i := i + 1;
    }
    assert d[..|d|] == d;
    tokens := tokens + [EndObject];
  }

  function OrEmpty(e: Entry): Entry
  {
    Entry(e.key, Some(if e.value.Some? then e.value.value else ""))
  }

  /** A null value comes back as the empty string; any other value as itself. */
  function NullsAsEmpty(d: Dictionary): (r: Dictionary)
    ensures |r| == |d|
  {
    seq(|d|, i requires 0 <= i < |d| => OrEmpty(d[i]))
  }

  lemma NullsAsEmptyOfNonNull(d: Dictionary)
    requires NonNullValues(d)
    ensures NullsAsEmpty(d) == d
  {
    assert forall i :: 0 <= i < |d| ==> OrEmpty(d[i]) == d[i];
  }

  lemma WrittenStepFacts(d: Dictionary)
    requires d != []
    ensures WrittenProperties(d)[1..] == WrittenProperties(d[1..])
    ensures NullsAsEmpty(d) == [OrEmpty(d[0])] + NullsAsEmpty(d[1..])
    ensures Coerce(WrittenProperty(d[0]).value) == OrEmpty(d[0]).value.value
  {
  }

  lemma FirstKeyNotInTail(d: Dictionary)
    requires Valid(d) && d != []
    ensures forall j :: 0 <= j < |d| - 1 ==> d[1..][j].key != d[0].key
  {
    forall j | 0 <= j < |d| - 1 ensures d[1..][j].key != d[0].key {
      assert Keys(d)[0] == d[0].key && Keys(d)[j + 1] == d[1..][j].key;
    }
  }

  /** Storing the first written property of `d` appends its entry, when its key is new. */
  lemma StoreAllStep(acc: Dictionary, d: Dictionary)
    requires d != [] && d[0].key !in Keys(acc)
    ensures StoreAll(acc, WrittenProperties(d)) == StoreAll(acc + [OrEmpty(d[0])], WrittenProperties(d[1..]))
  {
    var props := WrittenProperties(d);
    WrittenStepFacts(d);
    assert props[0] == WrittenProperty(d[0]);
    PutNewKeyAppends(acc, d[0].key, OrEmpty(d[0]).value);
  }

  lemma KeysAppend(acc: Dictionary, e: Entry)
    ensures Keys(acc + [e]) == Keys(acc) + [e.key]
  {
  }

  /** After the first entry is stored, the rest of `d` still has keys new to the dictionary. */
  lemma TailStaysFresh(acc: Dictionary, d: Dictionary)
    requires Valid(d) && d != []
    requires forall j :: 0 <= j < |d| ==> d[j].key !in Keys(acc)
    ensures Valid(d[1..])
    ensures forall j :: 0 <= j < |d| - 1 ==> d[1..][j].key !in Keys(acc + [OrEmpty(d[0])])
  {
    ValidTail(d);
    FirstKeyNotInTail(d);
    KeysAppend(acc, OrEmpty(d[0]));
    forall j | 0 <= j < |d| - 1 ensures d[1..][j].key !in Keys(acc + [OrEmpty(d[0])]) {
      assert d[1..][j] == d[j + 1];
    }
  }

  lemma {:induction false} StoreAllWritten(acc: Dictionary, d: Dictionary)
    requires Valid(d)
    requires forall j :: 0 <= j < |d| ==> d[j].key !in Keys(acc)
    ensures StoreAll(acc, WrittenProperties(d)) == acc + NullsAsEmpty(d)
    decreases |d|
  {
    if d != [] {
      var e' := OrEmpty(d[0]);
      var tail := d[1..];
      TailStaysFresh(acc, d);
      calc {
        StoreAll(acc, WrittenProperties(d));
        == { StoreAllStep(acc, d); }
        StoreAll(acc + [e'], WrittenProperties(tail));
        == { StoreAllWritten(acc + [e'], tail); }
        (acc + [e']) + NullsAsEmpty(tail);
        == { WrittenStepFacts(d); }
        acc + NullsAsEmpty(d);
      }
    }
  }

  /**
   * Reading back what `Write` emits gives the same dictionary, in the same order, with null
   * values turned into empty strings (none of which `Read` itself ever stores).
   */
  lemma WriteThenRead(d: Dictionary)
    requires Valid(d)
    ensures ReadSpec(StartObject, PropertyTokens(WrittenProperties(d)) + [EndObject]) == Parsed(NullsAsEmpty(d))
    ensures NonNullValues(d) ==> ReadSpec(StartObject, PropertyTokens(WrittenProperties(d)) + [EndObject]) == Parsed(d)
  {
    ReadPropertiesOfObject([], WrittenProperties(d), []);
    assert PropertyTokens(WrittenProperties(d)) + [EndObject] + [] == PropertyTokens(WrittenProperties(d)) + [EndObject];
    StoreAllWritten([], d);
    if NonNullValues(d) {
      NullsAsEmptyOfNonNull(d);
    }
  }
}
