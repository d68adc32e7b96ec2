/** The request record of the in-memory conversion: formats and the coerced parameter map. */
module Models {

  import opened Wrappers
  import opened Dictionaries
  import opened FlexibleParameterConverter

  /** `ClientRequestParamsRemote`; `parameters` is `None` when the map is null. */
  datatype ClientRequestParamsRemote = ClientRequestParamsRemote(
    fromFormat: string,
    toFormat: string,
    parameters: Option<Dictionary>)

  /** `new ClientRequestParamsRemote()`: both formats empty, no parameter map. */
  const DefaultRequest := ClientRequestParamsRemote("", "", None)

  /** Deserialising the `Parameters` property: the converter's result, or its exception. */
  datatype ParametersBinding = Bound(parameters: Option<Dictionary>) | BindingFailed(message: string)

  /**
   * The `Parameters` property is filled by the flexible converter, so a bound map is a valid
   * dictionary whose every value is a (non-null) string, whatever the JSON kinds were.
   */
  function BindParameters(current: Token, tokens: seq<Token>): (r: ParametersBinding)
    ensures r.Bound? && r.parameters.Some? ==> Valid(r.parameters.value) && NonNullValues(r.parameters.value)
    ensures current != StartObject ==> r == Bound(None)
  {
    ReadPropertiesValid([], tokens);
    match ReadSpec(current, tokens)
    case NullResult => Bound(None)
    case Parsed(d) => Bound(Some(d))
    case JsonError(message) => BindingFailed(message)
  }
}
