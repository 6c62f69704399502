/**
 * `Dragonfly::Model::Validations`: the `PropertyValidator` rule, which reads
 * one property of an attachment and records an error on the model when the
 * value is not among the allowed ones, and the `validates_property`
 * declaration that registers it.
 */
module Validations {
  import opened Wrappers
  import opened Values
  import Text

  /** The shapes `options[:in]` can take: an explicit list or an inclusive integer range. */
  datatype AllowedValues = List(values: seq<Value>) | Range(first: int, last: int)

  /**
   * `options[:message]`: absent (or falsy), a string, or something that
   * responds to `call` and is called with the property and the model.
   */
  datatype MessageSource =
    | NoMessage
    | Literal(text: string)
    | Computed(produce: (Value, Model) -> string)

  /** `options[:of]`: absent (or falsy), a single attribute name, or a list of them. */
  datatype Of = NoOf | OneAttribute(name: string) | Attributes(names: seq<string>)

  /**
   * The options hash. `attributes` and `propertyName` are the two keys that
   * `validates_property` merges in; the rest are what the declaration gave.
   * An absent key is `Nil` (or `None`, `NoMessage`, `NoOf`).
   */
  datatype Options = Options(
    of: Of,
    inValues: Option<AllowedValues>,
    asValue: Value,
    caseSensitive: Value,
    analyse: Value,
    analyze: Value,
    message: MessageSource,
    attributes: seq<string>,
    propertyName: string)

  /**
   * What the validator needs of an attachment: a direct read of a named
   * property (`attachment.send(name)`) and the analyser (`attachment.analyse(name)`).
   */
  datatype Attachment = Attachment(read: string -> Value, analyse: string -> Value)

  /** Which of the attachment's two capabilities was consulted, with which name. */
  datatype Lookup = DirectRead(name: string) | Analysis(name: string)

  /** One entry of `model.errors`: the attribute and its message. */
  datatype ErrorEntry = ErrorEntry(attribute: string, message: string)

  /** The `ArgumentError`s raised for a malformed declaration. */
  datatype ConfigError = ArgumentError(message: string)

  const MissingAllowedValuesMessage: string :=
    "you must provide either :in => [<value1>, <value2>..] or :as => <value>"

  const MissingOfMessage: string :=
    "you need to provide the attribute which has the property, using :of => <attribute_name>"

  /** The model under validation; only its error collection is visible to the rule. */
  class Model {
    var errors: seq<ErrorEntry>

    constructor ()
      ensures errors == []
    {
      errors := [];
    }
  }

  /** `analyse?`: either spelling of the option, if truthy, selects the analyser. */
  predicate IsAnalyse(o: Options) {
    Truthy(o.analyse) || Truthy(o.analyze)
  }

  /** `case_insensitive?`: only an explicit `false` turns case sensitivity off. */
  predicate IsCaseInsensitive(o: Options) {
    o.caseSensitive == Bool(false)
  }

  /** `allowed_values`: `options[:in]` if given, else the one-element list `[options[:as]]`. */
  function AllowedValuesOf(o: Options): AllowedValues {
    if o.inValues.Some? then o.inValues.value else List([o.asValue])
  }

  function LookupOf(o: Options): Lookup {
    if IsAnalyse(o) then Analysis(o.propertyName) else DirectRead(o.propertyName)
  }

  function Retrieve(a: Attachment, lookup: Lookup): Value {
    match lookup
    case DirectRead(name) => a.read(name)
    case Analysis(name) => a.analyse(name)
  }

  /** The property `validate_each` checks, read the way the options say. */
  function PropertyOf(o: Options, a: Attachment): Value {
    Retrieve(a, LookupOf(o))
  }

  /** `allowed_values.include?(property)`: list membership by `==`, or inclusive range cover. */
  predicate Includes(allowed: AllowedValues, property: Value) {
    match allowed
    case List(vs) => property in vs
    case Range(first, last) => property.Int? && first <= property.i <= last
  }

  /**
   * `allowed_values.any? { |v| v.to_s.downcase == key }`; an integer range is
   * enumerated, so each integer between its bounds is tried.
   */
  predicate AnyFoldsTo(allowed: AllowedValues, key: string) {
    match allowed
    case List(vs) => exists v | v in vs :: Folded(v) == key
    case Range(first, last) => exists i | first <= i <= last :: Folded(Int(i)) == key
  }

  /** `matches?` */
  predicate Matches(o: Options, property: Value) {
    if IsCaseInsensitive(o) then AnyFoldsTo(AllowedValuesOf(o), Folded(property))
    else Includes(AllowedValuesOf(o), property)
  }

  function ToStrings(vs: seq<Value>): (r: seq<string>)
    ensures |r| == |vs|
    ensures forall k :: 0 <= k < |vs| ==> r[k] == ToS(vs[k])
  {
    if vs == [] then [] else [ToS(vs[0])] + ToStrings(vs[1..])
  }

  /** `expected_values_string`: chosen by the shape of the allowed values. */
  function ExpectedValuesString(allowed: AllowedValues): string {
    match allowed
    case Range(first, last) =>
      "between " + Text.IntToString(first) + " and " + Text.IntToString(last)
    case List(vs) =>
      if |vs| > 1 then "one of '" + Text.Join(ToStrings(vs), "', '") + "'"
      else "'" + ToS(if |vs| == 0 then Nil else vs[0]) + "'"
  }

  /** The text used when no `:message` is given. */
  function DefaultMessage(o: Options, property: Value): string {
    Requirement(o) + ButWas(property)
  }

  /** "<humanized, down-cased name> is incorrect. It needs to be <expected>" */
  function Requirement(o: Options): string {
    Text.Downcase(Text.Humanize(o.propertyName)) + " is incorrect. "
      + "It needs to be " + ExpectedValuesString(AllowedValuesOf(o))
  }

  /** The trailing clause, present only for a truthy property. */
  function ButWas(property: Value): string {
    if Truthy(property) then ", but was '" + ToS(property) + "'" else ""
  }

  /** `message(property, model)` */
  function Message(o: Options, property: Value, model: Model): string {
    match o.message
    case NoMessage => DefaultMessage(o, property)
    case Literal(text) => text
    case Computed(produce) => produce(property, model)
  }

  /** The error collection after one `validate_each` call, as a function of the one before. */
  function ErrorsAfter(o: Options, errors: seq<ErrorEntry>, model: Model, attribute: string,
                       attachment: Option<Attachment>): seq<ErrorEntry>
  {
    match attachment
    case None => errors
    case Some(a) =>
      var property := PropertyOf(o, a);
      if Matches(o, property) then errors
      else errors + [ErrorEntry(attribute, Message(o, property, model))]
  }

  /** `check_validity!`: some allowed value must be given through `:in` or `:as`. */
  function CheckValidity(o: Options): Outcome<ConfigError> {
    if o.inValues.Some? || Truthy(o.asValue) then Pass
    else Fail(ArgumentError(MissingAllowedValuesMessage))
  }

  /** `[*options[:of]]`: one name becomes a one-element list, a list is kept. */
  function Splat(of: Of): seq<string>
    requires !of.NoOf?
  {
    match of
    case OneAttribute(name) => [name]
    case Attributes(names) => names
  }

  /**
   * `validates_property(property_name, options)`: the options handed to the
   * framework's `validates_with`, or the error raised when `:of` is missing.
   */
  function ValidatesProperty(propertyName: string, o: Options): Result<Options, ConfigError> {
    if o.of.NoOf? then Failure(ArgumentError(MissingOfMessage))
    else Success(o.(attributes := Splat(o.of), propertyName := propertyName))
  }

  /**
   * A whole declaration: `validates_property` and then the validator's
   * construction, where the framework calls `check_validity!`.
   */
  function Register(propertyName: string, o: Options): Result<Options, ConfigError> {
    match ValidatesProperty(propertyName, o)
    case Failure(e) => Failure(e)
    case Success(merged) =>
      match CheckValidity(merged)
      case Fail(e) => Failure(e)
      case Pass => Success(merged)
  }

  /** A `PropertyValidator` instance: its options and the `@allowed_values` memo. */
  class PropertyValidator {
    const options: Options
    var memo: Option<AllowedValues>

    /**
     * The options passed `check_validity!` (the framework calls it while
     * constructing the validator, so no other validator exists), and once
     * filled, the memo holds exactly the allowed values the options give.
     */
    ghost predicate Valid()
      reads this
    {
      && CheckValidity(options).Pass?
      && (memo.Some? ==> memo.value == AllowedValuesOf(options))
    }

    constructor (options: Options)
      requires CheckValidity(options).Pass?
      ensures this.options == options && memo == None
      ensures Valid()
    {
      this.options := options;
      memo := None;
    }

    /** `allowed_values`, computed on first use and remembered. */
    method AllowedValues() returns (allowed: AllowedValues)
      requires Valid()
      modifies this`memo
      ensures Valid()
      ensures allowed == AllowedValuesOf(options) && memo == Some(allowed)
    {
      if memo.None? {
        memo := Some(AllowedValuesOf(options));
      }
      allowed := memo.value;
    }

    /** `matches?`, through the memo. */
    method MatchesProperty(property: Value) returns (ok: bool)
      requires Valid()
      modifies this`memo
      ensures Valid() && memo == Some(AllowedValuesOf(options))
      ensures ok == Matches(options, property)
    {
      var allowed := AllowedValues();
      if IsCaseInsensitive(options) {
        ok := AnyFoldsTo(allowed, Folded(property));
      } else {
        ok := Includes(allowed, property);
      }
    }

    /**
     * `validate_each(model, attribute, attachment)`. Returns which capability
     * of the attachment was consulted, or `None` when there is no attachment.
     */
    method ValidateEach(model: Model, attribute: string, attachment: Option<Attachment>)
      returns (lookup: Option<Lookup>)
      requires Valid()
      modifies this`memo, model`errors
      ensures Valid()
      ensures attachment.None? ==> lookup == None && memo == old(memo)
      ensures attachment.Some? ==> lookup == Some(LookupOf(options))
      ensures model.errors == ErrorsAfter(options, old(model.errors), model, attribute, attachment)
    {
      lookup := None;
      if attachment.Some? {
        var property: Value;
        if IsAnalyse(options) {
          lookup := Some(Analysis(options.propertyName));
          property := attachment.value.analyse(options.propertyName);
        } else {
          lookup := Some(DirectRead(options.propertyName));
          property := attachment.value.read(options.propertyName);
        }
        var ok := MatchesProperty(property);
        if !ok {
          model.errors := model.errors + [ErrorEntry(attribute, Message(options, property, model))];
        }
      }
    }
  }
}
