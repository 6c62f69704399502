# Dragonfly property validation, modelled in Dafny

This project models `Dragonfly::Model::Validations` from the Dragonfly
attachment library. The module has two parts:

- `PropertyValidator` is an ActiveModel each-validator. Given a model, an
  attribute name and the attachment stored under that attribute, it reads one
  named property of the attachment. It reads the property directly, or through
  the attachment's analyser when `:analyse` (or `:analyze`) is truthy. It then
  checks the value against the allowed values. On a mismatch it appends exactly
  one error message for the attribute to `model.errors`.
- `validates_property` is the declaration a model class writes. It requires
  `:of` and hands the options, with the attribute list and the property name
  merged in, to the host framework's `validates_with`.

Files:

- `wrappers.dfy` (module `Wrappers`): `Option`, `Result` and `Outcome`.
- `text.dfy` (module `Text`): the string primitives the validator uses. These
  are ASCII `downcase`, `Integer#to_s`, `Array#join` and the underscore step of
  `humanize`. The module also proves facts about them: `downcase` works
  character by character, distinct integers print differently, and joining
  with `', '` quotes every element.
- `values.dfy` (module `Values`): Ruby values (`nil`, booleans, integers,
  strings) with truthiness, `to_s`, and the case-folded key `to_s.downcase`.
- `validations.dfy` (module `Validations`): the options hash and the allowed
  values (a list or an inclusive integer range). The message source is absent,
  a string, or a callable. The module defines the pure parts of the validator
  as functions: `analyse?`, `case_insensitive?`, `allowed_values`, `matches?`,
  `expected_values_string`, `message`, `check_validity!` and
  `validates_property`. It also defines the `Model` class, whose `errors`
  field is a sequence, and the `PropertyValidator` class. That class holds the
  `@allowed_values` memo and the `ValidateEach` method, which appends to
  `model.errors`.
- `validation_facts.dfy` (module `ValidationFacts`): the properties proved
  about the model.

Behaviour of the code worth noting:

- The trailing `, but was '<property>'` clause is added when the property is
  *truthy* (line 33). A `false` property therefore omits it, just as `nil`
  does.
- The code does not guard case-insensitive matching against a range:
  `any?` (line 23) enumerates an integer range, trying every integer between
  the bounds, and the model does exactly that. In this mode integers are still
  judged by their bounds (`CaseInsensitiveRangeOnIntegers`), but the *string*
  `"5"` is accepted by `1..10` (`CaseInsensitiveRangeAcceptsDecimalText`),
  which case-sensitive matching rejects.
- `validates_property` only asks that `:of` be truthy: `:of => []` is accepted
  and gives an empty attribute list.

The host framework constructs the validator and calls `check_validity!` while
doing so, so no validator with invalid options exists: the
`PropertyValidator` constructor requires that check to pass and `Valid()`
keeps it. `Validations.Register` composes `validates_property` with that check.

## Model

| member | source | states |
|---|---|---|
| Validations.PropertyValidator.ValidateEach | lib/dragonfly/model/validations.rb:7-16 | Without an attachment, nothing is consulted and the error collection and memo are unchanged. With one, the lookup names the analyser exactly when `analyse?` holds, and always uses the configured property name. The new error collection is `ErrorsAfter` of the old one: unchanged if the property matches, one `(attribute, message)` entry appended otherwise. |
| Validations.PropertyValidator.AllowedValues | lib/dragonfly/model/validations.rb:53-55 | `@allowed_values ||= …`: returns the allowed values the options give and leaves the memo holding them. The memo never disagrees with the options. |
| Validations.PropertyValidator.MatchesProperty | lib/dragonfly/model/validations.rb:20-27 | `matches?` computed through the memo equals the pure `Matches` of the options. |
| Validations.PropertyValidator.constructor | lib/dragonfly/model/validations.rb:37-39 | The framework builds a validator only from options that pass `check_validity!`; the new validator holds those options, an empty memo, and satisfies `Valid()`. |
| Validations.ErrorsAfter | lib/dragonfly/model/validations.rb:7-16 | The error collection after one `validate_each`: unchanged without an attachment or on a match, otherwise the old entries plus one `(attribute, message)` entry; its properties are the `AtMostOneError` family of lemmas. |
| Validations.LookupOf | lib/dragonfly/model/validations.rb:9-13 | Which capability `validate_each` consults: the analyser when `analyse?` holds, the direct read otherwise, always with `property_name`. |
| Validations.PropertyOf | lib/dragonfly/model/validations.rb:9-13 | The property value obtained from the attachment through that capability. |
| Validations.Retrieve | lib/dragonfly/model/validations.rb:9-13 | The dispatch itself: `attachment.analyse(name)` for the analyser lookup, `attachment.send(name)` for the direct read (`RetrievalStrategy`, `ConsultedCapabilityOnly`). |
| Validations.Matches | lib/dragonfly/model/validations.rb:20-27 | `matches?`: case-folded `any?` when case is ignored, `include?` otherwise; characterised by the `CaseSensitive…`/`CaseInsensitive…` lemmas. |
| Validations.Includes | lib/dragonfly/model/validations.rb:25 | `include?`: list membership by `==`, or an integer inside an inclusive range (`CaseSensitiveListMatchesMembers`, `CaseSensitiveRangeMatchesInside`). |
| Validations.AnyFoldsTo | lib/dragonfly/model/validations.rb:23 | `any? { \|v\| v.to_s.downcase == prop }`, enumerating every integer of a range (`CaseInsensitiveListMatchesFolded`, `CaseInsensitiveRangeOnIntegers`, `CaseInsensitiveRangeOnStrings`). |
| Validations.Message | lib/dragonfly/model/validations.rb:29-35 | `message`: a string `:message` verbatim, a callable's result on (property, model), else the default (`CustomMessageWins`). |
| Validations.DefaultMessage | lib/dragonfly/model/validations.rb:30-33 | The synthesized text: requirement sentence followed by the optional trailing clause (`DefaultMessageShape`). |
| Validations.Requirement | lib/dragonfly/model/validations.rb:31-32 | "<humanized, down-cased name> is incorrect. It needs to be <expected>". |
| Validations.ButWas | lib/dragonfly/model/validations.rb:33 | ", but was '<property>'" for a truthy property, empty otherwise. |
| Validations.ExpectedValuesString | lib/dragonfly/model/validations.rb:57-63 | `expected_values_string`, chosen by the shape of the allowed values (`ExpectedValuesFor…` lemmas). |
| Validations.CheckValidity | lib/dragonfly/model/validations.rb:37-39 | `check_validity!`: passes iff `:in` or a truthy `:as` is given, otherwise fails with the source's ArgumentError text (`CheckValidityFailsIff`). |
| Validations.IsAnalyse | lib/dragonfly/model/validations.rb:41-43 | `analyse?`: either spelling of the option, if truthy (`RetrievalStrategy`, `AnalyseSpellingsInterchangeable`). |
| Validations.IsCaseInsensitive | lib/dragonfly/model/validations.rb:49-51 | `case_insensitive?`: exactly `case_sensitive: false` (`CaseInsensitiveOnlyWhenFalse`, `CaseSensitiveUnlessFalse`). |
| Validations.AllowedValuesOf | lib/dragonfly/model/validations.rb:53-55 | `allowed_values` without the memo: `options[:in]` if given, else `[options[:as]]` (`AllowedValuesPrecedence`). |
| Validations.ValidatesProperty | lib/dragonfly/model/validations.rb:69-72 | `validates_property`: fails with the source's ArgumentError text without `:of`, else the options merged with `attributes` and `property_name` (`ValidatesPropertyResult`). |
| Validations.Splat | lib/dragonfly/model/validations.rb:71 | `[*options[:of]]`: a single attribute name in a one-element list, a list kept. |
| Validations.Register | lib/dragonfly/model/validations.rb:69-72 | A whole declaration: `validates_property`, then the `check_validity!` the framework runs when constructing the validator (`RegisterSucceedsIff`). |
| Values.ToS | lib/dragonfly/model/validations.rb:23 | Ruby `to_s` of nil, booleans, integers and strings, also used by interpolation at lines 33, 59 and 61. |
| Values.Truthy | lib/dragonfly/model/validations.rb:8 | Ruby truthiness: only `nil` and `false` are falsy; it decides lines 8, 33, 38 and 42 (`AbsentAttachmentAddsNothing`, `DefaultMessageShape`, `CheckValidityFailsIff`, `AnalyseSpellingsInterchangeable`). |
| Values.Folded | lib/dragonfly/model/validations.rb:22-23 | `to_s.downcase`, the key compared when case is ignored; it contains no ASCII capital. |
| Text.Downcase | lib/dragonfly/model/validations.rb:22 | ASCII `String#downcase`; same length as its input (`DowncaseAt`). |
| Text.Humanize | lib/dragonfly/model/validations.rb:31 | The underscore-to-space step of `humanize`; same length as its input (`HumanizeAt`). |
| Text.Join | lib/dragonfly/model/validations.rb:61 | `Array#join(sep)`: empty, the single element, or the first element, then `sep`, then the joined rest (`JoinQuotesEach`). |
| Text.IntToString | lib/dragonfly/model/validations.rb:59 | `Integer#to_s`: decimal text, non-empty, starting with `-` exactly for negatives (`IntToStringInjective`). |
| ValidationFacts.ConsultedCapabilityOnly | lib/dragonfly/model/validations.rb:9-14 | The errors depend only on the capability the options select: attachments that agree on the analyser (if selected) or on the direct read (otherwise) give the same errors. |
| ValidationFacts.AnalyseSpellingsInterchangeable | lib/dragonfly/model/validations.rb:41-43 | `:analyse` and `:analyze` are interchangeable; either one truthy selects the analyser, neither selects the direct read. |
| ValidationFacts.CaseSensitiveUnlessFalse | lib/dragonfly/model/validations.rb:49-51 | Any `:case_sensitive` value other than `false` gives exactly the verdicts of `true`, namely `include?`. |
| ValidationFacts.ValidAsValueAccepted | lib/dragonfly/model/validations.rb:37-39 | A validator that passed `check_validity!` without `:in` has a truthy `:as` and accepts it in both matching modes. |
| ValidationFacts.RegisteredValidatorWiring | lib/dragonfly/model/validations.rb:69-72 | A registered validator reads the declared property name, applies to `[*of]`, passes `check_validity!`, and keeps the declared allowed values and matching mode. |
| ValidationFacts.ValidatesPropertyIdempotent | lib/dragonfly/model/validations.rb:69-72 | Running `validates_property` again on the merged options gives the same options. |
| ValidationFacts.AbsentAttachmentAddsNothing | lib/dragonfly/model/validations.rb:8-15 | A nil or false attachment leaves the error collection exactly as it was. |
| ValidationFacts.AtMostOneError | lib/dragonfly/model/validations.rb:14 | Existing entries are kept as a prefix and at most one entry is added. The collection is unchanged iff the property matches. On a mismatch exactly `(attribute, message(property, model))` is appended. |
| ValidationFacts.RepeatedValidationRepeatsError | lib/dragonfly/model/validations.rb:14 | No de-duplication: two identical failing validations append two identical entries. |
| ValidationFacts.RetrievalStrategy | lib/dragonfly/model/validations.rb:9-13 | The property is `attachment.analyse(name)` exactly when `:analyse` or `:analyze` is truthy, and `attachment.send(name)` otherwise; the name is `property_name`. |
| ValidationFacts.AllowedValuesPrecedence | lib/dragonfly/model/validations.rb:54 | `:in`, when given, is the allowed set regardless of `:as`; otherwise the allowed set is the one-element list `[options[:as]]`. |
| ValidationFacts.CaseInsensitiveOnlyWhenFalse | lib/dragonfly/model/validations.rb:49-51 | Matching ignores case iff `:case_sensitive` is exactly `false`; a missing (nil) option means case-sensitive. |
| ValidationFacts.CaseSensitiveListMatchesMembers | lib/dragonfly/model/validations.rb:25 | Case-sensitive list: a property matches iff it equals one of the listed values. |
| ValidationFacts.CaseSensitiveRangeMatchesInside | lib/dragonfly/model/validations.rb:25 | Case-sensitive range: a property matches iff it is an integer between the bounds, both bounds included. |
| ValidationFacts.CaseInsensitiveListMatchesFolded | lib/dragonfly/model/validations.rb:21-23 | Case-insensitive list: a property matches iff some listed value's `to_s.downcase` equals the property's `to_s.downcase`. |
| ValidationFacts.ListedValueAccepted | lib/dragonfly/model/validations.rb:20-27 | Every listed value is accepted whichever matching mode is set. |
| ValidationFacts.CaseInsensitiveIgnoresCase | lib/dragonfly/model/validations.rb:21-23 | In case-insensitive mode, two properties with the same down-cased text get the same verdict. |
| ValidationFacts.CaseInsensitiveRangeOnIntegers | lib/dragonfly/model/validations.rb:23 | Enumerating an integer range case-insensitively still accepts exactly the integers inside its bounds. |
| ValidationFacts.CaseInsensitiveRangeOnStrings | lib/dragonfly/model/validations.rb:23 | Case-insensitively, a string matches an integer range iff its down-cased form is the decimal text of an integer inside the bounds. |
| ValidationFacts.JpegExamples | lib/dragonfly/model/validations.rb:21-23 | "JPEG" matches ["jpeg"] and "jpeg" matches ["JPEG"] when case is ignored; "JPEG" does not match ["jpeg"] when case counts. |
| ValidationFacts.RangeExamples | lib/dragonfly/model/validations.rb:25 | With 1..10, the values 1, 5 and 10 match; 0, 11 and the string "5" do not. |
| ValidationFacts.CaseInsensitiveRangeAcceptsDecimalText | lib/dragonfly/model/validations.rb:23 | With 1..10 and case ignored, the string "5" and the integer 5 match and the string "11" does not. |
| ValidationFacts.ExpectedValuesForRange | lib/dragonfly/model/validations.rb:58-59 | A range is described as "between <first> and <last>". |
| ValidationFacts.ExpectedValuesForSeveral | lib/dragonfly/model/validations.rb:61 | A list of more than one value is described starting with "one of ", and every value appears in the text inside single quotes. |
| ValidationFacts.ExpectedValuesForSeveralText | lib/dragonfly/model/validations.rb:61 | The exact text for several values: "one of ", then each value between single quotes, in list order, separated by ", ". |
| ValidationFacts.ExpectedValuesForOneOrNone | lib/dragonfly/model/validations.rb:61 | A one-element list is described as its single value in quotes; an empty list gives `''`. |
| ValidationFacts.CustomMessageWins | lib/dragonfly/model/validations.rb:29-34 | A string `:message` is used verbatim. A callable one is called with (property, model) and its result used verbatim. Only without `:message` is the default used. |
| ValidationFacts.DefaultMessageShape | lib/dragonfly/model/validations.rb:30-33 | The default is "<humanized down-cased name> is incorrect. It needs to be <expected>". It is followed by ", but was '<property>'" exactly when the property is truthy, and by nothing otherwise. |
| ValidationFacts.MimeTypeMessages | lib/dragonfly/model/validations.rb:29-35 | For `mime_type` against 'image/png', the message is "mime type is incorrect. It needs to be 'image/png', but was 'image/jpeg'" for a JPEG. For nil it is the same text without the trailing clause. |
| ValidationFacts.CheckValidityFailsIff | lib/dragonfly/model/validations.rb:37-39 | `check_validity!` raises its ArgumentError iff neither `:in` nor a truthy `:as` is given. |
| ValidationFacts.ValidatesPropertyResult | lib/dragonfly/model/validations.rb:69-72 | `validates_property` raises its ArgumentError iff `:of` is missing. Otherwise it passes on the options with `attributes` as `[*options[:of]]` (a single name in a one-element list, a list kept) and `property_name` set to the given name. |
| ValidationFacts.RegisterSucceedsIff | lib/dragonfly/model/validations.rb:69-72 | Apart from ActiveModel's own non-empty-attributes check, a declaration succeeds iff it has `:of` and `:in` or a truthy `:as`. A missing `:of` is reported first. |
| Text.DowncaseAt | lib/dragonfly/model/validations.rb:22 | `downcase` maps each character independently, lower-casing exactly the ASCII capitals. |
| Text.HumanizeAt | lib/dragonfly/model/validations.rb:31 | The humanizing step turns each underscore into a space, keeps every other character, and leaves no underscore. |
| Text.IntToStringInjective | lib/dragonfly/model/validations.rb:59 | Distinct integers have distinct decimal text, so the range bounds in the message identify the bounds. |
| Text.JoinQuotesEach | lib/dragonfly/model/validations.rb:61 | Joining with `', '` inside an outer pair of quotes puts every element between its own quotes. |
| Text.JoinQuoted | lib/dragonfly/model/validations.rb:61 | `"'" + xs.join("', '") + "'"` equals the individually quoted elements joined with `, `, for any non-empty list. |
| Values.FoldedIntInjective | lib/dragonfly/model/validations.rb:23 | Two integers have the same `to_s.downcase` only if they are equal. |

## Left out

- RegisterSucceedsIff: does not include ActiveModel's `:attributes cannot be blank` check, so `:of => []` registers here; that check is framework code.
- The ActiveModel framework is not modelled: `EachValidator`, `validates_with`, callback set-up, and the framework's own `:attributes cannot be blank` check. This is foreign library code. Registration is modelled as producing the merged options (`ValidatesProperty`), with the framework's `check_validity!` call composed in `Register`.
- The attachment's `send` and `analyse` are dynamic dispatch into the storage and analyser subsystems, which may do I/O. They are the two given functions of an `Attachment` value.
- `Text.Humanize` (and `Text.HumanizeAt`): models only the underscore-to-space step of ActiveSupport's `humanize` (its capitalisation is undone by the following `downcase`). It omits removal of a trailing `_id`, leading underscores and inflector acronyms, because those rules belong to a library that is not part of this model.
- `Text.Downcase` (and `Text.DowncaseAt`): `downcase` is ASCII-only; Ruby's full Unicode case mapping is not modelled.
- Values are limited to `nil`, booleans, integers and strings. Floats, symbols and other objects are not modelled. Neither is Ruby's `==` across numeric types (`1 == 1.0`), nor `Array#join` flattening nested arrays.
- `:in` is modelled only as a list or an inclusive integer range. Exclusive ranges (`a...b`), ranges over strings or floats, and other objects that respond to `include?` are not modelled.
- A callable `:message` is a Dafny function of the property and the model reference. It cannot read the model's mutable state.
- Raised `ArgumentError`s are `Failure`/`Fail` values carrying the source's exact messages; there is no exception propagation.
