/**
 * What the property validator promises: when it adds an error and how many,
 * where the property comes from, which values it accepts, what the default
 * message says, and when a declaration is rejected.
 */
module ValidationFacts {
  import opened Wrappers
  import opened Values
  import opened Validations
  import Text

  // ---------------------------------------------------------------------
  // validate_each and the error collection

  /** Without an attachment nothing is added and the collection is left as it was. */
  lemma AbsentAttachmentAddsNothing(o: Options, errors: seq<ErrorEntry>, model: Model, attribute: string)
    ensures ErrorsAfter(o, errors, model, attribute, None) == errors
  {
  }

  /**
   * With an attachment, a matching property leaves the collection unchanged and
   * a mismatching one appends exactly one entry; earlier entries are kept.
   */
  lemma AtMostOneError(o: Options, errors: seq<ErrorEntry>, model: Model, attribute: string, a: Attachment)
    ensures var r := ErrorsAfter(o, errors, model, attribute, Some(a));
      && |errors| <= |r| <= |errors| + 1
      && r[..|errors|] == errors
      && (Matches(o, PropertyOf(o, a)) <==> r == errors)
      && (!Matches(o, PropertyOf(o, a)) ==>
            r == errors + [ErrorEntry(attribute, Message(o, PropertyOf(o, a), model))])
  {
    var r := ErrorsAfter(o, errors, model, attribute, Some(a));
    assert r[..|errors|] == errors;
  }

  /** No de-duplication: running the same validation twice records the same error twice. */
  lemma RepeatedValidationRepeatsError(o: Options, errors: seq<ErrorEntry>, model: Model, attribute: string,
                                       a: Attachment)
    requires !Matches(o, PropertyOf(o, a))
    ensures var e := ErrorEntry(attribute, Message(o, PropertyOf(o, a), model));
      ErrorsAfter(o, ErrorsAfter(o, errors, model, attribute, Some(a)), model, attribute, Some(a))
        == errors + [e, e]
  {
    var e := ErrorEntry(attribute, Message(o, PropertyOf(o, a), model));
    assert errors + [e] + [e] == errors + [e, e];
  }

  /** The analyser is consulted exactly when `:analyse` or `:analyze` is truthy. */
  lemma RetrievalStrategy(o: Options, a: Attachment)
    ensures IsAnalyse(o) <==> Truthy(o.analyse) || Truthy(o.analyze)
    ensures LookupOf(o).Analysis? <==> IsAnalyse(o)
    ensures LookupOf(o).name == o.propertyName
    ensures PropertyOf(o, a) == if IsAnalyse(o) then a.analyse(o.propertyName) else a.read(o.propertyName)
  {
  }

  /**
   * Only the consulted capability matters: with the analyser selected, two
   * attachments whose analysers agree give the same errors whatever they
   * return when read directly, and the other way round.
   */
  lemma ConsultedCapabilityOnly(o: Options, errors: seq<ErrorEntry>, model: Model, attribute: string,
                                a: Attachment, b: Attachment)
    ensures IsAnalyse(o) && a.analyse == b.analyse ==>
      ErrorsAfter(o, errors, model, attribute, Some(a)) == ErrorsAfter(o, errors, model, attribute, Some(b))
    ensures !IsAnalyse(o) && a.read == b.read ==>
      ErrorsAfter(o, errors, model, attribute, Some(a)) == ErrorsAfter(o, errors, model, attribute, Some(b))
  {
    if (IsAnalyse(o) && a.analyse == b.analyse) || (!IsAnalyse(o) && a.read == b.read) {
      assert PropertyOf(o, a) == PropertyOf(o, b);
    }
  }

  /** `:analyse` and `:analyze` are interchangeable spellings of one switch. */
  lemma AnalyseSpellingsInterchangeable(o: Options, v: Value)
    ensures IsAnalyse(o.(analyse := o.analyze, analyze := o.analyse)) == IsAnalyse(o)
    ensures Truthy(v) ==> IsAnalyse(o.(analyse := v)) && IsAnalyse(o.(analyze := v))
    ensures !Truthy(o.analyse) && !Truthy(o.analyze) ==> LookupOf(o) == DirectRead(o.propertyName)
  {
  }

  // ---------------------------------------------------------------------
  // allowed_values and matches?

  /** `:in` wins over `:as`; without `:in` the single `:as` value is wrapped in a list. */
  lemma AllowedValuesPrecedence(o: Options)
    ensures o.inValues.Some? ==> AllowedValuesOf(o) == o.inValues.value
    ensures o.inValues.None? ==> AllowedValuesOf(o) == List([o.asValue])
  {
  }

  /** Matching ignores case only for an explicit `case_sensitive: false`. */
  lemma CaseInsensitiveOnlyWhenFalse(o: Options)
    ensures IsCaseInsensitive(o) <==> o.caseSensitive == Bool(false)
    ensures o.caseSensitive.Nil? ==> !IsCaseInsensitive(o)
  {
  }

  /**
   * Every `:case_sensitive` value other than `false` (absent, `true`, or any
   * other object) gives exactly the verdicts of `case_sensitive: true`.
   */
  lemma CaseSensitiveUnlessFalse(o: Options, p: Value)
    requires o.caseSensitive != Bool(false)
    ensures Matches(o, p) == Matches(o.(caseSensitive := Bool(true)), p)
    ensures Matches(o, p) == Includes(AllowedValuesOf(o), p)
  {
  }

  /**
   * A validator that passed `check_validity!` and has no `:in` accepts its
   * `:as` value, in either matching mode.
   */
  lemma ValidAsValueAccepted(o: Options)
    requires CheckValidity(o).Pass? && o.inValues.None?
    ensures Truthy(o.asValue)
    ensures Matches(o, o.asValue)
    ensures Matches(o.(caseSensitive := Bool(false)), o.asValue)
  {
    assert o.asValue in [o.asValue];
  }

  /** Case-sensitive list: a property matches iff it equals one of the listed values. */
  lemma CaseSensitiveListMatchesMembers(o: Options, vs: seq<Value>, p: Value)
    requires !IsCaseInsensitive(o) && AllowedValuesOf(o) == List(vs)
    ensures Matches(o, p) <==> p in vs
  {
  }

  /** Case-sensitive range: a property matches iff it is an integer within the inclusive bounds. */
  lemma CaseSensitiveRangeMatchesInside(o: Options, first: int, last: int, p: Value)
    requires !IsCaseInsensitive(o) && AllowedValuesOf(o) == Range(first, last)
    ensures Matches(o, p) <==> p.Int? && first <= p.i <= last
  {
  }

  /** Case-insensitive list: a property matches iff some allowed value folds to the same key. */
  lemma CaseInsensitiveListMatchesFolded(o: Options, vs: seq<Value>, p: Value)
    requires IsCaseInsensitive(o) && AllowedValuesOf(o) == List(vs)
    ensures Matches(o, p) <==> exists k :: 0 <= k < |vs| && Folded(vs[k]) == Folded(p)
  {
    if Matches(o, p) {
      var v :| v in vs && Folded(v) == Folded(p);
      var k :| 0 <= k < |vs| && vs[k] == v;
      assert Folded(vs[k]) == Folded(p);
    }
  }

  /** Turning case sensitivity off never rejects a listed value. */
  lemma ListedValueAccepted(o: Options, vs: seq<Value>, p: Value)
    requires AllowedValuesOf(o) == List(vs) && p in vs
    ensures Matches(o, p)
  {
  }

  /** In case-insensitive mode two properties with the same folded key are judged alike. */
  lemma CaseInsensitiveIgnoresCase(o: Options, p: Value, q: Value)
    requires IsCaseInsensitive(o) && Folded(p) == Folded(q)
    ensures Matches(o, p) == Matches(o, q)
  {
  }

  /**
   * An integer range enumerated case-insensitively still accepts exactly the
   * integers inside its bounds, because distinct integers print differently.
   */
  lemma CaseInsensitiveRangeOnIntegers(o: Options, first: int, last: int, k: int)
    requires IsCaseInsensitive(o) && AllowedValuesOf(o) == Range(first, last)
    ensures Matches(o, Int(k)) <==> first <= k <= last
  {
    if Matches(o, Int(k)) {
      var i :| first <= i <= last && Folded(Int(i)) == Folded(Int(k));
      FoldedIntInjective(i, k);
    }
  }

  /**
   * Case-insensitively, a string matches an integer range iff its down-cased
   * form is the decimal text of an integer inside the bounds.
   */
  lemma CaseInsensitiveRangeOnStrings(o: Options, first: int, last: int, s: string)
    requires IsCaseInsensitive(o) && AllowedValuesOf(o) == Range(first, last)
    ensures Matches(o, Str(s)) <==> exists i :: first <= i <= last && Text.IntToString(i) == Text.Downcase(s)
  {
    if Matches(o, Str(s)) {
      var i :| first <= i <= last && Folded(Int(i)) == Folded(Str(s));
      FoldedInt(i);
    } else {
      forall i | first <= i <= last ensures Text.IntToString(i) != Text.Downcase(s) {
        FoldedInt(i);
      }
    }
  }

  lemma FoldedJpeg()
    ensures Folded(Str("JPEG")) == "jpeg" && Folded(Str("jpeg")) == "jpeg"
  {
    assert Text.Downcase("JPEG") == "jpeg";
    assert Text.Downcase("jpeg") == "jpeg";
  }

  /** "JPEG" matches ["jpeg"] and "jpeg" matches ["JPEG"] when case is ignored, and not otherwise. */
  lemma JpegExamples(o: Options)
    ensures IsCaseInsensitive(o) && AllowedValuesOf(o) == List([Str("jpeg")]) ==> Matches(o, Str("JPEG"))
    ensures IsCaseInsensitive(o) && AllowedValuesOf(o) == List([Str("JPEG")]) ==> Matches(o, Str("jpeg"))
    ensures !IsCaseInsensitive(o) && AllowedValuesOf(o) == List([Str("jpeg")]) ==> !Matches(o, Str("JPEG"))
  {
    FoldedJpeg();
    assert Str("jpeg") in [Str("jpeg")] && Str("JPEG") in [Str("JPEG")];
  }

  /** The range 1..10 is inclusive at both ends. */
  lemma RangeExamples(o: Options)
    requires !IsCaseInsensitive(o) && AllowedValuesOf(o) == Range(1, 10)
    ensures Matches(o, Int(1)) && Matches(o, Int(5)) && Matches(o, Int(10))
    ensures !Matches(o, Int(0)) && !Matches(o, Int(11)) && !Matches(o, Str("5"))
  {
  }

  /**
   * Enumerating the range case-insensitively compares decimal text, so the
   * string "5" is accepted by 1..10 although it is not an integer.
   */
  lemma CaseInsensitiveRangeAcceptsDecimalText(o: Options)
    requires IsCaseInsensitive(o) && AllowedValuesOf(o) == Range(1, 10)
    ensures Matches(o, Str("5")) && Matches(o, Int(5)) && !Matches(o, Str("11"))
  {
    assert Text.IntToString(5) == "5";
    assert Text.Downcase("5") == "5";
    assert Text.Downcase("11") == "11";
    CaseInsensitiveRangeOnStrings(o, 1, 10, "5");
    CaseInsensitiveRangeOnStrings(o, 1, 10, "11");
    CaseInsensitiveRangeOnIntegers(o, 1, 10, 5);
    forall i | 1 <= i <= 10 ensures Text.IntToString(i) != "11" {
      if Text.IntToString(i) == "11" {
        assert Text.IntToString(11) == "11";
        Text.IntToStringInjective(i, 11);
      }
    }
  }

  // ---------------------------------------------------------------------
  // expected_values_string and message

  /** A range is described by its two bounds. */
  lemma ExpectedValuesForRange(first: int, last: int)
    ensures ExpectedValuesString(Range(first, last))
      == "between " + Text.IntToString(first) + " and " + Text.IntToString(last)
  {
  }

  /**
   * A list of several values is introduced by "one of " and names every value
   * between single quotes.
   */
  lemma ExpectedValuesForSeveral(vs: seq<Value>, k: nat)
    requires |vs| > 1 && k < |vs|
    ensures var s := ExpectedValuesString(List(vs));
      && s[..7] == "one of "
      && Text.IsInfix("'" + ToS(vs[k]) + "'", s)
  {
    var ss := ToStrings(vs);
    var quoted := "'" + Text.Join(ss, "', '") + "'";
    assert ExpectedValuesString(List(vs)) == "one of " + quoted;
    Text.JoinQuotesEach(ss, k);
    Text.InfixInPrefixed("'" + ToS(vs[k]) + "'", "one of ", quoted);
  }

  /**
   * The exact text for several values: "one of " and then each value between
   * single quotes, in list order, separated by ", ".
   */
  lemma ExpectedValuesForSeveralText(vs: seq<Value>)
    requires |vs| > 1
    ensures ExpectedValuesString(List(vs)) == "one of " + Text.Join(Text.Quoted(ToStrings(vs)), ", ")
  {
    Text.JoinQuoted(ToStrings(vs));
  }

  /** A single value is just quoted; an empty list quotes the empty `nil.to_s`. */
  lemma ExpectedValuesForOneOrNone(vs: seq<Value>)
    requires |vs| <= 1
    ensures |vs| == 1 ==> ExpectedValuesString(List(vs)) == "'" + ToS(vs[0]) + "'"
    ensures |vs| == 0 ==> ExpectedValuesString(List(vs)) == "''"
  {
  }

  /** A supplied `:message` replaces the synthesized text: a string verbatim, a callable's result verbatim. */
  lemma CustomMessageWins(o: Options, p: Value, model: Model)
    ensures o.message.Literal? ==> Message(o, p, model) == o.message.text
    ensures o.message.Computed? ==> Message(o, p, model) == o.message.produce(p, model)
    ensures o.message.NoMessage? ==> Message(o, p, model) == DefaultMessage(o, p)
  {
  }

  /**
   * The default message names the property, then the expected values, and
   * ends with ", but was '<property>'" exactly when the property is truthy.
   */
  lemma DefaultMessageShape(o: Options, p: Value)
    ensures var lead := Text.Downcase(Text.Humanize(o.propertyName)) + " is incorrect. It needs to be "
                        + ExpectedValuesString(AllowedValuesOf(o));
      var m := DefaultMessage(o, p);
      && |lead| <= |m| && m[..|lead|] == lead
      && (Truthy(p) ==> m[|lead|..] == ", but was '" + ToS(p) + "'")
      && (!Truthy(p) ==> m == lead)
  {
    var name := Text.Downcase(Text.Humanize(o.propertyName));
    var expected := ExpectedValuesString(AllowedValuesOf(o));
    assert " is incorrect. " + "It needs to be " == " is incorrect. It needs to be ";
    var lead := name + " is incorrect. It needs to be " + expected;
    assert Requirement(o) == lead;
    var m := lead + ButWas(p);
    assert m[..|lead|] == lead;
    assert m[|lead|..] == ButWas(p);
  }

  lemma MimeTypeHumanized()
    ensures Text.Humanize("mime_type") == "mime type"
  {
    assert "mime_type" == "mime" + "_" + "type";
    Text.HumanizeAppend("mime" + "_", "type");
    Text.HumanizeAppend("mime", "_");
    Text.HumanizeWithoutUnderscore("mime");
    Text.HumanizeWithoutUnderscore("type");
    assert Text.Humanize("_") == " ";
    assert "mime" + " " + "type" == "mime type";
  }

  lemma MimeTypeDowncased()
    ensures Text.Downcase("mime type") == "mime type"
  {
    assert Text.IsLower("mime type");
    Text.DowncaseOfLower("mime type");
  }

  lemma MimeTypeName()
    ensures Text.Downcase(Text.Humanize("mime_type")) == "mime type"
  {
    MimeTypeHumanized();
    MimeTypeDowncased();
  }

  /** Joins the literal pieces of the mime-type requirement sentence. */
  lemma MimeTypeRequirementText()
    ensures "mime type" + " is incorrect. " + "It needs to be " + "'image/png'"
      == "mime type is incorrect. It needs to be 'image/png'"
  {
    assert "mime type" + " is incorrect. " == "mime type is incorrect. ";
    assert "mime type is incorrect. " + "It needs to be " == "mime type is incorrect. It needs to be ";
  }

  lemma MimeTypeRequirement(o: Options)
    requires o.propertyName == "mime_type" && o.inValues == Some(List([Str("image/png")]))
    ensures Requirement(o) == "mime type is incorrect. It needs to be 'image/png'"
  {
    var name := Text.Downcase(Text.Humanize(o.propertyName));
    assert name == "mime type" by { MimeTypeName(); }
    var expected := ExpectedValuesString(AllowedValuesOf(o));
    assert expected == "'image/png'";
    assert Requirement(o) == name + " is incorrect. " + "It needs to be " + expected;
    MimeTypeRequirementText();
  }

  lemma ButWasJpeg()
    ensures ButWas(Str("image/jpeg")) == ", but was 'image/jpeg'"
  {
    assert ", but was '" + "image/jpeg" == ", but was 'image/jpeg";
  }

  /** Joins the requirement sentence and the trailing clause of the mime-type example. */
  lemma MimeTypeFullText()
    ensures "mime type is incorrect. It needs to be 'image/png'" + ", but was 'image/jpeg'"
      == "mime type is incorrect. It needs to be 'image/png', but was 'image/jpeg'"
  {
  }

  /**
   * The mime-type example: with `mime_type` checked against 'image/png' and
   * no `:message`, a wrong property and a `nil` one give these messages.
   */
  lemma MimeTypeMessages(o: Options, model: Model)
    requires o.propertyName == "mime_type" && o.inValues == Some(List([Str("image/png")]))
    requires o.message.NoMessage?
    ensures Message(o, Str("image/jpeg"), model)
      == "mime type is incorrect. It needs to be 'image/png', but was 'image/jpeg'"
    ensures Message(o, Nil, model)
      == "mime type is incorrect. It needs to be 'image/png'"
  {
    var req := Requirement(o);
    MimeTypeRequirement(o);
    ButWasJpeg();
    MimeTypeFullText();
    assert Message(o, Nil, model) == req + ButWas(Nil);
    assert Message(o, Str("image/jpeg"), model) == req + ButWas(Str("image/jpeg"));
  }

  // ---------------------------------------------------------------------
  // check_validity! and validates_property

  /** The validity check fails iff neither `:in` nor a truthy `:as` is given. */
  lemma CheckValidityFailsIff(o: Options)
    ensures CheckValidity(o).Fail? <==> o.inValues.None? && !Truthy(o.asValue)
    ensures CheckValidity(o).Fail? ==> CheckValidity(o).error == ArgumentError(MissingAllowedValuesMessage)
  {
  }

  /**
   * `validates_property` fails iff `:of` is missing; otherwise it hands on
   * the options with the normalised attribute list and the property name.
   */
  lemma ValidatesPropertyResult(name: string, o: Options)
    ensures ValidatesProperty(name, o).Failure? <==> o.of.NoOf?
    ensures ValidatesProperty(name, o).Failure? ==> ValidatesProperty(name, o).error == ArgumentError(MissingOfMessage)
    ensures o.of.OneAttribute? ==> ValidatesProperty(name, o) == Success(o.(attributes := [o.of.name], propertyName := name))
    ensures o.of.Attributes? ==> ValidatesProperty(name, o) == Success(o.(attributes := o.of.names, propertyName := name))
  {
  }

  /**
   * A declaration is accepted iff it names the attribute and gives allowed
   * values; a missing `:of` is reported before missing allowed values.
   */
  lemma RegisterSucceedsIff(name: string, o: Options)
    ensures Register(name, o).Success? <==> !o.of.NoOf? && (o.inValues.Some? || Truthy(o.asValue))
    ensures o.of.NoOf? ==> Register(name, o) == Failure(ArgumentError(MissingOfMessage))
    ensures !o.of.NoOf? && o.inValues.None? && !Truthy(o.asValue)
            ==> Register(name, o) == Failure(ArgumentError(MissingAllowedValuesMessage))
    ensures Register(name, o).Success? ==> Register(name, o) == ValidatesProperty(name, o)
  {
  }

  /**
   * A registered validator reads the declared property under the declared
   * name, applies to the `[*of]` attributes, and passes `check_validity!`.
   */
  lemma RegisteredValidatorWiring(name: string, o: Options)
    requires Register(name, o).Success?
    ensures var m := Register(name, o).value;
      && LookupOf(m).name == name
      && m.attributes == Splat(o.of)
      && CheckValidity(m).Pass?
      && AllowedValuesOf(m) == AllowedValuesOf(o)
      && (IsCaseInsensitive(m) <==> IsCaseInsensitive(o))
      && LookupOf(m) == LookupOf(o.(propertyName := name))
  {
  }

  /** Declaring again with the already merged options changes nothing. */
  lemma ValidatesPropertyIdempotent(name: string, o: Options)
    requires ValidatesProperty(name, o).Success?
    ensures ValidatesProperty(name, ValidatesProperty(name, o).value) == ValidatesProperty(name, o)
  {
  }
}
