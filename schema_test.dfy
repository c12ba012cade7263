/** The concrete cases of the schema-error test, one lemma per constructor
    call: the status code and the exact message it renders. Each case
    instantiates the kind's template; a companion lemma glues the literal
    pieces of that template together into the expected message, each step
    proved by a small lemma of its own so that no single proof has to
    compare long literals. */
module SchemaTests {

  import opened Decimal
  import opened Errors
  import opened Templates

  /** The status code and message an error is expected to report. */
  predicate Reports(e: ValidationError, message: string) {
    Code(e) == 422 && Message(e) == message
  }

  /** The bound every limit in the test uses renders as one digit. */
  lemma FiveRendersAsFive()
    ensures IntToDecimal(5) == "5"
  {
    assert NatToDecimal(5) == [DigitChar(5)];
  }

  lemma InvalidTypeNilCase()
    ensures Reports(InvalidType("confirmed", "query", "boolean", Absent),
                    "confirmed in query must be of type boolean")
  {
    InvalidTypeTemplate("confirmed", "query", "boolean", Absent);
    InvalidTypeNilText();
  }

  lemma InvalidTypeNilText()
    ensures "confirmed" + " in " + "query" + " " + "must be of type " + "boolean"
         == "confirmed in query must be of type boolean"
  {
    ConfirmedInQuery();
    InvalidTypeNilStep1();
    InvalidTypeNilStep2();
  }

  /** A plain value is quoted. */
  lemma InvalidTypePlainCase()
    ensures Reports(InvalidType("confirmed", "query", "boolean", Plain("hello")),
                    "confirmed in query must be of type boolean: \"hello\"")
  {
    InvalidTypeTemplate("confirmed", "query", "boolean", Plain("hello"));
    InvalidTypePlainText();
  }

  lemma InvalidTypePlainText()
    ensures "confirmed" + " in " + "query" + " " + "must be of type " + "boolean" + ": " + "\"" + "hello" + "\""
         == "confirmed in query must be of type boolean: \"hello\""
  {
    ConfirmedInQuery();
    InvalidTypeNilStep1();
    InvalidTypePlainStep2();
    InvalidTypePlainStep3();
  }

  /** An error value contributes its message, unquoted. */
  lemma InvalidTypeErrorCase()
    ensures Reports(InvalidType("confirmed", "query", "boolean", ErrVal("hello")),
                    "confirmed in query must be of type boolean, because: hello")
  {
    InvalidTypeTemplate("confirmed", "query", "boolean", ErrVal("hello"));
    InvalidTypeErrorText();
  }

  lemma InvalidTypeErrorText()
    ensures "confirmed" + " in " + "query" + " " + "must be of type " + "boolean" + ", because: " + "hello"
         == "confirmed in query must be of type boolean, because: hello"
  {
    ConfirmedInQuery();
    InvalidTypeNilStep1();
    InvalidTypeNilStep2();
    InvalidTypeErrorStep3();
    InvalidTypeErrorStep4();
  }

  lemma DuplicateItemsCase()
    ensures Reports(DuplicateItems("uniques", "query"),
                    "uniques in query shouldn't contain duplicates")
  {
    DuplicateItemsTemplate("uniques", "query");
    DuplicateItemsText();
  }

  lemma DuplicateItemsText()
    ensures "uniques" + " in " + "query" + " " + "shouldn't contain duplicates"
         == "uniques in query shouldn't contain duplicates"
  {
    UniquesInQuery();
    DuplicateItemsStep1();
  }

  lemma TooManyItemsCase()
    ensures Reports(TooManyItems("something", "query", 5),
                    "something in query should have at most 5 items")
  {
    FiveRendersAsFive();
    TooManyItemsTemplate("something", "query", 5);
    TooManyItemsText();
  }

  lemma TooManyItemsText()
    ensures "something" + " in " + "query" + " " + "should have at most " + "5" + " items"
         == "something in query should have at most 5 items"
  {
    SomethingInQuery();
    TooManyItemsStep1();
    TooManyItemsStep2();
  }

  lemma TooFewItemsCase()
    ensures Reports(TooFewItems("something", "query", 5),
                    "something in query should have at least 5 items")
  {
    FiveRendersAsFive();
    TooFewItemsTemplate("something", "query", 5);
    TooFewItemsText();
  }

  lemma TooFewItemsText()
    ensures "something" + " in " + "query" + " " + "should have at least " + "5" + " items"
         == "something in query should have at least 5 items"
  {
    SomethingInQuery();
    TooFewItemsStep1();
    TooFewItemsStep2();
  }

  /** An inclusive maximum adds "or equal to". */
  lemma ExceedsMaximumInclusiveCase()
    ensures Reports(ExceedsMaximum("something", "query", 5, false),
                    "something in query should be less than or equal to 5")
  {
    FiveRendersAsFive();
    ExceedsMaximumTemplate("something", "query", 5, false);
    ExceedsMaximumInclusiveText();
  }

  lemma ExceedsMaximumInclusiveText()
    ensures "something" + " in " + "query" + " " + "should be less than" + " or equal to" + " " + "5"
         == "something in query should be less than or equal to 5"
  {
    SomethingInQuery();
    ExceedsMaximumInclusiveStep1();
    ExceedsMaximumInclusiveStep2();
    ExceedsMaximumInclusiveStep3();
  }

  lemma ExceedsMaximumExclusiveCase()
    ensures Reports(ExceedsMaximum("something", "query", 5, true),
                    "something in query should be less than 5")
  {
    FiveRendersAsFive();
    ExceedsMaximumTemplate("something", "query", 5, true);
    ExceedsMaximumExclusiveText();
  }

  lemma ExceedsMaximumExclusiveText()
    ensures "something" + " in " + "query" + " " + "should be less than" + "" + " " + "5"
         == "something in query should be less than 5"
  {
    SomethingInQuery();
    ExceedsMaximumInclusiveStep1();
    ExceedsMaximumExclusiveStep2();
  }

  lemma ExceedsMinimumInclusiveCase()
    ensures Reports(ExceedsMinimum("something", "query", 5, false),
                    "something in query should be greater than or equal to 5")
  {
    FiveRendersAsFive();
    ExceedsMinimumTemplate("something", "query", 5, false);
    ExceedsMinimumInclusiveText();
  }

  lemma ExceedsMinimumInclusiveText()
    ensures "something" + " in " + "query" + " " + "should be greater than" + " or equal to" + " " + "5"
         == "something in query should be greater than or equal to 5"
  {
    SomethingInQuery();
    ExceedsMinimumInclusiveStep1();
    ExceedsMinimumInclusiveStep2();
    ExceedsMinimumInclusiveStep3();
  }

  lemma ExceedsMinimumExclusiveCase()
    ensures Reports(ExceedsMinimum("something", "query", 5, true),
                    "something in query should be greater than 5")
  {
    FiveRendersAsFive();
    ExceedsMinimumTemplate("something", "query", 5, true);
    ExceedsMinimumExclusiveText();
  }

  lemma ExceedsMinimumExclusiveText()
    ensures "something" + " in " + "query" + " " + "should be greater than" + "" + " " + "5"
         == "something in query should be greater than 5"
  {
    SomethingInQuery();
    ExceedsMinimumInclusiveStep1();
    ExceedsMinimumExclusiveStep2();
  }

  lemma NotMultipleOfCase()
    ensures Reports(NotMultipleOf("something", "query", 5),
                    "something in query should be a multiple of 5")
  {
    FiveRendersAsFive();
    NotMultipleOfTemplate("something", "query", 5);
    NotMultipleOfText();
  }

  lemma NotMultipleOfText()
    ensures "something" + " in " + "query" + " " + "should be a multiple of " + "5"
         == "something in query should be a multiple of 5"
  {
    SomethingInQuery();
    NotMultipleOfStep1();
    NotMultipleOfStep2();
  }

  /** The offending value "yada" is accepted but does not appear. */
  lemma EnumFailCase()
    ensures Reports(EnumFail("something", "query", "yada", ["hello", "world"]),
                    "something in query should be one of [hello world]")
  {
    assert ["hello", "world"][1..] == ["world"];
    assert Text.SpaceJoin(["hello", "world"]) == "hello world";
    EnumFailTemplate("something", "query", "yada", ["hello", "world"]);
    EnumFailText();
  }

  lemma EnumFailText()
    ensures "something" + " in " + "query" + " " + "should be one of " + "[" + "hello world" + "]"
         == "something in query should be one of [hello world]"
  {
    SomethingInQuery();
    EnumFailStep1();
    EnumFailStep2();
    EnumFailStep3();
    EnumFailStep4();
  }

  lemma RequiredCase()
    ensures Reports(Required("something", "query"),
                    "something in query is required")
  {
    RequiredTemplate("something", "query");
    RequiredText();
  }

  lemma RequiredText()
    ensures "something" + " in " + "query" + " " + "is required"
         == "something in query is required"
  {
    SomethingInQuery();
    RequiredStep1();
  }

  lemma TooLongCase()
    ensures Reports(TooLong("something", "query", 5),
                    "something in query should be at most 5 chars long")
  {
    FiveRendersAsFive();
    TooLongTemplate("something", "query", 5);
    TooLongText();
  }

  lemma TooLongText()
    ensures "something" + " in " + "query" + " " + "should be at most " + "5" + " chars long"
         == "something in query should be at most 5 chars long"
  {
    SomethingInQuery();
    TooLongStep1();
    TooLongStep2();
    TooLongStep3();
  }

  lemma TooShortCase()
    ensures Reports(TooShort("something", "query", 5),
                    "something in query should be at least 5 chars long")
  {
    FiveRendersAsFive();
    TooShortTemplate("something", "query", 5);
    TooShortText();
  }

  lemma TooShortText()
    ensures "something" + " in " + "query" + " " + "should be at least " + "5" + " chars long"
         == "something in query should be at least 5 chars long"
  {
    SomethingInQuery();
    TooShortStep1();
    TooShortStep2();
    TooShortStep3();
  }

  /** The pattern appears verbatim between single quotes. */
  lemma FailedPatternCase()
    ensures Reports(FailedPattern("something", "query", "\\d+"),
                    "something in query should match '\\d+'")
  {
    FailedPatternTemplate("something", "query", "\\d+");
    FailedPatternText();
  }

  lemma FailedPatternText()
    ensures "something" + " in " + "query" + " " + "should match '" + "\\d+" + "'"
         == "something in query should match '\\d+'"
  {
    SomethingInQuery();
    FailedPatternStep1();
    FailedPatternStep2();
  }

  /** The type name leads; there is no location. */
  lemma InvalidTypeNameCase()
    ensures Reports(InvalidTypeName("something"),
                    "something is an invalid type name")
  {
    InvalidTypeNameText();
  }

  lemma InvalidTypeNameText()
    ensures "something" + " is an invalid type name"
         == "something is an invalid type name"
  {
    InvalidTypeNameStep1();
  }

  /** Location and name appear in the opposite order to the other kinds. */
  lemma InvalidCollectionFormatCase()
    ensures Reports(InvalidCollectionFormat("something", "query", "yada"),
                    "the collection format \"yada\" is not supported for the query param \"something\"")
  {
    InvalidCollectionFormatText();
  }

  lemma InvalidCollectionFormatText()
    ensures "the collection format \"" + "yada" + "\" is not supported for the " + "query" + " param \"" + "something" + "\""
         == "the collection format \"yada\" is not supported for the query param \"something\""
  {
    InvalidCollectionFormatStep1();
    InvalidCollectionFormatStep2();
    InvalidCollectionFormatStep3();
    InvalidCollectionFormatStep4();
    InvalidCollectionFormatStep5();
  }

  lemma EmptyCompositeCase()
    ensures Reports(CompositeValidationError([]), "validation failure list")
  {
  }

  // Steps of the gluing, each comparing one short run of pieces.

  lemma ConfirmedInQuery()
    ensures "confirmed" + " in " + "query" + " " == "confirmed in query "
  {
    var s := "confirmed";
    s := s + " in ";
    assert s == "confirmed in ";
    s := s + "query";
    assert s == "confirmed in query";
  }

  lemma InvalidTypeNilStep1()
    ensures "confirmed in query " + "must be of type " == "confirmed in query must be of type "
  {
  }

  lemma InvalidTypeNilStep2()
    ensures "confirmed in query must be of type " + "boolean" == "confirmed in query must be of type boolean"
  {
  }

  lemma InvalidTypePlainStep2()
    ensures "confirmed in query must be of type " + "boolean" + ": " + "\"" == "confirmed in query must be of type boolean: \""
  {
    var s := "confirmed in query must be of type ";
    s := s + "boolean";
    assert s == "confirmed in query must be of type boolean";
    s := s + ": ";
    assert s == "confirmed in query must be of type boolean: ";
  }

  lemma InvalidTypePlainStep3()
    ensures "confirmed in query must be of type boolean: \"" + "hello" + "\"" == "confirmed in query must be of type boolean: \"hello\""
  {
    var s := "confirmed in query must be of type boolean: \"";
    s := s + "hello";
    assert s == "confirmed in query must be of type boolean: \"hello";
  }

  lemma InvalidTypeErrorStep3()
    ensures "confirmed in query must be of type boolean" + ", because: " == "confirmed in query must be of type boolean, because: "
  {
  }

  lemma InvalidTypeErrorStep4()
    ensures "confirmed in query must be of type boolean, because: " + "hello" == "confirmed in query must be of type boolean, because: hello"
  {
  }

  lemma UniquesInQuery()
    ensures "uniques" + " in " + "query" + " " == "uniques in query "
  {
    var s := "uniques";
    s := s + " in ";
    assert s == "uniques in ";
    s := s + "query";
    assert s == "uniques in query";
  }

  lemma DuplicateItemsStep1()
    ensures "uniques in query " + "shouldn't contain duplicates" == "uniques in query shouldn't contain duplicates"
  {
  }

  lemma SomethingInQuery()
    ensures "something" + " in " + "query" + " " == "something in query "
  {
    var s := "something";
    s := s + " in ";
    assert s == "something in ";
    s := s + "query";
    assert s == "something in query";
  }

  lemma TooManyItemsStep1()
    ensures "something in query " + "should have at most " == "something in query should have at most "
  {
  }

  lemma TooManyItemsStep2()
    ensures "something in query should have at most " + "5" + " items" == "something in query should have at most 5 items"
  {
    var s := "something in query should have at most ";
    s := s + "5";
    assert s == "something in query should have at most 5";
  }

  lemma TooFewItemsStep1()
    ensures "something in query " + "should have at least " == "something in query should have at least "
  {
  }

  lemma TooFewItemsStep2()
    ensures "something in query should have at least " + "5" + " items" == "something in query should have at least 5 items"
  {
    var s := "something in query should have at least ";
    s := s + "5";
    assert s == "something in query should have at least 5";
  }

  lemma ExceedsMaximumInclusiveStep1()
    ensures "something in query " + "should be less than" == "something in query should be less than"
  {
  }

  lemma ExceedsMaximumInclusiveStep2()
    ensures "something in query should be less than" + " or equal to" == "something in query should be less than or equal to"
  {
  }

  lemma ExceedsMaximumInclusiveStep3()
    ensures "something in query should be less than or equal to" + " " + "5" == "something in query should be less than or equal to 5"
  {
    var s := "something in query should be less than or equal to";
    s := s + " ";
    assert s == "something in query should be less than or equal to ";
  }

  lemma ExceedsMaximumExclusiveStep2()
    ensures "something in query should be less than" + "" + " " + "5" == "something in query should be less than 5"
  {
    var s := "something in query should be less than";
    s := s + "";
    assert s == "something in query should be less than";
    s := s + " ";
    assert s == "something in query should be less than ";
  }

  lemma ExceedsMinimumInclusiveStep1()
    ensures "something in query " + "should be greater than" == "something in query should be greater than"
  {
  }

  lemma ExceedsMinimumInclusiveStep2()
    ensures "something in query should be greater than" + " or equal to" == "something in query should be greater than or equal to"
  {
  }

  lemma ExceedsMinimumInclusiveStep3()
    ensures "something in query should be greater than or equal to" + " " + "5" == "something in query should be greater than or equal to 5"
  {
    var s := "something in query should be greater than or equal to";
    s := s + " ";
    assert s == "something in query should be greater than or equal to ";
  }

  lemma ExceedsMinimumExclusiveStep2()
    ensures "something in query should be greater than" + "" + " " + "5" == "something in query should be greater than 5"
  {
    var s := "something in query should be greater than";
    s := s + "";
    assert s == "something in query should be greater than";
    s := s + " ";
    assert s == "something in query should be greater than ";
  }

  lemma NotMultipleOfStep1()
    ensures "something in query " + "should be a multiple of " == "something in query should be a multiple of "
  {
  }

  lemma NotMultipleOfStep2()
    ensures "something in query should be a multiple of " + "5" == "something in query should be a multiple of 5"
  {
  }

  lemma EnumFailStep1()
    ensures "something in query " + "should be one of " == "something in query should be one of "
  {
  }

  lemma EnumFailStep2()
    ensures "something in query should be one of " + "[" == "something in query should be one of ["
  {
  }

  lemma EnumFailStep3()
    ensures "something in query should be one of [" + "hello world" == "something in query should be one of [hello world"
  {
  }

  lemma EnumFailStep4()
    ensures "something in query should be one of [hello world" + "]" == "something in query should be one of [hello world]"
  {
  }

  lemma RequiredStep1()
    ensures "something in query " + "is required" == "something in query is required"
  {
  }

  lemma TooLongStep1()
    ensures "something in query " + "should be at most " == "something in query should be at most "
  {
  }

  lemma TooLongStep2()
    ensures "something in query should be at most " + "5" == "something in query should be at most 5"
  {
  }

  lemma TooLongStep3()
    ensures "something in query should be at most 5" + " chars long" == "something in query should be at most 5 chars long"
  {
  }

  lemma TooShortStep1()
    ensures "something in query " + "should be at least " == "something in query should be at least "
  {
  }

  lemma TooShortStep2()
    ensures "something in query should be at least " + "5" == "something in query should be at least 5"
  {
  }

  lemma TooShortStep3()
    ensures "something in query should be at least 5" + " chars long" == "something in query should be at least 5 chars long"
  {
  }

  lemma FailedPatternStep1()
    ensures "something in query " + "should match '" == "something in query should match '"
  {
  }

  lemma FailedPatternStep2()
    ensures "something in query should match '" + "\\d+" + "'" == "something in query should match '\\d+'"
  {
    var s := "something in query should match '";
    s := s + "\\d+";
    assert s == "something in query should match '\\d+";
  }

  lemma InvalidTypeNameStep1()
    ensures "something" + " is an invalid type name" == "something is an invalid type name"
  {
  }

  lemma InvalidCollectionFormatStep1()
    ensures "the collection format \"" + "yada" == "the collection format \"yada"
  {
  }

  lemma InvalidCollectionFormatStep2()
    ensures "the collection format \"yada" + "\" is not supported for the " == "the collection format \"yada\" is not supported for the "
  {
  }

  lemma InvalidCollectionFormatStep3()
    ensures "the collection format \"yada\" is not supported for the " + "query" == "the collection format \"yada\" is not supported for the query"
  {
  }

  lemma InvalidCollectionFormatStep4()
    ensures "the collection format \"yada\" is not supported for the query" + " param \"" == "the collection format \"yada\" is not supported for the query param \""
  {
  }

  lemma InvalidCollectionFormatStep5()
    ensures "the collection format \"yada\" is not supported for the query param \"" + "something" + "\"" == "the collection format \"yada\" is not supported for the query param \"something\""
  {
    var s := "the collection format \"yada\" is not supported for the query param \"";
    s := s + "something";
    assert s == "the collection format \"yada\" is not supported for the query param \"something";
  }

}
