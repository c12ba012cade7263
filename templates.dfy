/** The message template of every kind, stated for all inputs in the form
    the templates are written: the name, " in ", the location, a space,
    then the kind's wording with its payload in place. */
module Templates {

  import opened Decimal
  import opened Text
  import opened Errors

  lemma Assoc(a: string, b: string, c: string)
    ensures a + (b + c) == a + b + c
  {
  }

  /** A kind with a location prefix renders the prefix, then its clause. */
  lemma LocatedMessage(e: ValidationError)
    requires HasLocationPrefix(e)
    ensures Message(e) == e.name + " in " + e.location + " " + Clause(e)
  {
  }

  lemma DuplicateItemsTemplate(name: string, location: string)
    ensures Message(DuplicateItems(name, location))
         == name + " in " + location + " " + "shouldn't contain duplicates"
  {
    LocatedMessage(DuplicateItems(name, location));
  }

  lemma TooManyItemsTemplate(name: string, location: string, max: int)
    ensures Message(TooManyItems(name, location, max))
         == name + " in " + location + " " + "should have at most " + IntToDecimal(max) + " items"
  {
    LocatedMessage(TooManyItems(name, location, max));
    Assoc(name + " in " + location + " ", ("should have at most " + IntToDecimal(max)), " items");
    Assoc(name + " in " + location + " ", "should have at most ", IntToDecimal(max));
  }

  lemma TooFewItemsTemplate(name: string, location: string, min: int)
    ensures Message(TooFewItems(name, location, min))
         == name + " in " + location + " " + "should have at least " + IntToDecimal(min) + " items"
  {
    LocatedMessage(TooFewItems(name, location, min));
    Assoc(name + " in " + location + " ", ("should have at least " + IntToDecimal(min)), " items");
    Assoc(name + " in " + location + " ", "should have at least ", IntToDecimal(min));
  }

  lemma ExceedsMaximumTemplate(name: string, location: string, max: int, exclusive: bool)
    ensures Message(ExceedsMaximum(name, location, max, exclusive))
         == name + " in " + location + " " + "should be less than" + InclusiveWords(exclusive) + " " + IntToDecimal(max)
  {
    LocatedMessage(ExceedsMaximum(name, location, max, exclusive));
    Assoc(name + " in " + location + " ", ("should be less than" + InclusiveWords(exclusive) + " "), IntToDecimal(max));
    Assoc(name + " in " + location + " ", ("should be less than" + InclusiveWords(exclusive)), " ");
    Assoc(name + " in " + location + " ", "should be less than", InclusiveWords(exclusive));
  }

  lemma ExceedsMinimumTemplate(name: string, location: string, min: int, exclusive: bool)
    ensures Message(ExceedsMinimum(name, location, min, exclusive))
         == name + " in " + location + " " + "should be greater than" + InclusiveWords(exclusive) + " " + IntToDecimal(min)
  {
    LocatedMessage(ExceedsMinimum(name, location, min, exclusive));
    Assoc(name + " in " + location + " ", ("should be greater than" + InclusiveWords(exclusive) + " "), IntToDecimal(min));
    Assoc(name + " in " + location + " ", ("should be greater than" + InclusiveWords(exclusive)), " ");
    Assoc(name + " in " + location + " ", "should be greater than", InclusiveWords(exclusive));
  }

  lemma NotMultipleOfTemplate(name: string, location: string, factor: int)
    ensures Message(NotMultipleOf(name, location, factor))
         == name + " in " + location + " " + "should be a multiple of " + IntToDecimal(factor)
  {
    LocatedMessage(NotMultipleOf(name, location, factor));
    Assoc(name + " in " + location + " ", "should be a multiple of ", IntToDecimal(factor));
  }

  lemma EnumFailTemplate(name: string, location: string, actual: string, options: seq<string>)
    ensures Message(EnumFail(name, location, actual, options))
         == name + " in " + location + " " + "should be one of " + "[" + SpaceJoin(options) + "]"
  {
    var p := name + " in " + location + " ";
    LocatedMessage(EnumFail(name, location, actual, options));
    Assoc(p, "should be one of ", "[" + SpaceJoin(options) + "]");
    Assoc(p + "should be one of ", "[" + SpaceJoin(options), "]");
    Assoc(p + "should be one of ", "[", SpaceJoin(options));
  }

  lemma RequiredTemplate(name: string, location: string)
    ensures Message(Required(name, location))
         == name + " in " + location + " " + "is required"
  {
    LocatedMessage(Required(name, location));
  }

  lemma TooLongTemplate(name: string, location: string, max: int)
    ensures Message(TooLong(name, location, max))
         == name + " in " + location + " " + "should be at most " + IntToDecimal(max) + " chars long"
  {
    LocatedMessage(TooLong(name, location, max));
    Assoc(name + " in " + location + " ", ("should be at most " + IntToDecimal(max)), " chars long");
    Assoc(name + " in " + location + " ", "should be at most ", IntToDecimal(max));
  }

  lemma TooShortTemplate(name: string, location: string, min: int)
    ensures Message(TooShort(name, location, min))
         == name + " in " + location + " " + "should be at least " + IntToDecimal(min) + " chars long"
  {
    LocatedMessage(TooShort(name, location, min));
    Assoc(name + " in " + location + " ", ("should be at least " + IntToDecimal(min)), " chars long");
    Assoc(name + " in " + location + " ", "should be at least ", IntToDecimal(min));
  }

  lemma FailedPatternTemplate(name: string, location: string, pattern: string)
    ensures Message(FailedPattern(name, location, pattern))
         == name + " in " + location + " " + "should match '" + pattern + "'"
  {
    LocatedMessage(FailedPattern(name, location, pattern));
    Assoc(name + " in " + location + " ", ("should match '" + pattern), "'");
    Assoc(name + " in " + location + " ", "should match '", pattern);
  }
  /** The message of a type-check failure without a value. */
  lemma TypeBaseTemplate(name: string, location: string, typeName: string)
    ensures TypeBase(name, location, typeName) == name + " in " + location + " " + "must be of type " + typeName
  {
  }

  /** The three templates of a type-check failure, one per value shape. */
  lemma InvalidTypeTemplate(name: string, location: string, typeName: string, v: Value)
    ensures var m := Message(InvalidType(name, location, typeName, v));
      var base := name + " in " + location + " " + "must be of type " + typeName;
      && (v.Absent? ==> m == base)
      && (v.Plain? ==> m == base + ": " + "\"" + v.s + "\"")
      && (v.ErrVal? ==> m == base + ", because: " + v.msg)
  {
    var e := InvalidType(name, location, typeName, v);
    var p := name + " in " + location + " ";
    LocatedMessage(e);
    TypeBaseTemplate(name, location, typeName);
    Assoc(p, "must be of type " + typeName, TypeSuffix(v));
    Assoc(p, "must be of type ", typeName);
    match v
    case Absent =>
      assert TypeSuffix(v) == [];
    case ErrVal(msg) =>
    case Plain(s) =>
      var base := p + "must be of type " + typeName;
      Assoc(base, ": ", Quote(s));
      Assoc(base + ": ", "\"" + s, "\"");
      Assoc(base + ": ", "\"", s);
  }
}
