/** Properties of the validation-error taxonomy that hold for all inputs:
    the uniform status code, the three shapes of a type-check failure,
    exclusive versus inclusive bounds and the shared location prefix.
    For a fixed name, location and type name, the message also
    determines the type-check value; for a fixed name and location, it
    determines a bound and its exclusivity, a single limit, and the
    options of an enumeration when there is at least one and none
    contains a space; the type name determines and is determined by its
    message. Name and location themselves are not recoverable in general
    (NameAndLocationAmbiguous). */
module ErrorProperties {

  import opened Wrappers
  import opened Decimal
  import opened Text
  import opened Errors
  import opened Templates

  /** Every kind, the composite included, reports 422. */
  lemma CodeIsUnprocessableEntity(e: ValidationError)
    ensures Code(e) == 422
  {
  }

  // ---------------------------------------------------------------------
  // InvalidType: three shapes of the offending value

  /** A type-check failure renders its suffix after the nil-case message. */
  lemma InvalidTypeSplit(name: string, location: string, typeName: string, v: Value)
    ensures Message(InvalidType(name, location, typeName, v)) == TypeBase(name, location, typeName) + TypeSuffix(v)
  {
    LocatedMessage(InvalidType(name, location, typeName, v));
    Assoc(LocationPrefix(name, location), "must be of type " + typeName, TypeSuffix(v));
  }

  lemma PrefixThenRest(a: string, b: string)
    ensures a <= a + b && (a + b)[|a|..] == b
  {
  }

  /** Whatever the value, the message of the nil case is a prefix of the
      message, and it is a proper prefix exactly when a value is present. */
  lemma InvalidTypeBaseIsPrefix(name: string, location: string, typeName: string, v: Value)
    ensures var base := Message(InvalidType(name, location, typeName, Absent));
      var m := Message(InvalidType(name, location, typeName, v));
      base <= m && (|base| < |m| <==> !v.Absent?)
  {
    InvalidTypeSplit(name, location, typeName, Absent);
    InvalidTypeSplit(name, location, typeName, v);
    assert TypeSuffix(Absent) == [];
    assert TypeBase(name, location, typeName) + [] == TypeBase(name, location, typeName);
    PrefixThenRest(TypeBase(name, location, typeName), TypeSuffix(v));
  }

  lemma {:induction false} ValueOfTypeSuffix(v: Value)
    ensures ValueOfSuffix(TypeSuffix(v)) == Some(v)
  {
    var suffix := TypeSuffix(v);
    match v
    case Absent =>
    case ErrVal(m) =>
      assert suffix[..11] == ", because: " && suffix[11..] == m;
    case Plain(s) =>
      assert suffix[0] == ':';
      assert suffix[..2] == ": " && suffix[2..] == Quote(s);
      UnquoteQuote(s);
  }

  /** The value (its shape and its text) can be read back from the message. */
  lemma InvalidTypeValueRecovered(name: string, location: string, typeName: string, v: Value)
    ensures InvalidTypeValue(name, location, typeName, Message(InvalidType(name, location, typeName, v))) == Some(v)
  {
    InvalidTypeSplit(name, location, typeName, v);
    PrefixThenRest(TypeBase(name, location, typeName), TypeSuffix(v));
    ValueOfTypeSuffix(v);
  }

  /** So two type-check failures for the same parameter and type have the
      same message only when they carry the same value. */
  lemma InvalidTypeInjective(name: string, location: string, typeName: string, v1: Value, v2: Value)
    requires Message(InvalidType(name, location, typeName, v1)) == Message(InvalidType(name, location, typeName, v2))
    ensures v1 == v2
  {
    InvalidTypeValueRecovered(name, location, typeName, v1);
    InvalidTypeValueRecovered(name, location, typeName, v2);
  }

  /** The type name must be fixed too: a plain value's suffix can be
      read as part of a longer type name with no value. */
  lemma InvalidTypeValueNeedsTypeName(name: string, location: string, typeName: string, s: string)
    ensures Message(InvalidType(name, location, typeName, Plain(s)))
         == Message(InvalidType(name, location, typeName + ": " + Quote(s), Absent))
  {
    var base := name + " in " + location + " " + "must be of type ";
    InvalidTypeTemplate(name, location, typeName, Plain(s));
    InvalidTypeTemplate(name, location, typeName + ": " + Quote(s), Absent);
    Assoc(base, typeName + ": ", Quote(s));
    Assoc(base, typeName, ": ");
    Assoc(base + typeName + ": ", "\"" + s, "\"");
    Assoc(base + typeName + ": ", "\"", s);
  }

  // ---------------------------------------------------------------------
  // The location prefix shared by the name/location kinds

  /** The location prefix is the name, then " in ", then the location. */
  lemma LocationPrefixParts(name: string, location: string)
    ensures var p := LocationPrefix(name, location);
      p[..|name|] == name && p[|name|..|name| + 4] == " in "
      && p[|name| + 4..|p| - 1] == location && p[|p| - 1] == ' '
  {
  }

  /** Each name/location kind's message starts with "<name> in <location> ". */
  lemma SharedLocationPrefix(e: ValidationError)
    requires HasLocationPrefix(e)
    ensures LocationPrefix(e.name, e.location) <= Message(e)
  {
    var p := LocationPrefix(e.name, e.location);
    assert Message(e) == p + Clause(e);
    assert (p + Clause(e))[..|p|] == p;
  }

  /** The prefix does not determine name and location on its own: moving
      " in <y>" from the end of the name to the front of the location
      leaves the message unchanged. */
  lemma NameAndLocationAmbiguous(x: string, y: string, z: string)
    ensures Message(Required(x + " in " + y, z)) == Message(Required(x, y + " in " + z))
  {
    RequiredTemplate(x + " in " + y, z);
    RequiredTemplate(x, y + " in " + z);
    Assoc(x + " in ", y, " in ");
    Assoc(x + " in ", y + " in ", z);
  }

  // ---------------------------------------------------------------------
  // Exclusive and inclusive bounds

  /** Every character of a rendered integer is a digit or the minus sign. */
  lemma IntToDecimalChars(i: int, j: int)
    requires 0 <= j < |IntToDecimal(i)|
    ensures IsDigit(IntToDecimal(i)[j]) || IntToDecimal(i)[j] == '-'
  {
    var s := IntToDecimal(i);
    if i < 0 && j > 0 {
      assert s[j] == s[1..][j - 1];
    }
  }

  const OrEqualToWords: string := "or equal to"

  /** One mismatching character rules out an occurrence at `k`. */
  lemma MismatchBlocks(t: string, s: string, k: int, j: int)
    requires 0 <= k && 0 <= j < |t| && k + j < |s| && s[k + j] != t[j]
    ensures !OccursAt(t, s, k)
  {
  }

  /** "or equal to" does not start at position `k` of `lit + IntToDecimal(i)`
      when `lit` has no "or" pair at `k` or the piece would end in the
      digits. */
  lemma NoOrEqualToAt(lit: string, i: int, k: int)
    requires |lit| >= 10 && 0 <= k
    requires k + 10 < |lit| ==> lit[k] != 'o' || lit[k + 1] != 'r'
    ensures !OccursAt(OrEqualToWords, lit + IntToDecimal(i), k)
  {
    if k + 11 <= |lit| + |IntToDecimal(i)| {
      if k + 10 >= |lit| {
        DigitEndsNoOrEqualTo(lit, i, k);
      } else {
        WordsStartNoOrEqualTo(lit, IntToDecimal(i), k);
      }
    }
  }

  /** An occurrence ending inside the digits would need an 'o' there. */
  lemma DigitEndsNoOrEqualTo(lit: string, i: int, k: int)
    requires 0 <= k && |lit| <= k + 10 < |lit| + |IntToDecimal(i)|
    ensures !OccursAt(OrEqualToWords, lit + IntToDecimal(i), k)
  {
    var c := lit + IntToDecimal(i);
    IntToDecimalChars(i, k + 10 - |lit|);
    assert c[k + 10] == IntToDecimal(i)[k + 10 - |lit|];
    MismatchBlocks(OrEqualToWords, c, k, 10);
  }

  /** An occurrence starting inside `lit` would need "or" there. */
  lemma WordsStartNoOrEqualTo(lit: string, d: string, k: int)
    requires 0 <= k && k + 1 < |lit| && (lit[k] != 'o' || lit[k + 1] != 'r')
    ensures !OccursAt(OrEqualToWords, lit + d, k)
  {
    var c := lit + d;
    if lit[k] != 'o' {
      assert c[k] == lit[k];
      MismatchBlocks(OrEqualToWords, c, k, 0);
    } else {
      assert c[k + 1] == lit[k + 1];
      MismatchBlocks(OrEqualToWords, c, k, 1);
    }
  }

  /** "or equal to" does not occur in `lit + IntToDecimal(i)` when it does
      not occur inside `lit`, whose first `|lit| - 10` positions are given
      to contain no "or" pair. */
  lemma NoOrEqualToAfter(lit: string, i: int)
    requires |lit| >= 10
    requires forall k :: 0 <= k <= |lit| - 11 ==> lit[k] != 'o' || lit[k + 1] != 'r'
    ensures !Occurs(OrEqualToWords, lit + IntToDecimal(i))
  {
    forall k | 0 <= k
      ensures !OccursAt(OrEqualToWords, lit + IntToDecimal(i), k)
    {
      NoOrEqualToAt(lit, i, k);
    }
  }

  /** Bound wording without "or" anywhere before the bound itself. */
  lemma OrFreeBoundWords(words: string, i: int)
    requires words == "should be less than" || words == "should be greater than"
    ensures !Occurs(OrEqualToWords, words + InclusiveWords(true) + " " + IntToDecimal(i))
  {
    var lit := words + InclusiveWords(true) + " ";
    forall k | 0 <= k <= |lit| - 11
      ensures lit[k] != 'o' || lit[k + 1] != 'r'
    {
    }
    assert words + InclusiveWords(true) + " " + IntToDecimal(i) == lit + IntToDecimal(i);
    NoOrEqualToAfter(lit, i);
  }

  /** The piece `b` of `a + b + c` sits between `|a|` and `|a| + |b|`. */
  lemma Middle(a: string, b: string, c: string)
    ensures (a + b + c)[|a|..|a| + |b|] == b
  {
  }

  /** The inclusive wording puts "or equal to" right after the relation. */
  lemma OrEqualToAfterWords(words: string, i: int)
    ensures OccursAt(OrEqualToWords, words + " or equal to" + " " + IntToDecimal(i), |words| + 1)
  {
    assert " or equal to" == " " + OrEqualToWords;
    Assoc(words, " ", OrEqualToWords);
    Middle(words + " ", OrEqualToWords, " " + IntToDecimal(i));
  }

  /** An exceeded maximum says "or equal to" exactly when it is inclusive. */
  lemma MaximumExclusivity(name: string, location: string, max: int, exclusive: bool)
    ensures Occurs(OrEqualToWords, Clause(ExceedsMaximum(name, location, max, exclusive))) <==> !exclusive
  {
    if exclusive {
      OrFreeBoundWords("should be less than", max);
    } else {
      OrEqualToAfterWords("should be less than", max);
    }
  }

  /** An exceeded minimum says "or equal to" exactly when it is inclusive. */
  lemma MinimumExclusivity(name: string, location: string, min: int, exclusive: bool)
    ensures Occurs(OrEqualToWords, Clause(ExceedsMinimum(name, location, min, exclusive))) <==> !exclusive
  {
    if exclusive {
      OrFreeBoundWords("should be greater than", min);
    } else {
      OrEqualToAfterWords("should be greater than", min);
    }
  }

  /** Inserting `mid` at the seam of `a + b`. */
  lemma InsertAtSeam(a: string, mid: string, b: string)
    ensures var s := a + b; |a| <= |s| && a + mid + b == s[..|a|] + mid + s[|a|..]
  {
    var s := a + b;
    assert s[..|a|] == a && s[|a|..] == b;
  }

  lemma RegroupBound(p: string, w: string, mid: string, d: string)
    ensures p + (w + mid + " " + d) == p + w + mid + (" " + d)
  {
  }

  /** The inclusive maximum message is the exclusive one with " or equal to"
      inserted after "less than"; nothing else differs. */
  lemma MaximumDiffersOnlyInExclusivity(name: string, location: string, max: int)
    ensures var inclusive := Message(ExceedsMaximum(name, location, max, false));
      var exclusive := Message(ExceedsMaximum(name, location, max, true));
      var k := |LocationPrefix(name, location)| + |"should be less than"|;
      k <= |exclusive| && inclusive == exclusive[..k] + " or equal to" + exclusive[k..]
  {
    var p := LocationPrefix(name, location);
    var w := "should be less than";
    var d := IntToDecimal(max);
    LocatedMessage(ExceedsMaximum(name, location, max, false));
    LocatedMessage(ExceedsMaximum(name, location, max, true));
    RegroupBound(p, w, " or equal to", d);
    RegroupBound(p, w, InclusiveWords(true), d);
    assert p + w + InclusiveWords(true) == p + w;
    InsertAtSeam(p + w, " or equal to", " " + d);
  }

  /** The inclusive minimum message is the exclusive one with " or equal to"
      inserted after "greater than"; nothing else differs. */
  lemma MinimumDiffersOnlyInExclusivity(name: string, location: string, min: int)
    ensures var inclusive := Message(ExceedsMinimum(name, location, min, false));
      var exclusive := Message(ExceedsMinimum(name, location, min, true));
      var k := |LocationPrefix(name, location)| + |"should be greater than"|;
      k <= |exclusive| && inclusive == exclusive[..k] + " or equal to" + exclusive[k..]
  {
    var p := LocationPrefix(name, location);
    var w := "should be greater than";
    var d := IntToDecimal(min);
    LocatedMessage(ExceedsMinimum(name, location, min, false));
    LocatedMessage(ExceedsMinimum(name, location, min, true));
    RegroupBound(p, w, " or equal to", d);
    RegroupBound(p, w, InclusiveWords(true), d);
    assert p + w + InclusiveWords(true) == p + w;
    InsertAtSeam(p + w, " or equal to", " " + d);
  }

  /** A clause `inc` + digits and a clause `exc` + digits, where `inc` is
      longer than `exc` and has a letter where `exc` ends, never coincide. */
  lemma BoundClausesDiffer(exc: string, inc: string, a: int, b: int)
    requires |exc| < |inc| && inc[|exc|] == 'o'
    ensures exc + IntToDecimal(a) != inc + IntToDecimal(b)
  {
    IntToDecimalChars(a, 0);
    assert (exc + IntToDecimal(a))[|exc|] == IntToDecimal(a)[0];
  }

  /** The message of an exceeded maximum determines the bound and whether it
      is exclusive. */
  lemma MaximumDetermined(name: string, location: string, a: int, x: bool, b: int, y: bool)
    requires Message(ExceedsMaximum(name, location, a, x)) == Message(ExceedsMaximum(name, location, b, y))
    ensures a == b && x == y
  {
    var p := LocationPrefix(name, location);
    var exc, inc := "should be less than" + InclusiveWords(true) + " ", "should be less than" + InclusiveWords(false) + " ";
    CancelFrame(p, Clause(ExceedsMaximum(name, location, a, x)), Clause(ExceedsMaximum(name, location, b, y)), "");
    if x && !y {
      BoundClausesDiffer(exc, inc, a, b);
    } else if !x && y {
      BoundClausesDiffer(exc, inc, b, a);
    } else {
      var lit := if x then exc else inc;
      CancelFrame(lit, IntToDecimal(a), IntToDecimal(b), "");
      IntToDecimalInjective(a, b);
    }
  }

  /** The message of an exceeded minimum determines the bound and whether it
      is exclusive. */
  lemma MinimumDetermined(name: string, location: string, a: int, x: bool, b: int, y: bool)
    requires Message(ExceedsMinimum(name, location, a, x)) == Message(ExceedsMinimum(name, location, b, y))
    ensures a == b && x == y
  {
    var p := LocationPrefix(name, location);
    var exc, inc := "should be greater than" + InclusiveWords(true) + " ", "should be greater than" + InclusiveWords(false) + " ";
    CancelFrame(p, Clause(ExceedsMinimum(name, location, a, x)), Clause(ExceedsMinimum(name, location, b, y)), "");
    if x && !y {
      BoundClausesDiffer(exc, inc, a, b);
    } else if !x && y {
      BoundClausesDiffer(exc, inc, b, a);
    } else {
      var lit := if x then exc else inc;
      CancelFrame(lit, IntToDecimal(a), IntToDecimal(b), "");
      IntToDecimalInjective(a, b);
    }
  }

  // ---------------------------------------------------------------------
  // Kinds with one integer limit

  predicate HasLimit(e: ValidationError) {
    e.TooManyItems? || e.TooFewItems? || e.NotMultipleOf? || e.TooLong? || e.TooShort?
  }

  function Limit(e: ValidationError): int
    requires HasLimit(e)
  {
    match e
    case TooManyItems(_, _, m) => m
    case TooFewItems(_, _, m) => m
    case NotMultipleOf(_, _, f) => f
    case TooLong(_, _, m) => m
    case TooShort(_, _, m) => m
  }

  /** The words around the rendered limit in a limit kind's clause. */
  function LimitFrame(e: ValidationError): (string, string)
    requires HasLimit(e)
  {
    match e
    case TooManyItems(_, _, _) => ("should have at most ", " items")
    case TooFewItems(_, _, _) => ("should have at least ", " items")
    case NotMultipleOf(_, _, _) => ("should be a multiple of ", "")
    case TooLong(_, _, _) => ("should be at most ", " chars long")
    case TooShort(_, _, _) => ("should be at least ", " chars long")
  }

  /** Two errors of the same limit kind for the same parameter that render
      alike carry the same limit. */
  lemma LimitDetermined(e1: ValidationError, e2: ValidationError)
    requires HasLimit(e1) && HasLimit(e2)
    requires e1.name == e2.name && e1.location == e2.location && LimitFrame(e1) == LimitFrame(e2)
    requires Message(e1) == Message(e2)
    ensures Limit(e1) == Limit(e2)
  {
    var (before, after) := LimitFrame(e1);
    assert Clause(e1) == before + IntToDecimal(Limit(e1)) + after;
    assert Clause(e2) == before + IntToDecimal(Limit(e2)) + after;
    CancelFrame(LocationPrefix(e1.name, e1.location), Clause(e1), Clause(e2), "");
    CancelFrame(before, IntToDecimal(Limit(e1)), IntToDecimal(Limit(e2)), after);
    IntToDecimalInjective(Limit(e1), Limit(e2));
  }

  // ---------------------------------------------------------------------
  // EnumFail

  /** The offending value plays no part in an enumeration failure's message. */
  lemma EnumFailIgnoresActual(name: string, location: string, a1: string, a2: string, options: seq<string>)
    ensures Message(EnumFail(name, location, a1, options)) == Message(EnumFail(name, location, a2, options))
  {
  }

  /** The options stand, space-separated, between the brackets that close the
      message, and splitting that text at spaces gives them back (when there
      is at least one and none contains a space). */
  lemma EnumFailOptionsRecovered(name: string, location: string, actual: string, options: seq<string>)
    requires |options| >= 1
    requires forall k :: 0 <= k < |options| ==> NoSpace(options[k])
    ensures var m := Message(EnumFail(name, location, actual, options));
      var k := |LocationPrefix(name, location)| + |"should be one of ["|;
      k < |m| && m[k - 1] == '[' && m[|m| - 1] == ']' && SplitSpaces(m[k..|m| - 1]) == options
  {
    var a := LocationPrefix(name, location) + "should be one of " + "[";
    EnumFailTemplate(name, location, actual, options);
    Middle(a, SpaceJoin(options), "]");
    assert a[|a| - 1] == '[';
    SplitSpaceJoin(options);
  }

  // ---------------------------------------------------------------------
  // FailedPattern, InvalidTypeName, InvalidCollectionFormat, composite

  /** The pattern appears verbatim between single quotes at the end. */
  lemma FailedPatternVerbatim(name: string, location: string, pattern: string)
    ensures var m := Message(FailedPattern(name, location, pattern));
      var k := |LocationPrefix(name, location)| + |"should match '"|;
      |m| == k + |pattern| + 1 && m[k - 1] == '\'' && m[|m| - 1] == '\'' && m[k..|m| - 1] == pattern
  {
    var p := LocationPrefix(name, location);
    var a := p + "should match '";
    LocatedMessage(FailedPattern(name, location, pattern));
    Assoc(p, "should match '" + pattern, "'");
    Assoc(p, "should match '", pattern);
    Middle(a, pattern, "'");
    assert a[|a| - 1] == '\'';
  }

  /** An invalid type name's message has no location part: it is the type
      name followed by a fixed phrase, so the name determines it and it
      determines the name. */
  lemma InvalidTypeNameInjective(t1: string, t2: string)
    ensures Message(InvalidTypeName(t1)) == Message(InvalidTypeName(t2)) <==> t1 == t2
  {
    if Message(InvalidTypeName(t1)) == Message(InvalidTypeName(t2)) {
      assert "" + t1 == t1 && "" + t2 == t2;
      CancelFrame("", t1, t2, " is an invalid type name");
    }
  }

  /** Where each of seven concatenated pieces sits. */
  lemma SevenPieces(a: string, x: string, b: string, y: string, c: string, z: string, d: string)
    ensures var m := a + x + b + y + c + z + d;
      var i1 := |a|; var i2 := i1 + |x|; var i3 := i2 + |b|; var i4 := i3 + |y|;
      var i5 := i4 + |c|; var i6 := i5 + |z|;
      && |m| == i6 + |d|
      && m[..i1] == a && m[i1..i2] == x && m[i2..i3] == b && m[i3..i4] == y
      && m[i4..i5] == c && m[i5..i6] == z && m[i6..] == d
  {
  }

  /** The collection format comes first (quoted), then the location, then
      the parameter name (quoted) at the very end. */
  lemma InvalidCollectionFormatOrder(name: string, location: string, format: string)
    ensures var m := Message(InvalidCollectionFormat(name, location, format));
      var f := |"the collection format \""|;
      var l := f + |format| + |"\" is not supported for the "|;
      var n := l + |location| + |" param \""|;
      && |m| == n + |name| + 1
      && m[..f] == "the collection format \"" && m[f..f + |format|] == format
      && m[f + |format|..l] == "\" is not supported for the "
      && m[l..l + |location|] == location
      && m[l + |location|..n] == " param \""
      && m[n..n + |name|] == name && m[|m| - 1] == '"'
  {
    SevenPieces("the collection format \"", format, "\" is not supported for the ",
                location, " param \"", name, "\"");
  }

  /** A composite's message is the fixed summary, whatever its children. */
  lemma CompositeMessageIgnoresChildren(children: seq<ValidationError>)
    ensures Message(CompositeValidationError(children)) == "validation failure list"
    ensures CompositeValidationError(children).errors == children
  {
  }
}
