# go-swagger validation errors, modelled in Dafny

This project models the validation-error taxonomy of go-swagger's `errors` package.

Each constructor builds an immutable error value for one kind of schema violation. The kinds are `InvalidType`, `DuplicateItems`, `TooManyItems`, `TooFewItems`, `ExceedsMaximum`, `ExceedsMinimum`, `NotMultipleOf`, `EnumFail`, `Required`, `TooLong`, `TooShort`, `FailedPattern`, `InvalidTypeName`, `InvalidCollectionFormat`, and `CompositeValidationError`, which groups other errors. Every value reports two things:

- a status code, `Code()`, which is 422 (Unprocessable Entity) for every kind;
- a message, `Error()`, rendered from one fixed template per kind.

The behaviour is pinned by the literal assertions of `errors/schema_test.go`. The package's implementation file is not part of this model, so every template here is the one those assertions fix.

Layout:

- `errors.dfy` (module `Errors`) has the data model and the operations:
  - `ValidationError` has one constructor per kind. The Go parameter `in` is called `location`, because `in` is a Dafny keyword.
  - `Value` is the offending value of a type check: `Absent` (nil), `ErrVal` (an error, of which only its message matters) or `Plain` (a string value, printed between double quotes).
  - `Code` and `Message`.
  - `InvalidTypeValue` reads a type-check failure's value back from its message.
- `decimal.dfy` (module `Decimal`) renders the integer bounds in base ten (`IntToDecimal`). Its inverse is `ParseInt`.
- `text.dfy` (module `Text`) has double quoting, joining with single spaces (how the options of an enumeration are printed), splitting at spaces, and substring occurrence.
- `templates.dfy` (module `Templates`) restates each kind's template for all inputs, split into the literal pieces the concrete cases glue together. These lemmas are proof steps for `SchemaTests` and `ErrorProperties`, not properties of their own.
- `properties.dfy` (module `ErrorProperties`) has all-inputs properties: the uniform code, value recovery for type failures, exclusivity of bounds, and the shared location prefix. For a fixed name, location and type name, the message determines the type-check value; without a fixed type name it does not (`InvalidTypeValueNeedsTypeName`). For a fixed name and location, it determines a bound and its exclusivity, a single limit, and the options of an enumeration when there is at least one and none contains a space. The type name determines its message and is determined by it. Name and location are not recoverable from the message in general (`NameAndLocationAmbiguous`), and an enumeration failure's offending value is never rendered.
- `schema_test.dfy` (module `SchemaTests`) has each concrete case of the test as a lemma (`…Case`). Each one states the code and the exact expected message. The `…Text`, `…Step<n>` and `…InQuery` lemmas only glue string literals together, one short run of pieces per lemma, so that no single proof compares long literals. They make no claim of their own.
- `wrappers.dfy` has the `Option` datatype.

## Model

| member | source | states |
|---|---|---|
| Errors.Code | errors/schema_test.go:11-104 | the status code of an error; specified by ErrorProperties.CodeIsUnprocessableEntity and each SchemaTests case |
| Errors.Message | errors/schema_test.go:11-104 | the error's message; specified by the SchemaTests cases (the exact strings of the test) and the ErrorProperties lemmas below |
| Errors.InvalidTypeValue | errors/schema_test.go:11-24 | reads the value of a type-check failure back from a message; ErrorProperties.InvalidTypeValueRecovered proves it inverts Message for all inputs |
| ErrorProperties.CodeIsUnprocessableEntity | errors/schema_test.go:11-104 | every kind, the empty composite included, reports 422 |
| SchemaTests.InvalidTypeNilCase | errors/schema_test.go:11-14 | a nil value: code 422 and exactly "confirmed in query must be of type boolean" |
| SchemaTests.InvalidTypePlainCase | errors/schema_test.go:16-19 | a plain value: code 422 and the base message then `: "hello"` |
| SchemaTests.InvalidTypeErrorCase | errors/schema_test.go:21-24 | an error value: code 422 and the base message then ", because: hello" |
| SchemaTests.DuplicateItemsCase | errors/schema_test.go:26-29 | code 422 and exactly "uniques in query shouldn't contain duplicates" |
| SchemaTests.TooManyItemsCase | errors/schema_test.go:31-34 | code 422 and exactly "something in query should have at most 5 items" |
| SchemaTests.TooFewItemsCase | errors/schema_test.go:36-39 | code 422 and exactly "something in query should have at least 5 items" |
| SchemaTests.ExceedsMaximumInclusiveCase | errors/schema_test.go:41-44 | code 422 and exactly "something in query should be less than or equal to 5" |
| SchemaTests.ExceedsMaximumExclusiveCase | errors/schema_test.go:46-49 | code 422 and exactly "something in query should be less than 5" |
| SchemaTests.ExceedsMinimumInclusiveCase | errors/schema_test.go:51-54 | code 422 and exactly "something in query should be greater than or equal to 5" |
| SchemaTests.ExceedsMinimumExclusiveCase | errors/schema_test.go:56-59 | code 422 and exactly "something in query should be greater than 5" |
| SchemaTests.NotMultipleOfCase | errors/schema_test.go:61-64 | code 422 and exactly "something in query should be a multiple of 5" |
| SchemaTests.EnumFailCase | errors/schema_test.go:66-69 | code 422 and exactly "something in query should be one of [hello world]" |
| SchemaTests.RequiredCase | errors/schema_test.go:71-74 | code 422 and exactly "something in query is required" |
| SchemaTests.TooLongCase | errors/schema_test.go:76-79 | code 422 and exactly "something in query should be at most 5 chars long" |
| SchemaTests.TooShortCase | errors/schema_test.go:81-84 | code 422 and exactly "something in query should be at least 5 chars long" |
| SchemaTests.FailedPatternCase | errors/schema_test.go:86-89 | code 422 and exactly `something in query should match '\d+'` |
| SchemaTests.InvalidTypeNameCase | errors/schema_test.go:91-94 | code 422 and exactly "something is an invalid type name" |
| SchemaTests.InvalidCollectionFormatCase | errors/schema_test.go:96-99 | code 422 and exactly `the collection format "yada" is not supported for the query param "something"` |
| SchemaTests.EmptyCompositeCase | errors/schema_test.go:101-104 | an empty composite: code 422 and exactly "validation failure list" |
| ErrorProperties.InvalidTypeBaseIsPrefix | errors/schema_test.go:11-24 | the nil-case message is a prefix of every type-check message, and a proper prefix exactly when a value is present |
| ErrorProperties.ValueOfTypeSuffix | errors/schema_test.go:16-24 | each of the three suffixes tells its value shape and text back |
| ErrorProperties.InvalidTypeValueRecovered | errors/schema_test.go:11-24 | reading a type-check message back gives the value it was built from |
| ErrorProperties.InvalidTypeInjective | errors/schema_test.go:11-24 | two type-check failures for the same parameter and type have the same message only when their values are equal |
| ErrorProperties.InvalidTypeValueNeedsTypeName | errors/schema_test.go:11-19 | a plain value's message equals the no-value message of a longer type name ending in `: "<value>"`, so the value is determined only when the type name is fixed |
| ErrorProperties.LocationPrefixParts | errors/schema_test.go:26-89 | the prefix is the name, " in ", the location and a space, at those positions |
| ErrorProperties.SharedLocationPrefix | errors/schema_test.go:26-89 | every name/location kind's message starts with "<name> in <location> " |
| ErrorProperties.NameAndLocationAmbiguous | errors/schema_test.go:26-89 | moving " in <y>" from the end of the name to the front of the location leaves the message unchanged, so the prefix does not determine name and location |
| ErrorProperties.MaximumExclusivity | errors/schema_test.go:41-49 | an exceeded maximum's clause contains "or equal to" if and only if the bound is inclusive |
| ErrorProperties.MinimumExclusivity | errors/schema_test.go:51-59 | an exceeded minimum's clause contains "or equal to" if and only if the bound is inclusive |
| ErrorProperties.MaximumDiffersOnlyInExclusivity | errors/schema_test.go:41-49 | the inclusive maximum message is the exclusive one with " or equal to" inserted after "less than", and nothing else changes |
| ErrorProperties.MinimumDiffersOnlyInExclusivity | errors/schema_test.go:51-59 | the inclusive minimum message is the exclusive one with " or equal to" inserted after "greater than", and nothing else changes |
| ErrorProperties.MaximumDetermined | errors/schema_test.go:41-49 | for one parameter, the maximum message determines both the bound and its exclusivity |
| ErrorProperties.MinimumDetermined | errors/schema_test.go:51-59 | for one parameter, the minimum message determines both the bound and its exclusivity |
| ErrorProperties.LimitDetermined | errors/schema_test.go:31-84 | for the kinds with one integer limit, errors of the same kind for the same parameter with the same message have the same limit |
| ErrorProperties.EnumFailIgnoresActual | errors/schema_test.go:66-69 | the offending value has no effect on an enumeration failure's message |
| ErrorProperties.EnumFailOptionsRecovered | errors/schema_test.go:66-69 | the options stand between the closing brackets of the message, and when there is at least one option and none contains a space, splitting that text at spaces gives them back |
| ErrorProperties.FailedPatternVerbatim | errors/schema_test.go:86-89 | the pattern stands verbatim between single quotes at the end of the message |
| ErrorProperties.InvalidTypeNameInjective | errors/schema_test.go:91-94 | two invalid-type-name messages are equal if and only if the type names are |
| ErrorProperties.InvalidCollectionFormatOrder | errors/schema_test.go:96-99 | the format comes first, quoted, then the location, then the parameter name, quoted, at the end |
| ErrorProperties.CompositeMessageIgnoresChildren | errors/schema_test.go:101-104 | a composite's message is "validation failure list" whatever its children, and it keeps the children |
| Decimal.IntToDecimal | errors/schema_test.go:31-34 | a bound renders as a canonical numeral of its value, with a minus sign before the magnitude when negative |
| Decimal.NatToDecimal | errors/schema_test.go:31-34 | a natural number renders as a canonical numeral of its value |
| Decimal.ParseIntToDecimal | errors/schema_test.go:31-34 | reading a rendered bound gives the bound back |
| Decimal.IntToDecimalOfParse | errors/schema_test.go:31-34 | every numeral the reader accepts is the rendering of the value it reads |
| Decimal.NatToDecimalOfValue | errors/schema_test.go:31-34 | every canonical numeral is the rendering of its own value |
| Decimal.IntToDecimalInjective | errors/schema_test.go:31-34 | distinct bounds render differently |
| Decimal.ParseInt | errors/schema_test.go:31-34 | reads a rendered bound back; inverse of IntToDecimal in both directions by ParseIntToDecimal and IntToDecimalOfParse |
| Text.SplitSpaces | errors/schema_test.go:66-69 | at least one piece; undoes SpaceJoin on non-empty lists of space-free items (SplitSpaceJoin), and SpaceJoin undoes it on every string (SpaceJoinSplit) |
| Text.Quote | errors/schema_test.go:16-19 | quoting adds a double quote at each end and keeps the text between them |
| Text.UnquoteQuote | errors/schema_test.go:16-19 | unquoting a quoted string gives it back |
| Text.SpaceJoinSplit | errors/schema_test.go:66-69 | splitting cuts at every space and nowhere else: no piece contains a space, and joining the pieces with single spaces gives the string back |
| Text.SplitSpaceJoin | errors/schema_test.go:66-69 | splitting the space-joined options at spaces gives the list back, provided there is at least one option and none contains a space |

## Left out

- examples/2.0/petstore/server/petstore.go: this is process start-up only. It builds the API, logs, and serves HTTP (network I/O and foreign calls), so there is nothing to model.
- The package's implementation file is not part of this model. Only the templates that `errors/schema_test.go` pins down are modelled.
- Text.Quote: Go's `%q` escaping of quotes, backslashes and non-printable characters is not modelled. Neither is how `%q` prints a non-string value, for example an integer as a single-quoted character literal: `Plain` carries a string. Quoting is plain wrapping in double quotes, which is all the test exercises.
- Decimal.IntToDecimal: bounds are unbounded integers. The floating-point rendering of non-integral maximum, minimum and multiple-of bounds is not modelled, and neither is the width of Go's integer types. The test uses only `5`.
- ErrorProperties.CompositeMessageIgnoresChildren: a composite keeps its children, but nothing is stated about the children's messages or how a caller renders the list. The test asserts only the empty composite.
- Empty name or location: not modelled. The model always renders "<name> in <location> ", the form errors/schema_test.go asserts.
- The Go test's `assert.Error` (the value is a non-nil error) corresponds to every constructor building a value. `errors.New("hello")` is modelled as an error value that carries only its message, `ErrVal("hello")`.
- Errors.ValidationError: the options of `EnumFail` are `[]interface{}` in Go (errors/schema_test.go:66). The model stands for each option by its printed text, so how non-string options are printed is not modelled.
