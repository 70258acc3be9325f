# Embryo Validation, modelled in Dafny

Embryo Validation is a fluent PHP validator for one HTTP request. A
`Validation` session holds the request's parsed body and its uploaded files.
The caller points the session's cursor at a field with `name()`, declares
the field's type with `type()`, and chains rules after it: `required()`,
`pattern()`, `equal()`, `match()`, `length()`, `maxSize()` and `accept()`.
Each failed rule appends one localised message (English or Italian) to the
field's list in an error map. At the end the caller reads `isSuccess()`,
`getData()` (the sanitized values), `getErrors()`, `getErrorList()` or
`result()`.

The model has five modules, one per source file plus one for the PHP
values and built-ins:

- `Php` (`Php.dfy`): the values a field can hold (null, string, integer,
  list, uploaded file), PHP's string conversion, `implode`, and `strlen` as
  the UTF-8 byte length. The PHP built-ins whose behaviour belongs to PHP
  itself (the filter extension, PCRE, loose comparison, DateTime, the size
  label's floating-point arithmetic) are fields of a `Builtins` record that
  the caller supplies. Only the way the validator uses them is modelled.
- `CollectionTrait` (`CollectionTrait.dfy`): field resolution, body first,
  then files, with `isset` treating null as unset.
- `FilterTrait` (`FilterTrait.dfy`): the type tags, the type predicates
  `type()` dispatches to, and the sanitizer.
- `ErrorTrait` (`ErrorTrait.dfy`): the message catalog as parsed `vsprintf`
  templates, and the error map, a PHP array that keeps its keys in
  insertion order.
- `Validation` (`Validation.dfy`): the session as a class whose methods
  update its cursor, data map and error map in place, with the loops of
  `required()`, `maxSize()`, `accept()` and `getErrorList()`. A few client
  methods chain the rules the way a caller does.

Where the library's own description and the code disagree, the model
follows the code:

- After `type()` the cursor holds the raw resolved value, not the
  sanitized one. Only the data map gets the sanitized value.
- `pattern()` also writes the field's raw value into the data map, so a
  field without a `type()` step can still appear there.
- `required()` does not flag an absent (null) value. In the chain
  `name("file")->type("file")->required()` on a missing field, the file
  gets one type error and no required error (`Validation.AbsentFieldChain`).
- `type()` accepts the tag `slug`, because the class has a `slug()`
  method.
- `name()` never records the `name` message, although the catalog has one.

The PHP modelled is PHP 8: `preg_match` and `DateTime::createFromFormat`
raise a TypeError when given a list or an uploaded-file object, so
`type("slug")`, `type("datetime")` and `pattern()` throw on such a value
instead of recording an error. `null` and integers are converted to text
for them, as PHP does.

## Model

| member | source | states |
|---|---|---|
| Php.Utf8LengthBounds | Embryo/Validation/Validation.php:188-196 | strlen, which length() uses, counts at least one and at most four bytes per character, and exactly one per character precisely when the text is ASCII |
| CollectionTrait.Get | Embryo/Validation/Traits/CollectionTrait.php:33-44 | get() returns the body entry when it is set, else the file entry when it is set, else null |
| CollectionTrait.HasIffResolved | Embryo/Validation/Traits/CollectionTrait.php:21-44 | has() holds exactly when get() resolves to a non-null value |
| CollectionTrait.BodyShadowsFiles | Embryo/Validation/Traits/CollectionTrait.php:35-37 | when both maps set the field, the body's entry wins |
| CollectionTrait.ResolvedFromMaps | Embryo/Validation/Traits/CollectionTrait.php:33-44 | get() returns an entry of one of the two maps, or null |
| FilterTrait.ParseTag | Embryo/Validation/Validation.php:82-84 | a type name is accepted only when it is the name of the tag it parses to |
| FilterTrait.TagNameRoundTrip | Embryo/Validation/Validation.php:82-84 | every tag's name parses back to that tag, and a name that parses to nothing names no tag |
| FilterTrait.AnyAndTextAcceptAll | Embryo/Validation/Traits/FilterTrait.php:137-153 | any() and text() accept every value |
| FilterTrait.FileCheckShape | Embryo/Validation/Traits/FilterTrait.php:34-49 | file() rejects what is neither a file nor a list, accepts the empty list, and accepts a list exactly when every element is a file |
| FilterTrait.IntAcceptsZero | Embryo/Validation/Traits/FilterTrait.php:91-94 | int() accepts exactly what the integer filter accepts, zero included |
| FilterTrait.FloatRejectsZero | Embryo/Validation/Traits/FilterTrait.php:102-105 | as written, float() rejects "0", which the float filter accepts as 0.0 |
| FilterTrait.FloatAcceptsZero | Embryo/Validation/Traits/FilterTrait.php:102-105 | the corrected float() accepts what the float filter accepts, and differs from the code as written only on zero |
| FilterTrait.BooleanRejectsFalse | Embryo/Validation/Traits/FilterTrait.php:124-127 | as written, boolean() rejects "false", which the boolean filter recognises |
| FilterTrait.BooleanAcceptsBoth | Embryo/Validation/Traits/FilterTrait.php:124-127 | the corrected boolean() accepts both recognised booleans, and differs from the code as written only on recognised false values |
| FilterTrait.SlugAcceptsTrailingNewline | Embryo/Validation/Traits/FilterTrait.php:161-164 | as written, slug() accepts "a" followed by a newline, because PCRE's `$` matches before a final newline |
| FilterTrait.SlugCharacters | Embryo/Validation/Traits/FilterTrait.php:161-164 | the corrected slug() accepts a string exactly when it is non-empty and made only of word characters, '/' and '-'; it rejects any string with a newline, and the empty string |
| FilterTrait.IntegerIsSlug | Embryo/Validation/Traits/FilterTrait.php:161-164 | an integer always passes slug(), since preg_match sees its decimal digits |
| FilterTrait.CheckAsWrittenVersusIntended | Embryo/Validation/Traits/FilterTrait.php:91-164 | the predicates as the code writes them and the intended ones differ exactly on a float filtered to zero and a recognised false (only the intended ones accept) and on a slug that only the code as written accepts |
| FilterTrait.SlugDifference | Embryo/Validation/Traits/FilterTrait.php:161-164 | what the code as written accepts beyond the intended slug() is a slug followed by one final newline |
| FilterTrait.Sanitize | Embryo/Validation/Traits/FilterTrait.php:173-180 | the string filter applies for the tag text only; every other tag leaves the value unchanged |
| ErrorTrait.Template | Embryo/Validation/Traits/ErrorTrait.php:17-42 | each template of both locales opens with the locale's opening words and the field name's conversion, and has exactly as many conversions as its rule passes arguments |
| ErrorTrait.FormatLength | Embryo/Validation/Traits/ErrorTrait.php:63 | a rendered message is as long as the template's literal text plus the arguments its conversions consume |
| ErrorTrait.HolesConcat | Embryo/Validation/Traits/ErrorTrait.php:63 | the conversions of two template parts add up |
| ErrorTrait.FormatConcat | Embryo/Validation/Traits/ErrorTrait.php:63 | vsprintf consumes arguments left to right: a split template renders as its first part with the first arguments followed by its second part with the arguments left over |
| ErrorTrait.FormatPlaceholders | Embryo/Validation/Traits/ErrorTrait.php:63 | rendering with "%s" for every argument gives back the template text as written, so conversions are replaced by arguments and literal runs kept |
| ErrorTrait.FormatOpening | Embryo/Validation/Traits/ErrorTrait.php:63 | vsprintf of a template opening with a literal and a conversion is that literal, the first argument, then the rest rendered with the remaining arguments |
| ErrorTrait.RenderStartsWithField | Embryo/Validation/Traits/ErrorTrait.php:17-64 | every rendered message starts with its locale's opening words followed by the field name |
| ErrorTrait.Empty | Embryo/Validation/Traits/ErrorTrait.php:47 | the error map starts well-formed with no field |
| ErrorTrait.Append | Embryo/Validation/Traits/ErrorTrait.php:61-64 | appending adds the message at the end of that field's list, leaves every other field's list alone, keeps the map well-formed, and adds the field at the end of the key order only when it had no list |
| ErrorTrait.AppendExtends | Embryo/Validation/Traits/ErrorTrait.php:61-64 | appending never overwrites: every field's old list is a prefix of its new list, and the old key order is a prefix of the new one |
| ErrorTrait.ExtendsTransitive | Embryo/Validation/Traits/ErrorTrait.php:61-64 | a sequence of appends only ever extends the map |
| ErrorTrait.AppendAddsOne | Embryo/Validation/Traits/ErrorTrait.php:61-64 | each append adds exactly one message to the flattened list, at its end when the field is new |
| ErrorTrait.AppendToExistingField | Embryo/Validation/Traits/ErrorTrait.php:61-64 | appending to a field that already has messages adds exactly one message to the flattened list |
| ErrorTrait.AppendNewField | Embryo/Validation/Traits/ErrorTrait.php:61-64 | appending to a new field puts its message at the end of the flattened list |
| ErrorTrait.FlattenKeysSnoc | Embryo/Validation/Validation.php:318-322 | one more outer iteration of getErrorList() adds that field's messages at the end |
| ErrorTrait.FlattenLength | Embryo/Validation/Validation.php:315-324 | the flattened list is as long as all the field lists together |
| ErrorTrait.FlattenKeysOutside | Embryo/Validation/Validation.php:315-324 | the flattened list ignores lists of fields outside the key order |
| ErrorTrait.CountKeysUpdate | Embryo/Validation/Validation.php:315-324 | replacing one listed field's messages changes the total count by the difference in length |
| ErrorTrait.EmptyIffNoMessages | Embryo/Validation/Validation.php:334-353 | the error map is empty exactly when there is no message at all |
| Validation.RequiredOnScalars | Embryo/Validation/Validation.php:100-131 | required() flags the empty string and the empty list, and no other scalar; null is not flagged |
| Validation.AbsentFilesExempt | Embryo/Validation/Validation.php:100-288 | a slot without a file, alone or as every element of a list, is flagged by required() and skipped by maxSize() and accept() |
| Validation.AcceptListArgument | Embryo/Validation/Validation.php:257-288 | a list passed to accept() as one argument is one candidate: every present file is rejected and the message shows "Array" |
| Validation.FileTypeAdmitsFileRules | Embryo/Validation/Validation.php:218-262 | a value that passed type("file") never makes maxSize() or accept() throw |
| Validation.LengthBoundsInclusive | Embryo/Validation/Validation.php:188-206 | for ASCII text, length() accepts exactly the character counts between the bounds, inclusive; otherwise the byte count can exceed the character count |
| Validation.LengthExamples | Embryo/Validation/Validation.php:188-206 | length(2, 5) accepts "ab" and rejects "a" and "abcdef" |
| Validation.LengthOnNull | Embryo/Validation/Validation.php:197-200 | on an absent value, length() fails exactly when the lower bound is not zero |
| Validation.Validation.constructor | Embryo/Validation/Validation.php:53-58 | the session starts with the request's maps and locale, no cursor, no data and no errors |
| Validation.Validation.Name | Embryo/Validation/Validation.php:66-70 | name() moves the cursor's name and changes nothing else |
| Validation.Validation.Error | Embryo/Validation/Traits/ErrorTrait.php:61-64 | error() appends one rendered message to the current field's list |
| Validation.Validation.Type | Embryo/Validation/Validation.php:80-93 | an unknown tag throws and changes nothing; otherwise the cursor takes the resolved value; slug() and datetime() on a list or a file raise a TypeError and change neither data nor errors; otherwise a type error is appended exactly when the predicate as written fails, and the data map takes the sanitized value either way |
| Validation.Validation.Required | Embryo/Validation/Validation.php:100-131 | one required error exactly when the value is the empty list, a list holding a slot without a file, a slot without a file, or the empty string |
| Validation.Validation.Pattern | Embryo/Validation/Validation.php:140-151 | the value is re-resolved; on a list or a file preg_match raises a TypeError and neither data nor errors change; otherwise one error is appended exactly when the anchored pattern does not match the value's text, and the data map takes the raw value |
| Validation.Validation.Equal | Embryo/Validation/Validation.php:159-165 | one error, quoting the expected value, exactly when the value is not loosely equal to it |
| Validation.Validation.Match | Embryo/Validation/Validation.php:173-179 | one error, listing the candidates joined by ", ", exactly when the value is loosely equal to none of them |
| Validation.Validation.Length | Embryo/Validation/Validation.php:188-206 | one error exactly when the string's byte length, or the value compared as PHP compares it, lies outside the inclusive bounds |
| Validation.Validation.MaxSize | Embryo/Validation/Validation.php:215-247 | throws unless the value is a list or a file; otherwise at most one error, exactly when some present file is larger than the bound |
| Validation.Validation.Accept | Embryo/Validation/Validation.php:257-288 | throws unless the value is a list or a file; otherwise at most one error, listing the arguments joined by ", ", exactly when some present file declares a media type loosely equal to no argument |
| Validation.Validation.GetData | Embryo/Validation/Validation.php:295-298 | the data map only holds fields the cursor was pointed at |
| Validation.Validation.GetErrors | Embryo/Validation/Validation.php:305-308 | the error map is well-formed and only holds fields the cursor was pointed at |
| Validation.Validation.IsSuccess | Embryo/Validation/Validation.php:350-353 | success exactly when the error map is empty, and exactly when there is no message at all |
| Validation.Validation.GetErrorList | Embryo/Validation/Validation.php:315-324 | every message, field by field in the order the fields first failed, each field's messages in the order they were added, and as many as all lists together |
| Validation.Validation.Result | Embryo/Validation/Validation.php:334-342 | status 200 exactly when there is no error, which is exactly when the error list is empty; the data, errors and error list are the session's |
| Validation.TypedRequired | example/index.php:46-48 | in the chain name->type->required, a TypeError from type() stops the chain with nothing recorded; otherwise the type error, if any, precedes the required error, if any, and the data map takes the sanitized value |
| Validation.RequiredAfterTypeOnEmptyString | Embryo/Validation/Validation.php:80-131 | after type() of any tag, required() on the empty string always adds a required error as the field's last message |
| Validation.RenameKeepsValue | Embryo/Validation/Validation.php:66-131 | a rule after a second name() without a type() step reads the first field's value but files its error under the second name |
| Validation.FloatZeroRejected | Embryo/Validation/Validation.php:80-93 | type("float") on "0" appends a type error, as the code is written |
| Validation.SlugOnListOrFileRaises | Embryo/Validation/Validation.php:80-93 | type("slug") on a list or a file raises preg_match's TypeError and records nothing |
| Validation.AbsentFieldChain | Embryo/Validation/Validation.php:80-131 | a field missing from both maps, typed and required, gets only a type error, exactly when the type rejects null, so always for "file" |
| Validation.EmptyFileSlotTyped | example/index.php:49 | a file slot without a file passes type("file") and accept() with no error and no exception |
| Validation.EmptyFileSlot | example/index.php:49 | the same slot, then required, gets exactly one error, the required one |

## Left out

- PSR-7 request objects: the constructor takes the parsed body and the uploaded files as maps of values.
- The PHP built-ins the validator calls (the email, URL, integer, float, boolean and string filters, `is_numeric`, DateTime's round trip, `preg_match`, loose `==`, `in_array`'s comparison, the comparison of a file object with an integer, and the size label's `log`/`pow`/`floor`/`round`) are parameters in the `Builtins` record; only how their results are used is modelled.
- Floats, booleans and objects other than uploaded files are not field values. A form-encoded body holds strings and lists, the uploaded files come from the request's file map, and integers are kept for JSON bodies and the comparisons of `length()`; a JSON body's floats and booleans are not modelled.
- Strings are sequences of characters, and `strlen` is their UTF-8 length; a body that is not valid UTF-8 is not modelled.
- The order of the data map's keys is not modelled (a Dafny map has none); the error map's key order is.
- Validation.Validation.constructor: only the locales `en` and `it` are modelled; with another locale PHP warns, finds no template, and appends an empty message for every failed rule, which is not modelled.
- Validation.Validation.GetData: returns the empty map where PHP raises a TypeError because `$data` starts null and the return type is `array`; `result()` before any `type()` or `pattern()` is affected the same way.
- Validation.Validation.Type: accepts exactly the twelve type tags; PHP's `method_exists` also accepts the class's other method names (and any letter case), calling them as predicates, which is not modelled.
- Validation.Validation.Required: requires name() to have been called; PHP would file the message under the empty key.
- Validation.Validation.Equal: requires name() to have been called, and an expected value that is not a file, since PHP cannot convert a file object to text.
- Validation.Validation.Match: requires name() to have been called, and candidates that are not files, for the same reason.
- Validation.Validation.Length: requires name() to have been called.
- Validation.Validation.MaxSize: requires name() to have been called; the size label is a parameter.
- Validation.Validation.Accept: requires name() to have been called, and arguments that are not files, since `implode` cannot convert a file object to text.
- Validation.Validation.Type and Validation.Validation.Pattern: require name() to have been called; PHP raises a TypeError there.
- The `name` and `slug` messages are in the catalog but no rule renders them, as in the code.
- Fluent chaining (`return $this`) is a sequence of method calls on one session.

## Findings

The session's `type()` runs the predicates as the code writes them (`FilterTrait.Check`). The corrected ones are collected in `FilterTrait.CheckIntended`, and `FilterTrait.CheckAsWrittenVersusIntended` states exactly where the two differ.

| source | as written | input that shows it | evidently intended | confidence | as-written member | corrected member |
|---|---|---|---|---|---|---|
| Embryo/Validation/Traits/FilterTrait.php:102-105 | float() returns the filter's result, and the float 0.0 is falsy | `type('float')` on "0" appends a type error | accept zero, as int() does with its `=== 0` test | medium, not executed | FilterTrait.FloatRejectsZero | FilterTrait.FloatAcceptsZero |
| Embryo/Validation/Traits/FilterTrait.php:124-127 | FILTER_VALIDATE_BOOLEAN without FILTER_NULL_ON_FAILURE returns false for "false" and for garbage alike | `type('boolean')` on "false" appends a type error | accept every recognised boolean, true or false | medium, not executed | FilterTrait.BooleanRejectsFalse | FilterTrait.BooleanAcceptsBoth |
| Embryo/Validation/Traits/FilterTrait.php:161-164 | the pattern ends with `$` without the D modifier, so it matches before a final newline | `type('slug')` on "a\n" passes | reject any string that is not made only of slug characters | medium, not executed | FilterTrait.SlugAcceptsTrailingNewline | FilterTrait.SlugCharacters |
