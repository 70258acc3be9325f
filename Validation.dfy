/** The validation session: a fluent, stateful validator whose cursor is the
    current field name and value, and which accumulates the sanitized data
    and the error messages of every rule that fails. */
module Validation {
  import opened Php
  import opened CollectionTrait
  import opened FilterTrait
  import opened ErrorTrait

  /** The exceptions the session throws when it is misused, and PHP's
      TypeError when a built-in refuses its argument. */
  datatype Exception =
    | InvalidFieldType(message: string)
    | InvalidField(message: string)
    | TypeError(builtin: string)

  /** The built-in that raises the TypeError of a type predicate. */
  function RaisingBuiltin(tag: TypeTag): string
  {
    if tag == Slug then "preg_match" else "DateTime::createFromFormat"
  }

  const UnknownTypeMessage: string :=
    "The field type must be text, email, file, array, datetime, number, int, float, url, boolean or any"
  const MaxSizeMisuseMessage: string := "maxSize method can be used only for file"
  const AcceptMisuseMessage: string := "Accept method can be used only for files"

  /** What result() returns. */
  datatype ValidationResult = ValidationResult(
    status: int, data: map<string, Value>, errors: ErrorMap, errorList: seq<string>)

  // ---------------------------------------------------------------------
  // What each rule checks, stated over the value it reads

  /** required() flags an empty list, a list holding a file slot submitted
      without a file, such a slot itself, and the empty string. */
  predicate IsRequiredViolation(v: Value)
  {
    || v == Arr([])
    || (v.Arr? && exists i :: 0 <= i < |v.elems| && IsAbsentFile(v.elems[i]))
    || IsAbsentFile(v)
    || v == Str("")
  }

  /** maxSize() and accept() apply only to a list or a file. */
  predicate IsFileRuleTarget(v: Value)
  {
    v.Arr? || v.File?
  }

  /** An uploaded file whose slot did receive a file. */
  predicate IsPresentFile(v: Value)
  {
    v.File? && v.file.errorCode != NoFile
  }

  predicate ExceedsSize(v: Value, size: int)
  {
    IsPresentFile(v) && v.file.size > size
  }

  /** maxSize() fails when some present file, alone or in the list, is
      larger than the bound; absent files and non-file elements are skipped. */
  predicate IsMaxSizeViolation(v: Value, size: int)
  {
    || ExceedsSize(v, size)
    || (v.Arr? && exists i :: 0 <= i < |v.elems| && ExceedsSize(v.elems[i], size))
  }

  /** in_array($needle, $haystack), comparing loosely. */
  predicate InArray(php: Builtins, needle: Value, haystack: seq<Value>)
  {
    exists i :: 0 <= i < |haystack| && php.looseEquals(needle, haystack[i])
  }

  /** A present file whose declared media type is none of the accepted
      values. */
  predicate HasRejectedType(php: Builtins, v: Value, accepted: seq<Value>)
  {
    IsPresentFile(v) && !InArray(php, Str(v.file.mediaType), accepted)
  }

  /** accept() fails when some present file, alone or in the list, has a
      declared media type outside the accepted ones. */
  predicate IsAcceptViolation(php: Builtins, v: Value, accepted: seq<Value>)
  {
    || HasRejectedType(php, v, accepted)
    || (v.Arr? && exists i :: 0 <= i < |v.elems| && HasRejectedType(php, v.elems[i], accepted))
  }

  /** PHP's $v <=> $k for a value that is not a string: null compares as
      false against the integer's truthiness, and a list is always greater. */
  function CompareToInt(php: Builtins, v: Value, k: int): int
    requires !v.Str?
  {
    match v
    case Null => if k != 0 then -1 else 0
    case Num(n) => if n < k then -1 else if n == k then 0 else 1
    case Arr(_) => 1
    case File(f) => php.compareFileToInt(f, k)
  }

  /** length($min, $max) fails when a string's byte length, or any other
      value compared numerically, lies outside the inclusive bounds. */
  predicate IsLengthViolation(php: Builtins, v: Value, min: int, max: int)
  {
    if v.Str? then Utf8Length(v.s) < min || Utf8Length(v.s) > max
    else CompareToInt(php, v, min) < 0 || CompareToInt(php, v, max) > 0
  }

  /** The string implode() and vsprintf() make of each value. */
  function StringifyAll(vs: seq<Value>): (r: seq<string>)
    requires forall i :: 0 <= i < |vs| ==> !vs[i].File?
    ensures |r| == |vs| && forall i :: 0 <= i < |vs| ==> r[i] == Stringify(vs[i])
  {
    if vs == [] then [] else [Stringify(vs[0])] + StringifyAll(vs[1..])
  }

  /** The regular expression pattern() hands to preg_match. */
  function AnchoredPattern(regex: string): string
  {
    "/^(" + regex + ")$/u"
  }

  /** required() flags the empty string and the empty list, and no other
      scalar; in particular an absent (null) field is not flagged. */
  lemma RequiredOnScalars(s: string, n: int)
    ensures IsRequiredViolation(Str(s)) <==> s == ""
    ensures IsRequiredViolation(Arr([]))
    ensures !IsRequiredViolation(Null) && !IsRequiredViolation(Num(n))
  {
  }

  /** A file slot submitted without a file is flagged by required() and
      exempt from maxSize() and accept(); so is a list of such slots. */
  lemma AbsentFilesExempt(php: Builtins, v: Value, size: int, accepted: seq<Value>)
    requires IsAbsentFile(v) || (v.Arr? && |v.elems| > 0 && forall i :: 0 <= i < |v.elems| ==> IsAbsentFile(v.elems[i]))
    ensures IsRequiredViolation(v)
    ensures IsFileRuleTarget(v)
    ensures !IsMaxSizeViolation(v, size) && !IsAcceptViolation(php, v, accepted)
  {
    if v.Arr? {
      assert IsAbsentFile(v.elems[0]);
    }
  }

  /** accept() takes each argument as one candidate, so a list passed as
      a single argument is compared whole with a file's media type; as a
      string never loosely equals a list, every present file is rejected,
      and the message shows the list as "Array". */
  lemma AcceptListArgument(php: Builtins, v: Value, list: seq<Value>)
    requires IsPresentFile(v) && !php.looseEquals(Str(v.file.mediaType), Arr(list))
    ensures IsAcceptViolation(php, v, [Arr(list)])
    ensures Implode(", ", StringifyAll([Arr(list)])) == "Array"
  {
  }

  /** A value that passed type("file") can be given to maxSize() and
      accept() without their throwing. */
  lemma FileTypeAdmitsFileRules(v: Value)
    requires IsFile(v)
    ensures IsFileRuleTarget(v)
  {
  }

  /** For ASCII text the bounds of length() are inclusive character counts;
      beyond ASCII, strlen counts bytes, so a string whose characters fit
      the bounds can still be too long. */
  lemma LengthBoundsInclusive(php: Builtins, s: string, min: int, max: int)
    ensures (forall i :: 0 <= i < |s| ==> s[i] as int < 0x80) ==>
      (!IsLengthViolation(php, Str(s), min, max) <==> min <= |s| <= max)
    ensures !IsLengthViolation(php, Str(s), min, max) ==> |s| <= max && min <= 4 * |s|
  {
    Utf8LengthBounds(s);
  }

  /** length(2, 5) admits "ab" and rejects "a" and "abcdef". */
  lemma LengthExamples(php: Builtins)
    ensures !IsLengthViolation(php, Str("ab"), 2, 5)
    ensures IsLengthViolation(php, Str("a"), 2, 5) && IsLengthViolation(php, Str("abcdef"), 2, 5)
  {
  }

  /** length() on an absent field: null compares as false, so it fails
      exactly when the lower bound is not zero. */
  lemma LengthOnNull(php: Builtins, min: int, max: int)
    ensures IsLengthViolation(php, Null, min, max) <==> min != 0
  {
  }

  // ---------------------------------------------------------------------
  // The session

  class Validation {
    const body: map<string, Value>
    const files: map<string, Value>
    const lang: Lang
    const php: Builtins

    /** The cursor: the field named last, and the value the rules read. */
    var name: Option<string>
    var value: Value
    /** The sanitized data, and the error messages, per field. */
    var data: map<string, Value>
    var errors: ErrorMap
    /** Every field name the session has been pointed at. */
    ghost var named: set<string>

    ghost predicate Valid()
      reads this
    {
      && WellFormed(errors)
      && data.Keys <= named
      && errors.lists.Keys <= named
      && (name.Some? ==> name.value in named)
    }

    constructor (body: map<string, Value>, files: map<string, Value>, lang: Lang, php: Builtins)
      ensures Valid()
      ensures this.body == body && this.files == files && this.lang == lang && this.php == php
      ensures name == None && value == Null && data == map[] && errors == Empty() && named == {}
    {
      this.body := body;
      this.files := files;
      this.lang := lang;
      this.php := php;
      name := None;
      value := Null;
      data := map[];
      errors := Empty();
      named := {};
    }

    /** name($n): points the cursor at a field, and nothing more. */
    method Name(n: string)
      requires Valid()
      modifies this`name, this`named
      ensures Valid()
      ensures name == Some(n) && named == old(named) + {n}
    {
      name := Some(n);
      named := named + {n};
    }

    /** error($kind, $args): appends one rendered message to the current
      field's list. */
    method Error(kind: MessageKind, args: seq<string>)
      requires Valid() && name.Some? && |args| == Arity(kind)
      modifies this`errors
      ensures Valid() && Extends(old(errors), errors)
      ensures errors == Append(old(errors), name.value, Render(lang, kind, args))
    {
      AppendExtends(errors, name.value, Render(lang, kind, args));
      errors := Append(errors, name.value, Render(lang, kind, args));
    }

    /** type($tag): an unknown tag throws and changes nothing; otherwise the
      cursor takes the field's resolved value, and then either the predicate
      raises a TypeError, leaving data and errors alone, or one type error
      is appended when the predicate fails and the data map takes the
      sanitized value whether or not it failed. */
    method Type(tag: string) returns (thrown: Option<Exception>)
      requires Valid() && name.Some?
      modifies this`value, this`data, this`errors
      ensures Valid() && Extends(old(errors), errors)
      ensures ParseTag(tag).None? ==>
        thrown == Some(InvalidFieldType(UnknownTypeMessage)) &&
        value == old(value) && data == old(data) && errors == old(errors)
      ensures ParseTag(tag).Some? ==>
        var t, n := ParseTag(tag).value, name.value;
        var v := Get(body, files, n);
        && value == v
        && (RaisesTypeError(t, v) ==>
              thrown == Some(TypeError(RaisingBuiltin(t))) && data == old(data) && errors == old(errors))
        && (!RaisesTypeError(t, v) ==>
              && thrown == None
              && data == old(data)[n := Sanitize(php, t, v)]
              && errors == if Check(php, t, v) then old(errors) else Append(old(errors), n, Render(lang, TypeMsg, [n, tag])))
    {
      var t := ParseTag(tag);
      if t.None? {
        return Some(InvalidFieldType(UnknownTypeMessage));
      }
      value := Get(body, files, name.value);
      if RaisesTypeError(t.value, value) {
        return Some(TypeError(RaisingBuiltin(t.value)));
      }
      if !Check(php, t.value, value) {
        Error(TypeMsg, [name.value, tag]);
      }
      data := data[name.value := Sanitize(php, t.value, value)];
      thrown := None;
    }

    /** required(): appends one required error exactly when the value is an
      empty list, the empty string, a file slot without a file, or a list
      holding one; null is not flagged. */
    method Required()
      requires Valid() && name.Some?
      modifies this`errors
      ensures Valid() && Extends(old(errors), errors)
      ensures errors == if IsRequiredViolation(value)
        then Append(old(errors), name.value, Render(lang, RequiredMsg, [name.value]))
        else old(errors)
    {
      var required := false;
      if value.Arr? && value.elems == [] {
        required := true;
      }
      if value.Arr? {
        var elems := value.elems;
        var i := 0;
        while i < |elems|
          invariant 0 <= i <= |elems|
          invariant required <==> elems == [] || exists j :: 0 <= j < i && IsAbsentFile(elems[j])
        {
          if elems[i].File? && elems[i].file.errorCode == NoFile {
            required := true;
          }
          i := i + 1;
        }
      }
      if value.File? && value.file.errorCode == NoFile {
        required := true;
      }
      if value == Str("") {
        required := true;
      }
      if required {
        Error(RequiredMsg, [name.value]);
      }
    }

    /** pattern($regex): re-resolves the raw value; preg_match raises a
      TypeError on a list or a file; otherwise the value's text is matched
      against the anchored expression, and the raw value is stored in the
      data map, over whatever type() sanitized there. */
    method Pattern(regex: string) returns (thrown: Option<Exception>)
      requires Valid() && name.Some?
      modifies this`value, this`data, this`errors
      ensures Valid() && Extends(old(errors), errors)
      ensures value == Get(body, files, name.value)
      ensures SubjectText(value).None? ==>
        thrown == Some(TypeError("preg_match")) && data == old(data) && errors == old(errors)
      ensures SubjectText(value).Some? ==>
        && thrown == None
        && data == old(data)[name.value := value]
        && errors == if php.pregMatch(AnchoredPattern(regex), SubjectText(value).value) then old(errors)
          else Append(old(errors), name.value, Render(lang, PatternMsg, [name.value, regex]))
    {
      var v := Get(body, files, name.value);
      value := v;
      var subject := SubjectText(v);
      if subject.None? {
        return Some(TypeError("preg_match"));
      }
      data := data[name.value := v];
      if !php.pregMatch(AnchoredPattern(regex), subject.value) {
        Error(PatternMsg, [name.value, regex]);
      }
      thrown := None;
    }

    /** equal($expected): one error unless the value loosely equals it. */
    method Equal(expected: Value)
      requires Valid() && name.Some? && !expected.File?
      modifies this`errors
      ensures Valid() && Extends(old(errors), errors)
      ensures errors == if php.looseEquals(value, expected) then old(errors)
        else Append(old(errors), name.value, Render(lang, EqualMsg, [name.value, Stringify(expected)]))
    {
      if !php.looseEquals(value, expected) {
        Error(EqualMsg, [name.value, Stringify(expected)]);
      }
    }

    /** match(...$candidates): one error, listing every candidate in order,
      unless the value loosely equals one of them. */
    method Match(candidates: seq<Value>)
      requires Valid() && name.Some?
      requires forall i :: 0 <= i < |candidates| ==> !candidates[i].File?
      modifies this`errors
      ensures Valid() && Extends(old(errors), errors)
      ensures errors == if InArray(php, value, candidates) then old(errors)
        else Append(old(errors), name.value,
                    Render(lang, MatchMsg, [name.value, Implode(", ", StringifyAll(candidates))]))
    {
      if !InArray(php, value, candidates) {
        Error(MatchMsg, [name.value, Implode(", ", StringifyAll(candidates))]);
      }
    }

    /** length($min, $max): one error when the value lies outside the
      inclusive bounds. */
    method Length(min: int, max: int)
      requires Valid() && name.Some?
      modifies this`errors
      ensures Valid() && Extends(old(errors), errors)
      ensures errors == if IsLengthViolation(php, value, min, max)
        then Append(old(errors), name.value,
                    Render(lang, LengthMsg, [name.value, DecimalString(min), DecimalString(max)]))
        else old(errors)
    {
      var length := false;
      if value.Str? {
        var bytes := Utf8Length(value.s);
        if bytes < min || bytes > max {
          length := true;
        }
      } else {
        if CompareToInt(php, value, min) < 0 || CompareToInt(php, value, max) > 0 {
          length := true;
        }
      }
      if length {
        Error(LengthMsg, [name.value, DecimalString(min), DecimalString(max)]);
      }
    }

    /** maxSize($size): throws unless the value is a list or a file;
      otherwise appends at most one error, however many files are too big. */
    method MaxSize(size: int) returns (thrown: Option<Exception>)
      requires Valid() && name.Some?
      modifies this`errors
      ensures Valid() && Extends(old(errors), errors)
      ensures !IsFileRuleTarget(value) ==>
        thrown == Some(InvalidField(MaxSizeMisuseMessage)) && errors == old(errors)
      ensures IsFileRuleTarget(value) ==>
        && thrown == None
        && errors == if IsMaxSizeViolation(value, size)
          then Append(old(errors), name.value, Render(lang, MaxSizeMsg, [name.value, php.sizeLabel(size)]))
          else old(errors)
    {
      var maxSize := false;
      if !value.Arr? && !value.File? {
        return Some(InvalidField(MaxSizeMisuseMessage));
      }
      if value.Arr? {
        var elems := value.elems;
        var i := 0;
        while i < |elems|
          invariant 0 <= i <= |elems|
          invariant maxSize <==> exists j :: 0 <= j < i && ExceedsSize(elems[j], size)
        {
          if elems[i].File? && elems[i].file.errorCode != NoFile {
            if elems[i].file.size > size {
              maxSize := true;
            }
          }
          i := i + 1;
        }
      }
      if value.File? && value.file.errorCode != NoFile && value.file.size > size {
        maxSize := true;
      }
      if maxSize {
        Error(MaxSizeMsg, [name.value, php.sizeLabel(size)]);
      }
      thrown := None;
    }

    /** accept(...$ext): throws unless the value is a list or a file;
      otherwise appends at most one error, listing the accepted values, when
      some present file declares a media type loosely equal to none of them.
      Each argument is a value of its own, so a list passed as one argument
      is one candidate. */
    method Accept(ext: seq<Value>) returns (thrown: Option<Exception>)
      requires Valid() && name.Some?
      requires forall i :: 0 <= i < |ext| ==> !ext[i].File?
      modifies this`errors
      ensures Valid() && Extends(old(errors), errors)
      ensures !IsFileRuleTarget(value) ==>
        thrown == Some(InvalidField(AcceptMisuseMessage)) && errors == old(errors)
      ensures IsFileRuleTarget(value) ==>
        && thrown == None
        && errors == if IsAcceptViolation(php, value, ext)
          then Append(old(errors), name.value, Render(lang, AcceptMsg, [name.value, Implode(", ", StringifyAll(ext))]))
          else old(errors)
    {
      var accept := false;
      if !value.Arr? && !value.File? {
        return Some(InvalidField(AcceptMisuseMessage));
      }
      if value.Arr? {
        var elems := value.elems;
        var i := 0;
        while i < |elems|
          invariant 0 <= i <= |elems|
          invariant accept <==> exists j :: 0 <= j < i && HasRejectedType(php, elems[j], ext)
        {
          if elems[i].File? && elems[i].file.errorCode != NoFile {
            if !InArray(php, Str(elems[i].file.mediaType), ext) {
              accept := true;
            }
          }
          i := i + 1;
        }
      }
      if value.File? && value.file.errorCode != NoFile && !InArray(php, Str(value.file.mediaType), ext) {
        accept := true;
      }
      if accept {
        Error(AcceptMsg, [name.value, Implode(", ", StringifyAll(ext))]);
      }
      thrown := None;
    }

    /** getData(): only fields the session was pointed at have data. */
    function GetData(): (r: map<string, Value>)
      requires Valid()
      reads this
      ensures r.Keys <= named
    {
      data
    }

    /** getErrors(): only fields the session was pointed at have errors, and
      every listed field has at least one message. */
    function GetErrors(): (r: ErrorMap)
      requires Valid()
      reads this
      ensures WellFormed(r) && r.lists.Keys <= named
    {
      errors
    }

    /** isSuccess(): no field has an error, which is the same as there being
      no message at all. */
    function IsSuccess(): (r: bool)
      requires Valid()
      reads this
      ensures r <==> errors.lists == map[]
      ensures r <==> Flatten(errors) == []
    {
      EmptyIffNoMessages(errors);
      errors.fields == []
    }

    /** getErrorList(): every message, field by field in the order the fields
      first failed, each field's messages in the order they were added. */
    method GetErrorList() returns (list: seq<string>)
      requires Valid()
      ensures list == Flatten(errors)
      ensures |list| == CountKeys(errors.fields, errors.lists)
    {
      list := [];
      var keys := errors.fields;
      var i := 0;
      while i < |keys|
        invariant 0 <= i <= |keys|
        invariant list == FlattenKeys(keys[..i], errors.lists)
      {
        var messages := errors.lists[keys[i]];
        var j := 0;
        while j < |messages|
          invariant 0 <= j <= |messages|
          invariant list == FlattenKeys(keys[..i], errors.lists) + messages[..j]
        {
          list := list + [messages[j]];
          j := j + 1;
        }
        assert keys[..i + 1] == keys[..i] + [keys[i]];
        FlattenKeysSnoc(keys[..i], keys[i], errors.lists);
        i := i + 1;
      }
      assert keys[..i] == keys;
      FlattenLength(keys, errors.lists);
    }

    /** result(): status 200 exactly when there is no error, with the data,
      the errors and the flat error list. */
    method Result() returns (r: ValidationResult)
      requires Valid()
      ensures r.status == (if IsSuccess() then 200 else 400)
      ensures r.status == 200 <==> r.errorList == []
      ensures r.data == data && r.errors == errors && r.errorList == Flatten(errors)
    {
      var list := GetErrorList();
      r := ValidationResult(if errors.fields == [] then 200 else 400, data, errors, list);
    }
  }

  // ---------------------------------------------------------------------
  // Chains as a caller writes them

  /** The chain name(field)->type(tag)->required(): the type error, if
      any, comes before the required error, if any, and the data map takes
      the sanitized value. */
  method TypedRequired(v: Validation, field: string, tag: string) returns (thrown: Option<Exception>)
    requires v.Valid() && ParseTag(tag).Some?
    modifies v
    ensures v.Valid() && Extends(old(v.errors), v.errors)
    ensures v.name == Some(field) && v.value == Get(v.body, v.files, field)
    ensures var t, val := ParseTag(tag).value, Get(v.body, v.files, field);
      RaisesTypeError(t, val) ==>
        thrown == Some(TypeError(RaisingBuiltin(t))) && v.data == old(v.data) && v.errors == old(v.errors)
    ensures var t, val := ParseTag(tag).value, Get(v.body, v.files, field);
      var typed := if Check(v.php, t, val) then old(v.errors)
        else Append(old(v.errors), field, Render(v.lang, TypeMsg, [field, tag]));
      !RaisesTypeError(t, val) ==>
        && thrown == None
        && v.data == old(v.data)[field := Sanitize(v.php, t, val)]
        && v.errors == if IsRequiredViolation(val) then Append(typed, field, Render(v.lang, RequiredMsg, [field])) else typed
  {
    v.Name(field);
    thrown := v.Type(tag);
    if thrown.Some? {
      return;
    }
    ghost var typed := v.errors;
    v.Required();
    ExtendsTransitive(old(v.errors), typed, v.errors);
  }

  /** required() after type() on a field whose value is the empty string
      always adds a required error, whatever the declared type. */
  method RequiredAfterTypeOnEmptyString(v: Validation, field: string, tag: string)
    requires v.Valid() && Get(v.body, v.files, field) == Str("") && ParseTag(tag).Some?
    modifies v
    ensures v.Valid()
    ensures var m := Messages(v.errors, field);
      |m| >= 1 && m[|m| - 1] == Render(v.lang, RequiredMsg, [field])
  {
    assert SubjectText(Str("")).Some?;
    var thrown := TypedRequired(v, field, tag);
  }

  /** name() moves only the cursor name: a rule applied after it, without a
      type() step, still reads the previous field's value but files its
      error under the new name. */
  method RenameKeepsValue(v: Validation, first: string, second: string)
    requires v.Valid() && Get(v.body, v.files, first) == Str("") && first != second
    modifies v
    ensures v.Valid()
    ensures v.value == Str("")
    ensures Messages(v.errors, second) == Messages(old(v.errors), second) + [Render(v.lang, RequiredMsg, [second])]
    ensures second !in v.data.Keys - old(v.data.Keys)
  {
    v.Name(first);
    assert ParseTag("any") == Some(Any) && Check(v.php, Any, Str(""));
    var thrown := v.Type("any");
    assert v.value == Str("") && v.errors == old(v.errors);
    assert v.data.Keys == old(v.data.Keys) + {first};
    v.Name(second);
    assert IsRequiredViolation(v.value);
    v.Required();
  }

  /** type("float") on "0" appends a type error, as the code is written:
      the float filter's 0.0 is falsy. */
  method FloatZeroRejected(v: Validation, field: string) returns (thrown: Option<Exception>)
    requires v.Valid() && Get(v.body, v.files, field) == Str("0")
    requires v.php.validateFloat(Str("0")) == Some(0.0)
    modifies v
    ensures v.Valid() && thrown == None
    ensures Messages(v.errors, field) == Messages(old(v.errors), field) + [Render(v.lang, TypeMsg, [field, "float"])]
  {
    v.Name(field);
    assert ParseTag("float") == Some(Float);
    assert !Check(v.php, Float, Str("0")) && !RaisesTypeError(Float, Str("0"));
    thrown := v.Type("float");
  }

  /** type("slug") on a list or an uploaded file raises preg_match's
      TypeError, and neither the data nor the errors change. */
  method SlugOnListOrFileRaises(v: Validation, field: string) returns (thrown: Option<Exception>)
    requires v.Valid()
    requires Get(v.body, v.files, field).Arr? || Get(v.body, v.files, field).File?
    modifies v
    ensures v.Valid()
    ensures thrown == Some(TypeError("preg_match"))
    ensures v.data == old(v.data) && v.errors == old(v.errors)
  {
    v.Name(field);
    assert ParseTag("slug") == Some(Slug) && RaisesTypeError(Slug, Get(v.body, v.files, field));
    thrown := v.Type("slug");
  }

  /** A field missing from both maps, declared with any type and then
      required: the only error it can get is the type error, and it gets
      one exactly when the type's predicate rejects null (so always for
      "file"); required() adds nothing. */
  method AbsentFieldChain(v: Validation, field: string, tag: string)
    requires v.Valid() && Get(v.body, v.files, field) == Null && ParseTag(tag).Some?
    modifies v
    ensures v.Valid() && v.value == Null
    ensures Messages(v.errors, field) == Messages(old(v.errors), field) +
      (if Check(v.php, ParseTag(tag).value, Null) then [] else [Render(v.lang, TypeMsg, [field, tag])])
    ensures ParseTag(tag) == Some(FileType) ==>
      Messages(v.errors, field) == Messages(old(v.errors), field) + [Render(v.lang, TypeMsg, [field, tag])]
    ensures forall g :: g != field ==> Messages(v.errors, g) == Messages(old(v.errors), g)
  {
    assert !IsRequiredViolation(Null) && !IsFile(Null) && SubjectText(Null).Some?;
    var thrown := TypedRequired(v, field, tag);
  }

  /** A file input submitted without a file passes type("file") and
      accept(), whatever the accepted values: neither throws, and
      neither adds an error. */
  method EmptyFileSlotTyped(v: Validation, field: string, accepted: seq<Value>) returns (thrown: Option<Exception>)
    requires v.Valid() && IsAbsentFile(Get(v.body, v.files, field))
    requires forall i :: 0 <= i < |accepted| ==> !accepted[i].File?
    modifies v
    ensures v.Valid() && thrown == None
    ensures v.name == Some(field) && v.value == Get(v.body, v.files, field) && v.errors == old(v.errors)
  {
    ghost var slot := Get(v.body, v.files, field);
    AbsentFilesExempt(v.php, slot, 0, accepted);
    v.Name(field);
    assert ParseTag("file") == Some(FileType) && IsFile(slot);
    thrown := v.Type("file");
    assert v.errors == old(v.errors) && v.value == slot;
    thrown := v.Accept(accepted);
  }

  /** The same slot, then required: it gets exactly one error, the required
      one. */
  method EmptyFileSlot(v: Validation, field: string, accepted: seq<Value>) returns (thrown: Option<Exception>)
    requires v.Valid() && IsAbsentFile(Get(v.body, v.files, field))
    requires forall i :: 0 <= i < |accepted| ==> !accepted[i].File?
    modifies v
    ensures v.Valid() && thrown == None
    ensures Messages(v.errors, field) == Messages(old(v.errors), field) + [Render(v.lang, RequiredMsg, [field])]
    ensures forall g :: g != field ==> Messages(v.errors, g) == Messages(old(v.errors), g)
  {
    thrown := EmptyFileSlotTyped(v, field, accepted);
    assert IsRequiredViolation(v.value);
    v.Required();
  }
}
