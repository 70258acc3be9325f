/** The type predicates that `type($tag)` dispatches to, and the sanitizer
    that fills the data map. */
module FilterTrait {
  import opened Php

  /** The type tags the validator knows. */
  datatype TypeTag =
    | Text | Email | FileType | ArrayType | Datetime | Number
    | Int | Float | Url | Boolean | Any | Slug

  /** The name a caller passes to type() for each tag. */
  function TagName(t: TypeTag): string
  {
    match t
    case Text => "text"
    case Email => "email"
    case FileType => "file"
    case ArrayType => "array"
    case Datetime => "datetime"
    case Number => "number"
    case Int => "int"
    case Float => "float"
    case Url => "url"
    case Boolean => "boolean"
    case Any => "any"
    case Slug => "slug"
  }

  /** The tag a type name denotes, or None for a name that is not a tag. */
  function ParseTag(s: string): (r: Option<TypeTag>)
    ensures r.Some? ==> TagName(r.value) == s
  {
    if s == "text" then Some(Text)
    else if s == "email" then Some(Email)
    else if s == "file" then Some(FileType)
    else if s == "array" then Some(ArrayType)
    else if s == "datetime" then Some(Datetime)
    else if s == "number" then Some(Number)
    else if s == "int" then Some(Int)
    else if s == "float" then Some(Float)
    else if s == "url" then Some(Url)
    else if s == "boolean" then Some(Boolean)
    else if s == "any" then Some(Any)
    else if s == "slug" then Some(Slug)
    else None
  }

  /** file($files): a single uploaded file, or a list whose every element is
      one (so the empty list passes). Anything else fails. */
  predicate IsFile(v: Value)
  {
    match v
    case File(_) => true
    case Arr(es) => forall i :: 0 <= i < |es| ==> es[i].File?
    case _ => false
  }

  /** array($v): is_array. */
  predicate IsArray(v: Value)
  {
    v.Arr?
  }

  /** datetime($date): the string parses as Y-m-d and formats back to
      itself. The comparison is strict (===), so only a string can pass. */
  predicate IsDatetime(php: Builtins, v: Value)
  {
    v.Str? && php.reformatYmd(v.s) == Some(v.s)
  }

  /** int($v): the filter's result is identical to 0, or is truthy. */
  predicate IsInt(php: Builtins, v: Value)
  {
    php.validateInt(v) == Some(0) || (php.validateInt(v).Some? && php.validateInt(v).value != 0)
  }

  /** float($v) as written: the filter's result is used as a boolean, and
      the float 0.0 is falsy. */
  predicate IsFloatAsWritten(php: Builtins, v: Value)
  {
    php.validateFloat(v).Some? && php.validateFloat(v).value != 0.0
  }

  /** float($v) corrected: the filter accepts the value, zero included. */
  predicate IsFloat(php: Builtins, v: Value)
  {
    php.validateFloat(v).Some?
  }

  /** boolean($v) as written: FILTER_VALIDATE_BOOLEAN without
      FILTER_NULL_ON_FAILURE returns false both for "false" and for garbage. */
  predicate IsBooleanAsWritten(php: Builtins, v: Value)
  {
    php.validateBool(v) == Some(true)
  }

  /** boolean($v) corrected: the value is a recognised boolean. */
  predicate IsBoolean(php: Builtins, v: Value)
  {
    php.validateBool(v).Some?
  }

  /** The character class [\/\w\-] in UTF mode. */
  predicate IsSlugChar(php: Builtins, c: char)
  {
    || ('a' <= c <= 'z') || ('A' <= c <= 'Z') || ('0' <= c <= '9')
    || c == '_' || c == '/' || c == '-'
    || (c as int >= 0x80 && php.isUnicodeWordChar(c))
  }

  /** One or more slug characters and nothing else. */
  predicate IsSlugText(php: Builtins, s: string)
  {
    |s| > 0 && forall i :: 0 <= i < |s| ==> IsSlugChar(php, s[i])
  }

  /** The string preg_match sees: PHP converts null and integers. */
  function SubjectText(v: Value): Option<string>
  {
    match v
    case Null => Some("")
    case Str(s) => Some(s)
    case Num(n) => Some(DecimalString(n))
    case _ => None
  }

  /** slug($v) as written: /^([\/\w\-]+)$/u, where PCRE's $ also matches
      just before a final newline. */
  predicate IsSlugAsWritten(php: Builtins, v: Value)
  {
    var t := SubjectText(v);
    t.Some? &&
    (IsSlugText(php, t.value) ||
     (|t.value| >= 2 && t.value[|t.value| - 1] == '\n' && IsSlugText(php, t.value[..|t.value| - 1])))
  }

  /** slug($v) corrected: the whole subject is slug characters. */
  predicate IsSlug(php: Builtins, v: Value)
  {
    var t := SubjectText(v);
    t.Some? && IsSlugText(php, t.value)
  }

  /** The predicate type($tag) calls, as written. */
  predicate Check(php: Builtins, tag: TypeTag, v: Value)
  {
    match tag
    case Text => true
    case Any => true
    case Email => php.validateEmail(v)
    case Url => php.validateUrl(v)
    case Number => php.isNumeric(v)
    case FileType => IsFile(v)
    case ArrayType => IsArray(v)
    case Datetime => IsDatetime(php, v)
    case Int => IsInt(php, v)
    case Float => IsFloatAsWritten(php, v)
    case Boolean => IsBooleanAsWritten(php, v)
    case Slug => IsSlugAsWritten(php, v)
  }

  /** The predicate type($tag) evidently means to call: float(), boolean()
      and slug() corrected. */
  predicate CheckIntended(php: Builtins, tag: TypeTag, v: Value)
  {
    match tag
    case Float => IsFloat(php, v)
    case Boolean => IsBoolean(php, v)
    case Slug => IsSlug(php, v)
    case _ => Check(php, tag, v)
  }

  /** slug() and datetime() hand the value to preg_match and to
      DateTime::createFromFormat, which take a string: null and integers
      are converted, but a list or an uploaded file raises a TypeError. */
  predicate RaisesTypeError(tag: TypeTag, v: Value)
  {
    (tag == Slug || tag == Datetime) && SubjectText(v).None?
  }

  /** sanitize($type, $v): the string filter for "text", the identity otherwise. */
  function Sanitize(php: Builtins, tag: TypeTag, v: Value): (r: Value)
    ensures tag != Text ==> r == v
    ensures tag == Text ==> r == php.sanitizeString(v)
  {
    if tag == Text then php.sanitizeString(v) else v
  }

  /** Type names and tags are in one-to-one correspondence: every tag's
      name parses back to it, and a name that parses to nothing is the name
      of no tag. */
  lemma TagNameRoundTrip(t: TypeTag, s: string)
    ensures ParseTag(TagName(t)) == Some(t)
    ensures ParseTag(s) == None ==> TagName(t) != s
  {
  }

  /** "any" and "text" accept every value. */
  lemma AnyAndTextAcceptAll(php: Builtins, v: Value)
    ensures Check(php, Any, v) && Check(php, Text, v)
  {
  }

  /** file() fails on anything that is neither a file nor a list, passes the
      empty list, and passes a list exactly when every element is a file. */
  lemma FileCheckShape(v: Value)
    ensures !v.Arr? && !v.File? ==> !IsFile(v)
    ensures IsFile(Arr([]))
    ensures v.Arr? ==> (IsFile(v) <==> forall e :: e in v.elems ==> e.File?)
  {
    if v.Arr? {
      assert (forall e :: e in v.elems ==> e.File?) <==> (forall i :: 0 <= i < |v.elems| ==> v.elems[i].File?) by {
        forall e | e in v.elems ensures exists i :: 0 <= i < |v.elems| && v.elems[i] == e {
        }
      }
    }
  }

  /** int() accepts exactly what FILTER_VALIDATE_INT accepts, zero included,
      although the filter returns the falsy 0 for it. */
  lemma IntAcceptsZero(php: Builtins, v: Value)
    ensures IsInt(php, v) <==> php.validateInt(v).Some?
    ensures php.validateInt(v) == Some(0) ==> IsInt(php, v)
  {
  }

  /** As written, float() rejects "0", which the float filter accepts as 0.0;
      the corrected predicate accepts it. */
  lemma FloatRejectsZero(php: Builtins)
    requires php.validateFloat(Str("0")) == Some(0.0)
    ensures !IsFloatAsWritten(php, Str("0"))
    ensures IsFloat(php, Str("0"))
  {
  }

  /** The corrected float() accepts what the float filter accepts, as int()
      does for the integer filter, and only differs from the predicate as
      written on the value zero. */
  lemma FloatAcceptsZero(php: Builtins, v: Value)
    ensures IsFloat(php, v) <==> php.validateFloat(v).Some?
    ensures IsFloat(php, v) && !IsFloatAsWritten(php, v) <==> php.validateFloat(v) == Some(0.0)
    ensures IsFloatAsWritten(php, v) ==> IsFloat(php, v)
  {
  }

  /** As written, boolean() rejects "false", which the boolean filter
      recognises; the corrected predicate accepts it. */
  lemma BooleanRejectsFalse(php: Builtins)
    requires php.validateBool(Str("false")) == Some(false)
    ensures !IsBooleanAsWritten(php, Str("false"))
    ensures IsBoolean(php, Str("false"))
  {
  }

  /** The corrected boolean() accepts both recognised booleans; the predicate
      as written only differs from it on recognised false values. */
  lemma BooleanAcceptsBoth(php: Builtins, v: Value)
    ensures IsBoolean(php, v) <==> php.validateBool(v) == Some(true) || php.validateBool(v) == Some(false)
    ensures IsBoolean(php, v) && !IsBooleanAsWritten(php, v) <==> php.validateBool(v) == Some(false)
  {
    match php.validateBool(v)
    case Some(b) =>
    case None =>
  }

  /** As written, slug() accepts "a" followed by a newline; the corrected
      predicate does not. */
  lemma SlugAcceptsTrailingNewline(php: Builtins)
    ensures IsSlugAsWritten(php, Str("a\n"))
    ensures !IsSlug(php, Str("a\n"))
  {
    assert "a\n"[..1] == "a";
    assert !IsSlugChar(php, "a\n"[1]);
  }

  /** The corrected slug() accepts a string exactly when it is non-empty and
      made only of word characters, '/' and '-'; in particular it rejects
      every string holding a newline, and the empty string. */
  lemma {:induction false} SlugCharacters(php: Builtins, s: string)
    ensures IsSlug(php, Str(s)) <==> |s| > 0 && forall i :: 0 <= i < |s| ==> IsSlugChar(php, s[i])
    ensures (exists i :: 0 <= i < |s| && s[i] == '\n') ==> !IsSlug(php, Str(s))
    ensures !IsSlug(php, Str(""))
  {
    if i :| 0 <= i < |s| && s[i] == '\n' {
      assert !IsSlugChar(php, s[i]);
    }
  }

  /** An integer is always a slug: its decimal form is digits and '-'. */
  lemma IntegerIsSlug(php: Builtins, n: int)
    ensures IsSlug(php, Num(n))
  {
    var t := DecimalString(n);
    var d := Digits(if n < 0 then -n else n);
    assert forall i :: 0 <= i < |d| ==> IsSlugChar(php, d[i]);
    if n < 0 {
      assert t == "-" + d;
      assert forall i :: 1 <= i < |t| ==> t[i] == d[i - 1];
    }
  }

  /** The code as written and the intended predicates differ exactly on a
      float filtered to zero and a recognised false, which only the intended
      ones accept, and on a slug followed by a final newline, which only the
      code as written accepts. */
  lemma CheckAsWrittenVersusIntended(php: Builtins, tag: TypeTag, v: Value)
    ensures !Check(php, tag, v) && CheckIntended(php, tag, v) <==>
      || (tag == Float && php.validateFloat(v) == Some(0.0))
      || (tag == Boolean && php.validateBool(v) == Some(false))
    ensures Check(php, tag, v) && !CheckIntended(php, tag, v) <==>
      tag == Slug && IsSlugAsWritten(php, v) && !IsSlug(php, v)
  {
    match tag
    case Float => FloatAcceptsZero(php, v);
    case Boolean => BooleanAcceptsBoth(php, v);
    case _ =>
  }

  /** A slug that the code as written accepts and the intended predicate
      rejects is a slug followed by exactly one final newline. */
  lemma SlugDifference(php: Builtins, v: Value)
    requires IsSlugAsWritten(php, v) && !IsSlug(php, v)
    ensures var t := SubjectText(v).value;
      |t| >= 2 && t[|t| - 1] == '\n' && IsSlug(php, Str(t[..|t| - 1]))
  {
  }
}
