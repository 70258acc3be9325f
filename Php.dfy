/** The PHP values the validator handles, and the PHP built-ins it calls.
    Built-ins whose behaviour is PHP's own (the filter extension, PCRE,
    loose comparison, DateTime) are carried in a `Builtins` record of total
    functions that the caller supplies; only their use is modelled. */
module Php {

  datatype Option<+T> = None | Some(value: T)

  /** A PSR-7 uploaded file, seen through the three queries the validator
      makes: getSize(), getClientMediaType() and getError(). */
  datatype UploadedFile = UploadedFile(size: int, mediaType: string, errorCode: int)

  /** UPLOAD_ERR_NO_FILE: the form slot was submitted without a file. */
  const NoFile: int := 4

  /** A field value: absent (null), a string, an integer, a list (PHP array
      with its values in order), or an uploaded file. */
  datatype Value = Null | Str(s: string) | Num(n: int) | Arr(elems: seq<Value>) | File(file: UploadedFile)

  predicate IsAbsentFile(v: Value)
  {
    v.File? && v.file.errorCode == NoFile
  }

  /** The PHP built-ins, as the caller's environment defines them. */
  datatype Builtins = Builtins(
    /** filter_var($v, FILTER_VALIDATE_EMAIL) is truthy */
    validateEmail: Value -> bool,
    /** filter_var($v, FILTER_VALIDATE_URL) is truthy */
    validateUrl: Value -> bool,
    /** is_numeric($v) */
    isNumeric: Value -> bool,
    /** filter_var($v, FILTER_VALIDATE_INT): the integer, or None for false */
    validateInt: Value -> Option<int>,
    /** filter_var($v, FILTER_VALIDATE_FLOAT): the float, or None for false */
    validateFloat: Value -> Option<real>,
    /** filter_var($v, FILTER_VALIDATE_BOOLEAN, FILTER_NULL_ON_FAILURE): the
        recognised boolean, or None when the value is not one */
    validateBool: Value -> Option<bool>,
    /** filter_var($v, FILTER_SANITIZE_STRING) */
    sanitizeString: Value -> Value,
    /** DateTime::createFromFormat('Y-m-d', $s) followed by ->format('Y-m-d'),
        or None when the parse fails */
    reformatYmd: string -> Option<string>,
    /** preg_match($pattern, $subject) is truthy, for a subject already
        converted to a string */
    pregMatch: (string, string) -> bool,
    /** a non-ASCII character that PCRE's \w matches in UTF mode */
    isUnicodeWordChar: char -> bool,
    /** PHP's loose comparison $a == $b */
    looseEquals: (Value, Value) -> bool,
    /** PHP's $object <=> $int for an uploaded-file object */
    compareFileToInt: (UploadedFile, int) -> int,
    /** the human-readable size label built from log/pow/floor/round */
    sizeLabel: int -> string
  )

  /** The decimal digits of a natural number. */
  function Digits(n: nat): (r: string)
    ensures |r| > 0
    ensures forall i :: 0 <= i < |r| ==> '0' <= r[i] <= '9'
  {
    var d := ['0' + (n % 10) as char];
    if n < 10 then d else Digits(n / 10) + d
  }

  /** PHP's string conversion of an integer. */
  function DecimalString(n: int): string
  {
    if n < 0 then "-" + Digits(-n) else Digits(n)
  }

  /** PHP's string conversion, as vsprintf's %s and implode apply it. An
      uploaded-file object has no string conversion (PHP raises an Error). */
  function Stringify(v: Value): string
    requires !v.File?
  {
    match v
    case Null => ""
    case Str(s) => s
    case Num(n) => DecimalString(n)
    case Arr(_) => "Array"
  }

  /** implode($glue, $pieces) */
  function Implode(glue: string, pieces: seq<string>): (r: string)
    ensures pieces == [] ==> r == ""
  {
    if pieces == [] then ""
    else if |pieces| == 1 then pieces[0]
    else pieces[0] + glue + Implode(glue, pieces[1..])
  }

  /** The number of bytes a character takes in UTF-8. */
  function Utf8Width(c: char): nat
  {
    if c as int < 0x80 then 1
    else if c as int < 0x800 then 2
    else if c as int < 0x10000 then 3
    else 4
  }

  /** strlen of the UTF-8 encoding of a string: its length in bytes. */
  function Utf8Length(s: string): nat
  {
    if s == [] then 0 else Utf8Width(s[0]) + Utf8Length(s[1..])
  }

  /** strlen counts bytes: at least one and at most four per character, and
      exactly one per character precisely when the text is ASCII. */
  lemma {:induction false} Utf8LengthBounds(s: string)
    ensures |s| <= Utf8Length(s) <= 4 * |s|
    ensures Utf8Length(s) == |s| <==> forall i :: 0 <= i < |s| ==> s[i] as int < 0x80
  {
    if s != [] {
      Utf8LengthBounds(s[1..]);
      assert forall i :: 1 <= i < |s| ==> s[i] == s[1..][i - 1];
    }
  }
}
