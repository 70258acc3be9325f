/** The two-locale message catalog and the error accumulator: a PHP array
    from field name to the list of rendered messages, which keeps its keys
    in insertion order. */
module ErrorTrait {

  datatype Lang = En | It

  /** The kinds of message the catalog defines. */
  datatype MessageKind =
    | NameMsg | TypeMsg | RequiredMsg | PatternMsg | EqualMsg
    | MatchMsg | LengthMsg | MaxSizeMsg | AcceptMsg | SlugMsg

  /** A template, as vsprintf parses it: literal runs and %s conversions. */
  datatype Piece = Lit(text: string) | Hole

  /** The template text as written, each Hole being "%s". */
  function TemplateText(t: seq<Piece>): string
  {
    if t == [] then ""
    else (match t[0] case Lit(s) => s case Hole => "%s") + TemplateText(t[1..])
  }

  /** The number of %s conversions in a template. */
  function Holes(t: seq<Piece>): nat
  {
    if t == [] then 0 else (if t[0].Hole? then 1 else 0) + Holes(t[1..])
  }

  /** The total length of a template's literal runs. */
  function LiteralLength(t: seq<Piece>): nat
  {
    if t == [] then 0 else (match t[0] case Lit(s) => |s| case Hole => 0) + LiteralLength(t[1..])
  }

  /** The literal run every template of a locale opens with, before the
      field name's conversion. */
  function FieldPrefix(lang: Lang): string
  {
    if lang == En then "The " else "Il campo "
  }

  /** A literal run and a conversion in front of a template. */
  function Prefixed(a: string, rest: seq<Piece>): (t: seq<Piece>)
    ensures |t| == |rest| + 2 && t[0] == Lit(a) && t[1] == Hole && t[2..] == rest
    ensures Holes(t) == Holes(rest) + 1
  {
    var t := [Lit(a), Hole] + rest;
    assert t[1..] == [Hole] + rest && t[1..][1..] == rest;
    t
  }

  /** The template tails with no, one and two further conversions. */
  function Msg0(a: string): (t: seq<Piece>)
    ensures Holes(t) == 0
  {
    assert [Lit(a)][1..] == [];
    [Lit(a)]
  }

  function Msg1(a: string, b: string): (t: seq<Piece>)
    ensures Holes(t) == 1
  {
    Prefixed(a, Msg0(b))
  }

  function Msg2(a: string, b: string, c: string): (t: seq<Piece>)
    ensures Holes(t) == 2
  {
    Prefixed(a, Msg1(b, c))
  }

  /** What follows the field name in each English template. */
  function TailEn(kind: MessageKind): (t: seq<Piece>)
    ensures Holes(t) + 1 == Arity(kind)
  {
    match kind
    case NameMsg => Msg0(" field not exists.")
    case TypeMsg => Msg1(" field must by a ", ".")
    case RequiredMsg => Msg0(" field is required.")
    case PatternMsg => Msg1(" field must match regular expression ", ".")
    case EqualMsg => Msg1(" field must be ", ".")
    case MatchMsg => Msg1(" field must match to one of those value: ", ".")
    case LengthMsg => Msg2(" field may not be less than ", " and greater than ", ".")
    case MaxSizeMsg => Msg1(" field may not be greater than ", ".")
    case AcceptMsg => Msg1(" field must be a ", ".")
    case SlugMsg => Msg0(" field must be a slug.")
  }

  /** What follows the field name in each Italian template. */
  function TailIt(kind: MessageKind): (t: seq<Piece>)
    ensures Holes(t) + 1 == Arity(kind)
  {
    match kind
    case NameMsg => Msg0(" non esiste.")
    case TypeMsg => Msg1(" deve essere un ", ".")
    case RequiredMsg => Msg0(" \U{00E8} obbligatorio.")
    case PatternMsg => Msg1(" deve corrispondere all'espressione regolare ", ".")
    case EqualMsg => Msg1(" deve essere uguale a ", ".")
    case MatchMsg => Msg1(" deve corrispondere a uno di questi valori: ", ".")
    case LengthMsg => Msg2(" non pu\U{00F2} essere inferiore a ", " e superiore a ", ".")
    case MaxSizeMsg => Msg1(" non pu\U{00F2} essere superiore a ", ".")
    case AcceptMsg => Msg1(" deve essere un ", ".")
    case SlugMsg => Msg0(" deve essere uno slug.")
  }

  /** The catalog: one template per locale and kind. Every template opens
      with its locale's literal run and the field name's conversion, and
      has exactly as many conversions as its rule passes arguments. */
  function Template(lang: Lang, kind: MessageKind): (t: seq<Piece>)
    ensures |t| >= 2 && t[0] == Lit(FieldPrefix(lang)) && t[1] == Hole
    ensures Holes(t) == Arity(kind)
  {
    Prefixed(FieldPrefix(lang), if lang == En then TailEn(kind) else TailIt(kind))
  }

  /** The number of arguments each rule passes with its message. */
  function Arity(kind: MessageKind): nat
  {
    match kind
    case NameMsg => 1
    case RequiredMsg => 1
    case SlugMsg => 1
    case LengthMsg => 3
    case _ => 2
  }

  /** The total length of a list of strings. */
  function TotalLength(ss: seq<string>): nat
  {
    if ss == [] then 0 else |ss[0]| + TotalLength(ss[1..])
  }

  /** vsprintf($template, $args) for a template of %s conversions: each
      conversion takes the next argument; surplus arguments are ignored. */
  function Format(t: seq<Piece>, args: seq<string>): string
    requires Holes(t) <= |args|
  {
    if t == [] then ""
    else match t[0]
      case Lit(s) => s + Format(t[1..], args)
      case Hole => args[0] + Format(t[1..], args[1..])
  }

  /** The message error($kind, $args) renders. */
  function Render(lang: Lang, kind: MessageKind, args: seq<string>): string
    requires |args| == Arity(kind)
  {
    Format(Template(lang, kind), args)
  }

  /** A rendered message is the template's literal text plus, for each
      conversion, the argument it consumes in order, and nothing else. */
  lemma {:induction false} FormatLength(t: seq<Piece>, args: seq<string>)
    requires Holes(t) <= |args|
    ensures |Format(t, args)| == LiteralLength(t) + TotalLength(args[..Holes(t)])
  {
    if t != [] {
      match t[0]
      case Lit(s) =>
        FormatLength(t[1..], args);
      case Hole =>
        FormatLength(t[1..], args[1..]);
        assert args[..Holes(t)] == [args[0]] + args[1..][..Holes(t[1..])];
    }
  }

  /** Counting conversions distributes over concatenation. */
  lemma {:induction false} HolesConcat(t1: seq<Piece>, t2: seq<Piece>)
    ensures Holes(t1 + t2) == Holes(t1) + Holes(t2)
  {
    if t1 != [] {
      assert (t1 + t2)[1..] == t1[1..] + t2;
      HolesConcat(t1[1..], t2);
    } else {
      assert t1 + t2 == t2;
    }
  }

  /** vsprintf consumes its arguments left to right: a template split in
      two renders as the first part with the first arguments, followed by
      the second part with the arguments the first part left over. */
  lemma {:induction false} FormatConcat(t1: seq<Piece>, t2: seq<Piece>, args: seq<string>)
    requires Holes(t1) + Holes(t2) <= |args|
    ensures Holes(t1 + t2) <= |args|
    ensures Format(t1 + t2, args) == Format(t1, args) + Format(t2, args[Holes(t1)..])
  {
    HolesConcat(t1, t2);
    if t1 == [] {
      assert t1 + t2 == t2 && args[0..] == args;
    } else {
      assert (t1 + t2)[0] == t1[0] && (t1 + t2)[1..] == t1[1..] + t2;
      match t1[0]
      case Lit(s) =>
        FormatConcat(t1[1..], t2, args);
      case Hole =>
        FormatConcat(t1[1..], t2, args[1..]);
        assert args[1..][Holes(t1[1..])..] == args[Holes(t1)..];
    }
  }

  /** Formatting with "%s" for every argument gives back the template text
      as written: every conversion is replaced by its argument, and the
      literal runs are kept as they are. */
  lemma {:induction false} FormatPlaceholders(t: seq<Piece>, args: seq<string>)
    requires Holes(t) <= |args|
    requires forall i :: 0 <= i < |args| ==> args[i] == "%s"
    ensures Format(t, args) == TemplateText(t)
  {
    if t != [] {
      match t[0]
      case Lit(s) =>
        FormatPlaceholders(t[1..], args);
      case Hole =>
        FormatPlaceholders(t[1..], args[1..]);
    }
  }

  lemma FormatOpening(t: seq<Piece>, args: seq<string>)
    requires |t| >= 2 && t[0].Lit? && t[1] == Hole && Holes(t) <= |args|
    ensures Holes(t[2..]) <= |args| - 1
    ensures Format(t, args) == t[0].text + args[0] + Format(t[2..], args[1..])
  {
    assert t[1..][1..] == t[2..];
  }

  /** A rendered message starts with its locale's opening words followed by
      the field name. */
  lemma RenderStartsWithField(lang: Lang, kind: MessageKind, args: seq<string>)
    requires |args| == Arity(kind)
    ensures var prefix := FieldPrefix(lang) + args[0];
      |prefix| <= |Render(lang, kind, args)| && Render(lang, kind, args)[..|prefix|] == prefix
  {
    var t := Template(lang, kind);
    FormatOpening(t, args);
    var prefix := FieldPrefix(lang) + args[0];
    var rest := Format(t[2..], args[1..]);
    assert Render(lang, kind, args) == prefix + rest;
  }

  // ---------------------------------------------------------------------
  // The error accumulator

  /** The $errors array: field names in insertion order, and each field's
      messages in the order they were appended. */
  datatype ErrorMap = ErrorMap(fields: seq<string>, lists: map<string, seq<string>>)

  /** Keys are listed once each, agree with the map, and every list holds
      at least one message (a key is only created by appending to it). */
  ghost predicate WellFormed(e: ErrorMap)
  {
    && (forall i, j :: 0 <= i < j < |e.fields| ==> e.fields[i] != e.fields[j])
    && (forall f :: f in e.lists <==> f in e.fields)
    && (forall f :: f in e.lists ==> e.lists[f] != [])
  }

  /** The empty error array the session starts with. */
  function Empty(): (r: ErrorMap)
    ensures WellFormed(r) && r.fields == []
  {
    ErrorMap([], map[])
  }

  /** $errors[$field], or no messages when the key is absent. */
  function Messages(e: ErrorMap, field: string): seq<string>
  {
    if field in e.lists then e.lists[field] else []
  }

  /** $errors[$field][] = $message */
  function Append(e: ErrorMap, field: string, message: string): (r: ErrorMap)
    requires WellFormed(e)
    ensures WellFormed(r)
    ensures Messages(r, field) == Messages(e, field) + [message]
    ensures forall g :: g != field ==> Messages(r, g) == Messages(e, g)
    ensures r.fields == if field in e.lists then e.fields else e.fields + [field]
  {
    if field in e.lists then
      ErrorMap(e.fields, e.lists[field := e.lists[field] + [message]])
    else
      ErrorMap(e.fields + [field], e.lists[field := [message]])
  }

  /** Each field's list in e' begins with its list in e: nothing was removed
      or rewritten, and the existing order of fields is kept. */
  ghost predicate Extends(e: ErrorMap, e': ErrorMap)
  {
    && |e.fields| <= |e'.fields| && e'.fields[..|e.fields|] == e.fields
    && forall f :: |Messages(e, f)| <= |Messages(e', f)| && Messages(e', f)[..|Messages(e, f)|] == Messages(e, f)
  }

  lemma AppendExtends(e: ErrorMap, field: string, message: string)
    requires WellFormed(e)
    ensures Extends(e, Append(e, field, message))
  {
    var r := Append(e, field, message);
    forall f ensures |Messages(e, f)| <= |Messages(r, f)| && Messages(r, f)[..|Messages(e, f)|] == Messages(e, f) {
      if f == field {
        assert Messages(r, f) == Messages(e, f) + [message];
      }
    }
  }

  lemma ExtendsTransitive(a: ErrorMap, b: ErrorMap, c: ErrorMap)
    requires Extends(a, b) && Extends(b, c)
    ensures Extends(a, c)
  {
    assert c.fields[..|a.fields|] == c.fields[..|b.fields|][..|a.fields|];
    forall f ensures |Messages(a, f)| <= |Messages(c, f)| && Messages(c, f)[..|Messages(a, f)|] == Messages(a, f) {
      assert Messages(c, f)[..|Messages(a, f)|] == Messages(c, f)[..|Messages(b, f)|][..|Messages(a, f)|];
    }
  }

  /** The messages of the given fields, field after field. */
  function FlattenKeys(keys: seq<string>, lists: map<string, seq<string>>): seq<string>
  {
    if keys == [] then [] else (if keys[0] in lists then lists[keys[0]] else []) + FlattenKeys(keys[1..], lists)
  }

  /** getErrorList(): every message, field by field in insertion order. */
  function Flatten(e: ErrorMap): seq<string>
  {
    FlattenKeys(e.fields, e.lists)
  }

  /** The number of messages held for the given fields. */
  function CountKeys(keys: seq<string>, lists: map<string, seq<string>>): nat
  {
    if keys == [] then 0 else (if keys[0] in lists then |lists[keys[0]]| else 0) + CountKeys(keys[1..], lists)
  }

  lemma {:induction false} FlattenKeysSnoc(keys: seq<string>, k: string, lists: map<string, seq<string>>)
    ensures FlattenKeys(keys + [k], lists) == FlattenKeys(keys, lists) + (if k in lists then lists[k] else [])
  {
    if keys != [] {
      assert (keys + [k])[1..] == keys[1..] + [k];
      FlattenKeysSnoc(keys[1..], k, lists);
    }
  }

  /** The flat list's length is the sum of the per-field list lengths. */
  lemma {:induction false} FlattenLength(keys: seq<string>, lists: map<string, seq<string>>)
    ensures |FlattenKeys(keys, lists)| == CountKeys(keys, lists)
  {
    if keys != [] {
      FlattenLength(keys[1..], lists);
    }
  }

  /** Changing one key's list changes only that key's share of the flat list. */
  lemma {:induction false} FlattenKeysOutside(keys: seq<string>, lists: map<string, seq<string>>, k: string, l: seq<string>)
    requires k !in keys
    ensures FlattenKeys(keys, lists[k := l]) == FlattenKeys(keys, lists)
  {
    if keys != [] {
      FlattenKeysOutside(keys[1..], lists, k, l);
    }
  }

  lemma {:induction false} CountKeysUpdate(keys: seq<string>, lists: map<string, seq<string>>, k: string, l: seq<string>)
    requires k in lists
    requires forall i, j :: 0 <= i < j < |keys| ==> keys[i] != keys[j]
    ensures CountKeys(keys, lists[k := l]) + (if k in keys then |lists[k]| else 0)
         == CountKeys(keys, lists) + (if k in keys then |l| else 0)
  {
    if keys != [] {
      CountKeysUpdate(keys[1..], lists, k, l);
      if keys[0] == k {
        forall j | 0 <= j < |keys[1..]| ensures keys[1..][j] != k {
          assert keys[1..][j] == keys[j + 1];
        }
      }
      assert k in keys <==> keys[0] == k || k in keys[1..];
    }
  }

  /** Every append adds exactly one message to the flat error list; a new
      field's message goes to the end of it. */
  lemma AppendAddsOne(e: ErrorMap, field: string, message: string)
    requires WellFormed(e)
    ensures |Flatten(Append(e, field, message))| == |Flatten(e)| + 1
    ensures field !in e.lists ==> Flatten(Append(e, field, message)) == Flatten(e) + [message]
  {
    if field in e.lists {
      AppendToExistingField(e, field, message);
    } else {
      AppendNewField(e, field, message);
    }
  }

  lemma AppendToExistingField(e: ErrorMap, field: string, message: string)
    requires WellFormed(e) && field in e.lists
    ensures |Flatten(Append(e, field, message))| == |Flatten(e)| + 1
  {
    var l := e.lists[field] + [message];
    assert Append(e, field, message) == ErrorMap(e.fields, e.lists[field := l]);
    assert field in e.fields;
    FlattenLength(e.fields, e.lists);
    FlattenLength(e.fields, e.lists[field := l]);
    CountKeysUpdate(e.fields, e.lists, field, l);
  }

  lemma AppendNewField(e: ErrorMap, field: string, message: string)
    requires WellFormed(e) && field !in e.lists
    ensures Flatten(Append(e, field, message)) == Flatten(e) + [message]
  {
    var lists' := e.lists[field := [message]];
    assert Append(e, field, message) == ErrorMap(e.fields + [field], lists');
    assert field !in e.fields;
    FlattenKeysSnoc(e.fields, field, lists');
    FlattenKeysOutside(e.fields, e.lists, field, [message]);
  }

  /** No error array is empty exactly when its flat list is empty. */
  lemma {:induction false} EmptyIffNoMessages(e: ErrorMap)
    requires WellFormed(e)
    ensures e.fields == [] <==> Flatten(e) == []
    ensures e.fields == [] <==> e.lists == map[]
  {
    if e.fields != [] {
      assert e.fields[0] in e.lists;
      assert Flatten(e) == e.lists[e.fields[0]] + FlattenKeys(e.fields[1..], e.lists);
    } else {
      assert forall f :: f !in e.lists;
    }
  }
}
