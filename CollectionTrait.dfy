/** Field resolution: a field name is looked up in the parsed body first and
    in the uploaded-file map second. PHP's isset() treats a key that maps to
    null as unset, so a null body entry falls through to the file map. */
module CollectionTrait {
  import opened Php

  /** isset($map[$name]) */
  predicate IsSet(m: map<string, Value>, name: string)
  {
    name in m && m[name] != Null
  }

  /** has($name): the field is set in the body or in the file map. */
  predicate Has(body: map<string, Value>, files: map<string, Value>, name: string)
  {
    IsSet(body, name) || IsSet(files, name)
  }

  /** get($name): the body entry if set, else the file entry if set, else null. */
  function Get(body: map<string, Value>, files: map<string, Value>, name: string): (r: Value)
    ensures IsSet(body, name) ==> r == body[name]
    ensures !IsSet(body, name) && IsSet(files, name) ==> r == files[name]
    ensures !IsSet(body, name) && !IsSet(files, name) ==> r == Null
  {
    if IsSet(body, name) then body[name]
    else if IsSet(files, name) then files[name]
    else Null
  }

  /** has() and get() agree: a field exists exactly when it resolves to a
      non-null value. */
  lemma HasIffResolved(body: map<string, Value>, files: map<string, Value>, name: string)
    ensures Has(body, files, name) <==> Get(body, files, name) != Null
  {
  }

  /** When both maps hold the field, the body wins. */
  lemma BodyShadowsFiles(body: map<string, Value>, files: map<string, Value>, name: string)
    requires IsSet(body, name) && IsSet(files, name)
    ensures Get(body, files, name) == body[name] && Has(body, files, name)
  {
  }

  /** What get() returns is always one of the two maps' entries, or null. */
  lemma ResolvedFromMaps(body: map<string, Value>, files: map<string, Value>, name: string)
    ensures var r := Get(body, files, name);
      r == Null || (name in body && r == body[name]) || (name in files && r == files[name])
  {
  }
}
