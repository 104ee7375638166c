/**
 * What `LegacyMetadata.set` stores and what `LegacyMetadata.get` returns, as functions of the
 * field dictionary.  The class in legacy_metadata.dfy is proved against these.
 */
module LegacyFields {
  import opened Text
  import opened Wrappers
  import opened PyValue
  import opened MetadataFields

  /** The field dictionary only ever holds converted names. */
  predicate CanonicalKeys(fields: map<String, Value>)
  {
    forall k :: k in fields ==> ConvertName(k) == k
  }

  /** `[v.strip() for v in s.split(',')]` */
  function CommaPieces(s: String): seq<Value>
  {
    var parts := Split(s, ',');
    seq(|parts|, i requires 0 <= i < |parts| => Str(Strip(parts[i])))
  }

  /** `s.split(',')`, as a list of string values. */
  function CommaSplit(s: String): seq<Value>
  {
    var parts := Split(s, ',');
    seq(|parts|, i requires 0 <= i < |parts| => Str(parts[i]))
  }

  /**
   * The value `set` stores for the converted name `name`.  `Keywords` and `Platform` split a
   * string at commas, the other list fields wrap a string in a list, and both replace a value
   * that is neither a string nor a list or tuple by `[]`; `Description` loses its continuation
   * prefixes, which fails (`TypeError`) unless it is a string.  With warnings enabled (the
   * default level), every item of a predicate field is split at `;` to be checked, which fails
   * (`AttributeError`) on an item that is not a string.
   */
  function Normalize(name: String, value: Value): (r: Result<Value, MetadataError>)
    ensures r.Err? <==>
      (name == "Description" && !value.Str?) ||
      (name in PredicateFields && IsSequence(value) && !AllStrings(value.items))
    ensures r.Err? ==> r.error == ValueShapeError(name)
    ensures r.Ok? && (name in ListFields || name in ElementsFields) ==> IsSequence(r.value)
    ensures IsSequence(value) && name != "Description" && (name !in PredicateFields || AllStrings(value.items)) ==> r == Ok(value)
    ensures name !in ListFields && name !in ElementsFields && name != "Description" ==> r == Ok(value)
  {
    var v :=
      if (name in ElementsFields || name == "Platform") && !IsSequence(value) then
        (if value.Str? then List(CommaPieces(value.s)) else List([]))
      else if name in ListFields && !IsSequence(value) then
        (if value.Str? then List([value]) else List([]))
      else value;
    if name in PredicateFields && IsSequence(v) && !AllStrings(v.items) then Err(ValueShapeError(name))
    else if name in UnicodeFields && name == "Description" then
      (if v.Str? then Ok(Str(RemoveLinePrefix(v.s))) else Err(ValueShapeError(name)))
    else Ok(v)
  }

  /** The dictionary after `set(name, value)`: only the converted name changes. */
  function SetField(fields: map<String, Value>, name: String, value: Value): (r: Result<map<String, Value>, MetadataError>)
    ensures r.Ok? <==> Normalize(ConvertName(name), value).Ok?
    ensures r.Ok? ==> r.value.Keys == fields.Keys + {ConvertName(name)}
    ensures r.Ok? ==> r.value[ConvertName(name)] == Normalize(ConvertName(name), value).value
    ensures r.Ok? ==> forall k :: k in fields && k != ConvertName(name) ==> r.value[k] == fields[k]
  {
    var n := ConvertName(name);
    match Normalize(n, value)
    case Ok(v) => Ok(fields[n := v])
    case Err(e) => Err(e)
  }

  /** `set` keeps the dictionary's keys converted. */
  lemma SetFieldCanonical(fields: map<String, Value>, name: String, value: Value)
    requires CanonicalKeys(fields)
    ensures SetField(fields, name, value).Ok? ==> CanonicalKeys(SetField(fields, name, value).value)
  {
    ConvertNameIdempotent(name);
  }

  /** `for val in value`: the items Python iterates over, or the `TypeError` of a non-iterable. */
  function Iterate(field: String, v: Value): (r: Result<seq<Value>, MetadataError>)
    ensures IsSequence(v) ==> r == Ok(v.items)
    ensures r.Err? <==> v.NoneV? || v.Scalar?
  {
    match v
    case List(xs) => Ok(xs)
    case Tuple(xs) => Ok(xs)
    case Str(s) => Ok(seq(|s|, i requires 0 <= i < |s| => Str([s[i]])))
    case Dict(es) => Ok(seq(|es|, i requires 0 <= i < |es| => Str(es[i].key)))
    case NoneV => Err(ValueShapeError(field))
    case Scalar(_, _) => Err(ValueShapeError(field))
  }

  /** `(val[0], val[1])` for a `Project-URL` entry, failing when `val` has fewer than two items. */
  function UrlPair(field: String, val: Value): (r: Result<Value, MetadataError>)
    ensures r.Ok? ==> r.value.Tuple? && |r.value.items| == 2
    ensures IsSequence(val) ==> (r.Ok? <==> |val.items| >= 2)
    ensures IsSequence(val) && |val.items| >= 2 ==> r.value.items == val.items[..2]
  {
    match val
    case List(xs) => if |xs| >= 2 then Ok(Tuple([xs[0], xs[1]])) else Err(ValueShapeError(field))
    case Tuple(xs) => if |xs| >= 2 then Ok(Tuple([xs[0], xs[1]])) else Err(ValueShapeError(field))
    case Str(s) => if |s| >= 2 then Ok(Tuple([Str([s[0]]), Str([s[1]])])) else Err(ValueShapeError(field))
    case _ => Err(ValueShapeError(field))
  }

  /** The pairs `get` builds for `Project-URL`: the first failing entry stops it. */
  function UrlPairs(field: String, items: seq<Value>): (r: Result<seq<Value>, MetadataError>)
    ensures r.Ok? <==> forall i :: 0 <= i < |items| ==> UrlPair(field, items[i]).Ok?
    ensures r.Ok? ==> |r.value| == |items| && forall i :: 0 <= i < |items| ==> Ok(r.value[i]) == UrlPair(field, items[i])
  {
    if items == [] then Ok([])
    else
      var front := items[..|items| - 1];
      assert forall i :: 0 <= i < |front| ==> front[i] == items[i];
      match UrlPairs(field, front)
      case Err(e) => Err(e)
      case Ok(ps) =>
        match UrlPair(field, items[|items| - 1])
        case Ok(p) => Ok(ps + [p])
        case Err(e) => Err(e)
  }

  /** One more entry: its pair is appended, or its failure ends the list. */
  lemma UrlPairsStep(field: String, items: seq<Value>, i: nat)
    requires i < |items| && UrlPairs(field, items[..i]).Ok?
    ensures UrlPair(field, items[i]).Ok? ==> UrlPairs(field, items[..i + 1]) == Ok(UrlPairs(field, items[..i]).value + [UrlPair(field, items[i]).value])
    ensures UrlPair(field, items[i]).Err? ==> UrlPairs(field, items[..i + 1]) == Err(UrlPair(field, items[i]).error)
  {
    assert items[..i + 1][..i] == items[..i];
  }

  /** A failure in a prefix of the entries is the failure of all of them. */
  lemma {:induction false} UrlPairsErrExtends(field: String, items: seq<Value>, j: nat)
    requires j <= |items|
    requires UrlPairs(field, items[..j]).Err?
    ensures UrlPairs(field, items) == UrlPairs(field, items[..j])
    decreases |items| - j
  {
    if j < |items| {
      assert items[..j + 1][..j] == items[..j];
      assert UrlPairs(field, items[..j + 1]) == UrlPairs(field, items[..j]);
      UrlPairsErrExtends(field, items, j + 1);
    } else {
      assert items[..j] == items;
    }
  }

  /** `get` on the stored value `v` of the list field `n`; `pairs` is set for `Project-URL`. */
  function ListGet(n: String, v: Value, pairs: bool): (r: Result<Value, MetadataError>)
    ensures r.Ok? ==> r.value.List?
    ensures IsSequence(v) && !pairs ==> r == Ok(List(v.items))
  {
    if v == NoneV then Ok(List([]))
    else
      match Iterate(n, v)
      case Err(e) => Err(e)
      case Ok(items) =>
        if !pairs then Ok(List(items))
        else
          match UrlPairs(n, items)
          case Ok(ps) => Ok(List(ps))
          case Err(e) => Err(e)
  }

  /** `get(name, default)`, where `None` stands for the missing default. */
  function GetField(fields: map<String, Value>, name: String, default: Option<Value>): (r: Result<Value, MetadataError>)
    ensures ConvertName(name) !in fields ==>
      r == Ok(if default.Some? then default.value else DefaultValue(ConvertName(name)))
    ensures ConvertName(name) in fields && ConvertName(name) !in ListFields && ConvertName(name) !in ElementsFields
      ==> r == Ok(fields[ConvertName(name)])
    ensures r.Ok? && ConvertName(name) in fields && ConvertName(name) in ListFields ==> r.value.List?
  {
    var n := ConvertName(name);
    if n !in fields then Ok(if default.Some? then default.value else DefaultValue(n))
    else
      FieldKindsDisjoint();
      var v := fields[n];
      if n in UnicodeFields then Ok(v)
      else if n in ListFields then ListGet(n, v, n in ListTupleFields)
      else if n in ElementsFields && v.Str? then Ok(List(CommaSplit(v.s)))
      else Ok(v)
  }

  /** Reading `name` or `version` never raises: neither is a list field. */
  lemma NameVersionRead(fields: map<String, Value>)
    ensures GetField(fields, "name", None).Ok? && GetField(fields, "version", None).Ok?
  {
    NameVersionAttributes();
    AttributeRead(fields, "name");
    AttributeRead(fields, "version");
  }

  /** Reading an attribute whose field is neither a list field nor `Keywords` never raises. */
  lemma AttributeRead(fields: map<String, Value>, a: String)
    requires a in Attr2Field && Attr2Field[a] !in ListFields && Attr2Field[a] !in ElementsFields
    ensures GetField(fields, a, None).Ok?
  {
    ConvertNameAttribute(a);
  }

  // ----- what `get` returns after `set` -----

  /** A string set on a list field other than `Platform` and `Project-URL` reads back as a one-item list. */
  lemma SetGetListString(fields: map<String, Value>, name: String, s: String)
    requires ConvertName(name) in ListFields && ConvertName(name) != "Platform" && ConvertName(name) != "Project-URL"
    ensures SetField(fields, name, Str(s)).Ok?
    ensures GetField(SetField(fields, name, Str(s)).value, name, None) == Ok(List([Str(s)]))
  {
    var n := ConvertName(name);
    NormalizeListString(n, s);
    FieldKindsDisjoint();
    assert ListGet(n, List([Str(s)]), false) == Ok(List([Str(s)]));
  }

  /** What `set` stores for a string given to a list field other than `Platform`: the one-item list. */
  lemma NormalizeListString(n: String, s: String)
    requires n in ListFields && n != "Platform"
    ensures Normalize(n, Str(s)) == Ok(List([Str(s)]))
  {
    FieldKindsDisjoint();
    assert n !in ElementsFields;
    assert AllStrings([Str(s)]);
  }

  /** A string set on `Keywords` or `Platform` reads back as its comma-separated, stripped pieces. */
  lemma SetGetCommaList(fields: map<String, Value>, name: String, s: String)
    requires ConvertName(name) == "Keywords" || ConvertName(name) == "Platform"
    ensures SetField(fields, name, Str(s)).Ok?
    ensures GetField(SetField(fields, name, Str(s)).value, name, None) == Ok(List(CommaPieces(s)))
  {
  }

  /** A value that is neither a string nor a list or tuple, set on a list field or `Keywords`, reads back as `[]`. */
  lemma SetGetNonSequence(fields: map<String, Value>, name: String, value: Value)
    requires ConvertName(name) in ListFields || ConvertName(name) == "Keywords"
    requires !value.Str? && !IsSequence(value)
    ensures SetField(fields, name, value).Ok?
    ensures GetField(SetField(fields, name, value).value, name, None) == Ok(List([]))
  {
  }

  /**
   * A list set on a list field other than `Project-URL` reads back as a list of the same items;
   * on a predicate field every item must be a string.
   */
  lemma SetGetListItems(fields: map<String, Value>, name: String, value: Value)
    requires ConvertName(name) in ListFields && ConvertName(name) != "Project-URL"
    requires IsSequence(value)
    ensures SetField(fields, name, value).Ok? <==> ConvertName(name) !in PredicateFields || AllStrings(value.items)
    ensures SetField(fields, name, value).Ok? ==> GetField(SetField(fields, name, value).value, name, None) == Ok(List(value.items))
  {
    FieldKindsDisjoint();
  }

  /** A `Description` set with continuation prefixes reads back without them; it must be a string. */
  lemma SetGetDescription(fields: map<String, Value>, name: String, value: Value)
    requires ConvertName(name) == "Description"
    ensures SetField(fields, name, value).Ok? <==> value.Str?
    ensures value.Str? ==> GetField(SetField(fields, name, value).value, name, None) == Ok(Str(RemoveLinePrefix(value.s)))
  {
  }

  /** Any other field stores and returns the value as given. */
  lemma SetGetPlain(fields: map<String, Value>, name: String, value: Value)
    requires ConvertName(name) !in ListFields && ConvertName(name) !in ElementsFields && ConvertName(name) != "Description"
    ensures SetField(fields, name, value).Ok?
    ensures GetField(SetField(fields, name, value).value, name, None) == Ok(value)
  {
  }

  // ----- __contains__, __delitem__, keys, get_fullname -----

  /** `name in metadata`: the name itself or its converted form is a key. */
  predicate Contains(fields: map<String, Value>, name: String)
  {
    name in fields || ConvertName(name) in fields
  }

  /** With converted keys, containment only depends on the converted name. */
  lemma ContainsConverted(fields: map<String, Value>, name: String)
    requires CanonicalKeys(fields)
    ensures Contains(fields, name) <==> ConvertName(name) in fields
  {
  }

  /** `del metadata[name]`: removes the converted name, and raises `KeyError(name)` when it is absent. */
  function DeleteField(fields: map<String, Value>, name: String): (r: Result<map<String, Value>, MetadataError>)
    ensures r.Ok? <==> ConvertName(name) in fields
    ensures r.Ok? ==> r.value.Keys == fields.Keys - {ConvertName(name)}
    ensures r.Ok? ==> forall k :: k in r.value ==> r.value[k] == fields[k]
    ensures r.Err? ==> r.error == KeyMissing(name)
  {
    var n := ConvertName(name);
    if n in fields then Ok(fields - {n}) else Err(KeyMissing(name))
  }

  /** `_version2fieldlist(v)` for a stored `Metadata-Version` value `v`. */
  function FieldListOf(v: Value): (r: Result<seq<String>, MetadataError>)
    ensures r.Ok? <==> exists ver: Version :: v == Str(ver.Name())
    ensures forall ver: Version :: v == Str(ver.Name()) ==> r == Ok(ver.Fields())
  {
    if v.Str? then VersionFieldList(v.s) else Err(UnrecognizedVersionError(Show(v)))
  }

  /** `keys()`: the field list of the stored `Metadata-Version`. */
  function KeysOf(fields: map<String, Value>): (r: Result<seq<String>, MetadataError>)
    ensures "Metadata-Version" in fields && fields["Metadata-Version"].Str?
      && ParseVersion(fields["Metadata-Version"].s).Some?
      ==> r == Ok(ParseVersion(fields["Metadata-Version"].s).value.Fields())
  {
    FieldListOf(GetField(fields, "Metadata-Version", None).value)
  }

  /** `get_fullname(filesafe)`: the `Name` and `Version` fields joined with `-`. */
  function Fullname(fields: map<String, Value>, filesafe: bool): (r: Result<String, MetadataError>)
    ensures r.Err? <==> filesafe && !(GetField(fields, "Name", None).value.Str? && GetField(fields, "Version", None).value.Str?)
    ensures r.Ok? && filesafe ==> forall c :: c in r.value ==> FileSafeChar(c) || c == '-'
  {
    var name := GetField(fields, "Name", None).value;
    var version := GetField(fields, "Version", None).value;
    if !filesafe then Ok(NameAndVersion(Show(name), Show(version), false))
    else if name.Str? && version.Str? then
      NameAndVersionFileSafe(name.s, version.s);
      Ok(NameAndVersion(name.s, version.s, true))
    else Err(ValueShapeError(if name.Str? then "Version" else "Name"))
  }

  // ----- update -----

  /**
   * `update(other, **kwargs)` over the pairs of `other` followed by those of `kwargs`: an
   * attribute-style key with a true value is set under its field; every other pair is dropped.
   * The dictionary reached and the error, if a `set` failed, which ends the update.
   */
  function UpdateFields(fields: map<String, Value>, pairs: seq<Entry>): (r: (map<String, Value>, Option<MetadataError>))
    decreases |pairs|
  {
    if pairs == [] then (fields, None)
    else
      var (f, e) := UpdateFields(fields, pairs[..|pairs| - 1]);
      var p := pairs[|pairs| - 1];
      if e.Some? then (f, e)
      else if p.key in Attr2Field && Truthy(p.val) then
        match SetField(f, ConvertName(p.key), p.val)
        case Ok(g) => (g, None)
        case Err(x) => (f, Some(x))
      else (f, None)
  }

  /** Taking one more pair: a truthy known attribute is `set`, anything else is skipped. */
  lemma UpdateFieldsStep(fields: map<String, Value>, pairs: seq<Entry>, i: nat, f: map<String, Value>)
    requires i < |pairs| && UpdateFields(fields, pairs[..i]) == (f, None)
    ensures !(pairs[i].key in Attr2Field && Truthy(pairs[i].val)) ==> UpdateFields(fields, pairs[..i + 1]) == (f, None)
    ensures pairs[i].key in Attr2Field && Truthy(pairs[i].val) ==>
      var s := SetField(f, ConvertName(pairs[i].key), pairs[i].val);
      UpdateFields(fields, pairs[..i + 1]) == if s.Ok? then (s.value, None) else (f, Some(s.error))
  {
    assert pairs[..i + 1][..i] == pairs[..i];
  }

  /** Once a `set` has failed, later pairs change nothing. */
  lemma {:induction false} UpdateFieldsErrExtends(fields: map<String, Value>, pairs: seq<Entry>, j: nat)
    requires j <= |pairs|
    requires UpdateFields(fields, pairs[..j]).1.Some?
    ensures UpdateFields(fields, pairs) == UpdateFields(fields, pairs[..j])
    decreases |pairs| - j
  {
    if j < |pairs| {
      assert pairs[..j + 1][..j] == pairs[..j];
      UpdateFieldsErrExtends(fields, pairs, j + 1);
    } else {
      assert pairs[..j] == pairs;
    }
  }

  /** The fields for the attribute names `update` accepts. */
  function AttributeTargets(): set<String>
  {
    set a | a in Attr2Field :: Attr2Field[a]
  }

  /** `update` only adds fields that some attribute name stands for, and keeps the keys converted. */
  lemma {:induction false} UpdateFieldsKeys(fields: map<String, Value>, pairs: seq<Entry>)
    requires CanonicalKeys(fields)
    ensures UpdateFields(fields, pairs).0.Keys <= fields.Keys + AttributeTargets()
    ensures CanonicalKeys(UpdateFields(fields, pairs).0)
    decreases |pairs|
  {
    if pairs != [] {
      UpdateFieldsKeys(fields, pairs[..|pairs| - 1]);
      var (f, e) := UpdateFields(fields, pairs[..|pairs| - 1]);
      var p := pairs[|pairs| - 1];
      if e.None? && p.key in Attr2Field && Truthy(p.val) {
        ConvertNameAttribute(p.key);
        ConvertNameIdempotent(p.key);
        SetFieldCanonical(f, ConvertName(p.key), p.val);
      }
    }
  }

  /** Pairs with a field-style key (such as `Home-page`) or a false value leave the dictionary as it is. */
  lemma {:induction false} UpdateFieldsIgnores(fields: map<String, Value>, pairs: seq<Entry>)
    requires forall i :: 0 <= i < |pairs| ==> pairs[i].key !in Attr2Field || !Truthy(pairs[i].val)
    ensures UpdateFields(fields, pairs) == (fields, None)
    decreases |pairs|
  {
    if pairs != [] {
      UpdateFieldsIgnores(fields, pairs[..|pairs| - 1]);
    }
  }

  // ----- write_file -----

  /** `'%s: %s\n' % (name, value)` */
  function FieldLine(field: String, value: Value): String
  {
    field + ": " + Show(value) + "\n"
  }

  /** The values `write_file` skips with `skip_unknown`: `'UNKNOWN'`, `[]` and `['UNKNOWN']`. */
  predicate IsUnknownValue(v: Value)
  {
    v == Str("UNKNOWN") || v == List([]) || v == List([Str("UNKNOWN")])
  }

  predicate AllStrings(items: seq<Value>)
  {
    forall i :: 0 <= i < |items| ==> items[i].Str?
  }

  function Texts(items: seq<Value>): (r: seq<String>)
    requires AllStrings(items)
    ensures |r| == |items| && forall i :: 0 <= i < |items| ==> items[i] == Str(r[i])
  {
    seq(|items|, i requires 0 <= i < |items| => items[i].s)
  }

  /** `','.join(value)`: a `TypeError` unless every item is a string. */
  function JoinValue(field: String, value: Value): (r: Result<String, MetadataError>)
    ensures r.Ok? <==> Iterate(field, value).Ok? && AllStrings(Iterate(field, value).value)
    ensures r.Ok? ==> r.value == Join(Texts(Iterate(field, value).value), ",")
  {
    match Iterate(field, value)
    case Err(e) => Err(e)
    case Ok(items) => if AllStrings(items) then Ok(Join(Texts(items), ",")) else Err(ValueShapeError(field))
  }

  /** `[','.join(value) for value in values]` for `Project-URL`, as string values. */
  function JoinEach(field: String, values: seq<Value>): (r: Result<seq<Value>, MetadataError>)
    ensures r.Ok? <==> forall i :: 0 <= i < |values| ==> JoinValue(field, values[i]).Ok?
    ensures r.Ok? ==> |r.value| == |values|
    ensures r.Ok? ==> forall i :: 0 <= i < |values| ==> r.value[i] == Str(JoinValue(field, values[i]).value)
  {
    if values == [] then Ok([])
    else
      var front := values[..|values| - 1];
      assert forall i :: 0 <= i < |front| ==> front[i] == values[i];
      match JoinEach(field, front)
      case Err(e) => Err(e)
      case Ok(vs) =>
        match JoinValue(field, values[|values| - 1])
        case Ok(t) => Ok(vs + [Str(t)])
        case Err(e) => Err(e)
  }

  /** One line per value. */
  function Lines(field: String, values: seq<Value>): (r: seq<String>)
    ensures |r| == |values| && forall i :: 0 <= i < |values| ==> r[i] == FieldLine(field, values[i])
  {
    seq(|values|, i requires 0 <= i < |values| => FieldLine(field, values[i]))
  }

  /**
   * The values `write_file` writes for one field, one line each: `Keywords` on one line joined
   * by commas, a single-valued field on one line (`Description` with its newlines prefixed),
   * a list field one line per item (`Project-URL` pairs joined by a comma).
   */
  function FieldValues(fields: map<String, Value>, field: String, skipUnknown: bool): (r: Result<seq<Value>, MetadataError>)
  {
    match GetField(fields, field, None)
    case Err(e) => Err(e)
    case Ok(values) =>
      if skipUnknown && IsUnknownValue(values) then Ok([])
      else if field in ElementsFields then
        match JoinValue(field, values)
        case Ok(t) => Ok([Str(t)])
        case Err(e) => Err(e)
      else if field !in ListFields then
        if field != "Description" then Ok([values])
        else if values.Str? then Ok([Str(EscapeDescription(values.s))])
        else Err(ValueShapeError(field))
      else
        match Iterate(field, values)
        case Err(e) => Err(e)
        case Ok(items) => if field in ListTupleFields then JoinEach(field, items) else Ok(items)
  }

  /**
   * The lines `write_file` writes for the fields `keys`, in order, and the error that stopped it:
   * a field's values are all computed before its first line is written, so a failure leaves the
   * lines of the fields before it, and nothing of the failing field.
   */
  function WriteLines(fields: map<String, Value>, keys: seq<String>, skipUnknown: bool): (r: (seq<String>, Option<MetadataError>))
    decreases |keys|
  {
    if keys == [] then ([], None)
    else
      var before := WriteLines(fields, keys[..|keys| - 1], skipUnknown);
      if before.1.Some? then before
      else
        var field := keys[|keys| - 1];
        match FieldValues(fields, field, skipUnknown)
        case Err(e) => (before.0, Some(e))
        case Ok(values) => (before.0 + Lines(field, values), None)
  }

  /**
   * `write_file` after the version is set: the lines of the stored version's fields, and the
   * error raised, if any (an unknown version raises before anything is written).
   */
  function WrittenLines(fields: map<String, Value>, skipUnknown: bool): (seq<String>, Option<MetadataError>)
  {
    match KeysOf(fields)
    case Err(e) => ([], Some(e))
    case Ok(keys) => WriteLines(fields, keys, skipUnknown)
  }

  /** Every line written, before a failure or without one, is `field: value` for one of the fields asked for. */
  lemma {:induction false} WriteLinesShape(fields: map<String, Value>, keys: seq<String>, skipUnknown: bool)
    ensures forall l :: l in WriteLines(fields, keys, skipUnknown).0 ==>
      exists f, v :: f in keys && l == FieldLine(f, v)
    decreases |keys|
  {
    if keys != [] {
      var front := keys[..|keys| - 1];
      var field := keys[|keys| - 1];
      WriteLinesShape(fields, front, skipUnknown);
      forall l | l in WriteLines(fields, keys, skipUnknown).0
        ensures exists f, v :: f in keys && l == FieldLine(f, v)
      {
        if l in WriteLines(fields, front, skipUnknown).0 {
          var f, v :| f in front && l == FieldLine(f, v);
          assert f in keys;
        } else {
          var values := FieldValues(fields, field, skipUnknown).value;
          var i :| 0 <= i < |values| && l == Lines(field, values)[i];
          assert l == FieldLine(field, values[i]);
        }
      }
    }
  }

  /** Writing one more field appends its lines, or stops with its error and the lines so far. */
  lemma WriteLinesStep(fields: map<String, Value>, keys: seq<String>, skipUnknown: bool, i: nat, lines: seq<String>)
    requires i < |keys| && WriteLines(fields, keys[..i], skipUnknown) == (lines, None)
    ensures FieldValues(fields, keys[i], skipUnknown).Err? ==>
      WriteLines(fields, keys[..i + 1], skipUnknown) == (lines, Some(FieldValues(fields, keys[i], skipUnknown).error))
    ensures FieldValues(fields, keys[i], skipUnknown).Ok? ==>
      WriteLines(fields, keys[..i + 1], skipUnknown) == (lines + Lines(keys[i], FieldValues(fields, keys[i], skipUnknown).value), None)
  {
    assert keys[..i + 1][..i] == keys[..i];
  }

  /** A failure in a prefix of the fields is the outcome of the whole write: nothing after it is written. */
  lemma {:induction false} WriteLinesErrExtends(fields: map<String, Value>, keys: seq<String>, skipUnknown: bool, j: nat)
    requires j <= |keys|
    requires WriteLines(fields, keys[..j], skipUnknown).1.Some?
    ensures WriteLines(fields, keys, skipUnknown) == WriteLines(fields, keys[..j], skipUnknown)
    decreases |keys| - j
  {
    if j < |keys| {
      assert keys[..j + 1][..j] == keys[..j];
      WriteLinesErrExtends(fields, keys, skipUnknown, j + 1);
    } else {
      assert keys[..j] == keys;
    }
  }

  /** The file is written a line at a time: the lines of a prefix of the fields begin the lines of all of them. */
  lemma {:induction false} WriteLinesPrefix(fields: map<String, Value>, keys: seq<String>, skipUnknown: bool, j: nat)
    requires j <= |keys|
    ensures WriteLines(fields, keys[..j], skipUnknown).0 <= WriteLines(fields, keys, skipUnknown).0
    decreases |keys| - j
  {
    if j < |keys| {
      assert keys[..j + 1][..j] == keys[..j];
      WriteLinesPrefix(fields, keys, skipUnknown, j + 1);
    } else {
      assert keys[..j] == keys;
    }
  }

  /** A field that was never set reads as its default, which `skip_unknown` leaves out of the file. */
  lemma MissingFieldSkipped(fields: map<String, Value>, field: String)
    requires ConvertName(field) !in fields
    ensures GetField(fields, field, None) == Ok(DefaultValue(ConvertName(field)))
    ensures FieldValues(fields, field, true) == Ok([])
  {
  }

  /** The `Description` line holds the text with every newline prefixed, and removing the prefixes gives the text back. */
  lemma WriteDescription(fields: map<String, Value>, d: String, skipUnknown: bool)
    requires "Description" in fields && fields["Description"] == Str(d)
    requires !(skipUnknown && d == "UNKNOWN")
    ensures FieldValues(fields, "Description", skipUnknown) == Ok([Str(EscapeDescription(d))])
    ensures RemoveLinePrefix(EscapeDescription(d)) == d
  {
    FieldKindsDisjoint();
    RemoveEscapedLinePrefix(d);
  }

  /** The values of a list of strings. */
  function Strs(ks: seq<String>): (r: seq<Value>)
    ensures AllStrings(r) && Texts(r) == ks
  {
    seq(|ks|, i requires 0 <= i < |ks| => Str(ks[i]))
  }

  /** Keywords are written on one line, joined by commas. */
  lemma WriteKeywords(fields: map<String, Value>, ks: seq<String>)
    requires "Keywords" in fields && fields["Keywords"] == List(Strs(ks))
    ensures FieldValues(fields, "Keywords", false) == Ok([Str(Join(ks, ","))])
  {
    FieldKindsDisjoint();
  }

  /** Setting `Keywords` from such a line splits it back into the keywords when none holds a comma or surrounding blanks. */
  lemma {:induction false} SetKeywordsLine(other: map<String, Value>, ks: seq<String>)
    requires |ks| >= 1
    requires forall i :: 0 <= i < |ks| ==> ',' !in ks[i] && Strip(ks[i]) == ks[i]
    ensures SetField(other, "Keywords", Str(Join(ks, ","))).Ok?
    ensures GetField(SetField(other, "Keywords", Str(Join(ks, ","))).value, "Keywords", None) == Ok(List(Strs(ks)))
  {
    var line := Join(ks, ",");
    KeywordsKind();
    SetGetCommaList(other, "Keywords", line);
    CommaPiecesJoin(ks);
  }

  lemma CommaPiecesJoin(ks: seq<String>)
    requires |ks| >= 1
    requires forall i :: 0 <= i < |ks| ==> ',' !in ks[i] && Strip(ks[i]) == ks[i]
    ensures CommaPieces(Join(ks, ",")) == Strs(ks)
  {
    SplitJoin(ks, ',');
  }

  /** `Keywords` is a field name and only an elements field. */
  lemma KeywordsKind()
    ensures ConvertName("Keywords") == "Keywords"
    ensures "Keywords" in ElementsFields && "Keywords" !in ListFields && "Keywords" !in UnicodeFields
  {
    assert "Keywords" in Fields241;
  }

  // ----- check -----

  /** The checks of a version scheme (`get_scheme(self.scheme)`), whose rules live outside this model. */
  datatype Scheme = Scheme(
    isValidMatcher: String -> bool,
    isValidConstraintList: Value -> bool,
    isValidVersion: Value -> bool)

  /** Which check `check` applies to a group of fields. */
  datatype Controller = Constraints | ConstraintList | VersionCheck

  /** The names among `names` that the metadata does not contain, in order. */
  function Missing(fields: map<String, Value>, names: seq<String>): (r: seq<String>)
    ensures forall a :: a in r <==> a in names && !Contains(fields, a)
    ensures |r| <= |names|
  {
    if names == [] then []
    else
      var rest := Missing(fields, names[..|names| - 1]);
      var a := names[|names| - 1];
      assert forall b :: b in names <==> b in names[..|names| - 1] || b == a;
      if Contains(fields, a) then rest else rest + [a]
  }

  /** `are_valid_constraints`: every requirement's part before `;` is a valid matcher; a non-string raises. */
  function ValidConstraints(field: String, items: seq<Value>, scheme: Scheme): (r: Result<bool, MetadataError>)
    ensures AllStrings(items) ==> r.Ok?
    ensures r == Ok(true) <==> AllStrings(items) && forall i :: 0 <= i < |items| ==> scheme.isValidMatcher(Split(items[i].s, ';')[0])
  {
    if items == [] then Ok(true)
    else if !items[0].Str? then Err(ValueShapeError(field))
    else if !scheme.isValidMatcher(Split(items[0].s, ';')[0]) then Ok(false)
    else
      var r := ValidConstraints(field, items[1..], scheme);
      assert forall i :: 1 <= i < |items| ==> items[i] == items[1..][i - 1];
      r
  }

  /** Whether the check of a group accepts a value. */
  function Accepts(kind: Controller, field: String, value: Value, scheme: Scheme): Result<bool, MetadataError>
  {
    match kind
    case Constraints =>
      (match Iterate(field, value)
       case Err(e) => Err(e)
       case Ok(items) => ValidConstraints(field, items, scheme))
    case ConstraintList => Ok(scheme.isValidConstraintList(value))
    case VersionCheck => Ok(scheme.isValidVersion(value))
  }

  /** `'Wrong value for %r: %s' % (field, value)` */
  function WrongValue(field: String, value: Value): String
  {
    "Wrong value for " + Repr(Str(field)) + ": " + Show(value)
  }

  /** `check` warns about the field: `get(field, None)` is set and the group's check rejects it. */
  predicate Flagged(fields: map<String, Value>, field: String, kind: Controller, scheme: Scheme)
  {
    var got := GetField(fields, field, Some(NoneV));
    got.Ok? && got.value != NoneV && Accepts(kind, field, got.value, scheme) == Ok(false)
  }

  /** Reading the field, or checking its set value, raises. */
  predicate CheckRaises(fields: map<String, Value>, field: String, kind: Controller, scheme: Scheme)
  {
    var got := GetField(fields, field, Some(NoneV));
    got.Err? || (got.value != NoneV && Accepts(kind, field, got.value, scheme).Err?)
  }

  /** The warning text about a flagged field, as a list of zero or one. */
  function FlaggedText(fields: map<String, Value>, field: String, kind: Controller, scheme: Scheme): seq<String>
  {
    if Flagged(fields, field, kind, scheme) then [WrongValue(field, GetField(fields, field, Some(NoneV)).value)] else []
  }

  /** The warnings about the flagged fields of `group`, in group order. */
  function FlaggedWarnings(fields: map<String, Value>, group: seq<String>, kind: Controller, scheme: Scheme): seq<String>
  {
    if group == [] then [] else FlaggedText(fields, group[0], kind, scheme) + FlaggedWarnings(fields, group[1..], kind, scheme)
  }

  /** The warning for one field of a group: none when it is unset or its value passes the check. */
  function FieldWarning(fields: map<String, Value>, field: String, kind: Controller, scheme: Scheme): (r: Result<Option<String>, MetadataError>)
    ensures r.Err? <==> CheckRaises(fields, field, kind, scheme)
    ensures r.Ok? ==> (r.value.Some? <==> Flagged(fields, field, kind, scheme))
    ensures r.Ok? ==> (match r.value case None => [] case Some(w) => [w]) == FlaggedText(fields, field, kind, scheme)
  {
    match GetField(fields, field, Some(NoneV))
    case Err(e) => Err(e)
    case Ok(value) =>
      if value == NoneV then Ok(None)
      else
        match Accepts(kind, field, value, scheme)
        case Err(e) => Err(e)
        case Ok(ok) => if ok then Ok(None) else Ok(Some(WrongValue(field, value)))
  }

  // ----- collecting the warnings of a group -----

  /** A check outcome as a list of zero or one warnings; a raising check contributes none. */
  function Said<E>(r: Result<Option<String>, E>): seq<String>
  {
    if r.Ok? && r.value.Some? then [r.value.value] else []
  }

  /** Running the checks in order: the warnings so far, or the first failure. */
  function Collect<E>(rs: seq<Result<Option<String>, E>>): (r: Result<seq<String>, E>)
    ensures r.Ok? ==> |r.value| <= |rs|
  {
    if rs == [] then Ok([])
    else
      match Collect(rs[..|rs| - 1])
      case Err(e) => Err(e)
      case Ok(ws) =>
        match rs[|rs| - 1]
        case Err(e) => Err(e)
        case Ok(None) => Ok(ws)
        case Ok(Some(w)) => Ok(ws + [w])
  }

  /** The warnings of all the outcomes, in order. */
  function AllSaid<E>(rs: seq<Result<Option<String>, E>>): seq<String>
  {
    if rs == [] then [] else Said(rs[0]) + AllSaid(rs[1..])
  }

  /** A failure in a prefix is the failure of the whole run. */
  lemma {:induction false} CollectErrExtends<E>(rs: seq<Result<Option<String>, E>>, j: nat)
    requires j <= |rs|
    requires Collect(rs[..j]).Err?
    ensures Collect(rs) == Collect(rs[..j])
    decreases |rs| - j
  {
    if j < |rs| {
      assert rs[..j + 1][..j] == rs[..j];
      CollectErrExtends(rs, j + 1);
    } else {
      assert rs[..j] == rs;
    }
  }

  /** One more check after a successful prefix: its failure, or its warning added at the end. */
  lemma CollectStep<E>(rs: seq<Result<Option<String>, E>>, j: nat)
    requires j < |rs| && Collect(rs[..j]).Ok?
    ensures rs[j].Err? ==> Collect(rs[..j + 1]) == Err(rs[j].error)
    ensures rs[j].Ok? ==> Collect(rs[..j + 1]) == Ok(Collect(rs[..j]).value + Said(rs[j]))
  {
    assert rs[..j + 1][..j] == rs[..j];
    assert rs[..j + 1][j] == rs[j];
    assert Collect(rs[..j]).value + [] == Collect(rs[..j]).value;
  }

  /** One more outcome at the end adds its warning at the end. */
  lemma {:induction false} AllSaidSnoc<E>(rs: seq<Result<Option<String>, E>>, r: Result<Option<String>, E>)
    ensures AllSaid(rs + [r]) == AllSaid(rs) + Said(r)
  {
    if rs == [] {
      assert [] + [r] == [r];
    } else {
      assert (rs + [r])[0] == rs[0];
      assert (rs + [r])[1..] == rs[1..] + [r];
      AllSaidSnoc(rs[1..], r);
    }
  }

  /** The run succeeds iff every check does. */
  lemma {:induction false} CollectOk<E>(rs: seq<Result<Option<String>, E>>)
    ensures Collect(rs).Ok? <==> forall i :: 0 <= i < |rs| ==> rs[i].Ok?
  {
    if rs != [] {
      var front := rs[..|rs| - 1];
      CollectOk(front);
      assert forall i :: 0 <= i < |front| ==> front[i] == rs[i];
    }
  }

  /** A successful run returns every warning, in order. */
  lemma {:induction false} CollectValue<E>(rs: seq<Result<Option<String>, E>>)
    requires Collect(rs).Ok?
    ensures Collect(rs).value == AllSaid(rs)
  {
    if rs != [] {
      var front := rs[..|rs| - 1];
      CollectValue(front);
      assert front + [rs[|rs| - 1]] == rs;
      AllSaidSnoc(front, rs[|rs| - 1]);
    }
  }

  /** A failing run fails with the error of its first failing check. */
  lemma {:induction false} CollectFirstError<E>(rs: seq<Result<Option<String>, E>>)
    requires Collect(rs).Err?
    ensures
      exists i :: 0 <= i < |rs| && rs[i].Err? && (forall j :: 0 <= j < i ==> rs[j].Ok?) &&
        Collect(rs).error == rs[i].error
  {
    var front := rs[..|rs| - 1];
    assert forall i :: 0 <= i < |front| ==> front[i] == rs[i];
    if Collect(front).Err? {
      CollectFirstError(front);
      var i :| 0 <= i < |front| && front[i].Err? && (forall j :: 0 <= j < i ==> front[j].Ok?) &&
        Collect(front).error == front[i].error;
    } else {
      CollectOk(front);
    }
  }

  /** The outcome of each field's check, in group order. */
  function FieldWarnings(fields: map<String, Value>, group: seq<String>, kind: Controller, scheme: Scheme): (r: seq<Result<Option<String>, MetadataError>>)
    ensures |r| == |group| && forall i :: 0 <= i < |group| ==> r[i] == FieldWarning(fields, group[i], kind, scheme)
  {
    seq(|group|, i requires 0 <= i < |group| => FieldWarning(fields, group[i], kind, scheme))
  }

  /** The warnings for one group of fields: the checks of its fields in order, stopping at the first that raises. */
  function GroupWarnings(fields: map<String, Value>, group: seq<String>, kind: Controller, scheme: Scheme): (r: Result<seq<String>, MetadataError>)
    ensures r.Ok? ==> |r.value| <= |group|
  {
    Collect(FieldWarnings(fields, group, kind, scheme))
  }

  /** The warnings the field checks of a group give are those about its flagged fields. */
  lemma {:induction false} FieldWarningsSaid(fields: map<String, Value>, group: seq<String>, kind: Controller, scheme: Scheme)
    ensures AllSaid(FieldWarnings(fields, group, kind, scheme)) == FlaggedWarnings(fields, group, kind, scheme)
  {
    var rs := FieldWarnings(fields, group, kind, scheme);
    if group != [] {
      assert rs[1..] == FieldWarnings(fields, group[1..], kind, scheme);
      FieldWarningsSaid(fields, group[1..], kind, scheme);
      assert Said(rs[0]) == FlaggedText(fields, group[0], kind, scheme);
    }
  }

  /**
   * What a group's checks return: when no field raises, one `Wrong value` warning for each set
   * field the check rejects, in group order; otherwise the error of the first field that raises.
   */
  lemma GroupWarningsMeaning(fields: map<String, Value>, group: seq<String>, kind: Controller, scheme: Scheme)
    ensures GroupWarnings(fields, group, kind, scheme).Ok? <==>
      forall i :: 0 <= i < |group| ==> !CheckRaises(fields, group[i], kind, scheme)
    ensures GroupWarnings(fields, group, kind, scheme).Ok? ==>
      GroupWarnings(fields, group, kind, scheme).value == FlaggedWarnings(fields, group, kind, scheme)
    ensures GroupWarnings(fields, group, kind, scheme).Err? ==>
      exists i :: 0 <= i < |group| && CheckRaises(fields, group[i], kind, scheme) &&
        (forall j :: 0 <= j < i ==> !CheckRaises(fields, group[j], kind, scheme)) &&
        GroupWarnings(fields, group, kind, scheme).error == FieldWarning(fields, group[i], kind, scheme).error
  {
    var rs := FieldWarnings(fields, group, kind, scheme);
    CollectOk(rs);
    if Collect(rs).Ok? {
      CollectValue(rs);
      FieldWarningsSaid(fields, group, kind, scheme);
    } else {
      CollectFirstError(rs);
      var i :| 0 <= i < |rs| && rs[i].Err? && (forall j :: 0 <= j < i ==> rs[j].Ok?) && Collect(rs).error == rs[i].error;
      assert CheckRaises(fields, group[i], kind, scheme);
    }
  }

  /** The warnings `check` returns for 1.2 metadata when nothing raises: predicate fields, `Requires-Python`, then `Version`. */
  function ExpectedWarnings(fields: map<String, Value>, scheme: Scheme): seq<String>
  {
    FlaggedWarnings(fields, PredicateFields, Constraints, scheme) +
    FlaggedWarnings(fields, VersionsFields, ConstraintList, scheme) +
    FlaggedWarnings(fields, VersionFields, VersionCheck, scheme)
  }

  /** Some field of the group raises when `check` reads or checks it. */
  predicate GroupRaises(fields: map<String, Value>, group: seq<String>, kind: Controller, scheme: Scheme)
  {
    exists i :: 0 <= i < |group| && CheckRaises(fields, group[i], kind, scheme)
  }

  /** Some field of the three groups `check` examines for 1.2 metadata raises. */
  predicate WarningsRaise(fields: map<String, Value>, scheme: Scheme)
  {
    GroupRaises(fields, PredicateFields, Constraints, scheme) ||
    GroupRaises(fields, VersionsFields, ConstraintList, scheme) ||
    GroupRaises(fields, VersionFields, VersionCheck, scheme)
  }

  /** A group's checks succeed iff none of its fields raises, with the warnings about its flagged fields. */
  lemma GroupRaisesMeaning(fields: map<String, Value>, group: seq<String>, kind: Controller, scheme: Scheme)
    ensures GroupWarnings(fields, group, kind, scheme).Ok? <==> !GroupRaises(fields, group, kind, scheme)
    ensures GroupWarnings(fields, group, kind, scheme).Ok? ==>
      GroupWarnings(fields, group, kind, scheme).value == FlaggedWarnings(fields, group, kind, scheme)
  {
    GroupWarningsMeaning(fields, group, kind, scheme);
  }

  /** The warnings of `check` for 1.2 metadata: predicate fields, `Requires-Python`, then `Version`. */
  function Warnings(fields: map<String, Value>, scheme: Scheme): Result<seq<String>, MetadataError>
  {
    match GroupWarnings(fields, PredicateFields, Constraints, scheme)
    case Err(e) => Err(e)
    case Ok(w1) =>
      match GroupWarnings(fields, VersionsFields, ConstraintList, scheme)
      case Err(e) => Err(e)
      case Ok(w2) =>
        match GroupWarnings(fields, VersionFields, VersionCheck, scheme)
        case Err(e) => Err(e)
        case Ok(w3) => Ok(w1 + w2 + w3)
  }

  /** The 1.2 warnings are the flagged fields of the three groups in order, unless one of them raises. */
  lemma WarningsMeaning(fields: map<String, Value>, scheme: Scheme)
    ensures Warnings(fields, scheme).Ok? <==> !WarningsRaise(fields, scheme)
    ensures Warnings(fields, scheme).Ok? ==> Warnings(fields, scheme).value == ExpectedWarnings(fields, scheme)
  {
    GroupRaisesMeaning(fields, PredicateFields, Constraints, scheme);
    GroupRaisesMeaning(fields, VersionsFields, ConstraintList, scheme);
    GroupRaisesMeaning(fields, VersionFields, VersionCheck, scheme);
  }

  /**
   * `check(strict)` once the version is set: the missing names among `Name` and `Version`
   * (an error when strict) and then `Home-page` and `Author`, and for 1.2 metadata the warnings.
   */
  function CheckReport(fields: map<String, Value>, strict: bool, scheme: Scheme): (r: Result<(seq<String>, seq<String>), MetadataError>)
    ensures strict && !(Contains(fields, "Name") && Contains(fields, "Version"))
      ==> r == Err(MissingError(Missing(fields, ["Name", "Version"])))
    ensures r.Ok? ==> forall a :: a in r.value.0 <==> a in ["Name", "Version", "Home-page", "Author"] && !Contains(fields, a)
    ensures r.Ok? && GetField(fields, "Metadata-Version", None) != Ok(Str("1.2")) ==> r.value.1 == []
  {
    var required := Missing(fields, ["Name", "Version"]);
    if strict && required != [] then Err(MissingError(required))
    else
      var missing := required + Missing(fields, ["Home-page", "Author"]);
      if GetField(fields, "Metadata-Version", None) != Ok(Str("1.2")) then Ok((missing, []))
      else
        match Warnings(fields, scheme)
        case Err(e) => Err(e)
        case Ok(ws) => Ok((missing, ws))
  }

  /**
   * For 1.2 metadata, `check` returns the warnings about the flagged fields of the three groups
   * in order, and raises past the missing names exactly when reading or checking one of them raises.
   */
  lemma CheckReportWarnings(fields: map<String, Value>, strict: bool, scheme: Scheme)
    requires GetField(fields, "Metadata-Version", None) == Ok(Str("1.2"))
    ensures CheckReport(fields, strict, scheme).Ok? ==> CheckReport(fields, strict, scheme).value.1 == ExpectedWarnings(fields, scheme)
    ensures !(strict && !(Contains(fields, "Name") && Contains(fields, "Version"))) ==>
      (CheckReport(fields, strict, scheme).Ok? <==> !WarningsRaise(fields, scheme))
  {
    var r := CheckReport(fields, strict, scheme);
    var required := Missing(fields, ["Name", "Version"]);
    if strict && required != [] {
      assert required[0] in required;
      assert !(Contains(fields, "Name") && Contains(fields, "Version"));
    } else {
      assert r.Ok? <==> Warnings(fields, scheme).Ok?;
      assert r.Ok? ==> r.value.1 == Warnings(fields, scheme).value;
      WarningsMeaning(fields, scheme);
    }
  }

  /** `set_metadata_version()`: the fields with the version `_best_version` picks, or its conflict. */
  function WithBestVersion(fields: map<String, Value>): Result<map<String, Value>, MetadataError>
  {
    match BestVersionOf(UsedKeys(fields))
    case Err(e) => Err(e)
    case Ok(v) => Ok(fields["Metadata-Version" := Str(v.Name())])
  }

  /**
   * The fields of the `LegacyMetadata` that `Metadata(mapping=...)` builds from a mapping that
   * is not 2.0 metadata: `update(mapping)`, `set_metadata_version()`, then `check(True)`, which
   * sets the version once more; the first of them to raise decides the error.
   */
  function LegacyBuild(mapping: seq<Entry>, scheme: Scheme): Result<map<String, Value>, MetadataError>
  {
    var u := UpdateFields(map[], mapping);
    if u.1.Some? then Err(u.1.value)
    else
      match WithBestVersion(u.0)
      case Err(e) => Err(e)
      case Ok(f1) =>
        match WithBestVersion(f1)
        case Err(e) => Err(e)
        case Ok(f2) =>
          match CheckReport(f2, true, scheme)
          case Err(e) => Err(e)
          case Ok(_) => Ok(f2)
  }

  /**
   * A mapping that builds legacy metadata gives it converted keys, a `Name` and a `Version`,
   * and a `Metadata-Version` naming one of the four versions.
   */
  lemma LegacyBuildValid(mapping: seq<Entry>, scheme: Scheme)
    requires LegacyBuild(mapping, scheme).Ok?
    ensures var f := LegacyBuild(mapping, scheme).value;
      CanonicalKeys(f) && Contains(f, "Name") && Contains(f, "Version") &&
      "Metadata-Version" in f && exists v: Version :: f["Metadata-Version"] == Str(v.Name())
  {
    UpdateFieldsKeys(map[], mapping);
    var f1 := WithBestVersion(UpdateFields(map[], mapping).0).value;
    var f2 := WithBestVersion(f1).value;
    var v := BestVersionOf(UsedKeys(f1)).value;
    assert f2["Metadata-Version"] == Str(v.Name());
  }


  /** The 1.1 fields `add_requirements` drops: setuptools requirements cannot go with them. */
  const Fields11Requirements: seq<String> := ["Obsoletes", "Requires", "Provides"]

  /** The three names are field names already. */
  lemma Fields11Converted(i: nat)
    requires i < |Fields11Requirements|
    ensures ConvertName(Fields11Requirements[i]) == Fields11Requirements[i]
  {
    assert Fields11Requirements[i] in AllFields;
  }

  /**
   * `add_requirements(requirements)`: 1.1 metadata first loses `Obsoletes`, `Requires` and
   * `Provides`; then `Requires-Dist` is extended by the requirements.
   */
  function AddRequirementsFields(fields: map<String, Value>, reqs: seq<Value>): (r: Result<map<String, Value>, MetadataError>)
  {
    var f1 := if GetField(fields, "Metadata-Version", None) == Ok(Str("1.1")) then fields - {"Obsoletes", "Requires", "Provides"} else fields;
    match GetField(f1, "Requires-Dist", None)
    case Err(e) => Err(e)
    case Ok(cur) =>
      match cur
      case List(xs) => SetField(f1, "Requires-Dist", List(xs + reqs))
      case _ => Err(ValueShapeError("Requires-Dist"))
  }

  /** `get` only looks at the entry of the converted name. */
  lemma GetFieldSameEntry(f: map<String, Value>, g: map<String, Value>, name: String, default: Option<Value>)
    requires (ConvertName(name) in f) == (ConvertName(name) in g)
    requires ConvertName(name) in f ==> f[ConvertName(name)] == g[ConvertName(name)]
    ensures GetField(f, name, default) == GetField(g, name, default)
  {
  }

  /** After `add_requirements`, `Requires-Dist` reads as the old requirements followed by the new ones. */
  lemma AddRequirementsAppends(fields: map<String, Value>, reqs: seq<Value>)
    requires AddRequirementsFields(fields, reqs).Ok?
    ensures GetField(fields, "Requires-Dist", None).Ok?
    ensures GetField(AddRequirementsFields(fields, reqs).value, "Requires-Dist", None)
      == Ok(List(GetField(fields, "Requires-Dist", None).value.items + reqs))
  {
    RequiresDistKind();
    var f1 := if GetField(fields, "Metadata-Version", None) == Ok(Str("1.1")) then fields - {"Obsoletes", "Requires", "Provides"} else fields;
    assert "Requires-Dist" !in {"Obsoletes", "Requires", "Provides"};
    GetFieldSameEntry(f1, fields, "Requires-Dist", None);
    var xs := GetField(f1, "Requires-Dist", None).value.items;
    SetGetListItems(f1, "Requires-Dist", List(xs + reqs));
  }

  /** 1.1 metadata loses its `Obsoletes`, `Requires` and `Provides` fields. */
  lemma AddRequirementsDrops11(fields: map<String, Value>, reqs: seq<Value>)
    requires AddRequirementsFields(fields, reqs).Ok?
    requires GetField(fields, "Metadata-Version", None) == Ok(Str("1.1"))
    ensures forall f :: f in Fields11Requirements ==> f !in AddRequirementsFields(fields, reqs).value
  {
    RequiresDistKind();
    assert "Requires-Dist" !in {"Obsoletes", "Requires", "Provides"};
  }

  /** `get('Requires-Dist')` returns a list whenever it does not fail. */
  lemma RequiresDistIsList(fields: map<String, Value>)
    ensures GetField(fields, "Requires-Dist", None).Ok? ==> GetField(fields, "Requires-Dist", None).value.List?
  {
    RequiresDistKind();
  }

  /** `get` of a list field returns a list whenever it does not fail. */
  lemma ListFieldReadsList(fields: map<String, Value>, name: String)
    requires name in AllFields && name in ListFields
    ensures GetField(fields, name, None).Ok? ==> GetField(fields, name, None).value.List?
  {
  }

  /** `Requires-Dist` is a field name and a list field, other than `Project-URL`. */
  lemma RequiresDistKind()
    ensures ConvertName("Requires-Dist") == "Requires-Dist"
    ensures "Requires-Dist" in ListFields && "Requires-Dist" !in ListTupleFields
  {
    assert "Requires-Dist" in Fields345;
  }
}
