/**
 * The field tables of the four metadata formats — 1.0 (PEP 241), 1.1 (PEP 314), 1.2 (PEP 345)
 * and 2.0 (the PEP 426 draft) — and the pure functions of distlib/metadata.py built on them:
 * version detection, field-name canonicalisation, per-field defaults, the continuation-line
 * escape of `Description` and the filename-safe `name-version` string.
 */
module MetadataFields {
  import opened Text
  import opened Wrappers
  import opened PyValue

  /** The exceptions of distlib/metadata.py. */
  datatype MetadataError =
    | MissingError(missing: seq<String>)
    | ConflictError(reason: String)
    | UnrecognizedVersionError(version: String)
    | InvalidError(key: String)
      /** A Python `TypeError`/`AttributeError`/`KeyError` raised by an operation on a value of the wrong shape. */
    | ValueShapeError(field: String)
    | KeyMissing(key: String)
    | NotImplemented

  const Fields241: seq<String> := ["Metadata-Version", "Name", "Version", "Platform",
    "Summary", "Description", "Keywords", "Home-page", "Author", "Author-email", "License"]

  const Fields314: seq<String> := ["Metadata-Version", "Name", "Version", "Platform",
    "Supported-Platform", "Summary", "Description", "Keywords", "Home-page", "Author",
    "Author-email", "License", "Classifier", "Download-URL", "Obsoletes", "Provides", "Requires"]

  const Markers314: seq<String> := ["Obsoletes", "Provides", "Requires", "Classifier", "Download-URL"]

  const Fields345: seq<String> := ["Metadata-Version", "Name", "Version", "Platform",
    "Supported-Platform", "Summary", "Description", "Keywords", "Home-page", "Author",
    "Author-email", "Maintainer", "Maintainer-email", "License", "Classifier", "Download-URL",
    "Obsoletes-Dist", "Project-URL", "Provides-Dist", "Requires-Dist", "Requires-Python",
    "Requires-External"]

  const Markers345: seq<String> := ["Provides-Dist", "Requires-Dist", "Requires-Python",
    "Obsoletes-Dist", "Requires-External", "Maintainer", "Maintainer-email", "Project-URL"]

  const Fields426: seq<String> := Fields426a + Fields426b + Fields426c

  // `_426_FIELDS` in three runs of nine names.
  const Fields426a: seq<String> := ["Metadata-Version", "Name", "Version", "Platform",
    "Supported-Platform", "Summary", "Description", "Keywords", "Home-page"]
  const Fields426b: seq<String> := ["Author", "Author-email", "Maintainer", "Maintainer-email",
    "License", "Classifier", "Download-URL", "Obsoletes-Dist", "Project-URL"]
  const Fields426c: seq<String> := ["Provides-Dist", "Requires-Dist", "Requires-Python",
    "Requires-External", "Private-Version", "Obsoleted-By", "Setup-Requires-Dist", "Extension",
    "Provides-Extra"]

  const Markers426: seq<String> := ["Private-Version", "Provides-Extra", "Obsoleted-By",
    "Setup-Requires-Dist", "Extension"]

  /** `_ALL_FIELDS`, written out; `AllFieldsUnion` shows it is the union of the four field lists. */
  const AllFields: set<String> := {
    "Metadata-Version", "Name", "Version", "Platform", "Summary", "Description", "Keywords",
    "Home-page", "Author", "Author-email", "License", "Supported-Platform", "Classifier",
    "Download-URL", "Obsoletes", "Provides", "Requires", "Maintainer", "Maintainer-email",
    "Obsoletes-Dist", "Project-URL", "Provides-Dist", "Requires-Dist", "Requires-Python",
    "Requires-External", "Private-Version", "Obsoleted-By", "Setup-Requires-Dist", "Extension",
    "Provides-Extra"}

  /** Attribute-style names (`home_page`) and the field each stands for (`Home-page`). */
  const Attr2Field: map<String, String> := map[
    "metadata_version" := "Metadata-Version", "name" := "Name", "version" := "Version",
    "platform" := "Platform", "supported_platform" := "Supported-Platform",
    "summary" := "Summary", "description" := "Description", "keywords" := "Keywords",
    "home_page" := "Home-page", "author" := "Author", "author_email" := "Author-email",
    "maintainer" := "Maintainer", "maintainer_email" := "Maintainer-email",
    "license" := "License", "classifier" := "Classifier", "download_url" := "Download-URL",
    "obsoletes_dist" := "Obsoletes-Dist", "provides_dist" := "Provides-Dist",
    "requires_dist" := "Requires-Dist", "setup_requires_dist" := "Setup-Requires-Dist",
    "requires_python" := "Requires-Python", "requires_external" := "Requires-External",
    "requires" := "Requires", "provides" := "Provides", "obsoletes" := "Obsoletes",
    "project_url" := "Project-URL", "private_version" := "Private-Version",
    "obsoleted_by" := "Obsoleted-By", "extension" := "Extension",
    "provides_extra" := "Provides-Extra"]

  const PredicateFields: seq<String> := ["Requires-Dist", "Obsoletes-Dist", "Provides-Dist"]
  const VersionsFields: seq<String> := ["Requires-Python"]
  const VersionFields: seq<String> := ["Version"]
  const ListFields: seq<String> := ["Platform", "Classifier", "Obsoletes", "Requires",
    "Provides", "Obsoletes-Dist", "Provides-Dist", "Requires-Dist", "Requires-External",
    "Project-URL", "Supported-Platform", "Setup-Requires-Dist", "Provides-Extra", "Extension"]
  const ListTupleFields: seq<String> := ["Project-URL"]
  const ElementsFields: seq<String> := ["Keywords"]
  const UnicodeFields: seq<String> := ["Author", "Maintainer", "Summary", "Description"]

  /** The text fields are neither list fields nor `Keywords`, and `Keywords` is no list field. */
  lemma FieldKindsDisjoint()
    ensures forall f :: f in UnicodeFields ==> f !in ListFields && f !in ElementsFields
    ensures forall f :: f in ElementsFields ==> f !in ListFields
    ensures ListTupleFields == ["Project-URL"] && "Project-URL" in ListFields && "Platform" in ListFields
  {
  }

  /** The four metadata versions. */
  datatype Version = V1_0 | V1_1 | V1_2 | V2_0 {
    /** The version's `Metadata-Version` string. */
    function Name(): String
    {
      match this
      case V1_0 => "1.0"
      case V1_1 => "1.1"
      case V1_2 => "1.2"
      case V2_0 => "2.0"
    }

    /** The version's field list (`_241_FIELDS`, ...). */
    function Fields(): seq<String>
    {
      match this
      case V1_0 => Fields241
      case V1_1 => Fields314
      case V1_2 => Fields345
      case V2_0 => Fields426
    }

    function FieldSet(): set<String> { set f | f in Fields() }
  }

  const Versions: seq<Version> := [V1_0, V1_1, V1_2, V2_0]

  /** `PKG_INFO_PREFERRED_VERSION` */
  const PreferredVersion: Version := V1_1

  /** Reading a `Metadata-Version` string. */
  function ParseVersion(version: String): (r: Option<Version>)
    ensures r.Some? ==> r.value.Name() == version
    ensures forall v: Version :: v.Name() == version ==> r == Some(v)
  {
    if version == "1.0" then Some(V1_0)
    else if version == "1.1" then Some(V1_1)
    else if version == "1.2" then Some(V1_2)
    else if version == "2.0" then Some(V2_0)
    else None
  }

  /** `_version2fieldlist`: the field list of a version, and an error for any other string. */
  function VersionFieldList(version: String): (r: Result<seq<String>, MetadataError>)
    ensures r.Ok? <==> exists v: Version :: v.Name() == version
    ensures r.Ok? ==> exists v: Version :: v.Name() == version && r.value == v.Fields()
    ensures r.Err? ==> r.error == UnrecognizedVersionError(version)
  {
    match ParseVersion(version)
    case Some(v) => Ok(v.Fields())
    case None => Err(UnrecognizedVersionError(version))
  }

  // ----- _best_version -----

  /** The values `_best_version` treats as "not set": `[]`, `'UNKNOWN'` and `None`. */
  predicate IsUnsetValue(v: Value)
  {
    v == List([]) || v == Str("UNKNOWN") || v == NoneV
  }

  /** The keys `_best_version` takes into account. */
  function UsedKeys(fields: map<String, Value>): set<String>
  {
    set k | k in fields && !IsUnsetValue(fields[k])
  }

  /** The sublist of 1.0, 1.1, 1.2, 2.0 (in that order) whose flags are set. */
  function Pack(b0: bool, b1: bool, b2: bool, b3: bool): seq<Version>
  {
    (if b0 then [V1_0] else []) + (if b1 then [V1_1] else [])
    + (if b2 then [V1_2] else []) + (if b3 then [V2_0] else [])
  }

  /** The versions whose field list holds every key of `used`, in the order 1.0, 1.1, 1.2, 2.0. */
  function PossibleVersions(used: set<String>): seq<Version>
  {
    Pack(used <= V1_0.FieldSet(), used <= V1_1.FieldSet(), used <= V1_2.FieldSet(), used <= V2_0.FieldSet())
  }

  /** `_has_marker` */
  predicate HasMarker(used: set<String>, markers: seq<String>)
  {
    exists m :: m in markers && m in used
  }

  /** The version `_best_version` picks for a set of used keys: its reference definition. */
  function BestVersionOf(used: set<String>): Result<Version, MetadataError>
  {
    var possible := PossibleVersions(used);
    if |possible| == 1 then Ok(possible[0])
    else if |possible| == 0 then Err(ConflictError("Unknown metadata set"))
    else
      var is11 := V1_1 in possible && HasMarker(used, Markers314);
      var is12 := V1_2 in possible && HasMarker(used, Markers345);
      var is20 := V2_0 in possible && HasMarker(used, Markers426);
      if (if is11 then 1 else 0) + (if is12 then 1 else 0) + (if is20 then 1 else 0) > 1 then
        Err(ConflictError("You used incompatible 1.1/1.2/2.0 fields"))
      else if !is11 && !is12 && !is20 && PreferredVersion in possible then Ok(PreferredVersion)
      else if is11 then Ok(V1_1)
      else if is12 then Ok(V1_2)
      else Ok(V2_0)
  }

  /** Every field of 1.0 is a field of 1.1 and of 1.2, and every field of 1.2 one of 2.0. */
  lemma FieldListsNest()
    ensures V1_0.FieldSet() <= V1_1.FieldSet()
    ensures V1_0.FieldSet() <= V1_2.FieldSet()
    ensures V1_2.FieldSet() <= V2_0.FieldSet()
  {
    assert forall f :: f in Fields241 ==> f in Fields314 && f in Fields345;
    assert forall f :: f in Fields345 ==> f in Fields426;
  }

  /** A version `_best_version` returns holds every used key, and it is never 1.0. */
  lemma {:induction false} BestVersionSound(used: set<String>)
    ensures BestVersionOf(used).Ok? ==>
      var v := BestVersionOf(used).value;
      v != V1_0 && used <= v.FieldSet()
  {
    FieldListsNest();
    var possible := PossibleVersions(used);
    assert forall v :: v in possible ==> used <= v.FieldSet();
    if used <= V1_0.FieldSet() {
      assert |possible| == 4;
    }
  }

  /**
   * `_best_version` fails exactly when no version holds every used key, or when markers of
   * more than one of 1.1, 1.2 and 2.0 are present while more than one version is possible.
   */
  lemma BestVersionConflict(used: set<String>)
    ensures BestVersionOf(used).Err? <==>
      (forall v: Version :: !(used <= v.FieldSet()))
      || (|PossibleVersions(used)| > 1
          && (if used <= V1_1.FieldSet() && HasMarker(used, Markers314) then 1 else 0)
           + (if used <= V1_2.FieldSet() && HasMarker(used, Markers345) then 1 else 0)
           + (if used <= V2_0.FieldSet() && HasMarker(used, Markers426) then 1 else 0) > 1)
  {
    var b0, b1, b2, b3 := used <= V1_0.FieldSet(), used <= V1_1.FieldSet(), used <= V1_2.FieldSet(), used <= V2_0.FieldSet();
    PackHolds(b0, b1, b2, b3);
    PackEmpty(b0, b1, b2, b3);
    assert (forall v: Version :: !(used <= v.FieldSet())) <==> !b0 && !b1 && !b2 && !b3 by {
      if !b0 && !b1 && !b2 && !b3 {
        forall v: Version ensures !(used <= v.FieldSet()) {
          assert v == V1_0 || v == V1_1 || v == V1_2 || v == V2_0;
        }
      }
    }
  }

  /** A packed list is empty iff no flag is set. */
  lemma PackEmpty(b0: bool, b1: bool, b2: bool, b3: bool)
    ensures |Pack(b0, b1, b2, b3)| == 0 <==> !b0 && !b1 && !b2 && !b3
  {
  }

  /** With no used field, `_best_version` falls back to the preferred version 1.1. */
  lemma BestVersionEmpty()
    ensures BestVersionOf({}) == Ok(PreferredVersion)
  {
  }

  /** `list.remove(x)`: drops the first occurrence of `x`. */
  function RemoveFirst(xs: seq<Version>, x: Version): seq<Version>
  {
    if xs == [] then [] else if xs[0] == x then xs[1..] else [xs[0]] + RemoveFirst(xs[1..], x)
  }

  lemma {:induction false} RemoveFirstAt(a: seq<Version>, x: Version, b: seq<Version>)
    requires x !in a
    ensures RemoveFirst(a + [x] + b, x) == a + b
  {
    if a != [] {
      assert (a + [x] + b)[1..] == a[1..] + [x] + b;
      RemoveFirstAt(a[1..], x, b);
    }
  }

  /** Which versions a packed list holds. */
  lemma PackHolds(b0: bool, b1: bool, b2: bool, b3: bool)
    ensures (V1_0 in Pack(b0, b1, b2, b3)) == b0 && (V1_1 in Pack(b0, b1, b2, b3)) == b1
    ensures (V1_2 in Pack(b0, b1, b2, b3)) == b2 && (V2_0 in Pack(b0, b1, b2, b3)) == b3
  {
    var p := Pack(b0, b1, b2, b3);
    assert forall v :: v in p <==> (v == V1_0 && b0) || (v == V1_1 && b1) || (v == V1_2 && b2) || (v == V2_0 && b3);
  }

  /** Removing 1.0 from a packed list that holds it clears its flag. */
  lemma PackRemove10(b1: bool, b2: bool, b3: bool)
    ensures RemoveFirst(Pack(true, b1, b2, b3), V1_0) == Pack(false, b1, b2, b3)
  {
    var rest := Pack(false, b1, b2, b3);
    assert Pack(true, b1, b2, b3) == [] + [V1_0] + rest;
    RemoveFirstAt([], V1_0, rest);
  }

  /** Removing 1.1 from a packed list that holds it clears its flag. */
  lemma PackRemove11(b0: bool, b2: bool, b3: bool)
    ensures RemoveFirst(Pack(b0, true, b2, b3), V1_1) == Pack(b0, false, b2, b3)
  {
    var p0: seq<Version> := if b0 then [V1_0] else [];
    var p2: seq<Version> := if b2 then [V1_2] else [];
    var p3: seq<Version> := if b3 then [V2_0] else [];
    assert Pack(b0, true, b2, b3) == p0 + [V1_1] + (p2 + p3);
    assert V1_1 !in p0;
    RemoveFirstAt(p0, V1_1, p2 + p3);
    assert Pack(b0, false, b2, b3) == p0 + (p2 + p3);
  }

  /** Removing 1.2 from a packed list that holds it clears its flag. */
  lemma PackRemove12(b0: bool, b1: bool, b3: bool)
    ensures RemoveFirst(Pack(b0, b1, true, b3), V1_2) == Pack(b0, b1, false, b3)
  {
    var p0: seq<Version> := if b0 then [V1_0] else [];
    var p1: seq<Version> := if b1 then [V1_1] else [];
    var p3: seq<Version> := if b3 then [V2_0] else [];
    assert Pack(b0, b1, true, b3) == (p0 + p1) + [V1_2] + p3;
    assert V1_2 !in p0 + p1;
    RemoveFirstAt(p0 + p1, V1_2, p3);
    assert Pack(b0, b1, false, b3) == (p0 + p1) + p3;
  }

  /** Removing 2.0 from a packed list that holds it clears its flag. */
  lemma PackRemove20(b0: bool, b1: bool, b2: bool)
    ensures RemoveFirst(Pack(b0, b1, b2, true), V2_0) == Pack(b0, b1, b2, false)
  {
    var front := Pack(b0, b1, b2, false);
    assert Pack(b0, b1, b2, true) == front + [V2_0] + [];
    assert V2_0 !in front;
    RemoveFirstAt(front, V2_0, []);
    assert front + [] == front;
  }

  /** `_has_marker(keys, markers)` */
  method HasMarkerIn(keys: seq<String>, markers: seq<String>) returns (found: bool)
    ensures found <==> exists m :: m in markers && m in keys
  {
    for i := 0 to |markers|
      invariant forall j :: 0 <= j < i ==> markers[j] !in keys
    {
      if markers[i] in keys {
        return true;
      }
    }
    return false;
  }

  /** The first loop of `_best_version`: the keys whose value is set, in some iteration order of the dictionary. */
  method CollectUsedKeys(fields: map<String, Value>) returns (keys: seq<String>)
    ensures (set k | k in keys) == UsedKeys(fields)
  {
    keys := [];
    var rest := fields.Keys;
    while rest != {}
      invariant rest <= fields.Keys
      invariant forall k :: k in keys <==> k in fields.Keys - rest && !IsUnsetValue(fields[k])
      decreases rest
    {
      var key :| key in rest;
      if !IsUnsetValue(fields[key]) {
        keys := keys + [key];
      }
      rest := rest - {key};
    }
  }

  /** Adding one key to the used set keeps exactly the versions whose field list has it. */
  lemma PossibleVersionsAdd(before: set<String>, key: String)
    ensures PossibleVersions(before + {key}) == Pack(
      before <= V1_0.FieldSet() && key in Fields241, before <= V1_1.FieldSet() && key in Fields314,
      before <= V1_2.FieldSet() && key in Fields345, before <= V2_0.FieldSet() && key in Fields426)
  {
    assert (key in V1_0.FieldSet()) == (key in Fields241);
    assert (key in V1_1.FieldSet()) == (key in Fields314);
    assert (key in V1_2.FieldSet()) == (key in Fields345);
    assert (key in V2_0.FieldSet()) == (key in Fields426);
  }

  /** One pass of the second loop of `_best_version`: strike out the versions lacking `key`. */
  method StrikeOutKey(possible: seq<Version>, key: String, ghost b0: bool, ghost b1: bool, ghost b2: bool, ghost b3: bool)
    returns (rest: seq<Version>)
    requires possible == Pack(b0, b1, b2, b3)
    ensures rest == Pack(b0 && key in Fields241, b1 && key in Fields314, b2 && key in Fields345, b3 && key in Fields426)
  {
    rest := possible;
    PackHolds(b0, b1, b2, b3);
    if key !in Fields241 && V1_0 in rest {
      PackRemove10(b1, b2, b3);
      rest := RemoveFirst(rest, V1_0);
    }
    ghost var c0 := b0 && key in Fields241;
    PackHolds(c0, b1, b2, b3);
    if key !in Fields314 && V1_1 in rest {
      PackRemove11(c0, b2, b3);
      rest := RemoveFirst(rest, V1_1);
    }
    ghost var c1 := b1 && key in Fields314;
    PackHolds(c0, c1, b2, b3);
    if key !in Fields345 && V1_2 in rest {
      PackRemove12(c0, c1, b3);
      rest := RemoveFirst(rest, V1_2);
    }
    ghost var c2 := b2 && key in Fields345;
    PackHolds(c0, c1, c2, b3);
    if key !in Fields426 && V2_0 in rest {
      PackRemove20(c0, c1, c2);
      rest := RemoveFirst(rest, V2_0);
    }
  }

  /** The second loop of `_best_version`: strike out every version whose field list lacks a key. */
  method StrikeOutVersions(keys: seq<String>) returns (possible: seq<Version>)
    ensures possible == PossibleVersions(set k | k in keys)
  {
    possible := Versions;
    ghost var used: set<String> := {};
    for i := 0 to |keys|
      invariant used == Elements(keys[..i])
      invariant possible == PossibleVersions(used)
    {
      possible := StrikeOutKey(possible, keys[i], used <= V1_0.FieldSet(), used <= V1_1.FieldSet(),
        used <= V1_2.FieldSet(), used <= V2_0.FieldSet());
      PossibleVersionsAdd(used, keys[i]);
      ElementsAppend(keys, i);
      used := used + {keys[i]};
    }
    assert keys[..|keys|] == keys;
  }

  /** The elements of a list of keys. */
  function Elements(s: seq<String>): set<String>
  {
    set k | k in s
  }

  /** The elements of a longer prefix. */
  lemma ElementsAppend(keys: seq<String>, i: nat)
    requires i < |keys|
    ensures Elements(keys[..i + 1]) == Elements(keys[..i]) + {keys[i]}
  {
    assert keys[..i + 1] == keys[..i] + [keys[i]];
  }

  /**
   * `_best_version`: collects the keys whose value is set, strikes out every version lacking
   * one of them, then resolves what is left with the marker fields and the preferred version.
   */
  method BestVersion(fields: map<String, Value>) returns (r: Result<Version, MetadataError>)
    ensures r == BestVersionOf(UsedKeys(fields))
  {
    var keys := CollectUsedKeys(fields);
    var possible := StrikeOutVersions(keys);
    ghost var used := UsedKeys(fields);
    assert forall m :: m in keys <==> m in used;
    if |possible| == 1 {
      return Ok(possible[0]);
    } else if |possible| == 0 {
      return Err(ConflictError("Unknown metadata set"));
    }
    var m11 := HasMarkerIn(keys, Markers314);
    var m12 := HasMarkerIn(keys, Markers345);
    var m20 := HasMarkerIn(keys, Markers426);
    var is11 := V1_1 in possible && m11;
    var is12 := V1_2 in possible && m12;
    var is20 := V2_0 in possible && m20;
    if (if is11 then 1 else 0) + (if is12 then 1 else 0) + (if is20 then 1 else 0) > 1 {
      return Err(ConflictError("You used incompatible 1.1/1.2/2.0 fields"));
    }
    if !is11 && !is12 && !is20 && PreferredVersion in possible {
      return Ok(PreferredVersion);
    }
    if is11 {
      return Ok(V1_1);
    }
    if is12 {
      return Ok(V1_2);
    }
    return Ok(V2_0);
  }

  // ----- _convert_name and _default_value -----

  /** A name `_convert_name` leaves as it finds it when it is no field: lower case, no `-`. */
  predicate IsAttributeStyle(n: String)
  {
    forall i :: 0 <= i < |n| ==> !IsUpper(n[i]) && n[i] != '-'
  }

  /** The field names are those of the four field lists (`_ALL_FIELDS` is built as their union). */
  lemma AllFieldsUnion()
    ensures AllFields == set f | f in Fields241 + Fields314 + Fields345 + Fields426
  {
    FieldListsNest();
    assert forall f :: f in Fields314 ==> f in AllFields;
    assert forall f :: f in Fields426 ==> f in AllFields;
  }

  /** The names of a field list all start with a capital letter. */
  predicate Capitalized(names: seq<String>)
  {
    forall f :: f in names ==> f != [] && IsUpper(f[0])
  }

  /** Every field name starts with a capital letter. */
  lemma FieldsCapitalized()
    ensures forall f :: f in AllFields ==> f != [] && IsUpper(f[0])
  {
    forall f | f in AllFields
      ensures f != [] && IsUpper(f[0])
    {
      AllFieldsCover();
      if f in Fields314 {
        FieldLists314Capitalized();
      } else {
        FieldLists426Capitalized();
      }
    }
  }

  /** 1.0 names are 1.1 names and 1.2 names are 2.0 names. */
  lemma AllFieldsCover()
    ensures forall f :: f in AllFields ==> f in Fields314 || f in Fields426
  {
  }
  lemma FieldLists314Capitalized()
    ensures Capitalized(Fields314)
  {
  }
  lemma FieldLists426Capitalized()
    ensures Capitalized(Fields426)
  {
    Fields426Head();
    Fields426Middle();
    Fields426Tail();
  }

  lemma Fields426Head()
    ensures Capitalized(Fields426a)
  {
  }
  lemma Fields426Middle()
    ensures Capitalized(Fields426b)
  {
  }
  lemma Fields426Tail()
    ensures Capitalized(Fields426c)
  {
  }

  // The attribute names, five at a time, in the order of the table.
  lemma AttributesStyled0()
    ensures forall a :: a in ["metadata_version", "name", "version", "platform", "supported_platform"] ==> IsAttributeStyle(a)
  {
  }

  lemma AttributesStyled1()
    ensures forall a :: a in ["summary", "description", "keywords", "home_page", "author"] ==> IsAttributeStyle(a)
  {
  }

  lemma AttributesStyled2()
    ensures forall a :: a in ["author_email", "maintainer", "maintainer_email", "license", "classifier"] ==> IsAttributeStyle(a)
  {
  }

  lemma AttributesStyled3()
    ensures forall a :: a in ["download_url", "obsoletes_dist", "provides_dist", "requires_dist", "setup_requires_dist"] ==> IsAttributeStyle(a)
  {
  }

  lemma AttributesStyled4()
    ensures forall a :: a in ["requires_python", "requires_external", "requires", "provides", "obsoletes"] ==> IsAttributeStyle(a)
  {
  }

  lemma AttributesStyled5()
    ensures forall a :: a in ["project_url", "private_version", "obsoleted_by", "extension", "provides_extra"] ==> IsAttributeStyle(a)
  {
  }

  /** Every attribute name is attribute-style. */
  lemma AttributesStyled()
    ensures forall a :: a in Attr2Field ==> IsAttributeStyle(a)
  {
    AttributesStyled0(); AttributesStyled1(); AttributesStyled2();
    AttributesStyled3(); AttributesStyled4(); AttributesStyled5();
  }

  /** `name` and `version` stand for `Name` and `Version`, which are neither list fields nor `Keywords`. */
  lemma NameVersionAttributes()
    ensures "name" in Attr2Field && Attr2Field["name"] == "Name" && "Name" !in ListFields && "Name" !in ElementsFields
    ensures "version" in Attr2Field && Attr2Field["version"] == "Version" && "Version" !in ListFields && "Version" !in ElementsFields
  {
  }

  /** Every attribute stands for a field. */
  lemma AttributesNameFields()
    ensures forall a :: a in Attr2Field ==> Attr2Field[a] in AllFields
  {
  }

  /** No attribute-style name is a field name. */
  lemma AttributeStyleNotField(n: String)
    requires IsAttributeStyle(n)
    ensures n !in AllFields
  {
    FieldsCapitalized();
  }

  /** `s.replace('-', '_').lower()` is attribute-style, and it leaves an attribute-style name alone. */
  lemma NormalizedAttributeStyle(s: String)
    ensures IsAttributeStyle(Lower(ReplaceChar(s, '-', '_')))
    ensures IsAttributeStyle(s) ==> Lower(ReplaceChar(s, '-', '_')) == s
  {
  }

  /**
   * `_convert_name`: field names stay; other names are lowered, `-` becomes `_`, and attribute
   * names map to their field.  The result is a field name, or an attribute-style name that no
   * attribute stands for.
   */
  function ConvertName(name: String): (r: String)
    ensures name in AllFields ==> r == name
    ensures r in AllFields || (IsAttributeStyle(r) && r !in Attr2Field)
  {
    if name in AllFields then name
    else
      var n := Lower(ReplaceChar(name, '-', '_'));
      NormalizedAttributeStyle(name);
      AttributesNameFields();
      if n in Attr2Field then Attr2Field[n] else n
  }

  /** Converting a converted name changes nothing. */
  lemma ConvertNameIdempotent(name: String)
    ensures ConvertName(ConvertName(name)) == ConvertName(name)
  {
    var r := ConvertName(name);
    if r !in AllFields {
      AttributeStyleNotField(r);
      NormalizedAttributeStyle(r);
    }
  }

  /** Each attribute name converts to the field it stands for. */
  lemma ConvertNameAttribute(a: String)
    requires a in Attr2Field
    ensures ConvertName(a) == Attr2Field[a]
  {
    AttributesStyled();
    AttributeStyleNotField(a);
    NormalizedAttributeStyle(a);
  }

  /** Outside the field names, conversion ignores case. */
  lemma ConvertNameIgnoresCase(name: String)
    requires name !in AllFields
    ensures ConvertName(Lower(name)) == ConvertName(name)
  {
    LowerNotField(name);
    LowerReplaceCommute(name);
  }

  /** A lower-cased name is no field name. */
  lemma LowerNotField(s: String)
    ensures Lower(s) !in AllFields
  {
    var n := Lower(s);
    assert n == [] || !IsUpper(n[0]);
    UncapitalizedNotField(n);
  }

  /** A name that does not start with a capital letter is no field name. */
  lemma UncapitalizedNotField(n: String)
    requires n == [] || !IsUpper(n[0])
    ensures n !in AllFields
  {
    FieldsCapitalized();
  }

  /** Lower-casing first changes nothing in the attribute-style spelling. */
  lemma LowerReplaceCommute(s: String)
    ensures Lower(ReplaceChar(Lower(s), '-', '_')) == Lower(ReplaceChar(s, '-', '_'))
  {
  }

  /** `_default_value`: the value `get` returns for an absent field. */
  function DefaultValue(name: String): (r: Value)
    ensures r == List([]) <==> name in ListFields || name in ElementsFields
    ensures r != List([]) ==> r == Str("UNKNOWN")
  {
    if name in ListFields || name in ElementsFields then List([]) else Str("UNKNOWN")
  }

  // ----- the Description continuation-line escape -----

  /** The text `_LINE_PREFIX` matches: a newline, seven spaces and a bar. */
  const LinePrefix: String := "\n       |"

  /** `values.replace('\n', '\n       |')` in `write_file`: every newline gets the prefix. */
  function EscapeDescription(s: String): (r: String)
    ensures |r| >= |s|
    ensures s != [] && s[0] != '\n' ==> r != [] && r[0] == s[0]
    ensures s != [] && s[0] == '\n' ==> LinePrefix <= r
  {
    if s == [] then [] else (if s[0] == '\n' then LinePrefix else [s[0]]) + EscapeDescription(s[1..])
  }

  /** `_remove_line_prefix`: each `\n       |`, scanning from the left, becomes `\n`. */
  function RemoveLinePrefix(s: String): (r: String)
    ensures |r| <= |s|
  {
    if s == [] then []
    else if LinePrefix <= s then "\n" + RemoveLinePrefix(s[|LinePrefix|..])
    else [s[0]] + RemoveLinePrefix(s[1..])
  }

  /** Reading back a written `Description` gives the original text. */
  lemma {:induction false} RemoveEscapedLinePrefix(s: String)
    ensures RemoveLinePrefix(EscapeDescription(s)) == s
  {
    if s != [] {
      RemoveEscapedLinePrefix(s[1..]);
      var e := EscapeDescription(s);
      if s[0] == '\n' {
        assert e[|LinePrefix|..] == EscapeDescription(s[1..]);
      } else {
        assert e[0] != LinePrefix[0];
        assert e[1..] == EscapeDescription(s[1..]);
      }
    }
  }

  // ----- _get_name_and_version -----

  /** The characters `_FILESAFE` leaves alone: `[A-Za-z0-9.]`. */
  predicate FileSafeChar(c: char) { IsAlnum(c) || c == '.' }

  /** `s` with its leading run of unsafe characters removed. */
  function DropUnsafe(s: String): (r: String)
    ensures |r| <= |s| && r == s[|s| - |r|..]
    ensures r != [] ==> FileSafeChar(r[0])
  {
    if s != [] && !FileSafeChar(s[0]) then
      var r := DropUnsafe(s[1..]);
      assert s[1..][|s| - 1 - |r|..] == s[|s| - |r|..];
      r
    else s
  }

  /** What `_FILESAFE.sub` produces: safe characters and single `-`s. */
  predicate IsFileSafe(s: String)
  {
    && (forall i :: 0 <= i < |s| ==> FileSafeChar(s[i]) || s[i] == '-')
    && (forall i :: 0 <= i < |s| - 1 ==> !(s[i] == '-' && s[i + 1] == '-'))
  }

  /** `_FILESAFE.sub('-', s)`: every run of characters outside `[A-Za-z0-9.]` becomes one `-`. */
  function FileSafe(s: String): (r: String)
    ensures IsFileSafe(r)
    ensures r == [] <==> s == []
    ensures s != [] && FileSafeChar(s[0]) ==> r[0] == s[0]
    ensures s != [] && !FileSafeChar(s[0]) ==> r[0] == '-'
    decreases |s|
  {
    if s == [] then []
    else if FileSafeChar(s[0]) then [s[0]] + FileSafe(s[1..])
    else "-" + FileSafe(DropUnsafe(s))
  }

  /** The safe characters of `s`, in order. */
  function SafePart(s: String): (r: String)
    ensures forall i :: 0 <= i < |r| ==> FileSafeChar(r[i])
  {
    if s == [] then [] else (if FileSafeChar(s[0]) then [s[0]] else []) + SafePart(s[1..])
  }

  lemma {:induction false} SafePartConcat(a: String, b: String)
    ensures SafePart(a + b) == SafePart(a) + SafePart(b)
  {
    if a == [] {
      assert a + b == b;
    } else {
      assert (a + b)[1..] == a[1..] + b;
      SafePartConcat(a[1..], b);
    }
  }

  lemma {:induction false} SafePartDropUnsafe(s: String)
    ensures SafePart(DropUnsafe(s)) == SafePart(s)
    decreases |s|
  {
    if s != [] && !FileSafeChar(s[0]) {
      SafePartDropUnsafe(s[1..]);
    }
  }

  /** A safe first character is kept, by the input and by its substitution alike. */
  lemma FileSafeSafeHead(s: String)
    requires s != [] && FileSafeChar(s[0])
    ensures SafePart(s) == [s[0]] + SafePart(s[1..])
    ensures SafePart(FileSafe(s)) == [s[0]] + SafePart(FileSafe(s[1..]))
  {
    assert FileSafe(s) == [s[0]] + FileSafe(s[1..]);
    SafePartConcat([s[0]], FileSafe(s[1..]));
  }

  /** The `-` that replaces a run is not a safe character. */
  lemma SafePartDash(x: String)
    ensures SafePart("-" + x) == SafePart(x)
  {
    assert ("-" + x)[0] == '-' && ("-" + x)[1..] == x;
  }

  /** A run of unsafe characters at the front contributes nothing, before or after the substitution. */
  lemma FileSafeUnsafeHead(s: String)
    requires s != [] && !FileSafeChar(s[0])
    ensures SafePart(s) == SafePart(DropUnsafe(s))
    ensures SafePart(FileSafe(s)) == SafePart(FileSafe(DropUnsafe(s)))
  {
    SafePartDropUnsafe(s);
    SafePartDash(FileSafe(DropUnsafe(s)));
  }

  /** The substitution keeps every safe character, in order, and drops only unsafe ones. */
  lemma {:induction false} FileSafeKeepsSafePart(s: String)
    ensures SafePart(FileSafe(s)) == SafePart(s)
    decreases |s|
  {
    if s != [] {
      if FileSafeChar(s[0]) {
        FileSafeKeepsSafePart(s[1..]);
        FileSafeSafeHead(s);
      } else {
        FileSafeKeepsSafePart(DropUnsafe(s));
        FileSafeUnsafeHead(s);
      }
    }
  }

  /** A string that is already file-safe is left unchanged; so the substitution is idempotent. */
  lemma {:induction false} FileSafeFixes(s: String)
    requires IsFileSafe(s)
    ensures FileSafe(s) == s
    decreases |s|
  {
    if s != [] {
      assert IsFileSafe(s[1..]);
      FileSafeFixes(s[1..]);
      if !FileSafeChar(s[0]) {
        assert DropUnsafe(s) == s[1..];
      }
    }
  }

  lemma FileSafeIdempotent(s: String)
    ensures FileSafe(FileSafe(s)) == FileSafe(s)
  {
    FileSafeFixes(FileSafe(s));
  }

  /** `_get_name_and_version` */
  function NameAndVersion(name: String, version: String, forFilename: bool): String
  {
    if forFilename then FileSafe(name) + "-" + FileSafe(ReplaceChar(version, ' ', '.'))
    else name + "-" + version
  }

  /**
   * The filename form is made of safe characters and `-` only, holds no space, and escaping
   * an already escaped name and version changes nothing.
   */
  lemma NameAndVersionFileSafe(name: String, version: String)
    ensures forall c :: c in NameAndVersion(name, version, true) ==> FileSafeChar(c) || c == '-'
    ensures ' ' !in NameAndVersion(name, version, true)
    ensures NameAndVersion(FileSafe(name), FileSafe(ReplaceChar(version, ' ', '.')), true)
      == NameAndVersion(name, version, true)
  {
    var n := FileSafe(name);
    var v := FileSafe(ReplaceChar(version, ' ', '.'));
    FileSafeChars(n);
    FileSafeChars(v);
    var r := n + "-" + v;
    assert forall c :: c in r ==> c in n || c == '-' || c in v;
    FileSafeIdempotent(name);
    FileSafeIdempotent(ReplaceChar(version, ' ', '.'));
    ReplaceAbsent(v, ' ', '.');
  }

  /** Every character of a substituted string is safe or `-`, so none is a space. */
  lemma FileSafeChars(s: String)
    ensures forall c :: c in FileSafe(s) ==> FileSafeChar(c) || c == '-'
    ensures ' ' !in FileSafe(s)
  {
    var r := FileSafe(s);
    forall c | c in r ensures FileSafeChar(c) || c == '-' {
      var i :| 0 <= i < |r| && r[i] == c;
    }
  }

  /** Replacing a character that does not occur changes nothing. */
  lemma ReplaceAbsent(s: String, c: char, d: char)
    requires c !in s
    ensures ReplaceChar(s, c, d) == s
  {
  }
}
