/**
 * `LegacyMetadata`: the key-value metadata of a release (formats 1.0 to 2.0), kept in a
 * dictionary of fields that its methods update in place.
 */
module LegacyMetadataClass {
  import opened Text
  import opened Wrappers
  import opened PyValue
  import opened MetadataFields
  import opened LegacyFields

  class LegacyMetadata {
    /** `_fields`: field name to value. */
    var fields: map<String, Value>
    /** The name of the version scheme; `check` is given the checks it names. */
    const scheme: String

    /** Fields are stored under their converted names only. */
    ghost predicate Valid()
      reads this
    {
      CanonicalKeys(fields)
    }

    /** `LegacyMetadata(scheme=scheme)` without a path, file or mapping: no fields. */
    constructor (scheme: String)
      ensures Valid() && fields == map[] && this.scheme == scheme
    {
      fields := map[];
      this.scheme := scheme;
    }

    /** `set_metadata_version`: stores the version `_best_version` picks, or raises its conflict. */
    method SetMetadataVersion() returns (err: Option<MetadataError>)
      requires Valid()
      modifies this
      ensures Valid()
      ensures BestVersionOf(UsedKeys(old(fields))).Ok? ==>
        err == None && fields == old(fields)["Metadata-Version" := Str(BestVersionOf(UsedKeys(old(fields))).value.Name())]
      ensures BestVersionOf(UsedKeys(old(fields))).Err? ==>
        err == Some(BestVersionOf(UsedKeys(old(fields))).error) && fields == old(fields)
    {
      var r := BestVersion(fields);
      match r
      case Ok(v) =>
        assert ConvertName("Metadata-Version") == "Metadata-Version";
        fields := fields["Metadata-Version" := Str(v.Name())];
        err := None;
      case Err(e) =>
        err := Some(e);
    }

    /** `set(name, value)`: stores the normalised value under the converted name. */
    method Set(name: String, value: Value) returns (err: Option<MetadataError>)
      requires Valid()
      modifies this
      ensures Valid()
      ensures SetField(old(fields), name, value).Ok? ==> err == None && fields == SetField(old(fields), name, value).value
      ensures SetField(old(fields), name, value).Err? ==>
        err == Some(SetField(old(fields), name, value).error) && fields == old(fields)
    {
      SetFieldCanonical(fields, name, value);
      var n := ConvertName(name);
      var v := value;
      if (n in ElementsFields || n == "Platform") && !IsSequence(v) {
        if v.Str? {
          v := List(CommaPieces(v.s));
        } else {
          v := List([]);
        }
      } else if n in ListFields && !IsSequence(v) {
        if v.Str? {
          v := List([v]);
        } else {
          v := List([]);
        }
      }
      if n in PredicateFields && IsSequence(v) {
        var ok := ItemsSplittable(v.items);
        if !ok {
          return Some(ValueShapeError(n));
        }
      }
      if n in UnicodeFields && n == "Description" {
        if !v.Str? {
          return Some(ValueShapeError(n));
        }
        v := Str(RemoveLinePrefix(v.s));
      }
      fields := fields[n := v];
      return None;
    }

    /**
     * The loop of `set` over a predicate field's items, which, with warnings enabled, splits each
     * item at `;` to check it: it gets through only when every item is a string.
     */
    static method ItemsSplittable(items: seq<Value>) returns (ok: bool)
      ensures ok == AllStrings(items)
    {
      for i := 0 to |items|
        invariant AllStrings(items[..i])
      {
        if !items[i].Str? {
          return false;
        }
      }
      assert items[..|items|] == items;
      return true;
    }

    /** `get(name, default)`; `None` stands for the missing default. */
    method Get(name: String, default: Option<Value>) returns (r: Result<Value, MetadataError>)
      ensures r == GetField(fields, name, default)
    {
      var n := ConvertName(name);
      if n !in fields {
        var d := if default.Some? then default.value else DefaultValue(n);
        return Ok(d);
      }
      FieldKindsDisjoint();
      var value := fields[n];
      if n in UnicodeFields {
        return Ok(value);
      } else if n in ListFields {
        r := ListGetOf(n, value, n in ListTupleFields);
        return;
      } else if n in ElementsFields && value.Str? {
        return Ok(List(CommaSplit(value.s)));
      }
      return Ok(value);
    }

    /** The items `get` returns for a list field holding `value`, each entry a pair when `pairs`. */
    method ListGetOf(n: String, value: Value, pairs: bool) returns (r: Result<Value, MetadataError>)
      ensures r == ListGet(n, value, pairs)
    {
      if value == NoneV {
        return Ok(List([]));
      }
      var items := Iterate(n, value);
      if items.Err? {
        return Err(items.error);
      }
      var vals := items.value;
      if !pairs {
        var res: seq<Value> := [];
        for i := 0 to |vals|
          invariant res == vals[..i]
        {
          res := res + [vals[i]];
        }
        assert vals[..|vals|] == vals;
        return Ok(List(res));
      }
      var ps := UrlPairsOf(n, vals);
      if ps.Err? {
        return Err(ps.error);
      }
      return Ok(List(ps.value));
    }

    /** `(val[0], val[1])` for each entry of `Project-URL`. */
    method UrlPairsOf(n: String, vals: seq<Value>) returns (r: Result<seq<Value>, MetadataError>)
      ensures r == UrlPairs(n, vals)
    {
      var res: seq<Value> := [];
      for i := 0 to |vals|
        invariant UrlPairs(n, vals[..i]) == Ok(res)
      {
        var pair := UrlPair(n, vals[i]);
        UrlPairsStep(n, vals, i);
        if pair.Err? {
          UrlPairsErrExtends(n, vals, i + 1);
          return Err(pair.error);
        }
        res := res + [pair.value];
      }
      assert vals[..|vals|] == vals;
      return Ok(res);
    }

    /** `del metadata[name]`: raises `KeyError(name)` when the converted name is absent. */
    method Delete(name: String) returns (err: Option<MetadataError>)
      requires Valid()
      modifies this
      ensures Valid()
      ensures DeleteField(old(fields), name).Ok? ==> err == None && fields == DeleteField(old(fields), name).value
      ensures DeleteField(old(fields), name).Err? ==> err == Some(KeyMissing(name)) && fields == old(fields)
    {
      var n := ConvertName(name);
      if n !in fields {
        return Some(KeyMissing(name));
      }
      fields := fields - {n};
      return None;
    }

    /** `update(other, **kwargs)`, with `pairs` the items of `other` followed by those of `kwargs`. */
    method Update(pairs: seq<Entry>) returns (err: Option<MetadataError>)
      requires Valid()
      modifies this
      ensures Valid()
      ensures (fields, err) == UpdateFields(old(fields), pairs)
    {
      for i := 0 to |pairs|
        invariant Valid()
        invariant (fields, None) == UpdateFields(old(fields), pairs[..i])
      {
        var p := pairs[i];
        UpdateFieldsStep(old(fields), pairs, i, fields);
        if p.key in Attr2Field && Truthy(p.val) {
          var e := Set(ConvertName(p.key), p.val);
          if e.Some? {
            UpdateFieldsErrExtends(old(fields), pairs, i + 1);
            return e;
          }
        }
      }
      assert pairs[..|pairs|] == pairs;
      return None;
    }

    /** The lines `write_file` writes once the version is set, and the error that stopped it, if any. */
    method WriteFields(skipUnknown: bool) returns (lines: seq<String>, err: Option<MetadataError>)
      ensures (lines, err) == WrittenLines(fields, skipUnknown)
    {
      var keys := KeysOf(fields);
      if keys.Err? {
        return [], Some(keys.error);
      }
      var ks := keys.value;
      lines := [];
      for i := 0 to |ks|
        invariant WriteLines(fields, ks[..i], skipUnknown) == (lines, None)
      {
        var field := ks[i];
        var values := FieldValuesOf(field, skipUnknown);
        WriteLinesStep(fields, ks, skipUnknown, i, lines);
        if values.Err? {
          WriteLinesErrExtends(fields, ks, skipUnknown, i + 1);
          return lines, Some(values.error);
        }
        var more := EmitLines(field, values.value);
        lines := lines + more;
      }
      assert ks[..|ks|] == ks;
      return lines, None;
    }

    /** `_write_field` for each value in turn: one `field: value` line each. */
    method EmitLines(field: String, values: seq<Value>) returns (lines: seq<String>)
      ensures lines == Lines(field, values)
    {
      lines := [];
      for j := 0 to |values|
        invariant lines == Lines(field, values[..j])
      {
        lines := lines + [FieldLine(field, values[j])];
      }
      assert values[..|values|] == values;
    }

    /** The values `write_file` writes for one field, each on a line of its own. */
    method FieldValuesOf(field: String, skipUnknown: bool) returns (r: Result<seq<Value>, MetadataError>)
      ensures r == FieldValues(fields, field, skipUnknown)
    {
      var got := Get(field, None);
      if got.Err? {
        return Err(got.error);
      }
      var values := got.value;
      if skipUnknown && IsUnknownValue(values) {
        return Ok([]);
      }
      if field in ElementsFields {
        var joined := JoinValue(field, values);
        if joined.Err? {
          return Err(joined.error);
        }
        return Ok([Str(joined.value)]);
      }
      if field !in ListFields {
        if field == "Description" {
          if !values.Str? {
            return Err(ValueShapeError(field));
          }
          return Ok([Str(EscapeDescription(values.s))]);
        }
        return Ok([values]);
      }
      var items := Iterate(field, values);
      if items.Err? {
        return Err(items.error);
      }
      if field in ListTupleFields {
        return JoinEach(field, items.value);
      }
      return items;
    }

    /** `write_file(fileobject, skip_unknown)`: sets the version, then the lines written. */
    method WriteFile(skipUnknown: bool) returns (lines: seq<String>, err: Option<MetadataError>)
      requires Valid()
      modifies this
      ensures Valid()
      ensures BestVersionOf(UsedKeys(old(fields))).Err? ==> lines == [] && err == Some(BestVersionOf(UsedKeys(old(fields))).error)
      ensures BestVersionOf(UsedKeys(old(fields))).Ok? ==>
        (lines, err) == WrittenLines(old(fields)["Metadata-Version" := Str(BestVersionOf(UsedKeys(old(fields))).value.Name())], skipUnknown)
      ensures BestVersionOf(UsedKeys(old(fields))).Err? ==> fields == old(fields)
      ensures BestVersionOf(UsedKeys(old(fields))).Ok? ==> fields == old(fields)["Metadata-Version" := Str(BestVersionOf(UsedKeys(old(fields))).value.Name())]
    {
      var e := SetMetadataVersion();
      if e.Some? {
        return [], e;
      }
      lines, err := WriteFields(skipUnknown);
    }

    /** `are_valid_constraints(value)` on the items of a predicate field. */
    method AreValidConstraints(field: String, items: seq<Value>, checks: Scheme) returns (r: Result<bool, MetadataError>)
      ensures r == ValidConstraints(field, items, checks)
    {
      for i := 0 to |items|
        invariant ValidConstraints(field, items, checks) == ValidConstraints(field, items[i..], checks)
      {
        assert items[i..][1..] == items[i + 1..];
        if !items[i].Str? {
          return Err(ValueShapeError(field));
        }
        if !checks.isValidMatcher(Split(items[i].s, ';')[0]) {
          return Ok(false);
        }
      }
      return Ok(true);
    }

    /** The check of one field of a group. */
    method CheckField(field: String, kind: Controller, checks: Scheme) returns (r: Result<Option<String>, MetadataError>)
      ensures r == FieldWarning(fields, field, kind, checks)
    {
      var got := Get(field, Some(NoneV));
      if got.Err? {
        return Err(got.error);
      }
      var value := got.value;
      if value == NoneV {
        return Ok(None);
      }
      var ok: Result<bool, MetadataError>;
      if kind == Constraints {
        var items := Iterate(field, value);
        if items.Err? {
          return Err(items.error);
        }
        ok := AreValidConstraints(field, items.value, checks);
      } else if kind == ConstraintList {
        ok := Ok(checks.isValidConstraintList(value));
      } else {
        ok := Ok(checks.isValidVersion(value));
      }
      if ok.Err? {
        return Err(ok.error);
      }
      if !ok.value {
        return Ok(Some(WrongValue(field, value)));
      }
      return Ok(None);
    }

    /** The warnings for one group of fields of `check`. */
    method CheckGroup(group: seq<String>, kind: Controller, checks: Scheme) returns (r: Result<seq<String>, MetadataError>)
      ensures r == GroupWarnings(fields, group, kind, checks)
    {
      var warnings: seq<String> := [];
      ghost var rs := FieldWarnings(fields, group, kind, checks);
      for i := 0 to |group|
        invariant Collect(rs[..i]) == Ok(warnings)
      {
        var w := CheckField(group[i], kind, checks);
        assert rs[i] == w;
        CollectStep(rs, i);
        if w.Err? {
          CollectErrExtends(rs, i + 1);
          return Err(w.error);
        }
        if w.value.Some? {
          warnings := warnings + [w.value.value];
        } else {
          assert warnings + Said(w) == warnings;
        }
      }
      assert rs[..|group|] == rs;
      return Ok(warnings);
    }

    /** The names among `names` the metadata does not contain. */
    method MissingOf(names: seq<String>) returns (missing: seq<String>)
      ensures missing == Missing(fields, names)
    {
      missing := [];
      for i := 0 to |names|
        invariant missing == Missing(fields, names[..i])
      {
        assert names[..i + 1][..i] == names[..i];
        if !(names[i] in fields || ConvertName(names[i]) in fields) {
          missing := missing + [names[i]];
        }
      }
      assert names[..|names|] == names;
    }

    /** `check(strict)` once the version is set. */
    method CheckFields(strict: bool, checks: Scheme) returns (r: Result<(seq<String>, seq<String>), MetadataError>)
      ensures r == CheckReport(fields, strict, checks)
    {
      var missing := MissingOf(["Name", "Version"]);
      if strict && missing != [] {
        return Err(MissingError(missing));
      }
      var more := MissingOf(["Home-page", "Author"]);
      missing := missing + more;
      var version := Get("Metadata-Version", None);
      if version != Ok(Str("1.2")) {
        return Ok((missing, []));
      }
      var w1 := CheckGroup(PredicateFields, Constraints, checks);
      if w1.Err? {
        return Err(w1.error);
      }
      var w2 := CheckGroup(VersionsFields, ConstraintList, checks);
      if w2.Err? {
        return Err(w2.error);
      }
      var w3 := CheckGroup(VersionFields, VersionCheck, checks);
      if w3.Err? {
        return Err(w3.error);
      }
      return Ok((missing, w1.value + w2.value + w3.value));
    }

    /** `check(strict)`: sets the version, then reports missing names and warnings. */
    method Check(strict: bool, checks: Scheme) returns (r: Result<(seq<String>, seq<String>), MetadataError>)
      requires Valid()
      modifies this
      ensures Valid()
      ensures BestVersionOf(UsedKeys(old(fields))).Err? ==> r == Err(BestVersionOf(UsedKeys(old(fields))).error)
      ensures BestVersionOf(UsedKeys(old(fields))).Ok? ==>
        r == CheckReport(old(fields)["Metadata-Version" := Str(BestVersionOf(UsedKeys(old(fields))).value.Name())], strict, checks)
      ensures BestVersionOf(UsedKeys(old(fields))).Err? ==> fields == old(fields)
      ensures BestVersionOf(UsedKeys(old(fields))).Ok? ==> fields == old(fields)["Metadata-Version" := Str(BestVersionOf(UsedKeys(old(fields))).value.Name())]
    {
      var err := SetMetadataVersion();
      if err.Some? {
        return Err(err.value);
      }
      r := CheckFields(strict, checks);
    }

    /** The loop of `add_requirements` that deletes `Obsoletes`, `Requires` and `Provides` where present. */
    method DropRequirementFields()
      requires Valid()
      modifies this
      ensures Valid()
      ensures fields == old(fields) - {"Obsoletes", "Requires", "Provides"}
    {
      ghost var removed: set<String> := {};
      for i := 0 to |Fields11Requirements|
        invariant Valid()
        invariant removed == set j | 0 <= j < i :: Fields11Requirements[j]
        invariant fields == old(fields) - removed
      {
        var field := Fields11Requirements[i];
        Fields11Converted(i);
        if field in fields || ConvertName(field) in fields {
          var e := Delete(field);
        }
        removed := removed + {field};
      }
      assert removed == {Fields11Requirements[0], Fields11Requirements[1], Fields11Requirements[2]};
    }

    /** `add_requirements(requirements)` */
    method AddRequirements(reqs: seq<Value>) returns (err: Option<MetadataError>)
      requires Valid()
      modifies this
      ensures Valid()
      ensures AddRequirementsFields(old(fields), reqs).Ok? ==> err == None && fields == AddRequirementsFields(old(fields), reqs).value
      ensures AddRequirementsFields(old(fields), reqs).Err? ==> err == Some(AddRequirementsFields(old(fields), reqs).error)
      ensures AddRequirementsFields(old(fields), reqs).Err? ==>
        fields == if GetField(old(fields), "Metadata-Version", None) == Ok(Str("1.1")) then old(fields) - {"Obsoletes", "Requires", "Provides"} else old(fields)
    {
      var version := Get("Metadata-Version", None);
      if version == Ok(Str("1.1")) {
        DropRequirementFields();
      }
      var current := Get("Requires-Dist", None);
      if current.Err? {
        return Some(current.error);
      }
      RequiresDistIsList(fields);
      err := Set("Requires-Dist", List(current.value.items + reqs));
    }
  }
}
