/**
 * `Metadata`: release metadata held as 2.0 (JSON) data, or wrapping a `LegacyMetadata` when
 * the mapping it was built from is not 2.0 metadata.
 */
module MetadataClass {
  import opened Text
  import opened Wrappers
  import opened PyValue
  import opened MetadataFields
  import opened LegacyFields
  import opened LegacyMetadataClass
  import opened MetadataRules

  class Metadata {
    /** `_data`, the 2.0 dictionary; unused when `legacy` is set. */
    var data: seq<Entry>
    /** `_legacy`, set once at construction. */
    const legacy: LegacyMetadata?
    const scheme: String

    ghost predicate Valid()
      reads this, legacy
    {
      legacy != null ==> legacy.Valid()
    }

    /** `Metadata(scheme=scheme)` with no source: `{'metadata_version': '2.0'}`. */
    constructor (scheme: String)
      ensures Valid() && legacy == null && this.scheme == scheme
      ensures data == [Entry("metadata_version", Str("2.0"))]
    {
      data := [Entry("metadata_version", Str("2.0"))];
      legacy := null;
      this.scheme := scheme;
    }

    /** The 2.0 branch of `Metadata(mapping=mapping)`, once the mapping has validated. */
    constructor FromData(mapping: seq<Entry>, scheme: String)
      ensures Valid() && legacy == null && data == mapping && this.scheme == scheme
    {
      data := mapping;
      legacy := null;
      this.scheme := scheme;
    }

    /** The legacy branch of the constructor: wraps the `LegacyMetadata` built from the mapping. */
    constructor Wrapping(lmd: LegacyMetadata, scheme: String)
      requires lmd.Valid()
      ensures Valid() && legacy == lmd && data == [] && this.scheme == scheme
    {
      data := [];
      legacy := lmd;
      this.scheme := scheme;
    }

    /**
     * `Metadata(mapping=mapping, scheme=scheme)`: 2.0 data when `_validate_mapping` passes;
     * on `MetadataUnrecognizedVersionError` a `LegacyMetadata` built by `update(mapping)` and
     * `set_metadata_version()`, then checked strictly; any other failure propagates.
     */
    static method FromMapping(mapping: seq<Entry>, scheme: String, versionMatches: String -> bool, checks: Scheme)
      returns (r: Result<Metadata, MetadataError>)
      ensures ValidateMapping(mapping, scheme, versionMatches) == None ==>
        r.Ok? && fresh(r.value) && r.value.legacy == null && r.value.data == mapping
      ensures (ValidateMapping(mapping, scheme, versionMatches).Some? &&
               ValidateMapping(mapping, scheme, versionMatches) != Some(UnrecognizedVersionError("")))
        ==> r == Err(ValidateMapping(mapping, scheme, versionMatches).value)
      ensures ValidateMapping(mapping, scheme, versionMatches) == Some(UnrecognizedVersionError("")) ==>
        (LegacyBuild(mapping, checks).Err? ==> r == Err(LegacyBuild(mapping, checks).error)) &&
        (LegacyBuild(mapping, checks).Ok? ==>
          r.Ok? && fresh(r.value) && r.value.legacy != null && r.value.legacy.fields == LegacyBuild(mapping, checks).value)
      ensures r.Ok? ==> r.value.Valid() && r.value.scheme == scheme
    {
      var err := ValidateMappingOf(mapping, scheme, versionMatches);
      if err == None {
        var m := new Metadata.FromData(mapping, scheme);
        return Ok(m);
      }
      if err != Some(UnrecognizedVersionError("")) {
        return Err(err.value);
      }
      var lmd := new LegacyMetadata(scheme);
      var e := lmd.Update(mapping);
      if e.Some? {
        return Err(e.value);
      }
      e := lmd.SetMetadataVersion();
      if e.Some? {
        return Err(e.value);
      }
      var report := lmd.Check(true, checks);
      if report.Err? {
        return Err(report.error);
      }
      var m := new Metadata.Wrapping(lmd, scheme);
      return Ok(m);
    }

    /** `_validate_mapping(mapping, scheme)`: the version, then its two loops. */
    static method ValidateMappingOf(mapping: seq<Entry>, scheme: String, versionMatches: String -> bool)
      returns (err: Option<MetadataError>)
      ensures err == ValidateMapping(mapping, scheme, versionMatches)
    {
      if DictGet(mapping, "metadata_version") != Some(Str("2.0")) {
        return Some(UnrecognizedVersionError(""));
      }
      var missing := MissingKeysOf(mapping, scheme);
      if missing != [] {
        return Some(MissingError(missing));
      }
      err := FirstInvalidEntry(mapping, scheme, versionMatches);
    }

    /** The first loop of `_validate_mapping`: the mandatory keys absent and not excused by the scheme. */
    static method MissingKeysOf(mapping: seq<Entry>, scheme: String) returns (missing: seq<String>)
      ensures missing == MissingAmong(mapping, MandatoryKeys, scheme)
    {
      missing := [];
      for i := 0 to |MandatoryKeys|
        invariant missing == MissingAmong(mapping, MandatoryKeys[..i], scheme)
      {
        var key := MandatoryKeys[i];
        assert MandatoryKeys[..i + 1][..i] == MandatoryKeys[..i];
        if !HasKey(mapping, key) && scheme !in MandatoryExclusions(key) {
          missing := missing + [key];
        }
      }
      assert MandatoryKeys[..|MandatoryKeys|] == MandatoryKeys;
    }

    /** The second loop of `_validate_mapping`: the error of the first entry whose value does not validate. */
    static method FirstInvalidEntry(mapping: seq<Entry>, scheme: String, versionMatches: String -> bool)
      returns (err: Option<MetadataError>)
      ensures err == FirstInvalid(mapping, scheme, versionMatches)
    {
      for i := 0 to |mapping|
        invariant FirstInvalid(mapping[..i], scheme, versionMatches) == None
      {
        var e := ValidateValue(mapping[i].key, mapping[i].val, scheme, versionMatches);
        FirstInvalidStep(mapping, i, scheme, versionMatches);
        if e.Some? {
          FirstInvalidExtends(mapping, i + 1, scheme, versionMatches);
          return e;
        }
      }
      assert mapping[..|mapping|] == mapping;
      return None;
    }

    /** `_validate_value(key, value, scheme)`, where an empty or missing `scheme` means this metadata's own. */
    function CheckValue(key: String, value: Value, given: Option<String>, versionMatches: String -> bool): (r: Option<MetadataError>)
      ensures given.Some? && given.value != "" ==> r == ValidateValue(key, value, given.value, versionMatches)
      ensures (given.None? || given.value == "") ==> r == ValidateValue(key, value, scheme, versionMatches)
    {
      var s := if given.Some? && given.value != "" then given.value else scheme;
      ValidateValue(key, value, s, versionMatches)
    }

    /** `validate()`: the strict legacy check, whose warnings are only logged, or `_validate_mapping`. */
    method Validate(versionMatches: String -> bool, checks: Scheme) returns (err: Option<MetadataError>)
      requires Valid()
      modifies legacy
      ensures Valid()
      ensures legacy == null ==> err == ValidateMapping(data, scheme, versionMatches)
      ensures legacy != null && BestVersionOf(UsedKeys(old(legacy.fields))).Err? ==> err == Some(BestVersionOf(UsedKeys(old(legacy.fields))).error) && legacy.fields == old(legacy.fields)
      ensures legacy != null && BestVersionOf(UsedKeys(old(legacy.fields))).Ok? ==>
        legacy.fields == old(legacy.fields)["Metadata-Version" := Str(BestVersionOf(UsedKeys(old(legacy.fields))).value.Name())] &&
        err == (match CheckReport(old(legacy.fields)["Metadata-Version" := Str(BestVersionOf(UsedKeys(old(legacy.fields))).value.Name())], true, checks)
                case Err(e) => Some(e)
                case Ok(_) => None)
    {
      if legacy != null {
        var report := legacy.Check(true, checks);
        return if report.Err? then Some(report.error) else None;
      }
      err := ValidateMappingOf(data, scheme, versionMatches);
    }

    /** The value of a common key (`self.name`, `self.version`, ...): from the legacy fields or `_data.get`. */
    method CommonValue(key: String) returns (r: Result<Value, MetadataError>)
      ensures legacy == null ==> r == Ok(GetOrNone(data, key))
      ensures legacy != null ==> r == GetField(legacy.fields, key, None)
    {
      if legacy != null {
        r := legacy.Get(key, None);
      } else {
        r := Ok(GetOrNone(data, key));
      }
    }

    /** The value of a common key, as `CommonValue` reads it. */
    function Common(key: String): Result<Value, MetadataError>
      reads this, legacy
    {
      if legacy != null then GetField(legacy.fields, key, None) else Ok(GetOrNone(data, key))
    }

    /** `name_and_version`: `_get_name_and_version(self.name, self.version, True)`, which needs two strings. */
    method NameVersion() returns (r: Result<String, MetadataError>)
      ensures r.Ok? <==> Common("name").Ok? && Common("name").value.Str? && Common("version").Ok? && Common("version").value.Str?
      ensures r.Ok? ==> r.value == NameAndVersion(Common("name").value.s, Common("version").value.s, true)
      ensures r.Ok? ==> forall c :: c in r.value ==> FileSafeChar(c) || c == '-'
    {
      var name := CommonValue("name");
      var version := CommonValue("version");
      if name.Err? {
        return Err(name.error);
      }
      if version.Err? {
        return Err(version.error);
      }
      if !name.value.Str? || !version.value.Str? {
        return Err(ValueShapeError(if name.value.Str? then "version" else "name"));
      }
      NameAndVersionFileSafe(name.value.s, version.value.s);
      return Ok(NameAndVersion(name.value.s, version.value.s, true));
    }

    /**
     * `get_requirements(always, sometimes, extras)`: legacy metadata returns `always` itself and
     * cannot process `sometimes`; 2.0 data selects by extras.
     */
    method GetRequirements(always: Value, sometimes: Value, extras: seq<String>, interpret: Value -> bool)
      returns (r: Result<Value, MetadataError>)
      ensures legacy != null ==> r == (if Truthy(sometimes) then Err(NotImplemented) else Ok(always))
      ensures legacy == null ==>
        r == (match Requirements(data, always, sometimes, (set x | x in extras), interpret)
              case Ok(xs) => Ok(List(xs))
              case Err(e) => Err(e))
    {
      if legacy != null {
        if Truthy(sometimes) {
          return Err(NotImplemented);
        }
        return Ok(always);
      }
      var xs := DataRequirements(always, sometimes, (set x | x in extras), interpret);
      r := if xs.Ok? then Ok(List(xs.value)) else Err(xs.error);
    }

    /** The 2.0 branch of `get_requirements`, with its loop over `sometimes` and its one recursive call. */
    method DataRequirements(always: Value, sometimes: Value, extras: set<String>, interpret: Value -> bool)
      returns (r: Result<seq<Value>, MetadataError>)
      ensures r == Requirements(data, always, sometimes, extras, interpret)
      decreases if "test" in extras then 1 else 0
    {
      var base := Iterate("always", always);
      if base.Err? {
        return Err(base.error);
      }
      var ds := Iterate("sometimes", sometimes);
      if ds.Err? {
        return Err(ds.error);
      }
      var sel := SelectedOf(ds.value, extras, interpret);
      if sel.Err? {
        return Err(sel.error);
      }
      var result := base.value + sel.value;
      if "test" in extras {
        var more := DataRequirements(GetOrEmpty(data, "test_requires"), GetOrEmpty(data, "test_may_require"), extras - {"test"}, interpret);
        if more.Err? {
          return Err(more.error);
        }
        result := result + more.value;
      }
      return Ok(result);
    }

    /** The data and result of `provides` on 2.0 data, by `ProvidesData`. */
    static predicate ProvidesOutcome(before: seq<Entry>, after: seq<Entry>, r: Result<Value, MetadataError>)
    {
      var p := ProvidesData(before, ProvidesEntry(GetOrNone(before, "name"), GetOrNone(before, "version")));
      (p.Ok? ==> r == Ok(p.value.1) && after == p.value.0) && (p.Err? ==> r == Err(p.error) && after == before)
    }

    /** The loop of `get_requirements` over `sometimes`, extending the result. */
    static method SelectedOf(items: seq<Value>, extras: set<String>, interpret: Value -> bool)
      returns (r: Result<seq<Value>, MetadataError>)
      ensures r == Selected(items, extras, interpret)
    {
      var result: seq<Value> := [];
      for i := 0 to |items|
        invariant Selected(items[..i], extras, interpret) == Ok(result)
      {
        var d := items[i];
        assert items[..i + 1][..i] == items[..i];
        var inc := Included(d, extras, interpret);
        if inc.Err? {
          SelectedErrExtends(items, extras, interpret, i + 1);
          return Err(inc.error);
        }
        if inc.value {
          var deps := Dependencies(d);
          if deps.Err? {
            SelectedErrExtends(items, extras, interpret, i + 1);
            return Err(deps.error);
          }
          result := result + deps.value;
        }
      }
      assert items[..|items|] == items;
      return Ok(result);
    }

    /**
     * The `provides` property: the value with this release's `name (version)` entry added when
     * absent.  2.0 data keeps the list (`setdefault`); legacy metadata returns a fresh copy.
     */
    method Provides() returns (r: Result<Value, MetadataError>)
      requires Valid()
      modifies this
      ensures Valid()
      ensures legacy == null ==> ProvidesOutcome(old(data), data, r)
      ensures legacy != null ==> data == old(data)
      ensures legacy != null ==>
        (r.Ok? <==> GetField(legacy.fields, "Provides-Dist", None).Ok?) &&
        (r.Err? ==> r == GetField(legacy.fields, "Provides-Dist", None))
      ensures legacy != null && r.Ok? ==>
        var cur := GetField(legacy.fields, "Provides-Dist", None);
        var name := GetField(legacy.fields, "name", None);
        var version := GetField(legacy.fields, "version", None);
        cur.Ok? && cur.value.List? && name.Ok? && version.Ok? &&
        r.value == List(AppendAbsent(cur.value.items, Str(ProvidesEntry(name.value, version.value))))
    {
      var name := CommonValue("name");
      var version := CommonValue("version");
      if legacy != null {
        var cur := legacy.Get("Provides-Dist", None);
        if cur.Err? {
          return Err(cur.error);
        }
        assert "Provides-Dist" in AllFields && "Provides-Dist" in ListFields;
        ListFieldReadsList(legacy.fields, "Provides-Dist");
        NameVersionRead(legacy.fields);
        var s := ProvidesEntry(name.value, version.value);
        return Ok(List(AppendAbsent(cur.value.items, Str(s))));
      }
      var s := ProvidesEntry(name.value, version.value);
      var p := ProvidesData(data, s);
      if p.Err? {
        return Err(p.error);
      }
      data := p.value.0;
      return Ok(p.value.1);
    }

    /** The `provides` setter: `Provides-Dist` of the legacy fields, or `_data['provides']`. */
    method SetProvides(value: Value) returns (err: Option<MetadataError>)
      requires Valid()
      modifies this, legacy
      ensures Valid()
      ensures legacy == null ==> err == None && data == DictPut(old(data), "provides", value)
      ensures legacy != null ==> data == old(data)
      ensures legacy != null && SetField(old(legacy.fields), "Provides-Dist", value).Ok? ==>
        err == None && legacy.fields == SetField(old(legacy.fields), "Provides-Dist", value).value
      ensures legacy != null && SetField(old(legacy.fields), "Provides-Dist", value).Err? ==>
        err == Some(SetField(old(legacy.fields), "Provides-Dist", value).error) && legacy.fields == old(legacy.fields)
    {
      if legacy != null {
        err := legacy.Set("Provides-Dist", value);
      } else {
        data := DictPut(data, "provides", value);
        err := None;
      }
    }

    /** `add_requirements(requirements)`: the legacy method, or `run_requires` extended. */
    method AddRequirements(reqs: seq<Value>) returns (err: Option<MetadataError>)
      requires Valid()
      modifies this, legacy
      ensures Valid()
      ensures legacy == null && AddRunRequires(old(data), reqs).Ok? ==> err == None && data == AddRunRequires(old(data), reqs).value
      ensures legacy == null && AddRunRequires(old(data), reqs).Err? ==> err == Some(AddRunRequires(old(data), reqs).error) && data == old(data)
      ensures legacy != null ==> data == old(data)
      ensures legacy != null && AddRequirementsFields(old(legacy.fields), reqs).Ok? ==>
        err == None && legacy.fields == AddRequirementsFields(old(legacy.fields), reqs).value
      ensures legacy != null && AddRequirementsFields(old(legacy.fields), reqs).Err? ==>
        err == Some(AddRequirementsFields(old(legacy.fields), reqs).error) &&
        legacy.fields == if GetField(old(legacy.fields), "Metadata-Version", None) == Ok(Str("1.1"))
          then old(legacy.fields) - {"Obsoletes", "Requires", "Provides"} else old(legacy.fields)
    {
      if legacy != null {
        err := legacy.AddRequirements(reqs);
        return;
      }
      var next := AddRunRequires(data, reqs);
      if next.Err? {
        return Some(next.error);
      }
      data := next.value;
      return None;
    }
  }
}
