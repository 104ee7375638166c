/**
 * The rules of the 2.0 (JSON) `Metadata` class of distlib/metadata.py as functions: the
 * syntax validators, `_validate_mapping`, the selection of requirements by extras in
 * `get_requirements`, and the dictionary updates of `provides` and `add_requirements`.
 * A dictionary is its entries in insertion order, as in `PyValue.Dict`.
 */
module MetadataRules {
  import opened Text
  import opened Wrappers
  import opened PyValue
  import opened MetadataFields
  import opened LegacyFields

  // ----- dictionaries as entry sequences -----

  /** `key in d` */
  predicate HasKey(entries: seq<Entry>, key: String)
  {
    DictGet(entries, key).Some?
  }

  /** `d.get(key)`, `None` when absent. */
  function GetOrNone(entries: seq<Entry>, key: String): Value
  {
    match DictGet(entries, key)
    case Some(v) => v
    case None => NoneV
  }

  /** `d[key] = v`: an existing entry keeps its place, a new one goes last. */
  function DictPut(entries: seq<Entry>, key: String, v: Value): (r: seq<Entry>)
    ensures HasKey(entries, key) ==> |r| == |entries|
    ensures !HasKey(entries, key) ==> r == entries + [Entry(key, v)]
  {
    if entries == [] then [Entry(key, v)]
    else if entries[0].key == key then [Entry(key, v)] + entries[1..]
    else
      assert entries == [entries[0]] + entries[1..];
      [entries[0]] + DictPut(entries[1..], key, v)
  }

  /** After `d[key] = v`, `key` maps to `v` and every other key to what it mapped to before. */
  lemma {:induction false} DictPutLookup(entries: seq<Entry>, key: String, v: Value, k: String)
    ensures DictGet(DictPut(entries, key, v), k) == if k == key then Some(v) else DictGet(entries, k)
  {
    if entries == [] {
      DictGetCons(Entry(key, v), [], k);
    } else if entries[0].key == key {
      DictGetCons(Entry(key, v), entries[1..], k);
      DictGetCons(entries[0], entries[1..], k);
      assert entries == [entries[0]] + entries[1..];
    } else {
      DictPutLookup(entries[1..], key, v, k);
      DictGetCons(entries[0], DictPut(entries[1..], key, v), k);
      DictGetCons(entries[0], entries[1..], k);
      assert entries == [entries[0]] + entries[1..];
    }
  }

  /** `DictPutLookup` for every key at once. */
  lemma DictPutLookups(entries: seq<Entry>, key: String, v: Value)
    ensures DictGet(DictPut(entries, key, v), key) == Some(v)
    ensures forall k :: k != key ==> DictGet(DictPut(entries, key, v), k) == DictGet(entries, k)
  {
    DictPutLookup(entries, key, v, key);
    forall k | k != key ensures DictGet(DictPut(entries, key, v), k) == DictGet(entries, k) {
      DictPutLookup(entries, key, v, k);
    }
  }

  /** Looking up `k` in `[e] + rest`: `e` answers for its key, `rest` for every other. */
  lemma DictGetCons(e: Entry, rest: seq<Entry>, k: String)
    ensures DictGet([e] + rest, k) == if e.key == k then Some(e.val) else DictGet(rest, k)
  {
    assert ([e] + rest)[1..] == rest;
  }

  // ----- the syntax validators -----

  /** A non-empty run of digits, `\d+`. */
  predicate DigitRun(s: String)
  {
    |s| >= 1 && forall i :: 0 <= i < |s| ==> IsDigit(s[i])
  }

  /** `\d+(\.\d+)*` over the whole text: dot-separated digit runs. */
  predicate DottedDigits(s: String)
  {
    forall p :: p in Split(s, '.') ==> DigitRun(p)
  }

  /** `$` without `re.MULTILINE` also matches just before a final newline. */
  predicate AnchoredAtEnd(body: String -> bool, s: String)
  {
    body(s) || (|s| >= 1 && s[|s| - 1] == '\n' && body(s[..|s| - 1]))
  }

  /** `METADATA_VERSION_MATCHER.match(s)`: `^\d+(\.\d+)*$` */
  predicate MetadataVersionMatches(s: String)
  {
    AnchoredAtEnd(DottedDigits, s)
  }

  /** The characters of `[0-9A-Z_.-]` under `re.I`. */
  predicate NameChar(c: char)
  {
    IsAlnum(c) || c == '_' || c == '.' || c == '-'
  }

  /** `[0-9A-Z]([0-9A-Z_.-]*[0-9A-Z])?` over the whole text, under `re.I`. */
  predicate NameBody(s: String)
  {
    |s| >= 1 && IsAlnum(s[0]) && IsAlnum(s[|s| - 1]) && forall i :: 0 <= i < |s| ==> NameChar(s[i])
  }

  /** `NAME_MATCHER.match(s)`: `^[0-9A-Z]([0-9A-Z_.-]*[0-9A-Z])?$` with `re.I` */
  predicate NameMatches(s: String)
  {
    AnchoredAtEnd(NameBody, s)
  }

  /**
   * `SUMMARY_MATCHER.match(s)` as written: `.{1,2047}` is matched at the start and not
   * anchored at the end, so any text whose first character is not a newline matches.
   */
  predicate SummaryMatchesAsWritten(s: String)
  {
    |s| >= 1 && s[0] != '\n'
  }

  /** What `.{1,2047}` evidently stands for: a single line of 1 to 2047 characters. */
  predicate SummaryMatches(s: String)
  {
    1 <= |s| <= 2047 && '\n' !in s
  }

  /** The keys `SYNTAX_VALIDATORS` has a pattern for. */
  predicate HasValidator(key: String)
  {
    key == "metadata_version" || key == "name" || key == "version" || key == "summary"
  }

  /** The schemes whose values the validator of `key` lets through unchecked. */
  function Exclusions(key: String): seq<String>
  {
    if key == "metadata_version" then [] else ["legacy"]
  }

  /** The pattern of `key` matches `s`; `versionMatches` is `PEP426_VERSION_RE.match`. */
  predicate PatternMatches(key: String, s: String, versionMatches: String -> bool)
    requires HasValidator(key)
  {
    if key == "metadata_version" then MetadataVersionMatches(s)
    else if key == "name" then NameMatches(s)
    else if key == "version" then versionMatches(s)
    else SummaryMatchesAsWritten(s)
  }

  /** The patterns as evidently intended: the same, with the summary held to one short line. */
  predicate PatternMatchesIntended(key: String, s: String, versionMatches: String -> bool)
    requires HasValidator(key)
  {
    if key == "summary" then SummaryMatches(s) else PatternMatches(key, s, versionMatches)
  }

  /**
   * `_validate_value(key, value, scheme)` for the scheme in force: keys without a validator and
   * excluded schemes pass; a string must match the pattern (`MetadataInvalidError` otherwise);
   * any other value makes `pattern.match` raise `TypeError`.
   */
  function ValidateValue(key: String, value: Value, scheme: String, versionMatches: String -> bool): (r: Option<MetadataError>)
    ensures r == None <==>
      !HasValidator(key) || scheme in Exclusions(key) || (value.Str? && PatternMatches(key, value.s, versionMatches))
    ensures r.Some? ==> r.value == (if value.Str? then InvalidError(key) else ValueShapeError(key))
  {
    if !HasValidator(key) || scheme in Exclusions(key) then None
    else if !value.Str? then Some(ValueShapeError(key))
    else if PatternMatches(key, value.s, versionMatches) then None
    else Some(InvalidError(key))
  }

  /** `_validate_value` with the summary pattern as evidently intended. */
  function ValidateValueIntended(key: String, value: Value, scheme: String, versionMatches: String -> bool): (r: Option<MetadataError>)
    ensures r == None <==>
      !HasValidator(key) || scheme in Exclusions(key) || (value.Str? && PatternMatchesIntended(key, value.s, versionMatches))
    ensures r.Some? ==> r.value == (if value.Str? then InvalidError(key) else ValueShapeError(key))
  {
    if !HasValidator(key) || scheme in Exclusions(key) then None
    else if !value.Str? then Some(ValueShapeError(key))
    else if PatternMatchesIntended(key, value.s, versionMatches) then None
    else Some(InvalidError(key))
  }

  /**
   * The intended validation only rejects more, and only summaries: it agrees with the written one
   * on every other key, and on summaries it passes exactly the single lines of at most 2047 characters
   * that the written one passes.
   */
  lemma ValidateValueIntendedRefines(key: String, value: Value, scheme: String, versionMatches: String -> bool)
    ensures ValidateValueIntended(key, value, scheme, versionMatches) == None ==> ValidateValue(key, value, scheme, versionMatches) == None
    ensures key != "summary" ==> ValidateValueIntended(key, value, scheme, versionMatches) == ValidateValue(key, value, scheme, versionMatches)
    ensures key == "summary" && scheme != "legacy" && value.Str? ==>
      (ValidateValueIntended(key, value, scheme, versionMatches) == None <==>
       ValidateValue(key, value, scheme, versionMatches) == None && |value.s| <= 2047 && '\n' !in value.s)
  {
    if key == "summary" && value.Str? {
      SummaryMatchesRefines(value.s);
    }
  }

  /** A summary of 2048 characters passes the written validator and fails the intended one. */
  lemma SummaryTooLongValidates(scheme: String, versionMatches: String -> bool)
    requires scheme != "legacy"
    ensures var v := Str(seq(2048, i => 'a'));
      ValidateValue("summary", v, scheme, versionMatches) == None &&
      ValidateValueIntended("summary", v, scheme, versionMatches) == Some(InvalidError("summary"))
  {
    SummaryLengthNotEnforced();
  }

  /** The first entry whose value fails its validator, in the mapping's order. */
  function FirstInvalid(entries: seq<Entry>, scheme: String, versionMatches: String -> bool): (r: Option<MetadataError>)
    ensures r == None <==> forall i :: 0 <= i < |entries| ==> ValidateValue(entries[i].key, entries[i].val, scheme, versionMatches) == None
    ensures r.Some? ==> exists i :: 0 <= i < |entries| && r == ValidateValue(entries[i].key, entries[i].val, scheme, versionMatches)
  {
    if entries == [] then None
    else
      var front := entries[..|entries| - 1];
      assert forall i :: 0 <= i < |front| ==> front[i] == entries[i];
      var e := entries[|entries| - 1];
      match FirstInvalid(front, scheme, versionMatches)
      case Some(err) => Some(err)
      case None => ValidateValue(e.key, e.val, scheme, versionMatches)
  }

  /** The keys of `MANDATORY_KEYS`, in order. */
  const MandatoryKeys: seq<String> := ["name", "version", "summary"]

  /** The schemes under which a mandatory key may be absent. */
  function MandatoryExclusions(key: String): seq<String>
  {
    if key == "summary" then ["legacy"] else []
  }

  /** The keys among `keys` the mapping lacks and `scheme` does not excuse, in order. */
  function MissingAmong(entries: seq<Entry>, keys: seq<String>, scheme: String): (r: seq<String>)
    ensures forall k :: k in r <==> k in keys && !HasKey(entries, k) && scheme !in MandatoryExclusions(k)
    decreases |keys|
  {
    if keys == [] then []
    else
      var front := keys[..|keys| - 1];
      var k := keys[|keys| - 1];
      assert forall a :: a in keys <==> a in front || a == k;
      MissingAmong(entries, front, scheme) + (if !HasKey(entries, k) && scheme !in MandatoryExclusions(k) then [k] else [])
  }

  /** The mandatory keys the mapping lacks: `summary` counts only outside the `legacy` scheme. */
  lemma MissingMandatory(entries: seq<Entry>, scheme: String)
    ensures var r := MissingAmong(entries, MandatoryKeys, scheme);
      ("name" in r <==> !HasKey(entries, "name")) &&
      ("version" in r <==> !HasKey(entries, "version")) &&
      ("summary" in r <==> !HasKey(entries, "summary") && scheme != "legacy")
  {
    assert "name" in MandatoryKeys && "version" in MandatoryKeys && "summary" in MandatoryKeys;
  }

  /** One more entry: the first failure so far stays, otherwise the new entry is checked. */
  lemma FirstInvalidStep(entries: seq<Entry>, i: nat, scheme: String, versionMatches: String -> bool)
    requires i < |entries|
    ensures FirstInvalid(entries[..i + 1], scheme, versionMatches) ==
      (if FirstInvalid(entries[..i], scheme, versionMatches).Some? then FirstInvalid(entries[..i], scheme, versionMatches)
       else ValidateValue(entries[i].key, entries[i].val, scheme, versionMatches))
  {
    var longer := entries[..i + 1];
    assert longer[..|longer| - 1] == entries[..i];
    assert longer[|longer| - 1] == entries[i];
  }

  /** A failure in a prefix of the entries is the first failure of all of them. */
  lemma {:induction false} FirstInvalidExtends(entries: seq<Entry>, j: nat, scheme: String, versionMatches: String -> bool)
    requires j <= |entries|
    requires FirstInvalid(entries[..j], scheme, versionMatches).Some?
    ensures FirstInvalid(entries, scheme, versionMatches) == FirstInvalid(entries[..j], scheme, versionMatches)
    decreases |entries| - j
  {
    if j < |entries| {
      FirstInvalidStep(entries, j, scheme, versionMatches);
      FirstInvalidExtends(entries, j + 1, scheme, versionMatches);
    } else {
      assert entries[..j] == entries;
    }
  }

  /**
   * `_validate_mapping(mapping, scheme)`: `MetadataUnrecognizedVersionError` (raised without an
   * argument) unless `metadata_version` is `'2.0'`, then `MetadataMissingError` for absent
   * mandatory keys, then the first value a validator rejects.
   */
  function ValidateMapping(entries: seq<Entry>, scheme: String, versionMatches: String -> bool): (r: Option<MetadataError>)
    ensures r == Some(UnrecognizedVersionError("")) <==> DictGet(entries, "metadata_version") != Some(Str("2.0"))
    ensures r == None ==> HasKey(entries, "name") && HasKey(entries, "version")
    ensures r == None && scheme != "legacy" ==> HasKey(entries, "summary")
    ensures r == None ==> forall i :: 0 <= i < |entries| ==> ValidateValue(entries[i].key, entries[i].val, scheme, versionMatches) == None
    ensures DictGet(entries, "metadata_version") == Some(Str("2.0")) && !HasKey(entries, "name") ==>
      r.Some? && r.value.MissingError? && "name" in r.value.missing
    ensures DictGet(entries, "metadata_version") == Some(Str("2.0")) && MissingAmong(entries, MandatoryKeys, scheme) != [] ==>
      r == Some(MissingError(MissingAmong(entries, MandatoryKeys, scheme)))
    ensures r == None <==>
      DictGet(entries, "metadata_version") == Some(Str("2.0")) && MissingAmong(entries, MandatoryKeys, scheme) == [] &&
      FirstInvalid(entries, scheme, versionMatches) == None
    ensures DictGet(entries, "metadata_version") == Some(Str("2.0")) && MissingAmong(entries, MandatoryKeys, scheme) == [] ==>
      r == FirstInvalid(entries, scheme, versionMatches)
  {
    if DictGet(entries, "metadata_version") != Some(Str("2.0")) then Some(UnrecognizedVersionError(""))
    else
      var missing := MissingAmong(entries, MandatoryKeys, scheme);
      MissingMandatory(entries, scheme);
      if missing != [] then Some(MissingError(missing))
      else
        var r := FirstInvalid(entries, scheme, versionMatches);
        assert r.Some? ==> !r.value.UnrecognizedVersionError?;
        r
  }

  /** The validators accept `metadata_version` `'2.0'`, so a valid 2.0 mapping passes its first test. */
  lemma MetadataVersionTwoMatches()
    ensures MetadataVersionMatches("2.0")
    ensures !MetadataVersionMatches("") && !MetadataVersionMatches("2.") && !MetadataVersionMatches(".2")
  {
    assert Split("2.0", '.') == ["2", "0"] by {
      assert "2.0" == "2" + ['.'] + "0";
      SplitAtSeparator("2", "0", '.');
      SplitNoSeparator("0", '.');
    }
    assert Split("", '.') == [""];
    assert Split("2.", '.') == ["2", ""] by {
      assert "2." == "2" + ['.'] + "";
      SplitAtSeparator("2", "", '.');
    }
    assert Split(".2", '.') == ["", "2"] by {
      assert ".2" == "" + ['.'] + "2";
      SplitAtSeparator("", "2", '.');
      SplitNoSeparator("2", '.');
    }
    assert "2."[..1] == "2";
    assert !DigitRun("");
    assert "" in Split("2.", '.') && "" in Split(".2", '.');
  }

  /** Digit runs joined by dots always match `METADATA_VERSION_MATCHER`. */
  lemma DottedDigitsJoin(runs: seq<String>)
    requires |runs| >= 1
    requires forall i :: 0 <= i < |runs| ==> DigitRun(runs[i])
    ensures MetadataVersionMatches(Join(runs, "."))
  {
    forall i | 0 <= i < |runs| ensures '.' !in runs[i] {
      assert forall j :: 0 <= j < |runs[i]| ==> runs[i][j] != '.';
    }
    SplitJoin(runs, '.');
  }

  /** Lowering keeps a character in `[0-9A-Z_.-]` (under `re.I`), in `[0-9A-Z]`, and apart from a newline. */
  lemma LowerCharClasses(c: char)
    ensures NameChar(LowerChar(c)) <==> NameChar(c)
    ensures IsAlnum(LowerChar(c)) <==> IsAlnum(c)
    ensures LowerChar(c) == '\n' <==> c == '\n'
  {
  }

  lemma NameBodyIgnoresCase(s: String)
    ensures NameBody(Lower(s)) <==> NameBody(s)
  {
    var l := Lower(s);
    forall i | 0 <= i < |s| ensures NameChar(l[i]) <==> NameChar(s[i]) {
      LowerCharClasses(s[i]);
    }
    if |s| >= 1 {
      LowerCharClasses(s[0]);
      LowerCharClasses(s[|s| - 1]);
    }
  }

  /** `NAME_MATCHER` is case-insensitive: lowering a name does not change whether it matches. */
  lemma NameMatchesIgnoresCase(s: String)
    ensures NameMatches(Lower(s)) <==> NameMatches(s)
  {
    NameBodyIgnoresCase(s);
    var l := Lower(s);
    if |s| >= 1 {
      LowerCharClasses(s[|s| - 1]);
      assert l[..|l| - 1] == Lower(s[..|s| - 1]);
      NameBodyIgnoresCase(s[..|s| - 1]);
    }
  }

  /** A filename-safe name and version (as `_get_name_and_version` makes) matches `NAME_MATCHER` when it starts and ends alphanumeric. */
  lemma NameAndVersionMatches(name: String, version: String)
    requires var r := NameAndVersion(name, version, true); |r| >= 1 && IsAlnum(r[0]) && IsAlnum(r[|r| - 1])
    ensures NameMatches(NameAndVersion(name, version, true))
  {
    NameAndVersionFileSafe(name, version);
  }

  /** The summary pattern as written accepts texts longer than 2047 characters. */
  lemma SummaryLengthNotEnforced()
    ensures var s := seq(2048, i => 'a'); SummaryMatchesAsWritten(s) && !SummaryMatches(s)
  {
  }

  /** The intended summary pattern accepts what the written one does, within one line of 2047 characters. */
  lemma SummaryMatchesRefines(s: String)
    ensures SummaryMatches(s) <==> SummaryMatchesAsWritten(s) && |s| <= 2047 && '\n' !in s
  {
  }

  // ----- get_requirements -----

  /**
   * Whether `get_requirements` takes the dependencies of the entry `d`: its `extra` must be a
   * requested extra, and then its `environment` marker, if any, must hold (`interpret` with the
   * environment given, a function outside this model).  `d.get` on a non-dictionary and an
   * unhashable `extra` raise.
   */
  function Included(d: Value, extras: set<String>, interpret: Value -> bool): (r: Result<bool, MetadataError>)
    ensures d.Dict? && GetOrNone(d.entries, "extra").Str? && GetOrNone(d.entries, "extra").s !in extras ==> r == Ok(false)
    ensures r == Ok(true) ==> d.Dict? && GetOrNone(d.entries, "extra").Str? && GetOrNone(d.entries, "extra").s in extras
  {
    if !d.Dict? then Err(ValueShapeError("sometimes"))
    else
      var extra := GetOrNone(d.entries, "extra");
      if extra.List? || extra.Dict? then Err(ValueShapeError("extra"))
      else if !(extra.Str? && extra.s in extras) then Ok(false)
      else
        var marker := GetOrNone(d.entries, "environment");
        if Truthy(marker) then Ok(interpret(marker)) else Ok(true)
  }

  /** `d['dependencies']`, iterated. */
  function Dependencies(d: Value): (r: Result<seq<Value>, MetadataError>)
    requires d.Dict?
  {
    match DictGet(d.entries, "dependencies")
    case None => Err(KeyMissing("dependencies"))
    case Some(v) => Iterate("dependencies", v)
  }

  /** The dependencies the loop over `sometimes` adds, in order; the first failure stops it. */
  function Selected(sometimes: seq<Value>, extras: set<String>, interpret: Value -> bool): (r: Result<seq<Value>, MetadataError>)
    decreases |sometimes|
  {
    if sometimes == [] then Ok([])
    else
      match Selected(sometimes[..|sometimes| - 1], extras, interpret)
      case Err(e) => Err(e)
      case Ok(sel) =>
        var d := sometimes[|sometimes| - 1];
        match Included(d, extras, interpret)
        case Err(e) => Err(e)
        case Ok(inc) =>
          if !inc then Ok(sel)
          else
            match Dependencies(d)
            case Err(e) => Err(e)
            case Ok(deps) => Ok(sel + deps)
  }

  /** A failure in a prefix of `sometimes` is the failure of the whole loop. */
  lemma {:induction false} SelectedErrExtends(sometimes: seq<Value>, extras: set<String>, interpret: Value -> bool, j: nat)
    requires j <= |sometimes|
    requires Selected(sometimes[..j], extras, interpret).Err?
    ensures Selected(sometimes, extras, interpret) == Selected(sometimes[..j], extras, interpret)
    decreases |sometimes| - j
  {
    if j < |sometimes| {
      assert sometimes[..j + 1][..j] == sometimes[..j];
      SelectedErrExtends(sometimes, extras, interpret, j + 1);
    } else {
      assert sometimes[..j] == sometimes;
    }
  }

  /** Entries that name no requested extra add nothing. */
  lemma {:induction false} SelectedNone(sometimes: seq<Value>, extras: set<String>, interpret: Value -> bool)
    requires forall i :: 0 <= i < |sometimes| ==> Included(sometimes[i], extras, interpret) == Ok(false)
    ensures Selected(sometimes, extras, interpret) == Ok([])
    decreases |sometimes|
  {
    if sometimes != [] {
      SelectedNone(sometimes[..|sometimes| - 1], extras, interpret);
    }
  }

  /** `self._data.get(key, [])` */
  function GetOrEmpty(data: seq<Entry>, key: String): Value
  {
    match DictGet(data, key)
    case Some(v) => v
    case None => List([])
  }

  /**
   * `get_requirements(always, sometimes, extras)` on 2.0 data: a copy of `always`, the
   * dependencies `sometimes` selects, and, when `'test'` is requested, the requirements of
   * `test_requires` and `test_may_require` for the other extras.
   */
  function Requirements(data: seq<Entry>, always: Value, sometimes: Value, extras: set<String>, interpret: Value -> bool): (r: Result<seq<Value>, MetadataError>)
    ensures r.Ok? ==> Iterate("always", always).Ok? && Iterate("always", always).value <= r.value
    decreases if "test" in extras then 1 else 0
  {
    match Iterate("always", always)
    case Err(e) => Err(e)
    case Ok(base) =>
      match Iterate("sometimes", sometimes)
      case Err(e) => Err(e)
      case Ok(ds) =>
        match Selected(ds, extras, interpret)
        case Err(e) => Err(e)
        case Ok(sel) =>
          if "test" !in extras then Ok(base + sel)
          else
            match Requirements(data, GetOrEmpty(data, "test_requires"), GetOrEmpty(data, "test_may_require"), extras - {"test"}, interpret)
            case Err(e) => Err(e)
            case Ok(more) =>
              assert base <= base + sel + more;
              Ok(base + sel + more)
  }

  /** Without `'test'`, the requirements are `always` followed by what `sometimes` selects. */
  lemma RequirementsWithoutTest(data: seq<Entry>, always: seq<Value>, sometimes: seq<Value>, extras: set<String>, interpret: Value -> bool)
    requires "test" !in extras
    ensures Requirements(data, List(always), List(sometimes), extras, interpret) ==
      (match Selected(sometimes, extras, interpret)
       case Ok(sel) => Ok(always + sel)
       case Err(e) => Err(e))
  {
  }

  /** With no extras requested, only `always` is returned, whatever the entries hold (when they are dictionaries with string extras). */
  lemma RequirementsNoExtras(data: seq<Entry>, always: seq<Value>, sometimes: seq<Value>, interpret: Value -> bool)
    requires forall i :: 0 <= i < |sometimes| ==> sometimes[i].Dict? && GetOrNone(sometimes[i].entries, "extra").Str?
    ensures Requirements(data, List(always), List(sometimes), {}, interpret) == Ok(always)
  {
    assert forall i :: 0 <= i < |sometimes| ==> Included(sometimes[i], {}, interpret) == Ok(false);
    SelectedNone(sometimes, {}, interpret);
    assert always + [] == always;
  }

  /** With `'test'`, the test requirements follow, computed for the other extras, and there is no second level. */
  lemma RequirementsWithTest(data: seq<Entry>, always: seq<Value>, sometimes: seq<Value>, extras: set<String>, interpret: Value -> bool)
    requires "test" in extras
    requires Requirements(data, List(always), List(sometimes), extras, interpret).Ok?
    ensures Selected(sometimes, extras, interpret).Ok?
    ensures var testReqs := Requirements(data, GetOrEmpty(data, "test_requires"), GetOrEmpty(data, "test_may_require"), extras - {"test"}, interpret);
      testReqs.Ok? &&
      Requirements(data, List(always), List(sometimes), extras, interpret).value
        == always + Selected(sometimes, extras, interpret).value + testReqs.value
  {
  }

  // ----- provides and add_requirements on 2.0 data -----

  /** `'%s (%s)' % (self.name, self.version)` */
  function ProvidesEntry(name: Value, version: Value): String
  {
    Show(name) + " (" + Show(version) + ")"
  }

  /** `if x not in xs: xs.append(x)` */
  function AppendAbsent(xs: seq<Value>, x: Value): (r: seq<Value>)
    ensures x in r
    ensures x in xs ==> r == xs
    ensures x !in xs ==> r == xs + [x]
  {
    if x in xs then xs else xs + [x]
  }

  /**
   * `x in v` for a text `x`: a substring test on a string, membership in a list or tuple, a key
   * test on a dictionary; `None` where `in` raises `TypeError` (`None`, numbers).
   */
  function PyContains(v: Value, x: String): (r: Option<bool>)
    ensures r.None? <==> v.NoneV? || v.Scalar?
    ensures IsSequence(v) ==> r == Some(Str(x) in v.items)
  {
    match v
    case Str(s) => Some(InText(x, s))
    case List(xs) => Some(Str(x) in xs)
    case Tuple(xs) => Some(Str(x) in xs)
    case Dict(es) => Some(HasKey(es, x))
    case NoneV => None
    case Scalar(_, _) => None
  }

  /**
   * The `provides` property on 2.0 data: `setdefault('provides', [])`, then the entry for this
   * name and version appended unless `in` finds it.  Only a list can be appended to; any other
   * value is returned as it is when it already holds the entry, and raises otherwise.  The new
   * data and the value returned.
   */
  function ProvidesData(data: seq<Entry>, entry: String): (r: Result<(seq<Entry>, Value), MetadataError>)
    ensures r.Ok? ==> PyContains(r.value.1, entry) == Some(true)
    ensures r.Ok? ==> DictGet(r.value.0, "provides") == Some(r.value.1)
    ensures r.Ok? ==> forall k :: k != "provides" ==> DictGet(r.value.0, k) == DictGet(data, k)
    ensures !HasKey(data, "provides") ==> r.Ok? && r.value.1 == List([Str(entry)])
    ensures GetOrEmpty(data, "provides").List? ==>
      var xs := GetOrEmpty(data, "provides").items;
      r.Ok? && r.value.1 == List(AppendAbsent(xs, Str(entry)))
    ensures !GetOrEmpty(data, "provides").List? ==>
      (r.Ok? <==> PyContains(GetOrNone(data, "provides"), entry) == Some(true)) &&
      (r.Ok? ==> r.value == (data, GetOrNone(data, "provides")))
  {
    var cur := GetOrEmpty(data, "provides");
    if cur.List? then
      var xs := AppendAbsent(cur.items, Str(entry));
      DictPutLookups(data, "provides", List(xs));
      Ok((DictPut(data, "provides", List(xs)), List(xs)))
    else if PyContains(cur, entry) == Some(true) then Ok((data, cur))
    else Err(ValueShapeError("provides"))
  }

  /** Reading `provides` twice changes nothing the second time. */
  lemma ProvidesIdempotent(data: seq<Entry>, entry: String)
    requires ProvidesData(data, entry).Ok?
    ensures ProvidesData(ProvidesData(data, entry).value.0, entry).Ok?
    ensures ProvidesData(ProvidesData(data, entry).value.0, entry).value.1 == ProvidesData(data, entry).value.1
  {
  }

  /** A `provides` tuple or string is never extended: it is returned when it holds the entry and raises otherwise. */
  lemma ProvidesNonList(data: seq<Entry>, entry: String)
    requires GetOrNone(data, "provides").Tuple? || GetOrNone(data, "provides").Str?
    ensures GetOrNone(data, "provides").Tuple? ==>
      (ProvidesData(data, entry).Ok? <==> Str(entry) in GetOrNone(data, "provides").items)
    ensures GetOrNone(data, "provides").Str? ==>
      (ProvidesData(data, entry).Ok? <==> InText(entry, GetOrNone(data, "provides").s))
    ensures ProvidesData(data, entry).Ok? ==> ProvidesData(data, entry).value.0 == data
  {
  }

  /** `self._data.setdefault('run_requires', []).extend(requirements)` */
  function AddRunRequires(data: seq<Entry>, reqs: seq<Value>): (r: Result<seq<Entry>, MetadataError>)
    ensures r.Err? <==> HasKey(data, "run_requires") && !GetOrNone(data, "run_requires").List?
    ensures r.Ok? ==> DictGet(r.value, "run_requires") == Some(List(GetOrEmpty(data, "run_requires").items + reqs))
    ensures r.Ok? ==> forall k :: k != "run_requires" ==> DictGet(r.value, k) == DictGet(data, k)
  {
    var cur := GetOrEmpty(data, "run_requires");
    if !cur.List? then Err(ValueShapeError("run_requires"))
    else
      DictPutLookups(data, "run_requires", List(cur.items + reqs));
      Ok(DictPut(data, "run_requires", List(cur.items + reqs)))
  }

  /** Adding requirements in two steps is adding them at once. */
  lemma AddRunRequiresTwice(data: seq<Entry>, a: seq<Value>, b: seq<Value>)
    requires AddRunRequires(data, a).Ok?
    ensures AddRunRequires(AddRunRequires(data, a).value, b).Ok?
    ensures DictGet(AddRunRequires(AddRunRequires(data, a).value, b).value, "run_requires")
      == DictGet(AddRunRequires(data, a + b).value, "run_requires")
  {
    assert GetOrEmpty(data, "run_requires").items + a + b == GetOrEmpty(data, "run_requires").items + (a + b);
  }

  // ----- the attribute tables -----

  /** `common_keys`: attributes read and written as plain keys. */
  const CommonKeys: set<String> := {"name", "version", "license", "keywords", "summary"}

  /**
   * `mapped_keys`: an attribute, the legacy field it reads (`None` when legacy metadata has
   * none) and whether it defaults to a new list.
   */
  const MappedKeys: map<String, (Option<String>, bool)> := map[
    "run_requires" := (Some("Requires-Dist"), true),
    "run_may_require" := (None, true),
    "build_requires" := (Some("Setup-Requires-Dist"), true),
    "build_may_require" := (None, true),
    "dev_requires" := (None, true),
    "dev_may_require" := (None, true),
    "test_requires" := (None, true),
    "test_may_require" := (None, true),
    "meta_requires" := (None, true),
    "meta_may_require" := (None, true),
    "classifiers" := (Some("Classifier"), true),
    "source_url" := (Some("Download-URL"), false),
    "metadata_version" := (Some("Metadata-Version"), false)]

  /** The common keys are the attribute names of legacy fields, and none of them is mapped. */
  lemma CommonKeysAreAttributes()
    ensures forall k :: k in CommonKeys ==> k in Attr2Field && k !in MappedKeys
  {
    CommonKeysNamed();
    CommonKeysNotMapped();
  }

  /** Each common key is an attribute name. */
  lemma CommonKeysNamed()
    ensures "name" in Attr2Field && "version" in Attr2Field && "license" in Attr2Field
    ensures "keywords" in Attr2Field && "summary" in Attr2Field
  {
  }

  /** No common key is a mapped key. */
  lemma CommonKeysNotMapped()
    ensures "name" !in MappedKeys && "version" !in MappedKeys && "license" !in MappedKeys
    ensures "keywords" !in MappedKeys && "summary" !in MappedKeys
  {
  }

  /** The legacy names in `mapped_keys` are field names. */
  lemma MappedKeysAreFields()
    ensures forall k :: k in MappedKeys && MappedKeys[k].0.Some? ==> MappedKeys[k].0.value in AllFields
  {
    forall k | k in MappedKeys && MappedKeys[k].0.Some?
      ensures MappedKeys[k].0.value in AllFields
    {
      assert MappedKeys[k].0.value in {"Requires-Dist", "Setup-Requires-Dist", "Classifier", "Download-URL", "Metadata-Version"};
    }
  }
}
