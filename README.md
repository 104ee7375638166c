# distlib core, modelled in Dafny

This project models three parts of distlib, the packaging utility library, and proves properties of the model.

- **Metadata** (`distlib/metadata.py`):
  - the field tables of the four metadata formats (1.0, 1.1, 1.2 and the 2.0 draft);
  - version detection (`_best_version`) and field-name canonicalisation (`_convert_name`);
  - the `LegacyMetadata` field dictionary, with its `set`/`get` normalisation, `update`, `write_file`, `check` and `add_requirements`;
  - the 2.0 `Metadata` class, with mapping validation, requirement selection by extras, `provides` and `add_requirements`.
- **Pure-Python backports** (`distlib/compat.py`):
  - the `OrderedDict` backport, a circular doubly linked list of links with a sentinel;
  - `ChainMap`;
  - wildcard hostname matching (`_dnsname_to_pat`, `match_hostname`, section 3.1 of RFC 2818);
  - source-encoding detection (`_get_normal_name`, `detect_encoding`, PEP 263);
  - `splituser` and the `cache_from_source` fallback.
- **Zip resources** (`distlib/resources.py`): `ZipResourceFinder`'s sorted index of entry names, `bisect`, `_find`, `_is_directory`, `get_resources`, `get_cache_info`, `get_size`, the `find` dispatch, and the `allowed` filter of the filesystem finder.

Each part takes the form its Python source has:
- Objects that update their fields become classes whose methods are proved against specification functions. These are `LegacyMetadata`, `Metadata`, `OrderedDict` with its `Link` nodes, `ChainMap`, `ZipResourceFinder`, and the `readline` source of `detect_encoding`.
- Loops become `while`/`for` loops with invariants. These are `_best_version`, `write_file`, `check`, `update`, `get_requirements`, `_validate_mapping`, `match_hostname`, `get_resources`, `bisect` and the `OrderedDict` walks.
- Pure code becomes functions and lemmas.

Python values are modelled by `PyValue.Value`, a datatype of strings, lists, tuples, dictionaries (as entry lists in insertion order), `None` and other scalars. A Python exception becomes the `Err` case of a `Result`, or a `Some` error.

Files:
- `common.dfy`: `Option`/`Result`, and the ASCII string helpers.
- `pyvalue.dfy`: Python values.
- `metadata_fields.dfy`: the field tables, `_best_version`, `_convert_name`, the `Description` escape and filename-safe names.
- `legacy_fields.dfy`: the `LegacyMetadata` rules as functions.
- `legacy_metadata.dfy`: the `LegacyMetadata` class.
- `metadata_rules.dfy`: the 2.0 rules as functions.
- `metadata.dfy`: the `Metadata` class.
- `ordered_dict.dfy`, `chainmap.dfy`, `hostname.dfy`, `encoding.dfy` and `compat_misc.dfy`: the compat.py backports.
- `resources.dfy`: the zip resource finder.

## Model

| member | source | states |
|---|---|---|
| MetadataFields.ParseVersion | distlib/metadata.py:102-111 | a version string names exactly the version whose `Metadata-Version` it is |
| MetadataFields.VersionFieldList | distlib/metadata.py:102-111 | `_version2fieldlist` succeeds iff the string names one of 1.0, 1.1, 1.2, 2.0, returns that version's field list, and otherwise raises `MetadataUnrecognizedVersionError(version)` |
| MetadataFields.FieldListsNest | distlib/metadata.py:54-92 | every 1.0 field is a 1.1 and a 1.2 field, and every 1.2 field is a 2.0 field |
| MetadataFields.FieldKindsDisjoint | distlib/metadata.py:203-215 | the text fields are neither list fields nor `Keywords`; `Keywords` is no list field; `Project-URL` is the only tuple-list field |
| MetadataFields.HasMarkerIn | distlib/metadata.py:116-120 | `_has_marker` is true iff some marker is among the keys |
| MetadataFields.CollectUsedKeys | distlib/metadata.py:122-126 | the keys collected are exactly those whose value is not `[]`, `'UNKNOWN'` or `None` |
| MetadataFields.StrikeOutKey | distlib/metadata.py:130-139 | one pass removes exactly the versions whose field list lacks the key and keeps the order of the rest |
| MetadataFields.StrikeOutVersions | distlib/metadata.py:129-139 | after the loop, the possible versions are exactly those whose field list holds every used key, in the order 1.0, 1.1, 1.2, 2.0 |
| MetadataFields.PossibleVersionsAdd | distlib/metadata.py:130-139 | adding one used key keeps exactly the versions whose field list holds it |
| MetadataFields.BestVersion | distlib/metadata.py:114-168 | `_best_version` returns, or raises, what the reference `BestVersionOf` of the used keys gives |
| MetadataFields.BestVersionSound | distlib/metadata.py:128-168 | a returned version is never 1.0 and its field list holds every used key |
| MetadataFields.BestVersionConflict | distlib/metadata.py:141-152 | `MetadataConflictError` is raised iff no version holds every used key, or several versions remain and markers of more than one of 1.1/1.2/2.0 are used |
| MetadataFields.BestVersionEmpty | distlib/metadata.py:159-162 | with no used key the preferred version 1.1 is returned |
| MetadataFields.AllFieldsUnion | distlib/metadata.py:93-97 | `_ALL_FIELDS` is the union of the four field lists |
| MetadataFields.FieldsCapitalized | distlib/metadata.py:54-97 | every field name starts with a capital letter |
| MetadataFields.AllFieldsCover | distlib/metadata.py:93-97 | every field name is a 1.1 or a 2.0 field |
| MetadataFields.AttributesStyled | distlib/metadata.py:170-201 | every key of `_ATTR2FIELD` is lower case with no `-` |
| MetadataFields.AttributesNameFields | distlib/metadata.py:170-201 | every attribute of `_ATTR2FIELD` stands for a field name |
| MetadataFields.AttributeStyleNotField | distlib/metadata.py:285-289 | a lower-case name without `-` is never a field name |
| MetadataFields.NormalizedAttributeStyle | distlib/metadata.py:287-288 | `replace('-', '_').lower()` yields an attribute-style name and leaves one unchanged |
| MetadataFields.ConvertName | distlib/metadata.py:285-289 | field names are kept; every result is a field name, or an attribute-style name that no attribute maps |
| MetadataFields.ConvertNameIdempotent | distlib/metadata.py:285-289 | converting a converted name changes nothing |
| MetadataFields.ConvertNameAttribute | distlib/metadata.py:285-289 | each attribute name converts to its field |
| MetadataFields.ConvertNameIgnoresCase | distlib/metadata.py:285-289 | outside the field names, conversion does not depend on case |
| MetadataFields.LowerNotField | distlib/metadata.py:285-289 | a lower-cased name is never a field name, so it is always converted |
| MetadataFields.EscapeDescription | distlib/metadata.py:420-421 | the escape never shortens the text, keeps a first character that is not a newline, and turns a leading newline into the continuation prefix |
| MetadataFields.RemoveLinePrefix | distlib/metadata.py:296-297 | removing continuation prefixes never lengthens the text |
| MetadataFields.RemoveEscapedLinePrefix | distlib/metadata.py:296-297 | removing the prefixes from an escaped `Description` gives the original text, for every text |
| MetadataFields.FileSafe | distlib/metadata.py:219 | the substitution yields only safe characters and single `-`s, is empty iff its input is, and keeps a safe first character |
| MetadataFields.DefaultValue | distlib/metadata.py:291-294 | an absent field reads as `[]` exactly for list and element fields, and as `'UNKNOWN'` otherwise |
| MetadataFields.FileSafeKeepsSafePart | distlib/metadata.py:219 | the substitution keeps every character of `[A-Za-z0-9.]`, in order |
| MetadataFields.FileSafeFixes | distlib/metadata.py:219 | an already file-safe text is unchanged |
| MetadataFields.FileSafeIdempotent | distlib/metadata.py:219 | substituting twice is substituting once |
| MetadataFields.NameAndVersionFileSafe | distlib/metadata.py:222-232 | the filename form holds only `[A-Za-z0-9.]` and `-`, no space, and is unchanged by escaping its escaped parts again |
| LegacyFields.Normalize | distlib/metadata.py:458-500 | fails exactly for a `Description` that is not a string and, with warnings enabled, for a predicate field given a list or tuple with a non-string item; list fields and `Keywords` always store a list or tuple; an accepted list or tuple, and any value of another field, is stored as given |
| LegacyFields.SetField | distlib/metadata.py:458-500 | `set` fails exactly when normalising fails; otherwise it stores the normalised value under the converted name only and leaves every other field as it was |
| LegacyFields.SetFieldCanonical | distlib/metadata.py:458-500 | `set` keeps every key converted |
| LegacyFields.UrlPair | distlib/metadata.py:522-524 | a `Project-URL` entry becomes the tuple of its first two items, and raises with fewer than two |
| LegacyFields.UrlPairs | distlib/metadata.py:517-525 | the pairs of all entries, in order, or the failure of one entry |
| LegacyFields.UrlPairsErrExtends | distlib/metadata.py:517-525 | a failing entry ends the loop with its error |
| LegacyFields.ListGet | distlib/metadata.py:513-526 | `get` on a list field always yields a list, the stored items for a non-`Project-URL` sequence |
| LegacyFields.GetField | distlib/metadata.py:502-530 | an absent field yields the given default or `_default_value`; a stored value of a field that is neither a list field nor `Keywords` is returned as it is; a list field reads as a list |
| LegacyFields.SetGetListString | distlib/metadata.py:458-530 | a string set on a list field other than `Platform`/`Project-URL` reads back as `[s]` |
| LegacyFields.SetGetCommaList | distlib/metadata.py:458-530 | a string set on `Keywords` or `Platform` reads back as its stripped comma-separated pieces |
| LegacyFields.SetGetNonSequence | distlib/metadata.py:458-530 | a value that is neither a string nor a sequence, set on a list field or `Keywords`, reads back as `[]` |
| LegacyFields.SetGetListItems | distlib/metadata.py:458-530 | a sequence set on a list field other than `Project-URL` is accepted iff the field is not a predicate field or every item is a string, and then reads back as a list of the same items |
| LegacyFields.SetGetDescription | distlib/metadata.py:458-530 | a `Description` is accepted iff it is a string, and reads back without continuation prefixes |
| LegacyFields.SetGetPlain | distlib/metadata.py:458-530 | any other field reads back exactly as set |
| LegacyFields.ContainsConverted | distlib/metadata.py:281-283 | with converted keys, `name in md` holds iff the converted name is stored |
| LegacyFields.DeleteField | distlib/metadata.py:274-279 | `del` removes exactly the converted name and raises `KeyError(name)` when it is absent |
| LegacyFields.FieldListOf | distlib/metadata.py:643-644 | the key list is the field list of the stored version, and fails for any other value |
| LegacyFields.KeysOf | distlib/metadata.py:643-644 | `keys()` is the field list of the stored `Metadata-Version` |
| LegacyFields.Fullname | distlib/metadata.py:355-359 | `get_fullname(True)` fails iff `Name` or `Version` is not a string, and its result is filename-safe |
| LegacyFields.UpdateFieldsErrExtends | distlib/metadata.py:430-456 | a failing `set` ends `update` with its error |
| LegacyFields.UpdateFieldsKeys | distlib/metadata.py:440-442 | `update` adds only fields that an attribute name stands for, and keeps keys converted |
| LegacyFields.UpdateFieldsIgnores | distlib/metadata.py:440-442 | pairs with a field-style key or a false value are dropped |
| LegacyFields.JoinValue | distlib/metadata.py:415-416 | `','.join` succeeds iff the value iterates over strings, and joins them with commas |
| LegacyFields.JoinEach | distlib/metadata.py:424-425 | each `Project-URL` pair is joined by a comma, or the first failure is raised |
| LegacyFields.Lines | distlib/metadata.py:265-266 | one `field: value` line per value, in order |
| LegacyFields.WriteLinesShape | distlib/metadata.py:410-429 | every line written, before an error or without one, is `field: value` for one of the fields written |
| LegacyFields.WriteLinesErrExtends | distlib/metadata.py:410-429 | an error while writing one field ends the whole write, with the lines written before it |
| LegacyFields.WriteLinesStep | distlib/metadata.py:412-429 | one more field appends its lines, or stops with its error and the lines written so far |
| LegacyFields.WriteLinesPrefix | distlib/metadata.py:412-429 | the file is written a line at a time: the lines of the first fields begin the lines of all of them |
| LegacyFields.MissingFieldSkipped | distlib/metadata.py:291-294 | a field never set reads as its default, which `skip_unknown` leaves out |
| LegacyFields.WriteDescription | distlib/metadata.py:419-421 | `Description` is written on one line with every newline prefixed, and removing the prefixes recovers it |
| LegacyFields.WriteKeywords | distlib/metadata.py:414-416 | keywords are written on one line, joined by commas |
| LegacyFields.SetKeywordsLine | distlib/metadata.py:462-464 | setting `Keywords` from that line gives the keywords back, when none holds a comma or surrounding blanks |
| LegacyFields.KeywordsKind | distlib/metadata.py:206-213 | `Keywords` is a field name and only an elements field |
| LegacyFields.Missing | distlib/metadata.py:539-548 | the missing names are exactly those the metadata does not contain, in order |
| LegacyFields.ValidConstraints | distlib/metadata.py:557-561 | `are_valid_constraints` is true iff every requirement's part before `;` is a valid matcher; only non-strings raise |
| LegacyFields.FieldWarning | distlib/metadata.py:568-571 | one field's check raises exactly when reading the field, or checking its set value, raises; it warns exactly when the field is set and the check rejects it, and then the warning is `Wrong value for` the field and its value |
| LegacyFields.Collect | distlib/metadata.py:563-571 | running a group's checks in order yields at most one warning per check |
| LegacyFields.CollectErrExtends | distlib/metadata.py:563-571 | a raising check ends the group with its error, whatever follows |
| LegacyFields.CollectOk | distlib/metadata.py:563-571 | a group's checks succeed iff every check does |
| LegacyFields.CollectValue | distlib/metadata.py:563-571 | a successful group returns the warning of every check that gave one, in order |
| LegacyFields.CollectFirstError | distlib/metadata.py:563-571 | a failing group fails with the error of its first raising check |
| LegacyFields.GroupWarnings | distlib/metadata.py:563-571 | at most one warning per field of a group |
| LegacyFields.FieldWarningsSaid | distlib/metadata.py:563-571 | the warnings of a group's checks are those about its flagged fields (set, and rejected by the check), in group order |
| LegacyFields.GroupWarningsMeaning | distlib/metadata.py:563-571 | a group succeeds iff none of its fields raises, and then returns one `Wrong value` warning per flagged field in group order; a failing group fails with the error of its first raising field |
| LegacyFields.GroupRaisesMeaning | distlib/metadata.py:563-571 | a group succeeds iff no field raises, with the warnings about its flagged fields |
| LegacyFields.WarningsMeaning | distlib/metadata.py:563-571 | the 1.2 checks succeed iff no field of the predicate, `Requires-Python` or `Version` groups raises, and return the warnings about the flagged fields of the three groups in that order |
| LegacyFields.CheckReport | distlib/metadata.py:531-573 | strict mode raises `MetadataMissingError` without `Name` and `Version`; the missing names are exactly the absent ones of `Name`, `Version`, `Home-page`, `Author`; only 1.2 metadata gets warnings |
| LegacyFields.CheckReportWarnings | distlib/metadata.py:559-573 | for 1.2 metadata the warnings are those about the flagged fields of the predicate, `Requires-Python` and `Version` groups in order, and past the strict missing-name check `check` raises exactly when reading or checking one of those fields raises |
| LegacyFields.AddRequirementsAppends | distlib/metadata.py:632-638 | after `add_requirements`, `Requires-Dist` reads as the old requirements followed by the new ones |
| LegacyFields.AddRequirementsDrops11 | distlib/metadata.py:633-637 | 1.1 metadata loses `Obsoletes`, `Requires` and `Provides` |
| LegacyFields.LegacyBuildValid | distlib/metadata.py:711-713 | legacy metadata built from a mapping has converted keys, `Name`, `Version` and a recognised `Metadata-Version` |
| LegacyFields.ListFieldReadsList | distlib/metadata.py:513-526 | `get` of a list field yields a list whenever it succeeds |
| LegacyMetadataClass.LegacyMetadata.constructor | distlib/metadata.py:246-253 | a new instance has no fields |
| LegacyMetadataClass.LegacyMetadata.SetMetadataVersion | distlib/metadata.py:262-263 | stores the version `_best_version` picks, or raises its conflict and changes nothing |
| LegacyMetadataClass.LegacyMetadata.Set | distlib/metadata.py:458-500 | the new fields are `SetField` of the old ones, or unchanged with the error |
| LegacyMetadataClass.LegacyMetadata.ItemsSplittable | distlib/metadata.py:478-481 | the loop over a predicate field's items gets through iff every item is a string |
| LegacyMetadataClass.LegacyMetadata.Get | distlib/metadata.py:502-530 | returns `GetField` of the fields |
| LegacyMetadataClass.LegacyMetadata.ListGetOf | distlib/metadata.py:513-526 | the list loop of `get` computes `ListGet` |
| LegacyMetadataClass.LegacyMetadata.UrlPairsOf | distlib/metadata.py:517-525 | the `Project-URL` loop computes `UrlPairs` |
| LegacyMetadataClass.LegacyMetadata.Delete | distlib/metadata.py:274-279 | the new fields are `DeleteField` of the old ones, or unchanged with `KeyError(name)` |
| LegacyMetadataClass.LegacyMetadata.Update | distlib/metadata.py:430-456 | the new fields and the error are `UpdateFields` of the old fields and the pairs |
| LegacyMetadataClass.LegacyMetadata.WriteFields | distlib/metadata.py:410-429 | the lines written and the error raised are `WrittenLines` of the fields: on an error, the lines of the fields before it |
| LegacyMetadataClass.LegacyMetadata.EmitLines | distlib/metadata.py:428-429 | one line per value, as `Lines` |
| LegacyMetadataClass.LegacyMetadata.FieldValuesOf | distlib/metadata.py:411-426 | the values written for one field, as `FieldValues` |
| LegacyMetadataClass.LegacyMetadata.WriteFile | distlib/metadata.py:408-429 | sets the version, then writes that version's fields, keeping the lines written before an error; a version conflict is raised first, with nothing written |
| LegacyMetadataClass.LegacyMetadata.AreValidConstraints | distlib/metadata.py:557-561 | the loop computes `ValidConstraints` |
| LegacyMetadataClass.LegacyMetadata.CheckField | distlib/metadata.py:568-571 | the check of one field computes `FieldWarning`: it warns exactly about a set field the check rejects, and raises exactly when reading or checking the field raises |
| LegacyMetadataClass.LegacyMetadata.CheckGroup | distlib/metadata.py:563-571 | the loop over a group computes `GroupWarnings`: the warnings about its flagged fields in order, or the error of the first raising field (`GroupWarningsMeaning`) |
| LegacyMetadataClass.LegacyMetadata.MissingOf | distlib/metadata.py:539-548 | the loop computes `Missing` |
| LegacyMetadataClass.LegacyMetadata.CheckFields | distlib/metadata.py:535-573 | the body of `check` computes `CheckReport`, whose 1.2 warnings `CheckReportWarnings` states |
| LegacyMetadataClass.LegacyMetadata.Check | distlib/metadata.py:531-573 | sets the version, then reports as `CheckReport` (missing names, and for 1.2 the warnings of `CheckReportWarnings`); a version conflict is raised first |
| LegacyMetadataClass.LegacyMetadata.DropRequirementFields | distlib/metadata.py:634-637 | removes exactly `Obsoletes`, `Requires` and `Provides` |
| LegacyMetadataClass.LegacyMetadata.AddRequirements | distlib/metadata.py:632-638 | the new fields are `AddRequirementsFields` of the old ones; after a failure, 1.1 metadata has still lost `Obsoletes`, `Requires` and `Provides` |
| MetadataRules.DictPut | distlib/metadata.py:835 | `d[key] = v` keeps the length when the key is present and appends an entry otherwise |
| MetadataRules.DictPutLookup | distlib/metadata.py:835 | after `d[key] = v`, `key` maps to `v` and every other key to its old value |
| MetadataRules.ValidateValue | distlib/metadata.py:778-786 | passes iff the key has no validator, the scheme is excluded, or the string matches the pattern as written; otherwise `MetadataInvalidError`, or `TypeError` for a non-string |
| MetadataRules.ValidateValueIntended | distlib/metadata.py:778-786 | the same check with the summary pattern as evidently intended |
| MetadataRules.ValidateValueIntendedRefines | distlib/metadata.py:778-786 | the intended check agrees with the written one except on summaries, where it passes exactly the written passes of one line of at most 2047 characters |
| MetadataRules.SummaryTooLongValidates | distlib/metadata.py:778-786 | a summary of 2048 characters passes the written check and fails the intended one |
| MetadataRules.FirstInvalid | distlib/metadata.py:897-898 | no error iff every entry validates; an error is the error of some entry |
| MetadataRules.FirstInvalidExtends | distlib/metadata.py:897-898 | the first failing entry decides the error |
| MetadataRules.MissingAmong | distlib/metadata.py:889-893 | exactly the mandatory keys absent and not excused by the scheme |
| MetadataRules.MissingMandatory | distlib/metadata.py:677-681 | `name` and `version` are always required, and `summary` only outside the `legacy` scheme |
| MetadataRules.ValidateMapping | distlib/metadata.py:886-898 | `MetadataUnrecognizedVersionError` iff `metadata_version != '2.0'`; then `MetadataMissingError` listing the missing mandatory keys whenever there are any; then the first invalid value; success iff the version is `'2.0'`, nothing is missing and every value validates |
| MetadataRules.MetadataVersionTwoMatches | distlib/metadata.py:667 | `'2.0'` matches `^\d+(\.\d+)*$`, while `''`, `'2.'` and `'.2'` do not |
| MetadataRules.DottedDigitsJoin | distlib/metadata.py:667 | digit runs joined by dots always match `METADATA_VERSION_MATCHER` |
| MetadataRules.NameMatchesIgnoresCase | distlib/metadata.py:669 | `NAME_MATCHER` does not depend on case |
| MetadataRules.NameAndVersionMatches | distlib/metadata.py:669 | a filename-safe `name-version` that starts and ends alphanumeric matches `NAME_MATCHER` |
| MetadataRules.SummaryLengthNotEnforced | distlib/metadata.py:673 | the written summary pattern accepts a text of 2048 characters |
| MetadataRules.SummaryMatchesRefines | distlib/metadata.py:673 | the intended summary pattern is the written one restricted to one line of at most 2047 characters |
| MetadataRules.Included | distlib/metadata.py:855-860 | an entry is taken only when its `extra` is requested, and never when its `extra` is another string |
| MetadataRules.SelectedErrExtends | distlib/metadata.py:854-861 | a raising entry ends the loop with its error |
| MetadataRules.SelectedNone | distlib/metadata.py:854-861 | entries naming no requested extra add nothing |
| MetadataRules.Requirements | distlib/metadata.py:851-869 | the result starts with a copy of `always` |
| MetadataRules.RequirementsWithoutTest | distlib/metadata.py:851-861 | without `'test'`, the result is `always` followed by the selected dependencies |
| MetadataRules.RequirementsNoExtras | distlib/metadata.py:851-861 | with no extras requested only `always` is returned |
| MetadataRules.RequirementsWithTest | distlib/metadata.py:862-869 | with `'test'`, the result continues with `test_requires`/`test_may_require` selected for the other extras, one level deep |
| MetadataRules.AppendAbsent | distlib/metadata.py:826-828 | the entry is in the list afterwards; a present entry leaves the list as it is, an absent one is appended |
| MetadataRules.PyContains | distlib/metadata.py:827 | `in` is membership on a list or tuple; it raises on `None` and numbers |
| MetadataRules.ProvidesData | distlib/metadata.py:820-829 | the value returned holds this release's entry and is stored as `provides`, other keys are unchanged; an absent `provides` becomes the one-entry list, a list gets the entry appended when absent; any other value is returned unchanged when `in` finds the entry and raises otherwise |
| MetadataRules.ProvidesIdempotent | distlib/metadata.py:820-829 | reading `provides` a second time returns the same value |
| MetadataRules.ProvidesNonList | distlib/metadata.py:826-829 | a tuple or string `provides` is never extended: it is returned when it holds the entry (as an item, or as a substring) and raises otherwise |
| MetadataRules.AddRunRequires | distlib/metadata.py:980 | `run_requires` becomes the old list followed by the requirements, other keys are unchanged; a non-list raises |
| MetadataRules.AddRunRequiresTwice | distlib/metadata.py:980 | adding requirements in two steps equals adding them at once |
| MetadataRules.CommonKeysAreAttributes | distlib/metadata.py:739-755 | every common key is an attribute name of a legacy field and no mapped key |
| MetadataRules.MappedKeysAreFields | distlib/metadata.py:741-755 | the legacy names in `mapped_keys` are field names |
| MetadataClass.Metadata.constructor | distlib/metadata.py:722-723 | without a source the data is `{'metadata_version': '2.0'}` |
| MetadataClass.Metadata.FromMapping | distlib/metadata.py:707-713 | a valid mapping becomes the data; a validation error other than an unrecognised version propagates; an unrecognised version wraps the legacy metadata `LegacyBuild` yields, or raises its error |
| MetadataClass.Metadata.ValidateMappingOf | distlib/metadata.py:886-898 | the version check and the two loops of `_validate_mapping` compute `ValidateMapping` |
| MetadataClass.Metadata.MissingKeysOf | distlib/metadata.py:889-892 | the first loop collects `MissingAmong`: the mandatory keys absent and not excused by the scheme |
| MetadataClass.Metadata.FirstInvalidEntry | distlib/metadata.py:897-898 | the second loop returns `FirstInvalid`: the error of the first entry that does not validate |
| MetadataClass.Metadata.CheckValue | distlib/metadata.py:778-786 | an empty or missing scheme means the instance's own scheme |
| MetadataClass.Metadata.Validate | distlib/metadata.py:900-907 | 2.0 data is validated by `_validate_mapping` with the instance's scheme; legacy metadata sets its version and fails iff the strict `check` raises |
| MetadataClass.Metadata.CommonValue | distlib/metadata.py:772-775 | a common key reads the legacy field, or `_data.get(key)` |
| MetadataClass.Metadata.NameVersion | distlib/metadata.py:816-817 | `name_and_version` succeeds iff `name` and `version` read as strings, and is then their filename-safe `name-version` |
| MetadataClass.Metadata.GetRequirements | distlib/metadata.py:837-870 | legacy metadata returns `always` and raises `NotImplementedError` on non-empty `sometimes`; 2.0 data returns `Requirements` |
| MetadataClass.Metadata.DataRequirements | distlib/metadata.py:851-869 | the loop and the one recursive call compute `Requirements` |
| MetadataClass.Metadata.SelectedOf | distlib/metadata.py:854-861 | the loop over `sometimes` computes `Selected` |
| MetadataClass.Metadata.Provides | distlib/metadata.py:820-829 | 2.0 data is updated as `ProvidesData`; legacy metadata returns `Provides-Dist` with the entry appended when absent, and raises exactly when reading `Provides-Dist` raises (a stored value that is not iterable), with that error |
| LegacyFields.NameVersionRead | distlib/metadata.py:825 | reading `name` or `version` of legacy metadata never raises |
| MetadataClass.Metadata.SetProvides | distlib/metadata.py:831-835 | sets `_data['provides']`, or `Provides-Dist` of the legacy fields |
| MetadataClass.Metadata.AddRequirements | distlib/metadata.py:976-980 | extends `run_requires` of 2.0 data, or runs the legacy `add_requirements` |
| OrderedDicts.ReverseReverse | distlib/compat.py:507-521 | reversing the iteration order twice gives it back |
| OrderedDicts.AddKeysContents | distlib/compat.py:488-496 | setting keys adds exactly those keys |
| OrderedDicts.AddKeysKeepsOrder | distlib/compat.py:488-496 | setting keys never moves a present key and never repeats one |
| OrderedDicts.AddKeysDistinct | distlib/compat.py:670-678 | setting distinct keys into an empty dictionary keeps their order |
| OrderedDicts.PutAllValue | distlib/compat.py:586-619 | each key ends with the value of its last pair, or keeps its old value |
| OrderedDicts.PutAllItems | distlib/compat.py:665-667 | setting the items of a dictionary into an empty one rebuilds it |
| OrderedDicts.PutAllConst | distlib/compat.py:670-678 | `fromkeys` maps every key to the value |
| OrderedDicts.LinkLast | distlib/compat.py:491-495 | a new link goes between the last node and the sentinel, and the circle stays intact |
| OrderedDicts.Unlink | distlib/compat.py:503-505 | joining a link's neighbours removes exactly that link from the circle |
| OrderedDicts.OrderedDict.constructor | distlib/compat.py:472-486 | the sentinel linked to itself, with no keys |
| OrderedDicts.OrderedDict.SetItem | distlib/compat.py:488-496 | the value is stored; a new key goes last and an existing key keeps its place |
| OrderedDicts.OrderedDict.DelItem | distlib/compat.py:498-505 | removes exactly that key from the dictionary and the order, or raises `KeyError` |
| OrderedDicts.OrderedDict.Iter | distlib/compat.py:507-513 | yields the keys in insertion order |
| OrderedDicts.OrderedDict.Reversed | distlib/compat.py:515-521 | yields the reverse of the iteration order |
| OrderedDicts.OrderedDict.PopItem | distlib/compat.py:535-556 | removes and returns the newest pair when `last`, else the oldest, and raises `KeyError` when empty |
| OrderedDicts.OrderedDict.Pop | distlib/compat.py:621-632 | removes and returns the value, or returns the default, or raises `KeyError` without one |
| OrderedDicts.OrderedDict.Clear | distlib/compat.py:523-533 | no keys remain |
| OrderedDicts.OrderedDict.Items | distlib/compat.py:568-570 | the pairs in key order |
| OrderedDicts.OrderedDict.Values | distlib/compat.py:564-566 | the values in key order |
| OrderedDicts.OrderedDict.Update | distlib/compat.py:586-619 | each pair is set in turn, as `PutAll` and `AddKeys` |
| OrderedDicts.OrderedDict.FromKeys | distlib/compat.py:670-678 | the keys in first-occurrence order, each mapped to the value |
| OrderedDicts.OrderedDict.Copy | distlib/compat.py:665-667 | the same pairs in the same order |
| OrderedDicts.OrderedDict.SetDefault | distlib/compat.py:634-639 | an existing value is returned and kept; otherwise the default is set last and returned |
| ChainMaps.LookupFirst | distlib/compat.py:355-361 | a lookup finds the value of the first mapping holding the key, and nothing iff no mapping holds it |
| ChainMaps.UnionLookup | distlib/compat.py:366-373 | a key is in the union of all keys iff a lookup finds it |
| ChainMaps.LookupPutFirst | distlib/compat.py:403-404 | writing into the first mapping makes the key visible and changes no other lookup |
| ChainMaps.LookupRemoveFirst | distlib/compat.py:406-410 | deleting from the first mapping exposes the later mappings' value |
| ChainMaps.LookupNewChild | distlib/compat.py:394-396 | a new empty child hides nothing |
| ChainMaps.ChainMap.constructor | distlib/compat.py:345-350 | the given mappings, or one empty mapping |
| ChainMaps.ChainMap.GetItem | distlib/compat.py:355-361 | the value from the first mapping holding the key, or `KeyError` |
| ChainMaps.ChainMap.ContainsIffLookup | distlib/compat.py:372-373 | `key in cm` iff a lookup finds it iff the key is in the union |
| ChainMaps.ChainMap.Get | distlib/compat.py:363-364 | the looked-up value, or the default |
| ChainMaps.ChainMap.Len | distlib/compat.py:366-367 | the size of the union of keys, zero iff all mappings are empty |
| ChainMaps.ChainMap.BoolIffNonEmpty | distlib/compat.py:375-376 | truthy iff some key exists |
| ChainMaps.ChainMap.FromKeys | distlib/compat.py:383-386 | one mapping from each key to the value |
| ChainMaps.ChainMap.Copy | distlib/compat.py:388-390 | the same mappings |
| ChainMaps.ChainMap.NewChild | distlib/compat.py:394-396 | an empty mapping in front of the old ones |
| ChainMaps.ChainMap.Parents | distlib/compat.py:398-401 | the mappings without the first one, or one empty mapping when none remain |
| ChainMaps.ChainMap.SetItem | distlib/compat.py:403-404 | only the first mapping changes |
| ChainMaps.ChainMap.DelItem | distlib/compat.py:406-410 | deletes from the first mapping only, or raises `KeyError` when it lacks the key |
| ChainMaps.ChainMap.PopItem | distlib/compat.py:412-417 | removes some pair of the first mapping, or raises `KeyError` when it is empty |
| ChainMaps.ChainMap.Pop | distlib/compat.py:419-424 | removes from the first mapping, or returns the default, or raises `KeyError` |
| ChainMaps.ChainMap.Clear | distlib/compat.py:426-428 | empties the first mapping and leaves the others intact |
| Hostnames.GlobTokens | distlib/compat.py:66-68 | each `*` becomes `[^.]*` and every other character a literal |
| Hostnames.FragmentMatch | distlib/compat.py:60-68 | on a dot-free label, a lone `*` matches any non-empty label and any other fragment matches as a case-insensitive glob |
| Hostnames.LiteralMatch | distlib/compat.py:66-69 | a fragment without `*` matches exactly the texts equal to it up to ASCII case |
| Hostnames.JoinedMatch | distlib/compat.py:58-69 | a joined pattern matches iff the hostname has as many labels as there are fragments and each label matches its fragment |
| Hostnames.DnsnameMatch | distlib/compat.py:58-69 | `_dnsname_to_pat(dn).match(hostname)` holds iff the label counts agree and each hostname label matches the fragment in the same place |
| Hostnames.ScanPairs | distlib/compat.py:84-89 | the SAN loop stops at a matching DNS name, or collects all DNS names, none of which matches |
| Hostnames.ScanSubject | distlib/compat.py:90-99 | the subject loop stops at a matching common name, or collects all of them, none of which matches |
| Hostnames.MatchHostname | distlib/compat.py:72-110 | the outcome is `MatchOutcome` of the certificate |
| Hostnames.SanMatchWins | distlib/compat.py:84-88 | a matching SAN DNS entry makes `match_hostname` return |
| Hostnames.CommonNameMatchWins | distlib/compat.py:90-98 | with no SAN DNS entry, a matching common name makes it return |
| Hostnames.MatchOutcomeMeaning | distlib/compat.py:80-110 | it returns iff a candidate name matches; the subject is ignored when the SAN has DNS names; "no appropriate commonName" iff there are no names at all |
| Encodings.GetNormalName | distlib/compat.py:187-196 | returns `'utf-8'`, `'iso-8859-1'` or its input unchanged |
| Encodings.NormalNameByPrefix | distlib/compat.py:189-196 | only the first twelve characters, lowered with `_` as `-`, decide the result |
| Encodings.NormalNameIdempotent | distlib/compat.py:187-196 | normalising twice changes nothing |
| Encodings.NormalNameExamples | distlib/compat.py:187-196 | `UTF_8` and `utf-8-unix` normalise to `utf-8`, `Latin-1` to `iso-8859-1`, `ascii` stays |
| Encodings.SkipSpaces | distlib/compat.py:185 | skips exactly the run of `\s` characters (space, tab, line feed, carriage return, vertical tab, form feed) |
| Encodings.CookieAt | distlib/compat.py:185 | a declaration group is a non-empty run of `[-\w.]` |
| Encodings.CookieSeparators | distlib/compat.py:185 | spaces and tabs may separate `coding:` from the name, a `\x1c` may not |
| Encodings.FirstCookieLeftmost | distlib/compat.py:239-241 | `findall(...)[0]` is the group of the leftmost match, and there is none iff no match starts anywhere |
| Encodings.FindCookieNonEmpty | distlib/compat.py:228-262 | a declared encoding is never empty |
| Encodings.FindCookieAfterBom | distlib/compat.py:254-262 | after a BOM a declaration found is a UTF-8 codec's name with `-sig` appended; a declared codec other than UTF-8 raises the encoding problem |
| Encodings.FindCookieLookup | distlib/compat.py:245-262 | an unknown declared encoding, and only that, raises naming its normal name; a known one without a BOM is returned as that name |
| Encodings.FindCookieNoDeclaration | distlib/compat.py:228-243 | bytes that do not decode, and only those, are an invalid declaration; a line without a cookie declares nothing |
| Encodings.Reads | distlib/compat.py:264-284 | `readline` is called once or twice |
| Encodings.DetectWithBom | distlib/compat.py:264-284 | with a BOM every encoding returned ends in `-sig`, and the first line comes back without the BOM |
| Encodings.DetectEmptyFirst | distlib/compat.py:264-270 | an empty first line, after the BOM is stripped, returns the default with no lines after one read |
| Encodings.DetectCookieOnFirst | distlib/compat.py:272-274 | a declaration on the first line is returned with that line alone after one read |
| Encodings.DetectDefault | distlib/compat.py:276-284 | without a BOM or a declaration the encoding is `utf-8` with the lines read |
| Encodings.LineSource.ReadLine | distlib/compat.py:222-226 | returns the next line, or `b''` past the end |
| Encodings.DetectEncoding | distlib/compat.py:198-286 | returns `Detect` of the next two lines and consumes exactly `Reads` of them |
| CompatMisc.SplitUserMatches | distlib/compat.py:43-52 | `splituser` returns no user iff `^(.*)@(.*)$` does not match; otherwise it splits at the last position where the pattern matches, as greedy `.*` does |
| CompatMisc.SplitUserRoundTrip | distlib/compat.py:43-52 | user, `@` and host rebuild the string up to a final newline, and the host holds no `@` |
| CompatMisc.CacheFromSourceName | distlib/compat.py:433-441 | the name gets `c` when debugging (override, else `__debug__`) and `o` otherwise; a non-`.py` path fails exactly when asserts are on |
| Resources.LtTransitive | distlib/resources.py:205 | Python's string order is transitive |
| Resources.LtTotal | distlib/resources.py:205 | any two strings are equal or ordered |
| Resources.PrefixBetween | distlib/resources.py:246-252 | strings that start with `p` are contiguous in sorted order |
| Resources.InsertSorted | distlib/resources.py:205 | inserting a new name keeps the list sorted |
| Resources.BisectSplit | distlib/resources.py:246 | on a sorted list, `bisect` separates the entries at or below `x` from those above it |
| Resources.Bisect | distlib/resources.py:246 | the binary search returns `bisect.bisect(s, x)` |
| Resources.BisectUnique | distlib/resources.py:246 | the split point is unique |
| Resources.WithSep | distlib/resources.py:242-243 | a separator is appended unless present; an empty path raises `IndexError` |
| Resources.FirstSegment | distlib/resources.py:251 | `split(os.sep, 1)[0]` is the separator-free text before the first separator |
| Resources.Children | distlib/resources.py:251 | no child holds a separator |
| Resources.JoinPartsPlain | distlib/resources.py:149-152 | joining separator-free parts onto a directory puts one separator between each |
| Resources.MakePathPlain | distlib/resources.py:149-152 | a resource name without empty segments lands directly below the base directory |
| Resources.DirnameOfFile | distlib/resources.py:147 | the directory of `d/f` is `d` |
| Resources.AllowedNames | distlib/resources.py:182-185 | exactly the listed names other than `__pycache__` and byte-code files |
| Resources.ZipResourceFinder.constructor | distlib/resources.py:196-205 | the index is the sorted list of the entry names and `prefix_len == 1 + len(archive)` |
| Resources.ZipResourceFinder.EntryAfterMeaning | distlib/resources.py:259-264 | the entry after `bisect` starts with `q` iff some entry other than `q` does |
| Resources.ZipResourceFinder.FindMeaning | distlib/resources.py:207-264 | a path is a directory iff some entry lies strictly below it, and is found iff it names an entry or is a directory; an empty stripped path raises `IndexError`, unless `_find` finds it among the entries |
| Resources.ZipResourceFinder.FindResourceMeaning | distlib/resources.py:160-170 | `find` gives nothing iff `_find` is false, else a container iff `_is_directory` holds, named and with `.path` set |
| Resources.ZipResourceFinder.CacheInfoRoundTrip | distlib/resources.py:225-228 | the archive and the stripped path rebuild the resource path |
| Resources.ZipResourceFinder.GetSize | distlib/resources.py:236-238 | field 3 of the entry, or `KeyError` for a path naming no entry |
| Resources.ZipResourceFinder.ScanComplete | distlib/resources.py:246-252 | where the scan stops, the segments collected are exactly the children |
| Resources.ZipResourceFinder.GetResources | distlib/resources.py:240-253 | the immediate children of the directory, or `IndexError` for an empty path |
| Text.JoinSplit | distlib/compat.py:60 | joining the pieces of a split gives the string back |
| Text.SplitJoin | distlib/compat.py:60 | splitting a join of separator-free pieces gives the pieces back |

## Left out

- `Sequencer`, `get_export_entry`, `split_filename`, `EventMixin`, `Progress`, `unarchive`, `resolve` and `parse_credentials` live in distlib/util.py, which is not part of this model.
- File, stream and JSON I/O is not modelled: `LegacyMetadata.read`/`read_file`/`write` (`write_file` returns the lines it writes to the file object), the path and file branches of `Metadata.__init__`, `Metadata.write`, `Cache`, and the filesystem finder's `get_stream`, `get_bytes`, `get_size`, `os.path.exists` and `os.path.isdir`. The filesystem `get_resources` is modelled only as its `allowed` filter over a given listing.
- The email header parser and `json` are not modelled.
- Logging is modelled at its default level, where warnings are enabled: the check loop of `set` runs, so a non-string item of a predicate field raises. The warning messages themselves are not modelled, nor is a logger configured to skip warnings (where such items would be stored).
- Version-scheme checks (`get_scheme`, `is_valid_matcher` and the others), `PEP426_VERSION_RE` and marker evaluation (`interpret`) live in other modules. They are parameters: `LegacyFields.Scheme`, `versionMatches` and `interpret`. They are taken as total: an exception they raise (`get_scheme` on an unknown scheme name, say) is not modelled.
- Codec lookup and UTF-8 decoding inside `detect_encoding` are parameters (`Decoder`, `CodecLookup`). The file name only changes the error messages, so it is left out.
- Case folding, `strip`, `split`, `\w` and `\d` follow their ASCII definitions. Whitespace for `strip` and `split` is the ASCII part of `str.isspace`, `\x1c` to `\x1f` included. The `\s` of the encoding declaration pattern, which is compiled without `re.UNICODE`, is space, tab, line feed, carriage return, vertical tab and form feed only. Unicode characters beyond ASCII are not case-folded or treated as whitespace.
- `os.sep` is `/`.
- `Metadata.__getattribute__`/`__setattr__` reflection is not modelled. Only its key tables (`common_keys`, `mapped_keys`) and the common-key read (`Metadata.CommonValue`) are. The `keywords` splitting in `__setattr__` is left out.
- `Metadata._from_legacy`, `_to_legacy`, `todict`, `dependencies` and `__repr__` are not modelled; `_to_legacy` reads an attribute that does not exist.
- `LegacyMetadata.todict`, `is_field`, `is_multi_field`, `values`, `items`, `__iter__`, `__getattr__` and `__repr__` are not modelled. They are direct uses of `get` and `keys`, which are modelled.
- `LegacyMetadata.constructor`: only the constructor without a path, file or mapping is modelled. The mapping branch is `update` followed by `set_metadata_version`, both of which are modelled.
- `Metadata` keys outside the validators (`extras`, `run_requires`, ...) are stored as given.
- `ChainMaps.ChainMap.PopItem`: `dict.popitem` removes an arbitrary pair, so the model states only that some pair of the first mapping is removed. Mappings are values, so `copy` does not capture the sharing of `maps[1:]`. `__iter__`'s set order, `__repr__` and `__missing__` for subclasses are left out.
- `OrderedDict.__eq__`, `__ne__`, `__repr__`, `__reduce__`, the `view*` methods and the `iter*` generators are left out (thread identifiers, pickling, views). The keyword-argument and `keys()` forms of `update` are modelled as a sequence of pairs.
- `OrderedDicts.OrderedDict.Clear`: the source empties every link (`del node[:]`); the model relinks the sentinel and empties both maps, without modelling the old links.
- `match_hostname` error messages are modelled as data (`MismatchOne`, `MismatchAny`, `NoNames`), not as text.
- `splituser` is the pure-Python one; Python 3 takes the one from `urllib.parse`. `cache_from_source` is the fallback used when `imp` is missing.
- `resources.finder()`, `_finder_registry`, `ResourceFinder.__init__`'s module reflection and `zipimport`'s directory cache are not modelled. The finder is given the archive name, the module file and the entry table.

## Findings

| source | as written | input that shows it | evidently intended | confidence | as-written member | corrected member |
|---|---|---|---|---|---|---|
| distlib/metadata.py:673 | `SUMMARY_MATCHER = re.compile('.{1,2047}')` is used with `match`, which only needs a non-newline first character, so neither the length nor the single line is enforced | a summary of 2048 `a`s validates | a summary of one line with 1 to 2047 characters | medium, not executed | MetadataRules.SummaryTooLongValidates | MetadataRules.ValidateValueIntendedRefines |

The model follows the code as written: `ValidateValue`, and the mapping validation and the `Metadata` methods built on it, use the written pattern. `ValidateValueIntended` is the corrected check, kept beside it with its relation to the written one proved.
