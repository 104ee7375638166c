/**
 * Source-encoding detection from distlib/compat.py (`_get_normal_name`, `detect_encoding`):
 * a UTF-8 byte-order mark on the first line, or an encoding declaration (PEP 263) on one of
 * the first two lines, names the encoding; otherwise it is UTF-8.
 *
 * Decoding a line as UTF-8 and looking up a codec belong to the runtime's codec registry;
 * both are parameters here.
 */
module Encodings {
  import opened Wrappers
  import opened Text

  newtype Byte = x: int | 0 <= x < 256
  type Bytes = seq<Byte>

  /** `codecs.BOM_UTF8` */
  const BomUtf8: Bytes := [0xEF, 0xBB, 0xBF]

  /** Decoding bytes as UTF-8: `None` where `UnicodeDecodeError` would be raised. */
  type Decoder = Bytes -> Option<String>
  /** `codecs.lookup(name).name`: `None` where `LookupError` would be raised. */
  type CodecLookup = String -> Option<String>

  /** The first twelve characters, lower-cased, with `_` replaced by `-`. */
  function NormalPrefix(orig: String): (r: String)
    ensures |r| == if |orig| < 12 then |orig| else 12
  {
    ReplaceChar(Lower(orig[..if |orig| < 12 then |orig| else 12]), '_', '-')
  }

  /** `_get_normal_name(orig_enc)` */
  function GetNormalName(orig: String): (r: String)
    ensures r == "utf-8" || r == "iso-8859-1" || r == orig
  {
    var enc := NormalPrefix(orig);
    if enc == "utf-8" || StartsWith(enc, "utf-8-") then "utf-8"
    else if enc == "latin-1" || enc == "iso-8859-1" || enc == "iso-latin-1" ||
            StartsWith(enc, "latin-1-") || StartsWith(enc, "iso-8859-1-") || StartsWith(enc, "iso-latin-1-")
    then "iso-8859-1"
    else orig
  }

  /** Only the first twelve characters decide: names that agree there normalise alike, or both stay as they are. */
  lemma NormalNameByPrefix(a: String, b: String)
    requires NormalPrefix(a) == NormalPrefix(b)
    ensures GetNormalName(a) == GetNormalName(b) || (GetNormalName(a) == a && GetNormalName(b) == b)
  {
  }

  /** Normalising twice changes nothing. */
  lemma NormalNameIdempotent(orig: String)
    ensures GetNormalName(GetNormalName(orig)) == GetNormalName(orig)
  {
    var r := GetNormalName(orig);
    if r == "utf-8" {
      assert NormalPrefix("utf-8") == "utf-8";
    } else if r == "iso-8859-1" {
      assert NormalPrefix("iso-8859-1") == "iso-8859-1";
    }
  }

  /** Spelling variants of UTF-8 and Latin-1 are recognised. */
  lemma NormalNameExamples()
    ensures GetNormalName("UTF_8") == "utf-8"
    ensures GetNormalName("utf-8-unix") == "utf-8"
    ensures GetNormalName("Latin-1") == "iso-8859-1"
    ensures GetNormalName("ascii") == "ascii"
  {
    NormalPrefixSamples();
  }

  /** The normalised prefixes of the names in `NormalNameExamples`. */
  lemma NormalPrefixSamples()
    ensures NormalPrefix("UTF_8") == "utf-8"
    ensures NormalPrefix("utf-8-unix") == "utf-8-unix"
    ensures NormalPrefix("Latin-1") == "latin-1"
    ensures NormalPrefix("ascii") == "ascii"
  {
    assert NormalPrefix("UTF_8") == "utf-8";
    assert NormalPrefix("utf-8-unix") == "utf-8-unix";
    assert NormalPrefix("Latin-1") == "latin-1";
    assert NormalPrefix("ascii") == "ascii";
  }

  // ---------------------------------------------------------------------------------------
  // The declaration `coding[:=]\s*([-\w.]+)`, searched for with `findall`.

  /** A character of `[-\w.]`. */
  predicate IsNameChar(c: char)
  {
    c == '-' || IsWordChar(c) || c == '.'
  }

  /**
   * A character of `\s` in a pattern compiled without `re.UNICODE`: space, tab, line feed,
   * carriage return, vertical tab and form feed, and not the separators `\x1c` to `\x1f`
   * that `str.isspace()` also admits.
   */
  predicate IsPatternSpace(c: char)
  {
    c == ' ' || c == '\t' || c == '\n' || c == '\r' || 11 <= c as int <= 12
  }

  /** The index after the run of `\s` characters starting at `i`. */
  function SkipSpaces(s: String, i: nat): (r: nat)
    requires i <= |s|
    ensures i <= r <= |s| && (r < |s| ==> !IsPatternSpace(s[r]))
    ensures forall k :: i <= k < r ==> IsPatternSpace(s[k])
    decreases |s| - i
  {
    if i < |s| && IsPatternSpace(s[i]) then SkipSpaces(s, i + 1) else i
  }

  /** The index after the run of `[-\w.]` characters starting at `i`. */
  function SkipName(s: String, i: nat): (r: nat)
    requires i <= |s|
    ensures i <= r <= |s| && (r < |s| ==> !IsNameChar(s[r]))
    ensures forall k :: i <= k < r ==> IsNameChar(s[k])
    decreases |s| - i
  {
    if i < |s| && IsNameChar(s[i]) then SkipName(s, i + 1) else i
  }

  /** The group of a match of the declaration starting at `p`, if one starts there. */
  function CookieAt(s: String, p: nat): (r: Option<String>)
    requires p <= |s|
    ensures r.Some? ==> r.value != [] && forall k :: 0 <= k < |r.value| ==> IsNameChar(r.value[k])
  {
    if p + 7 <= |s| && s[p..p + 6] == "coding" && (s[p + 6] == ':' || s[p + 6] == '=') then
      var q := SkipSpaces(s, p + 7);
      var e := SkipName(s, q);
      if q < e then Some(s[q..e]) else None
    else None
  }

  /** Spaces and tabs may separate the declaration's colon from the name; a file separator may not. */
  lemma CookieSeparators()
    ensures CookieAt("coding: \tlatin-1", 0) == Some("latin-1")
    ensures CookieAt("coding:" + [28 as char] + "latin-1", 0) == None
  {
    var s := "coding: \tlatin-1";
    assert s[0..6] == "coding";
    assert SkipSpaces(s, 9) == 9;
    assert SkipSpaces(s, 7) == 9;
    assert SkipName(s, 16) == 16;
    assert SkipName(s, 13) == 16;
    assert SkipName(s, 9) == 16;
    assert s[9..16] == "latin-1";
    var t := "coding:" + [28 as char] + "latin-1";
    assert t[0..6] == "coding";
    assert SkipSpaces(t, 7) == 7;
  }

  /** The match groups of the declaration at every start position `0..|s|`. */
  function Cookies(s: String): (r: seq<Option<String>>)
    ensures |r| == |s| + 1 && forall p :: 0 <= p <= |s| ==> r[p] == CookieAt(s, p)
  {
    seq(|s| + 1, p requires 0 <= p <= |s| => CookieAt(s, p))
  }

  /** The first present entry at or after `from`. */
  function First<T>(cs: seq<Option<T>>, from: nat): Option<T>
    requires from <= |cs|
    decreases |cs| - from
  {
    if from == |cs| then None
    else if cs[from].Some? then cs[from]
    else First(cs, from + 1)
  }

  /** `First` returns the leftmost present entry, and nothing iff every entry is absent. */
  lemma {:induction false} FirstLeftmost<T>(cs: seq<Option<T>>, from: nat)
    requires from <= |cs|
    ensures First(cs, from).None? <==> forall p :: from <= p < |cs| ==> cs[p].None?
    ensures First(cs, from).Some? ==>
      exists p :: from <= p < |cs| && cs[p] == First(cs, from) &&
        forall q :: from <= q < p ==> cs[q].None?
    decreases |cs| - from
  {
    if from < |cs| && cs[from].None? {
      FirstLeftmost(cs, from + 1);
    }
  }

  /** The group of the leftmost match in `s`: `matches[0]` of `findall`. */
  function FirstCookie(s: String): Option<String>
  {
    First(Cookies(s), 0)
  }

  /** `FirstCookie` returns the match at the leftmost position where one starts, and nothing iff none starts anywhere. */
  lemma FirstCookieLeftmost(s: String)
    ensures FirstCookie(s).None? <==> forall p :: 0 <= p <= |s| ==> CookieAt(s, p).None?
    ensures FirstCookie(s).Some? ==>
      exists p :: 0 <= p <= |s| && CookieAt(s, p) == FirstCookie(s) &&
        forall q :: 0 <= q < p ==> CookieAt(s, q).None?
  {
    var cs := Cookies(s);
    FirstLeftmost(cs, 0);
    if FirstCookie(s).Some? {
      var p :| 0 <= p < |cs| && cs[p] == First(cs, 0) && forall q :: 0 <= q < p ==> cs[q].None?;
      assert CookieAt(s, p) == FirstCookie(s);
    }
  }

  // ---------------------------------------------------------------------------------------
  // find_cookie and detect_encoding

  datatype EncodingError =
    | InvalidDeclaration         // SyntaxError("invalid or missing encoding declaration")
    | UnknownEncoding(name: String) // SyntaxError("unknown encoding: ...")
    | EncodingProblem            // SyntaxError("encoding problem: utf-8")

  /** The nested `find_cookie(line)`: the declared encoding, `None` without a declaration, or the error raised. */
  function FindCookie(line: Bytes, bomFound: bool, decode: Decoder, lookup: CodecLookup): Result<Option<String>, EncodingError>
  {
    match decode(line)
    case None => Err(InvalidDeclaration)
    case Some(text) =>
      match FirstCookie(text)
      case None => Ok(None)
      case Some(name) =>
        var encoding := GetNormalName(name);
        match lookup(encoding)
        case None => Err(UnknownEncoding(encoding))
        case Some(codecName) =>
          if bomFound then
            if codecName != "utf-8" then Err(EncodingProblem) else Ok(Some(encoding + "-sig"))
          else Ok(Some(encoding))
  }

  /** A declared encoding is never empty, so `if encoding:` takes every declaration found. */
  lemma FindCookieNonEmpty(line: Bytes, bomFound: bool, decode: Decoder, lookup: CodecLookup)
    ensures FindCookie(line, bomFound, decode, lookup).Ok? && FindCookie(line, bomFound, decode, lookup).value.Some? ==>
      FindCookie(line, bomFound, decode, lookup).value.value != []
  {
    var text := decode(line);
    if text.Some? && FirstCookie(text.value).Some? {
      FirstCookieLeftmost(text.value);
    }
  }

  /**
   * After a BOM, a declaration found is that of a UTF-8 codec and comes back with `-sig`
   * appended; a declared codec other than UTF-8 is an encoding problem.
   */
  lemma FindCookieAfterBom(line: Bytes, decode: Decoder, lookup: CodecLookup)
    ensures FindCookie(line, true, decode, lookup).Ok? && FindCookie(line, true, decode, lookup).value.Some? ==>
      EndsWith(FindCookie(line, true, decode, lookup).value.value, "-sig")
    ensures FindCookie(line, true, decode, lookup).Ok? && FindCookie(line, true, decode, lookup).value.Some? ==>
      exists name :: lookup(name) == Some("utf-8") && FindCookie(line, true, decode, lookup).value.value == name + "-sig"
    ensures decode(line).Some? && FirstCookie(decode(line).value).Some? ==>
      var encoding := GetNormalName(FirstCookie(decode(line).value).value);
      lookup(encoding).Some? && lookup(encoding).value != "utf-8" ==> FindCookie(line, true, decode, lookup) == Err(EncodingProblem)
  {
    if decode(line).Some? && FirstCookie(decode(line).value).Some? {
      var encoding := GetNormalName(FirstCookie(decode(line).value).value);
      if lookup(encoding) == Some("utf-8") {
        assert FindCookie(line, true, decode, lookup) == Ok(Some(encoding + "-sig"));
      }
    }
  }

  /**
   * A declaration is looked up under its normal name: an unknown one raises naming it, a known
   * one without a BOM is returned as that name.
   */
  lemma FindCookieLookup(line: Bytes, bomFound: bool, decode: Decoder, lookup: CodecLookup)
    requires decode(line).Some? && FirstCookie(decode(line).value).Some?
    ensures var encoding := GetNormalName(FirstCookie(decode(line).value).value);
      (lookup(encoding).None? <==> FindCookie(line, bomFound, decode, lookup) == Err(UnknownEncoding(encoding))) &&
      (lookup(encoding).Some? && !bomFound ==> FindCookie(line, bomFound, decode, lookup) == Ok(Some(encoding)))
  {
  }

  /** Undecodable bytes are an invalid declaration, and a line without a cookie declares nothing. */
  lemma FindCookieNoDeclaration(line: Bytes, bomFound: bool, decode: Decoder, lookup: CodecLookup)
    ensures decode(line).None? <==> FindCookie(line, bomFound, decode, lookup) == Err(InvalidDeclaration)
    ensures decode(line).Some? && FirstCookie(decode(line).value).None? ==> FindCookie(line, bomFound, decode, lookup) == Ok(None)
  {
  }

  /** The first line with its BOM removed, and the default encoding that goes with it. */
  function StripBom(first: Bytes): (Bytes, String)
  {
    if BomUtf8 <= first then (first[3..], "utf-8-sig") else (first, "utf-8")
  }

  /** What `detect_encoding` returns, given the first two lines `readline` yields (`b''` past the end). */
  function Detect(line1: Bytes, line2: Bytes, decode: Decoder, lookup: CodecLookup): Result<(String, seq<Bytes>), EncodingError>
  {
    var bomFound := BomUtf8 <= line1;
    var (first, default) := StripBom(line1);
    if first == [] then Ok((default, []))
    else
      match FindCookie(first, bomFound, decode, lookup)
      case Err(e) => Err(e)
      case Ok(Some(encoding)) => Ok((encoding, [first]))
      case Ok(None) =>
        if line2 == [] then Ok((default, [first]))
        else
          match FindCookie(line2, bomFound, decode, lookup)
          case Err(e) => Err(e)
          case Ok(Some(encoding)) => Ok((encoding, [first, line2]))
          case Ok(None) => Ok((default, [first, line2]))
  }

  /** How many times `detect_encoding` calls `readline`. */
  function Reads(line1: Bytes, decode: Decoder, lookup: CodecLookup): (n: nat)
    ensures 1 <= n <= 2
  {
    var (first, _) := StripBom(line1);
    if first == [] then 1
    else match FindCookie(first, BomUtf8 <= line1, decode, lookup)
      case Ok(None) => 2
      case _ => 1
  }

  /** With a BOM, the lines come back without it and every encoding returned ends in `-sig`. */
  lemma DetectWithBom(line1: Bytes, line2: Bytes, decode: Decoder, lookup: CodecLookup)
    requires BomUtf8 <= line1
    ensures Detect(line1, line2, decode, lookup).Ok? ==>
      EndsWith(Detect(line1, line2, decode, lookup).value.0, "-sig")
    ensures Detect(line1, line2, decode, lookup).Ok? && Detect(line1, line2, decode, lookup).value.1 != [] ==>
      Detect(line1, line2, decode, lookup).value.1[0] == line1[3..]
  {
    FindCookieAfterBom(line1[3..], decode, lookup);
    FindCookieAfterBom(line2, decode, lookup);
  }

  /** A first line that is empty once any BOM is removed ends the search with no lines. */
  lemma DetectEmptyFirst(line1: Bytes, line2: Bytes, decode: Decoder, lookup: CodecLookup)
    requires StripBom(line1).0 == []
    ensures Detect(line1, line2, decode, lookup) == Ok((StripBom(line1).1, []))
    ensures Reads(line1, decode, lookup) == 1
  {
  }

  /** A declaration on the first line is returned with that line alone, after one read. */
  lemma DetectCookieOnFirst(line1: Bytes, line2: Bytes, decode: Decoder, lookup: CodecLookup, encoding: String)
    requires StripBom(line1).0 != []
    requires FindCookie(StripBom(line1).0, BomUtf8 <= line1, decode, lookup) == Ok(Some(encoding))
    ensures Detect(line1, line2, decode, lookup) == Ok((encoding, [StripBom(line1).0]))
    ensures Reads(line1, decode, lookup) == 1
  {
  }

  /** Without a BOM or any declaration the encoding is `utf-8`, with every line read. */
  lemma DetectDefault(line1: Bytes, line2: Bytes, decode: Decoder, lookup: CodecLookup)
    requires !(BomUtf8 <= line1) && line1 != []
    requires FindCookie(line1, false, decode, lookup) == Ok(None)
    requires line2 == [] || FindCookie(line2, false, decode, lookup) == Ok(None)
    ensures Detect(line1, line2, decode, lookup) == Ok(("utf-8", if line2 == [] then [line1] else [line1, line2]))
  {
  }

  /** The `readline` callable: the lines of a file, then `b''` for ever. */
  class LineSource {
    const lines: seq<Bytes>
    var pos: nat

    constructor (lines: seq<Bytes>)
      ensures this.lines == lines && pos == 0
    {
      this.lines := lines;
      pos := 0;
    }

    /** The line `k` calls from now would return. */
    function Ahead(k: nat): Bytes
      reads this
    {
      if pos + k < |lines| then lines[pos + k] else []
    }

    /** `readline()`, with `read_or_stop`'s `b''` past the end. */
    method ReadLine() returns (line: Bytes)
      modifies this
      ensures line == old(Ahead(0)) && pos == old(pos) + 1
    {
      line := Ahead(0);
      pos := pos + 1;
    }
  }

  /** `detect_encoding(readline)` */
  method DetectEncoding(src: LineSource, decode: Decoder, lookup: CodecLookup) returns (r: Result<(String, seq<Bytes>), EncodingError>)
    modifies src
    ensures r == Detect(old(src.Ahead(0)), old(src.Ahead(1)), decode, lookup)
    ensures src.pos == old(src.pos) + Reads(old(src.Ahead(0)), decode, lookup)
  {
    var bomFound := false;
    var default := "utf-8";
    var first := src.ReadLine();
    if BomUtf8 <= first {
      bomFound := true;
      first := first[3..];
      default := "utf-8-sig";
    }
    if first == [] {
      return Ok((default, []));
    }
    var encoding := FindCookie(first, bomFound, decode, lookup);
    if encoding.Err? {
      return Err(encoding.error);
    }
    if encoding.value.Some? {
      return Ok((encoding.value.value, [first]));
    }
    var second := src.ReadLine();
    if second == [] {
      return Ok((default, [first]));
    }
    encoding := FindCookie(second, bomFound, decode, lookup);
    if encoding.Err? {
      return Err(encoding.error);
    }
    if encoding.value.Some? {
      return Ok((encoding.value.value, [first, second]));
    }
    return Ok((default, [first, second]));
  }
}
