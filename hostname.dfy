/**
 * Wildcard hostname matching from distlib/compat.py (`_dnsname_to_pat`, `match_hostname`),
 * following the wildcard rules of section 3.1 of RFC 2818.
 *
 * A DNS name is turned into a regular expression: its dot-separated fragments become
 * patterns joined by a literal dot, a lone `*` fragment becomes `[^.]+`, any other `*`
 * becomes `[^.]*`, and everything else is matched literally, ignoring ASCII case.  The
 * expression is anchored at both ends.  Here the expression is a sequence of tokens with
 * its own matcher.
 */
module Hostnames {
  import opened Wrappers
  import opened Text

  /** One item of the compiled expression: a literal, `[^.]*`, `[^.]+`, or the escaped dot `\.`. */
  datatype Tok = Lit(c: char) | AnyRun | AnyPlus | Dot

  /** Character equality under `re.IGNORECASE`, for ASCII letters. */
  predicate SameIgnoringCase(a: char, b: char)
  {
    LowerChar(a) == LowerChar(b)
  }

  /** Whether the token sequence matches the whole of `s`. */
  function Matches(toks: seq<Tok>, s: String): bool
    decreases |s|, |toks|
  {
    if toks == [] then s == []
    else match toks[0]
      case Lit(c) => s != [] && SameIgnoringCase(s[0], c) && Matches(toks[1..], s[1..])
      case Dot => s != [] && s[0] == '.' && Matches(toks[1..], s[1..])
      case AnyRun => Matches(toks[1..], s) || (s != [] && s[0] != '.' && Matches(toks, s[1..]))
      case AnyPlus => s != [] && s[0] != '.' && Matches([AnyRun] + toks[1..], s[1..])
  }

  /** The pattern of one fragment of a DNS name. */
  function FragmentPattern(frag: String): (r: seq<Tok>)
  {
    if frag == "*" then [AnyPlus] else GlobTokens(frag)
  }

  /** A fragment other than a lone `*`: `*` becomes `[^.]*`, every other character a literal. */
  function GlobTokens(frag: String): (r: seq<Tok>)
    ensures |r| == |frag|
    ensures forall i :: 0 <= i < |frag| ==> r[i] == if frag[i] == '*' then AnyRun else Lit(frag[i])
  {
    if frag == [] then [] else [if frag[0] == '*' then AnyRun else Lit(frag[0])] + GlobTokens(frag[1..])
  }

  /** `r'\.'.join(pats)` */
  function JoinPatterns(pats: seq<seq<Tok>>): seq<Tok>
  {
    if |pats| == 0 then []
    else if |pats| == 1 then pats[0]
    else pats[0] + [Dot] + JoinPatterns(pats[1..])
  }

  /** The patterns of the fragments, in order. */
  function FragmentPatterns(frags: seq<String>): (r: seq<seq<Tok>>)
    ensures |r| == |frags| && forall i :: 0 <= i < |frags| ==> r[i] == FragmentPattern(frags[i])
  {
    if frags == [] then [] else [FragmentPattern(frags[0])] + FragmentPatterns(frags[1..])
  }

  /** `_dnsname_to_pat(dn)` */
  function DnsnameToPat(dn: String): seq<Tok>
  {
    JoinPatterns(FragmentPatterns(Split(dn, '.')))
  }

  /** `_dnsname_to_pat(dn).match(hostname)` */
  predicate HostMatches(dn: String, hostname: String)
  {
    Matches(DnsnameToPat(dn), hostname)
  }

  // ---------------------------------------------------------------------------------------
  // The wildcard rules stated directly on labels.

  /** `frag` matches the label `part` case-insensitively, with each `*` standing for any run of characters. */
  ghost predicate Glob(frag: String, part: String)
    decreases |frag|
  {
    if frag == [] then part == []
    else if frag[0] == '*' then exists k :: 0 <= k <= |part| && Glob(frag[1..], part[k..])
    else part != [] && SameIgnoringCase(part[0], frag[0]) && Glob(frag[1..], part[1..])
  }

  /** A lone `*` matches any non-empty label; any other fragment matches as a glob. */
  ghost predicate LabelMatches(frag: String, part: String)
  {
    if frag == "*" then part != [] else Glob(frag, part)
  }

  // ---------------------------------------------------------------------------------------
  // Matching a concatenation.

  /** A match of `t1 + t2` splits into a match of `t1` followed by a match of `t2`. */
  lemma {:induction false} ConcatSplit(t1: seq<Tok>, t2: seq<Tok>, s: String) returns (k: nat)
    requires Matches(t1 + t2, s)
    ensures k <= |s| && Matches(t1, s[..k]) && Matches(t2, s[k..])
    decreases |s|, |t1|
  {
    if t1 == [] {
      assert t1 + t2 == t2;
      return 0;
    }
    var t := t1 + t2;
    assert t[0] == t1[0] && t[1..] == t1[1..] + t2;
    match t1[0]
    case Lit(c) =>
      var k' := ConcatSplit(t1[1..], t2, s[1..]);
      k := k' + 1;
      assert s[..k][1..] == s[1..][..k'] && s[k..] == s[1..][k'..];
    case Dot =>
      var k' := ConcatSplit(t1[1..], t2, s[1..]);
      k := k' + 1;
      assert s[..k][1..] == s[1..][..k'] && s[k..] == s[1..][k'..];
    case AnyRun =>
      if Matches(t1[1..] + t2, s) {
        k := ConcatSplit(t1[1..], t2, s);
      } else {
        var k' := ConcatSplit(t1, t2, s[1..]);
        k := k' + 1;
        assert s[..k][1..] == s[1..][..k'] && s[k..] == s[1..][k'..];
      }
    case AnyPlus =>
      assert [AnyRun] + t[1..] == ([AnyRun] + t1[1..]) + t2;
      var k' := ConcatSplit([AnyRun] + t1[1..], t2, s[1..]);
      k := k' + 1;
      assert s[..k][1..] == s[1..][..k'] && s[k..] == s[1..][k'..];
  }

  /** A match of `t1` followed by a match of `t2` is a match of `t1 + t2`. */
  lemma {:induction false} ConcatJoin(t1: seq<Tok>, t2: seq<Tok>, s: String, k: nat)
    requires k <= |s| && Matches(t1, s[..k]) && Matches(t2, s[k..])
    ensures Matches(t1 + t2, s)
    decreases |s|, |t1|
  {
    if t1 == [] {
      assert t1 + t2 == t2 && s[k..] == s;
      return;
    }
    var t := t1 + t2;
    assert t[0] == t1[0] && t[1..] == t1[1..] + t2;
    match t1[0]
    case Lit(c) =>
      assert s[..k][1..] == s[1..][..k - 1] && s[k..] == s[1..][k - 1..];
      ConcatJoin(t1[1..], t2, s[1..], k - 1);
    case Dot =>
      assert s[..k][1..] == s[1..][..k - 1] && s[k..] == s[1..][k - 1..];
      ConcatJoin(t1[1..], t2, s[1..], k - 1);
    case AnyRun =>
      if Matches(t1[1..], s[..k]) {
        ConcatJoin(t1[1..], t2, s, k);
      } else {
        assert s[..k][1..] == s[1..][..k - 1] && s[k..] == s[1..][k - 1..];
        ConcatJoin(t1, t2, s[1..], k - 1);
      }
    case AnyPlus =>
      assert [AnyRun] + t[1..] == ([AnyRun] + t1[1..]) + t2;
      assert s[..k][1..] == s[1..][..k - 1] && s[k..] == s[1..][k - 1..];
      ConcatJoin([AnyRun] + t1[1..], t2, s[1..], k - 1);
  }

  /** No token of the pattern can consume a dot. */
  ghost predicate DotFree(toks: seq<Tok>)
  {
    forall i :: 0 <= i < |toks| ==> toks[i] != Dot && toks[i] != Lit('.')
  }

  /** A dot-free pattern only matches dot-free strings. */
  lemma {:induction false} DotFreeMatch(toks: seq<Tok>, s: String)
    requires DotFree(toks) && Matches(toks, s)
    ensures '.' !in s
    decreases |s|, |toks|
  {
    if toks != [] {
      assert DotFree(toks[1..]);
      match toks[0]
      case Lit(c) =>
        DotFreeMatch(toks[1..], s[1..]);
        assert s == [s[0]] + s[1..];
      case AnyRun =>
        if Matches(toks[1..], s) {
          DotFreeMatch(toks[1..], s);
        } else {
          DotFreeMatch(toks, s[1..]);
          assert s == [s[0]] + s[1..];
        }
      case AnyPlus =>
        assert DotFree([AnyRun] + toks[1..]);
        DotFreeMatch([AnyRun] + toks[1..], s[1..]);
        assert s == [s[0]] + s[1..];
    }
  }

  /** A dot-free pattern rejects every string with a dot. */
  lemma DotFreeRejects(toks: seq<Tok>, s: String)
    requires DotFree(toks)
    ensures '.' in s ==> !Matches(toks, s)
  {
    if Matches(toks, s) {
      DotFreeMatch(toks, s);
    }
  }

  /** The first separator of `s` is at `k` when `s[k]` is one and `s[..k]` holds none. */
  lemma FirstSeparator(s: String, c: char, k: nat)
    requires k < |s| && s[k] == c && c !in s[..k]
    ensures IndexOf(s, c) == k
  {
    var r := IndexOf(s, c);
    assert forall i :: 0 <= i < k ==> s[..k][i] == s[i];
    assert forall i :: 0 <= i < r ==> s[..r][i] == s[i];
  }

  /** A dot-free pattern followed by `\.` and more matches iff the text before the first dot matches it. */
  lemma SplitAtDot(t1: seq<Tok>, t2: seq<Tok>, s: String)
    requires DotFree(t1)
    ensures Matches(t1 + [Dot] + t2, s) <==>
      IndexOf(s, '.') < |s| && Matches(t1, s[..IndexOf(s, '.')]) && Matches(t2, s[IndexOf(s, '.') + 1..])
  {
    var j := IndexOf(s, '.');
    assert t1 + [Dot] + t2 == t1 + ([Dot] + t2);
    if Matches(t1 + [Dot] + t2, s) {
      var k := ConcatSplit(t1, [Dot] + t2, s);
      DotFreeMatch(t1, s[..k]);
      assert ([Dot] + t2)[1..] == t2;
      FirstSeparator(s, '.', k);
      assert s[k..][1..] == s[k + 1..];
    }
    if j < |s| && Matches(t1, s[..j]) && Matches(t2, s[j + 1..]) {
      assert s[j..][1..] == s[j + 1..];
      assert ([Dot] + t2)[1..] == t2;
      ConcatJoin(t1, [Dot] + t2, s, j);
    }
  }

  // ---------------------------------------------------------------------------------------
  // One fragment against one label.

  /** `[^.]*` followed by `r` matches iff some dot-free prefix is skipped and `r` matches the rest. */
  lemma {:induction false} AnyRunSkips(r: seq<Tok>, s: String)
    ensures Matches([AnyRun] + r, s) <==> exists k :: 0 <= k <= |s| && '.' !in s[..k] && Matches(r, s[k..])
    decreases |s|
  {
    var t := [AnyRun] + r;
    assert t[1..] == r;
    if s == [] {
      assert s[..0] == [] && s[0..] == s;
    } else {
      AnyRunSkips(r, s[1..]);
      if Matches(t, s) {
        if Matches(r, s) {
          assert s[..0] == [] && s[0..] == s;
        } else {
          var k :| 0 <= k <= |s[1..]| && '.' !in s[1..][..k] && Matches(r, s[1..][k..]);
          assert s[..k + 1] == [s[0]] + s[1..][..k] && s[k + 1..] == s[1..][k..];
        }
      }
      if exists k :: 0 <= k <= |s| && '.' !in s[..k] && Matches(r, s[k..]) {
        var k :| 0 <= k <= |s| && '.' !in s[..k] && Matches(r, s[k..]);
        if k == 0 {
          assert s[k..] == s;
        } else {
          assert s[0] == s[..k][0];
          assert s[1..][..k - 1] == s[..k][1..] && s[1..][k - 1..] == s[k..];
        }
      }
    }
  }

  /** On a dot-free label, the tokens of a glob fragment match exactly as the glob does. */
  lemma {:induction false} GlobTokensMatch(frag: String, part: String)
    requires '.' !in part
    ensures Matches(GlobTokens(frag), part) <==> Glob(frag, part)
    decreases |frag|
  {
    var t := GlobTokens(frag);
    if frag != [] {
      assert t[1..] == GlobTokens(frag[1..]);
      if frag[0] == '*' {
        assert t == [AnyRun] + t[1..];
        AnyRunSkips(t[1..], part);
        forall k | 0 <= k <= |part|
          ensures Matches(t[1..], part[k..]) <==> Glob(frag[1..], part[k..])
        {
          GlobTokensMatch(frag[1..], part[k..]);
        }
      } else {
        if part != [] {
          GlobTokensMatch(frag[1..], part[1..]);
        }
      }
    }
  }

  /** On a dot-free label, a fragment's pattern matches exactly as the wildcard rules say. */
  lemma FragmentMatch(frag: String, part: String)
    requires '.' !in part
    ensures Matches(FragmentPattern(frag), part) <==> LabelMatches(frag, part)
  {
    if frag == "*" {
      if part != [] {
        AnyRunSkips([], part[1..]);
        assert part[1..][..|part[1..]|] == part[1..];
      }
    } else {
      GlobTokensMatch(frag, part);
    }
  }

  /** A fragment without dots gives a dot-free pattern. */
  lemma FragmentDotFree(frag: String)
    requires '.' !in frag
    ensures DotFree(FragmentPattern(frag))
  {
    if frag != "*" {
      var t := GlobTokens(frag);
      forall i | 0 <= i < |t| ensures t[i] != Dot && t[i] != Lit('.') {
        assert frag[i] != '.';
      }
    }
  }

  /** A string splits at its first dot into the text before it and the labels after it. */
  lemma SplitWithDot(s: String, j: nat)
    requires j < |s| && s[j] == '.' && '.' !in s[..j]
    ensures Split(s, '.') == [s[..j]] + Split(s[j + 1..], '.')
  {
    var a, b := s[..j], s[j + 1..];
    assert s == a + ['.'] + b;
    SplitAtSeparator(a, b, '.');
  }

  /**
   * A joined pattern matches a hostname iff the hostname has as many labels as there are
   * fragments and each label matches its fragment.
   */
  lemma {:induction false} JoinedMatch(frags: seq<String>, s: String)
    requires |frags| >= 1 && forall i :: 0 <= i < |frags| ==> '.' !in frags[i]
    ensures Matches(JoinPatterns(FragmentPatterns(frags)), s) <==>
      |Split(s, '.')| == |frags| && forall i :: 0 <= i < |frags| ==> LabelMatches(frags[i], Split(s, '.')[i])
    decreases |frags|
  {
    var pats := FragmentPatterns(frags);
    var labels := Split(s, '.');
    var j := IndexOf(s, '.');
    FragmentDotFree(frags[0]);
    if |frags| == 1 {
      if j < |s| {
        SplitWithDot(s, j);
        assert s[j] in s;
        DotFreeRejects(pats[0], s);
      } else {
        assert s[..j] == s;
        SplitNoSeparator(s, '.');
        FragmentMatch(frags[0], s);
      }
    } else {
      var rest := frags[1..];
      assert FragmentPatterns(rest) == pats[1..];
      SplitAtDot(pats[0], JoinPatterns(pats[1..]), s);
      if j < |s| {
        SplitWithDot(s, j);
        JoinedMatch(rest, s[j + 1..]);
        FragmentMatch(frags[0], s[..j]);
        var tail := Split(s[j + 1..], '.');
        assert labels == [s[..j]] + tail;
        if |labels| == |frags| && forall i :: 0 <= i < |frags| ==> LabelMatches(frags[i], labels[i]) {
          assert forall i :: 0 <= i < |rest| ==> LabelMatches(rest[i], tail[i]) by {
            forall i | 0 <= i < |rest| ensures LabelMatches(rest[i], tail[i]) {
              assert rest[i] == frags[i + 1] && tail[i] == labels[i + 1];
            }
          }
        }
        if Matches(JoinPatterns(pats[1..]), s[j + 1..]) && Matches(pats[0], s[..j]) {
          forall i | 0 <= i < |frags| ensures LabelMatches(frags[i], labels[i]) {
            if i > 0 { assert frags[i] == rest[i - 1] && labels[i] == tail[i - 1]; }
          }
        }
      } else {
        assert s[..j] == s;
        SplitNoSeparator(s, '.');
      }
    }
  }

  /**
   * `_dnsname_to_pat(dn).match(hostname)` holds iff `hostname` has as many labels as `dn`
   * and each part matches the fragment of `dn` in the same place.
   */
  lemma DnsnameMatch(dn: String, hostname: String)
    ensures HostMatches(dn, hostname) <==>
      |Split(hostname, '.')| == |Split(dn, '.')| &&
      forall i :: 0 <= i < |Split(dn, '.')| ==> LabelMatches(Split(dn, '.')[i], Split(hostname, '.')[i])
  {
    JoinedMatch(Split(dn, '.'), hostname);
  }

  /** A wildcard-free DNS name matches exactly the hostnames equal to it up to ASCII case. */
  lemma {:induction false} LiteralMatch(frag: String, s: String)
    requires '*' !in frag
    ensures Matches(GlobTokens(frag), s) <==> |s| == |frag| && forall i :: 0 <= i < |s| ==> SameIgnoringCase(s[i], frag[i])
    decreases |frag|
  {
    if frag != [] {
      var t := GlobTokens(frag);
      assert t[1..] == GlobTokens(frag[1..]);
      if s != [] {
        LiteralMatch(frag[1..], s[1..]);
        if |s| == |frag| && SameIgnoringCase(s[0], frag[0]) && Matches(t[1..], s[1..]) {
          forall i | 0 <= i < |s| ensures SameIgnoringCase(s[i], frag[i]) {
            if i > 0 { assert s[i] == s[1..][i - 1] && frag[i] == frag[1..][i - 1]; }
          }
        }
      }
    }
  }

  // ---------------------------------------------------------------------------------------
  // match_hostname

  /**
   * The parts of a decoded certificate that `match_hostname` reads: the `subjectAltName`
   * pairs and the relative distinguished names of the `subject`.  A certificate that is
   * `None` or empty is `None` here.
   */
  datatype Cert = Cert(san: seq<(String, String)>, subject: seq<seq<(String, String)>>)

  datatype HostnameError =
    | EmptyCertificate              // ValueError("empty or no certificate")
    | MismatchOne(name: String)     // CertificateError("hostname ... doesn't match ...")
    | MismatchAny(names: seq<String>) // CertificateError("hostname ... doesn't match either of ...")
    | NoNames                       // CertificateError("no appropriate commonName or subjectAltName ...")

  /** The values of the pairs whose key is `key`, in order. */
  function ValuesFor(pairs: seq<(String, String)>, key: String): (r: seq<String>)
    ensures forall v :: v in r <==> exists i :: 0 <= i < |pairs| && pairs[i] == (key, v)
    decreases |pairs|
  {
    if pairs == [] then []
    else
      var init := pairs[..|pairs| - 1];
      var r := ValuesFor(init, key);
      assert forall i :: 0 <= i < |init| ==> init[i] == pairs[i];
      if pairs[|pairs| - 1].0 == key then r + [pairs[|pairs| - 1].1] else r
  }

  /** The `commonName` values of the subject, in order. */
  function CommonNames(subject: seq<seq<(String, String)>>): seq<String>
    decreases |subject|
  {
    if subject == [] then []
    else CommonNames(subject[..|subject| - 1]) + ValuesFor(subject[|subject| - 1], "commonName")
  }

  /** The names `match_hostname` tries: the SAN DNS names, or the common names when there are none. */
  function CandidateNames(cert: Cert): seq<String>
  {
    var dns := ValuesFor(cert.san, "DNS");
    if dns != [] then dns else CommonNames(cert.subject)
  }

  /** The outcome of `match_hostname(cert, hostname)`: `None` when it returns normally. */
  function MatchOutcome(cert: Option<Cert>, hostname: String): Option<HostnameError>
  {
    if cert.None? then Some(EmptyCertificate)
    else
      var names := CandidateNames(cert.value);
      if exists i :: 0 <= i < |names| && HostMatches(names[i], hostname) then None
      else if |names| > 1 then Some(MismatchAny(names))
      else if |names| == 1 then Some(MismatchOne(names[0]))
      else Some(NoNames)
  }

  /**
   * One `for key, value in pairs` loop of `match_hostname`: stops at the first value for `key`
   * whose pattern matches, and otherwise collects the values for `key`.
   */
  method ScanPairs(pairs: seq<(String, String)>, key: String, hostname: String) returns (matched: bool, names: seq<String>)
    ensures matched ==> exists i :: 0 <= i < |pairs| && pairs[i].0 == key && HostMatches(pairs[i].1, hostname)
    ensures !matched ==> names == ValuesFor(pairs, key)
    ensures !matched ==> forall n :: 0 <= n < |names| ==> !HostMatches(names[n], hostname)
  {
    names := [];
    var i := 0;
    while i < |pairs|
      invariant 0 <= i <= |pairs|
      invariant names == ValuesFor(pairs[..i], key)
      invariant forall n :: 0 <= n < |names| ==> !HostMatches(names[n], hostname)
    {
      assert pairs[..i + 1][..i] == pairs[..i];
      var (k, value) := pairs[i];
      if k == key {
        if HostMatches(value, hostname) {
          return true, names;
        }
        names := names + [value];
      }
      i := i + 1;
    }
    assert pairs[..i] == pairs;
    return false, names;
  }

  /** The subject loop of `match_hostname`: the relative distinguished names in turn. */
  method ScanSubject(subject: seq<seq<(String, String)>>, hostname: String) returns (matched: bool, names: seq<String>)
    ensures matched ==>
      exists s, j :: 0 <= s < |subject| && 0 <= j < |subject[s]| &&
                     subject[s][j].0 == "commonName" && HostMatches(subject[s][j].1, hostname)
    ensures !matched ==> names == CommonNames(subject)
    ensures !matched ==> forall n :: 0 <= n < |names| ==> !HostMatches(names[n], hostname)
  {
    names := [];
    var s := 0;
    while s < |subject|
      invariant 0 <= s <= |subject|
      invariant names == CommonNames(subject[..s])
      invariant forall n :: 0 <= n < |names| ==> !HostMatches(names[n], hostname)
    {
      assert subject[..s + 1][..s] == subject[..s];
      var m, found := ScanPairs(subject[s], "commonName", hostname);
      if m {
        return true, names;
      }
      names := names + found;
      s := s + 1;
    }
    assert subject[..s] == subject;
    return false, names;
  }

  /** `match_hostname(cert, hostname)`: `None` when it returns normally. */
  method MatchHostname(cert: Option<Cert>, hostname: String) returns (r: Option<HostnameError>)
    ensures r == MatchOutcome(cert, hostname)
  {
    if cert.None? {
      return Some(EmptyCertificate);
    }
    var matched, dnsnames := ScanPairs(cert.value.san, "DNS", hostname);
    if matched {
      ghost var i :| 0 <= i < |cert.value.san| && cert.value.san[i].0 == "DNS" && HostMatches(cert.value.san[i].1, hostname);
      SanMatchWins(cert.value, hostname, i);
      return None;
    }
    if dnsnames == [] {
      matched, dnsnames := ScanSubject(cert.value.subject, hostname);
      if matched {
        ghost var s, j :| 0 <= s < |cert.value.subject| && 0 <= j < |cert.value.subject[s]| &&
          cert.value.subject[s][j].0 == "commonName" && HostMatches(cert.value.subject[s][j].1, hostname);
        CommonNameMatchWins(cert.value, hostname, s, j);
        return None;
      }
    }
    assert dnsnames == CandidateNames(cert.value);
    if |dnsnames| > 1 {
      return Some(MismatchAny(dnsnames));
    } else if |dnsnames| == 1 {
      return Some(MismatchOne(dnsnames[0]));
    }
    return Some(NoNames);
  }

  /** A DNS entry of the SAN that matches makes `match_hostname` succeed. */
  lemma SanMatchWins(cert: Cert, hostname: String, i: nat)
    requires i < |cert.san| && cert.san[i].0 == "DNS" && HostMatches(cert.san[i].1, hostname)
    ensures MatchOutcome(Some(cert), hostname) == None
  {
    var names := ValuesFor(cert.san, "DNS");
    assert cert.san[i] == ("DNS", cert.san[i].1);
    assert cert.san[i].1 in names;
    var n :| 0 <= n < |names| && names[n] == cert.san[i].1;
  }

  /** Every `commonName` value of the subject is among the collected common names. */
  lemma {:induction false} CommonNamesHas(subject: seq<seq<(String, String)>>, s: nat, j: nat)
    requires s < |subject| && j < |subject[s]| && subject[s][j].0 == "commonName"
    ensures subject[s][j].1 in CommonNames(subject)
    decreases |subject|
  {
    var last := |subject| - 1;
    assert subject[s][j] == ("commonName", subject[s][j].1);
    if s < last {
      CommonNamesHas(subject[..last], s, j);
    }
  }

  /** With no SAN DNS entries, a matching common name makes `match_hostname` succeed. */
  lemma CommonNameMatchWins(cert: Cert, hostname: String, s: nat, j: nat)
    requires ValuesFor(cert.san, "DNS") == []
    requires s < |cert.subject| && j < |cert.subject[s]|
    requires cert.subject[s][j].0 == "commonName" && HostMatches(cert.subject[s][j].1, hostname)
    ensures MatchOutcome(Some(cert), hostname) == None
  {
    CommonNamesHas(cert.subject, s, j);
    var names := CommonNames(cert.subject);
    var n :| 0 <= n < |names| && names[n] == cert.subject[s][j].1;
  }

  /** `match_hostname` succeeds iff some candidate name matches, and never reads the subject when the SAN has DNS names. */
  lemma MatchOutcomeMeaning(cert: Cert, other: seq<seq<(String, String)>>, hostname: String)
    ensures MatchOutcome(Some(cert), hostname) == None <==>
      exists n :: n in CandidateNames(cert) && HostMatches(n, hostname)
    ensures ValuesFor(cert.san, "DNS") != [] ==>
      MatchOutcome(Some(cert), hostname) == MatchOutcome(Some(Cert(cert.san, other)), hostname)
    ensures MatchOutcome(Some(cert), hostname) == Some(NoNames) <==>
      ValuesFor(cert.san, "DNS") == [] && CommonNames(cert.subject) == []
  {
    var names := CandidateNames(cert);
    if exists n :: n in names && HostMatches(n, hostname) {
      var n :| n in names && HostMatches(n, hostname);
      var i :| 0 <= i < |names| && names[i] == n;
    }
  }
}
