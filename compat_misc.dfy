/**
 * Two small string helpers of distlib/compat.py: `splituser`, which splits `user@host` with
 * the regular expression `^(.*)@(.*)$`, and the `cache_from_source` fallback, which names the
 * byte-code file of a source file.
 */
module CompatMisc {
  import opened Wrappers
  import opened Text

  // ---------------------------------------------------------------------------------------
  // splituser

  /**
   * The text `(.*)$` can consume as group 2: `.` takes no newline, and `$` matches at the end
   * or just before a newline that ends the string.
   */
  predicate TailMatches(t: String)
  {
    '\n' !in t || (t != [] && t[|t| - 1] == '\n' && '\n' !in t[..|t| - 1])
  }

  /** Group 2 for a tail that `TailMatches`: the tail without its final newline. */
  function Group2(t: String): String
  {
    if t != [] && t[|t| - 1] == '\n' then t[..|t| - 1] else t
  }

  /** `^(.*)@(.*)$` matches `host` with group 1 ending just before position `i`. */
  predicate MatchesAt(host: String, i: int)
  {
    0 <= i < |host| && host[i] == '@' && '\n' !in host[..i] && TailMatches(host[i + 1..])
  }

  /** `host` without one final newline. */
  function Body(host: String): (r: String)
    ensures r <= host && |host| - 1 <= |r|
  {
    if host != [] && host[|host| - 1] == '\n' then host[..|host| - 1] else host
  }

  /** `splituser(host)`: `(user, host)` split at the `@` that greedy matching picks, or `(None, host)`. */
  function SplitUser(host: String): (Option<String>, String)
  {
    var body := Body(host);
    if '\n' in body then (None, host)
    else
      var i := LastIndexOf(body, '@');
      if i < 0 then (None, host) else (Some(body[..i]), body[i + 1..])
  }

  /**
   * `splituser` returns nothing iff the pattern does not match; otherwise it splits where the
   * greedy group 1 ends, the last position at which the pattern matches.
   */
  lemma SplitUserMatches(host: String)
    ensures SplitUser(host).0.None? <==> forall i :: 0 <= i < |host| ==> !MatchesAt(host, i)
    ensures SplitUser(host).0.None? ==> SplitUser(host).1 == host
    ensures SplitUser(host).0.Some? ==>
      var i := |SplitUser(host).0.value|;
      MatchesAt(host, i) && SplitUser(host).0.value == host[..i] && SplitUser(host).1 == Group2(host[i + 1..]) &&
      forall j :: i < j < |host| ==> !MatchesAt(host, j)
  {
    var body := Body(host);
    if '\n' in body {
      forall i | 0 <= i < |host| ensures !MatchesAt(host, i) {
        var k :| 0 <= k < |body| && body[k] == '\n';
        if k < i {
          assert host[..i][k] == '\n';
        } else if k == i {
          assert host[i] == '\n';
        } else {
          NewlineInTail(host, i, k);
        }
      }
    } else {
      var i := LastIndexOf(body, '@');
      if i < 0 {
        forall j | 0 <= j < |host| ensures !MatchesAt(host, j) {
          if j < |body| { assert body[j] == host[j]; }
        }
      } else {
        assert host[..i] == body[..i];
        assert '\n' !in host[..i] by {
          forall k | 0 <= k < i ensures host[..i][k] != '\n' {
            assert host[..i][k] == body[k];
          }
        }
        TailOfBody(host, i);
        assert host[i] == body[i];
        assert MatchesAt(host, i);
        assert SplitUser(host).0.value == host[..i];
        forall j | i < j < |host| ensures !MatchesAt(host, j) {
          if j < |body| { assert body[j] == host[j]; }
        }
      }
    }
  }

  /** A newline of the body at or after `i` keeps `(.*)$` from matching the tail after `i`. */
  lemma NewlineInTail(host: String, i: int, k: int)
    requires 0 <= i < k < |Body(host)| && Body(host)[k] == '\n'
    ensures !TailMatches(host[i + 1..])
  {
    var t := host[i + 1..];
    assert t[k - i - 1] == '\n';
    assert t[..|t| - 1][k - i - 1] == '\n';
  }

  /** Cutting a newline-free body at `i` leaves a tail that `(.*)$` matches, and group 2 is the rest of the body. */
  lemma TailOfBody(host: String, i: int)
    requires 0 <= i < |Body(host)| && '\n' !in Body(host)
    ensures TailMatches(host[i + 1..]) && Group2(host[i + 1..]) == Body(host)[i + 1..]
  {
    var t := host[i + 1..];
    if host[|host| - 1] == '\n' {
      assert t[..|t| - 1] == Body(host)[i + 1..];
    } else {
      assert t == Body(host)[i + 1..];
    }
  }

  /** The split is lossless: the user, `@` and the host rebuild the string up to a final newline, and the host has no `@`. */
  lemma SplitUserRoundTrip(host: String)
    requires SplitUser(host).0.Some?
    ensures SplitUser(host).0.value + "@" + SplitUser(host).1 == Body(host)
    ensures '@' !in SplitUser(host).1
  {
    var body := Body(host);
    var i := LastIndexOf(body, '@');
    var tail := body[i + 1..];
    assert body == body[..i] + "@" + tail;
    forall k | 0 <= k < |tail| ensures tail[k] != '@' {
      assert tail[k] == body[i + 1 + k];
    }
  }

  // ---------------------------------------------------------------------------------------
  // cache_from_source

  datatype CacheError = AssertionError

  /**
   * `cache_from_source(path, debug_override)`, the fallback without `imp`. `debugMode` is the
   * interpreter's `__debug__`: it is also what enables the `assert` on the `.py` suffix.
   */
  function CacheFromSource(path: String, debugOverride: Option<bool>, debugMode: bool): Result<String, CacheError>
  {
    if debugMode && !EndsWith(path, ".py") then Err(AssertionError)
    else
      var debug := if debugOverride.Some? then debugOverride.value else debugMode;
      Ok(path + (if debug then "c" else "o"))
  }

  /**
   * The byte-code name is the source name plus `c` when debugging (by override, else by
   * `__debug__`) and plus `o` otherwise; a non-`.py` path fails exactly when asserts are on.
   */
  lemma CacheFromSourceName(path: String, debugOverride: Option<bool>, debugMode: bool)
    ensures CacheFromSource(path, debugOverride, debugMode).Err? <==> debugMode && !EndsWith(path, ".py")
    ensures CacheFromSource(path, debugOverride, debugMode).Ok? ==>
      var r := CacheFromSource(path, debugOverride, debugMode).value;
      |r| == |path| + 1 && r[..|path|] == path &&
      (r[|path|] == 'c' <==> (if debugOverride.Some? then debugOverride.value else debugMode)) &&
      (r[|path|] == 'c' || r[|path|] == 'o')
    ensures CacheFromSource(path, debugOverride, debugMode).Ok? && EndsWith(path, ".py") ==>
      EndsWith(CacheFromSource(path, debugOverride, debugMode).value, ".pyc") ||
      EndsWith(CacheFromSource(path, debugOverride, debugMode).value, ".pyo")
  {
    if CacheFromSource(path, debugOverride, debugMode).Ok? {
      var r := CacheFromSource(path, debugOverride, debugMode).value;
      assert r[..|path|] == path;
      if EndsWith(path, ".py") {
        assert r[|r| - 4..] == path[|path| - 3..] + [r[|path|]];
      }
    }
  }
}
