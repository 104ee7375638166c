/**
 * Resource lookups of distlib/resources.py. `ZipResourceFinder` answers questions about the
 * entries of a zip archive from a sorted index of the entry names: a binary search for the
 * first entry after a directory name, then a scan of the entries that share it as a prefix.
 * The separator `os.sep` is `/` throughout.
 */
module Resources {
  import opened Wrappers
  import opened Text

  const Sep: char := '/'

  // ---------------------------------------------------------------------------------------
  // Python's ordering of strings

  /** `a < b` on `str`: lexicographic by character, a proper prefix first. */
  predicate Lt(a: String, b: String)
    decreases |a|
  {
    if a == [] then b != []
    else b != [] && (a[0] < b[0] || (a[0] == b[0] && Lt(a[1..], b[1..])))
  }

  /** `a <= b` on `str` */
  predicate Le(a: String, b: String)
  {
    a == b || Lt(a, b)
  }

  lemma {:induction false} LtIrreflexive(a: String)
    ensures !Lt(a, a)
    decreases |a|
  {
    if a != [] {
      LtIrreflexive(a[1..]);
    }
  }

  lemma {:induction false} LtTransitive(a: String, b: String, c: String)
    requires Lt(a, b) && Lt(b, c)
    ensures Lt(a, c)
    decreases |a|
  {
    if a != [] && a[0] == b[0] && b[0] == c[0] {
      LtTransitive(a[1..], b[1..], c[1..]);
    }
  }

  lemma {:induction false} LtTotal(a: String, b: String)
    ensures a == b || Lt(a, b) || Lt(b, a)
    decreases |a|
  {
    if a != [] && b != [] && a[0] == b[0] {
      LtTotal(a[1..], b[1..]);
      if a[1..] == b[1..] {
        assert a == [a[0]] + a[1..] && b == [b[0]] + b[1..];
      }
    }
  }

  /** Below and at-or-above exclude each other. */
  lemma LtExcludesLe(a: String, b: String)
    ensures Lt(a, b) ==> !Le(b, a)
  {
    LtIrreflexive(a);
    if Lt(a, b) && Lt(b, a) {
      LtTransitive(a, b, a);
    }
  }

  /** A proper prefix sorts first. */
  lemma {:induction false} PrefixLt(p: String, e: String)
    requires p <= e && p != e
    ensures Lt(p, e)
    decreases |p|
  {
    if p != [] {
      assert p[1..] <= e[1..];
      assert p == [p[0]] + p[1..] && e == [e[0]] + e[1..];
      PrefixLt(p[1..], e[1..]);
    }
  }

  /**
   * Strings that start with `p` are contiguous in sorted order: whatever lies between `p`
   * and a string starting with `p` starts with `p` as well.
   */
  lemma {:induction false} PrefixBetween(p: String, b: String, c: String)
    requires Le(p, b) && Le(b, c)
    ensures p <= c ==> p <= b
    decreases |p|
  {
    if p != [] && p <= c && p != b && b != c {
      assert c[0] == p[0];
      PrefixBetween(p[1..], b[1..], c[1..]);
      assert p[1..] <= c[1..];
    }
  }

  /** Strictly increasing: `sorted` of distinct names. */
  predicate Sorted(s: seq<String>)
  {
    forall i, j :: 0 <= i < j < |s| ==> Lt(s[i], s[j])
  }

  /** Inserting `k` at its place in a sorted sequence. */
  function Insert(xs: seq<String>, k: String): (r: seq<String>)
    ensures |r| == |xs| + 1
    ensures forall e :: e in r <==> e in xs || e == k
  {
    if xs == [] || Lt(k, xs[0]) then [k] + xs
    else [xs[0]] + Insert(xs[1..], k)
  }

  lemma {:induction false} InsertSorted(xs: seq<String>, k: String)
    requires Sorted(xs) && k !in xs
    ensures Sorted(Insert(xs, k))
  {
    if xs == [] {
    } else if Lt(k, xs[0]) {
      forall j | 1 <= j < |xs| ensures Lt(k, xs[j]) {
        LtTransitive(k, xs[0], xs[j]);
      }
    } else {
      LtTotal(k, xs[0]);
      InsertSorted(xs[1..], k);
      var r := Insert(xs, k);
      forall j | 1 <= j < |r| ensures Lt(xs[0], r[j]) {
        assert r[j] in xs[1..] || r[j] == k;
      }
    }
  }

  // ---------------------------------------------------------------------------------------
  // bisect.bisect

  /** `bisect.bisect(s, x)` on a sorted list: the number of leading entries at or below `x`. */
  function BisectRight(s: seq<String>, x: String): (i: nat)
    ensures i <= |s|
  {
    if s == [] || Lt(x, s[0]) then 0 else 1 + BisectRight(s[1..], x)
  }

  /** On a sorted list, `BisectRight` splits the entries at or below `x` from those above it. */
  lemma {:induction false} BisectSplit(s: seq<String>, x: String)
    requires Sorted(s)
    ensures forall j :: 0 <= j < BisectRight(s, x) ==> Le(s[j], x)
    ensures forall j :: BisectRight(s, x) <= j < |s| ==> Lt(x, s[j])
  {
    if s != [] {
      if Lt(x, s[0]) {
        forall j | 1 <= j < |s| ensures Lt(x, s[j]) {
          LtTransitive(x, s[0], s[j]);
        }
      } else {
        BisectSplit(s[1..], x);
        LtTotal(x, s[0]);
        forall j | 1 <= j < BisectRight(s, x) ensures Le(s[j], x) {
          assert s[j] == s[1..][j - 1];
        }
        forall j | BisectRight(s, x) <= j < |s| ensures Lt(x, s[j]) {
          assert s[j] == s[1..][j - 1];
        }
      }
    }
  }

  /** An entry above `x` lies at or after the bisection point. */
  lemma BisectAbove(s: seq<String>, x: String, j: int)
    requires Sorted(s) && 0 <= j < |s| && Lt(x, s[j])
    ensures BisectRight(s, x) <= j
  {
    BisectSplit(s, x);
    LtExcludesLe(x, s[j]);
  }

  /** The binary search of `bisect.bisect`. */
  method Bisect(s: seq<String>, x: String) returns (i: nat)
    requires Sorted(s)
    ensures i == BisectRight(s, x)
  {
    var lo, hi := 0, |s|;
    while lo < hi
      invariant 0 <= lo <= hi <= |s|
      invariant forall j :: 0 <= j < lo ==> Le(s[j], x)
      invariant forall j :: hi <= j < |s| ==> Lt(x, s[j])
    {
      var mid := (lo + hi) / 2;
      if Lt(x, s[mid]) {
        forall j | mid < j < |s| ensures Lt(x, s[j]) {
          LtTransitive(x, s[mid], s[j]);
        }
        hi := mid;
      } else {
        LtTotal(x, s[mid]);
        forall j | 0 <= j < mid ensures Le(s[j], x) {
          if s[mid] != x {
            LtTransitive(s[j], s[mid], x);
          }
        }
        lo := mid + 1;
      }
    }
    BisectUnique(s, x, lo);
    i := lo;
  }

  /** The split point is unique. */
  lemma BisectUnique(s: seq<String>, x: String, i: nat)
    requires Sorted(s) && i <= |s|
    requires forall j :: 0 <= j < i ==> Le(s[j], x)
    requires forall j :: i <= j < |s| ==> Lt(x, s[j])
    ensures i == BisectRight(s, x)
  {
    var b := BisectRight(s, x);
    BisectSplit(s, x);
    if i < b {
      LtExcludesLe(x, s[i]);
    } else if b < i {
      LtExcludesLe(x, s[b]);
    }
  }

  // ---------------------------------------------------------------------------------------
  // Paths

  /** `s[n:]` */
  function Drop(s: String, n: nat): (r: String)
    ensures n <= |s| ==> r == s[n..]
    ensures n > |s| ==> r == []
  {
    if n <= |s| then s[n..] else []
  }

  datatype ResourceError = IndexError | KeyError(key: String)

  /** `if path[-1] != os.sep: path += os.sep`; `path[-1]` raises `IndexError` on an empty path. */
  function WithSep(p: String): (r: Result<String, ResourceError>)
    ensures r.Err? <==> p == []
    ensures r.Ok? ==> p <= r.value && r.value[|r.value| - 1] == Sep && |r.value| <= |p| + 1
  {
    if p == [] then Err(IndexError)
    else if p[|p| - 1] != Sep then Ok(p + [Sep])
    else Ok(p)
  }

  /** `s.split(os.sep, 1)[0]`: the text before the first separator. */
  function FirstSegment(s: String): (r: String)
    ensures r <= s && Sep !in r
    ensures |r| < |s| ==> s[|r|] == Sep
  {
    s[..IndexOf(s, Sep)]
  }

  /** Some entry other than `q` starts with `q`. */
  predicate HasEntryUnder(keys: set<String>, q: String)
  {
    exists e :: e in keys && q <= e && e != q
  }

  /** The first path segment below `q` of every entry other than `q` that starts with `q`. */
  function Children(keys: set<String>, q: String): (r: set<String>)
    ensures forall x :: x in r ==> Sep !in x
  {
    set e | e in keys && q <= e && e != q :: FirstSegment(e[|q|..])
  }

  /** `posixpath.join(path, b)` */
  function JoinPath(path: String, b: String): String
  {
    if StartsWith(b, [Sep]) then b
    else if path == [] || path[|path| - 1] == Sep then path + b
    else path + [Sep] + b
  }

  /** `posixpath.join(path, *parts)` */
  function JoinParts(path: String, parts: seq<String>): String
    decreases |parts|
  {
    if parts == [] then path else JoinParts(JoinPath(path, parts[0]), parts[1..])
  }

  /** `_make_path(resource_name)`: the base directory joined with the `/`-separated parts of the name. */
  function MakePath(base: String, name: String): String
  {
    JoinParts(base, Split(name, Sep))
  }

  /** Joining separator-free parts, all but the last non-empty, onto a directory puts one separator between each. */
  lemma {:induction false} JoinPartsPlain(path: String, parts: seq<String>)
    requires path != [] && path[|path| - 1] != Sep && parts != []
    requires forall i :: 0 <= i < |parts| ==> Sep !in parts[i]
    requires forall i :: 0 <= i < |parts| - 1 ==> parts[i] != []
    ensures JoinParts(path, parts) == path + [Sep] + Join(parts, [Sep])
    decreases |parts|
  {
    var b := parts[0];
    assert !StartsWith(b, [Sep]) by {
      if b != [] { assert b[0] != Sep; }
    }
    if |parts| > 1 {
      var next := path + [Sep] + b;
      assert next[|next| - 1] == b[|b| - 1];
      JoinPartsPlain(next, parts[1..]);
    }
  }

  /** A resource name without empty segments lands directly below the base directory. */
  lemma MakePathPlain(base: String, name: String)
    requires base != [] && base[|base| - 1] != Sep
    requires forall i :: 0 <= i < |Split(name, Sep)| - 1 ==> Split(name, Sep)[i] != []
    ensures MakePath(base, name) == base + [Sep] + name
  {
    JoinPartsPlain(base, Split(name, Sep));
    JoinSplit(name, Sep);
  }

  /** `p.rstrip(os.sep)` */
  function StripSeps(p: String): (r: String)
    ensures r <= p && (r != [] ==> r[|r| - 1] != Sep)
    ensures forall i :: |r| <= i < |p| ==> p[i] == Sep
  {
    if p != [] && p[|p| - 1] == Sep then StripSeps(p[..|p| - 1]) else p
  }

  /** `posixpath.dirname(p)` */
  function Dirname(p: String): String
  {
    var head := p[..LastIndexOf(p, Sep) + 1];
    if head != [] && exists i :: 0 <= i < |head| && head[i] != Sep then StripSeps(head) else head
  }

  /** The directory of `d/f` is `d` when `f` is a plain name and `d` does not end in a separator. */
  lemma DirnameOfFile(d: String, f: String)
    requires d != [] && d[|d| - 1] != Sep && Sep !in f
    ensures Dirname(d + [Sep] + f) == d
  {
    var p := d + [Sep] + f;
    assert p[|d|] == Sep;
    assert forall i :: |d| < i < |p| ==> p[i] == f[i - |d| - 1];
    var head := p[..LastIndexOf(p, Sep) + 1];
    assert head == d + [Sep];
    assert head[|d| - 1] != Sep;
    assert StripSeps(head) == StripSeps(d);
  }

  // ---------------------------------------------------------------------------------------
  // The filesystem finder's `allowed` filter

  /** `allowed(f)` */
  predicate Allowed(f: String)
  {
    f != "__pycache__" && !EndsWith(f, ".pyc") && !EndsWith(f, ".pyo")
  }

  /** The filesystem `get_resources`: the directory listing without byte-code names. */
  function AllowedNames(listing: seq<String>): (r: set<String>)
    ensures forall f :: f in r <==> f in listing && f != "__pycache__" && !EndsWith(f, ".pyc") && !EndsWith(f, ".pyo")
  {
    set f | f in listing && Allowed(f)
  }

  // ---------------------------------------------------------------------------------------
  // ZipResourceFinder

  /** An entry of zipimport's directory: `(path, compress, data_size, file_size, file_offset, time, date, crc)`. */
  datatype ZipInfo = ZipInfo(path: String, compress: int, dataSize: int, fileSize: int,
                             fileOffset: int, time: int, date: int, crc: int)

  /** What `find` returns: a `ResourceContainer` or a `Resource`, with its name and `.path`. */
  datatype Found = Container(name: String, path: String) | Resource(name: String, path: String)

  class ZipResourceFinder {
    /** `self.loader.archive` */
    const archive: String
    /** `self.base`: the directory of the package's `__file__` */
    const base: String
    /** `self.prefix_len` */
    const prefixLen: nat
    /** `self._files` */
    const files: map<String, ZipInfo>
    /** `self.index` */
    const index: seq<String>

    /** The index is the sorted list of the entry names, and the prefix is the archive and a separator. */
    ghost predicate Valid()
    {
      prefixLen == 1 + |archive| && Sorted(index) && forall e :: e in index <==> e in files
    }

    /** `ZipResourceFinder(module)`, for a module whose loader reads `archive` with directory `files`. */
    constructor (archive: String, moduleFile: String, files: map<String, ZipInfo>)
      ensures Valid()
      ensures this.archive == archive && this.files == files && base == Dirname(moduleFile)
    {
      this.archive := archive;
      this.files := files;
      prefixLen := 1 + |archive|;
      base := Dirname(moduleFile);
      var idx: seq<String> := [];
      var rest := files.Keys;
      while rest != {}
        invariant Sorted(idx)
        invariant forall e :: e in idx <==> e in files && e !in rest
        decreases rest
      {
        var k :| k in rest;
        InsertSorted(idx, k);
        idx := Insert(idx, k);
        rest := rest - {k};
      }
      index := idx;
    }

    /** `path[self.prefix_len:]` */
    function Stripped(path: String): String
    {
      Drop(path, prefixLen)
    }

    /** `self.index[bisect.bisect(self.index, q)].startswith(q)`, false past the end. */
    function EntryAfter(q: String): bool
    {
      var i := BisectRight(index, q);
      i < |index| && StartsWith(index[i], q)
    }

    /** The entry right after `q` starts with `q` iff any entry other than `q` does. */
    lemma EntryAfterMeaning(q: String)
      requires Valid()
      ensures EntryAfter(q) <==> HasEntryUnder(files.Keys, q)
    {
      var i := BisectRight(index, q);
      BisectSplit(index, q);
      if EntryAfter(q) {
        LtIrreflexive(q);
        assert index[i] in files.Keys;
      }
      if HasEntryUnder(files.Keys, q) {
        var e :| e in files.Keys && q <= e && e != q;
        var j :| 0 <= j < |index| && index[j] == e;
        PrefixLt(q, e);
        BisectAbove(index, q, j);
        PrefixBetween(q, index[i], e);
      }
    }

    /** `_is_directory(path)` */
    function IsDirectory(path: String): Result<bool, ResourceError>
    {
      match WithSep(Stripped(path))
      case Err(e) => Err(e)
      case Ok(q) => Ok(EntryAfter(q))
    }

    /** `_find(path)` */
    function Find(path: String): Result<bool, ResourceError>
    {
      var p := Stripped(path);
      if p in files then Ok(true)
      else
        match WithSep(p)
        case Err(e) => Err(e)
        case Ok(q) => Ok(EntryAfter(q))
    }

    /**
     * A path is a directory iff some entry lies strictly below it; it is found iff it names an
     * entry or is a directory. An empty stripped path fails on `path[-1]`, unless `_find` meets
     * it among the entries first.
     */
    lemma FindMeaning(path: String)
      requires Valid()
      ensures IsDirectory(path).Err? <==> Stripped(path) == []
      ensures IsDirectory(path).Ok? ==> (IsDirectory(path).value <==> HasEntryUnder(files.Keys, WithSep(Stripped(path)).value))
      ensures Find(path).Err? <==> Stripped(path) == [] && Stripped(path) !in files
      ensures Find(path).Ok? ==>
        (Find(path).value <==> Stripped(path) in files || HasEntryUnder(files.Keys, WithSep(Stripped(path)).value))
    {
      if Stripped(path) != [] {
        EntryAfterMeaning(WithSep(Stripped(path)).value);
      }
    }

    /** `find(resource_name)`: nothing when `_find` fails, else a container or a resource, by `_is_directory`. */
    function FindResource(name: String): Result<Option<Found>, ResourceError>
    {
      var path := MakePath(base, name);
      match Find(path)
      case Err(e) => Err(e)
      case Ok(false) => Ok(None)
      case Ok(true) =>
        match IsDirectory(path)
        case Err(e) => Err(e)
        case Ok(true) => Ok(Some(Container(name, path)))
        case Ok(false) => Ok(Some(Resource(name, path)))
    }

    /** `find` yields nothing iff `_find` is false, and otherwise a container iff `_is_directory` holds, named and with `.path` set. */
    lemma FindResourceMeaning(name: String)
      ensures var path := MakePath(base, name);
        (FindResource(name) == Ok(None) <==> Find(path) == Ok(false)) &&
        (FindResource(name).Ok? && FindResource(name).value.Some? ==>
          var r := FindResource(name).value.value;
          Find(path) == Ok(true) && r.name == name && r.path == path &&
          (r.Container? <==> IsDirectory(path) == Ok(true)) &&
          (r.Resource? <==> IsDirectory(path) == Ok(false)))
    {
    }

    /** `get_cache_info(resource)`: the archive and the path with the archive and a separator removed. */
    function GetCacheInfo(path: String): (String, String)
    {
      (archive, Drop(path, 1 + |archive|))
    }

    /** The cache key of a path inside the archive puts the path back together with the archive. */
    lemma CacheInfoRoundTrip(path: String)
      requires archive + [Sep] <= path
      ensures GetCacheInfo(path).0 == archive
      ensures GetCacheInfo(path).0 + [Sep] + GetCacheInfo(path).1 == path
    {
      assert path == path[..1 + |archive|] + path[1 + |archive|..];
    }

    /** `get_size(resource)`: field 3 of the entry, `KeyError` for a path that names no entry. */
    function GetSize(path: String): (r: Result<int, ResourceError>)
      ensures r.Ok? <==> Stripped(path) in files
      ensures r.Ok? ==> r.value == files[Stripped(path)].fileSize
      ensures r.Err? ==> r.error == KeyError(Stripped(path))
    {
      var p := Stripped(path);
      if p in files then Ok(files[p].fileSize) else Err(KeyError(p))
    }

    /** The first segment below `q` of each entry `index[j]` with `from <= j < to`. */
    function SegmentsIn(q: String, from: nat, to: nat): set<String>
      requires from <= to <= |index|
      requires forall j :: from <= j < to ==> q <= index[j]
    {
      set j | from <= j < to :: FirstSegment(index[j][|q|..])
    }

    /** When the scan stops at `to`, the segments it collected are exactly the children of `q`. */
    lemma ScanComplete(q: String, to: nat)
      requires Valid()
      requires BisectRight(index, q) <= to <= |index|
      requires forall j :: BisectRight(index, q) <= j < to ==> q <= index[j]
      requires to < |index| ==> !(q <= index[to])
      ensures SegmentsIn(q, BisectRight(index, q), to) == Children(files.Keys, q)
    {
      var from := BisectRight(index, q);
      forall x | x in Children(files.Keys, q) ensures x in SegmentsIn(q, from, to) {
        var e :| e in files.Keys && q <= e && e != q && x == FirstSegment(e[|q|..]);
        var j :| 0 <= j < |index| && index[j] == e;
        ScanReaches(q, to, j);
      }
      ScanInChildren(q, from, to);
    }

    /** Every entry strictly below `q` lies in the scanned range. */
    lemma ScanReaches(q: String, to: nat, j: nat)
      requires Valid()
      requires BisectRight(index, q) <= to <= |index|
      requires to < |index| ==> !(q <= index[to])
      requires j < |index| && q <= index[j] && index[j] != q
      ensures BisectRight(index, q) <= j < to
    {
      PrefixLt(q, index[j]);
      BisectAbove(index, q, j);
      if to < |index| && to <= j {
        BisectSplit(index, q);
        PrefixBetween(q, index[to], index[j]);
      }
    }

    /** Every scanned entry is an entry strictly below `q`. */
    lemma ScanInChildren(q: String, from: nat, to: nat)
      requires Valid()
      requires from == BisectRight(index, q) && from <= to <= |index|
      requires forall j :: from <= j < to ==> q <= index[j]
      ensures SegmentsIn(q, from, to) <= Children(files.Keys, q)
    {
      BisectSplit(index, q);
      LtIrreflexive(q);
      forall x | x in SegmentsIn(q, from, to) ensures x in Children(files.Keys, q) {
        var j :| from <= j < to && x == FirstSegment(index[j][|q|..]);
        assert index[j] in files.Keys;
      }
    }

    /** `get_resources(resource)`: the immediate children of the resource's directory. */
    method GetResources(path: String) returns (r: Result<set<String>, ResourceError>)
      requires Valid()
      ensures WithSep(Stripped(path)).Err? ==> r == Err(IndexError)
      ensures WithSep(Stripped(path)).Ok? ==> r == Ok(Children(files.Keys, WithSep(Stripped(path)).value))
    {
      var p := WithSep(Stripped(path));
      if p.Err? {
        return Err(IndexError);
      }
      var q := p.value;
      var plen := |q|;
      var result: set<String> := {};
      var from := Bisect(index, q);
      var i := from;
      while i < |index|
        invariant from <= i <= |index|
        invariant forall j :: from <= j < i ==> q <= index[j]
        invariant result == SegmentsIn(q, from, i)
      {
        if !StartsWith(index[i], q) {
          break;
        }
        var s := index[i][plen..];
        result := result + {FirstSegment(s)};
        i := i + 1;
      }
      ScanComplete(q, i);
      return Ok(result);
    }
  }
}
