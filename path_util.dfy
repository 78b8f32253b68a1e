/**
 * Path and URI string predicates of the language server (langserver/util.go).
 * The operating system's path separator is fixed to '/'.
 */
module PathUtil {
  import opened Strings

  /** os.PathSeparator */
  const Separator: char := '/'

  /** True when `p` already ends with the separator. */
  predicate EndsWithSeparator(p: string) {
    HasSuffix(p, [Separator])
  }

  /** `prefix` with the separator appended only when it is missing. */
  function WithSeparator(prefix: string): (r: string)
    ensures EndsWithSeparator(r) && HasPrefix(r, prefix)
    ensures EndsWithSeparator(prefix) ==> r == prefix
    ensures !EndsWithSeparator(prefix) ==> |r| == |prefix| + 1
  {
    if EndsWithSeparator(prefix) then prefix else prefix + [Separator]
  }

  /**
   * PathHasPrefix: `s` is `prefix` or lies below it. The separator-terminated
   * probe is only built for a non-empty prefix that lacks a trailing separator;
   * otherwise the probe stays empty and every `s` matches.
   */
  function PathHasPrefix(s: string, prefix: string): (r: bool)
    ensures s == prefix ==> r
    ensures prefix == "" || EndsWithSeparator(prefix) ==> r
  {
    var prefixSlash := if prefix != "" && !EndsWithSeparator(prefix) then prefix + [Separator] else "";
    s == prefix || HasPrefix(s, prefixSlash)
  }

  /**
   * For a non-empty prefix without a trailing separator, PathHasPrefix holds
   * exactly when `s` is `prefix` or continues it with a separator.
   */
  lemma PathHasPrefixBelow(s: string, prefix: string)
    requires prefix != "" && !EndsWithSeparator(prefix)
    ensures PathHasPrefix(s, prefix) <==>
              s == prefix || (|prefix| < |s| && s[..|prefix|] == prefix && s[|prefix|] == Separator)
  {
    var probe := prefix + [Separator];
    if |prefix| < |s| && s[..|prefix|] == prefix && s[|prefix|] == Separator {
      assert s[..|probe|] == s[..|prefix|] + [s[|prefix|]];
    }
    if HasPrefix(s, probe) {
      assert s[..|prefix|] == probe[..|prefix|];
      assert s[|prefix|] == probe[|prefix|];
    }
  }

  /**
   * PathTrimPrefix: the part of `s` below `prefix`; empty when they are equal,
   * `s` itself when `s` does not lie below `prefix`.
   */
  function PathTrimPrefix(s: string, prefix: string): (r: string)
    ensures s == prefix ==> r == ""
    ensures s != prefix && HasPrefix(s, WithSeparator(prefix)) ==> WithSeparator(prefix) + r == s
    ensures s != prefix && !HasPrefix(s, WithSeparator(prefix)) ==> r == s
    ensures |r| <= |s|
  {
    if s == prefix then ""
    else TrimPrefix(s, WithSeparator(prefix))
  }

  /**
   * As written, a prefix that already ends with the separator matches every
   * path, even one that PathTrimPrefix then leaves untouched.
   */
  lemma PathHasPrefixTrailingSeparator()
    ensures PathHasPrefix("/etc", "/home/")
    ensures PathTrimPrefix("/etc", "/home/") == "/etc"
  {
    assert !HasPrefix("/etc", "/home/");
  }

  /**
   * PathHasPrefix as evidently intended: a prefix that already ends with the
   * separator is its own probe instead of an empty one.
   */
  function PathHasPrefixCorrected(s: string, prefix: string): (r: bool)
    ensures s == prefix ==> r
  {
    var probe := if prefix == "" then "" else WithSeparator(prefix);
    s == prefix || HasPrefix(s, probe)
  }

  /**
   * For a non-empty prefix the corrected check agrees with PathTrimPrefix:
   * `s` lies below `prefix` exactly when trimming removes the prefix and its separator.
   */
  lemma PathHasPrefixCorrectedTrims(s: string, prefix: string)
    requires prefix != ""
    ensures PathHasPrefixCorrected(s, prefix) <==>
              s == prefix || WithSeparator(prefix) + PathTrimPrefix(s, prefix) == s
  {
    var p := WithSeparator(prefix);
    var r := PathTrimPrefix(s, prefix);
    if s != prefix && p + r == s {
      assert s[..|p|] == (p + r)[..|p|];
    }
  }

  lemma PathHasPrefixCorrectedTrailingSeparator()
    ensures !PathHasPrefixCorrected("/etc", "/home/")
  {
    assert WithSeparator("/home/") == "/home/";
    assert !HasPrefix("/etc", "/home/");
  }

  /**
   * pathEqual: `a` trims to nothing against `b`. That happens for `b` itself,
   * for `b` with its separator added, and, as a corner case, for the empty path.
   */
  function PathEqual(a: string, b: string): (r: bool)
    ensures a == b ==> r
  {
    PathTrimPrefix(a, b) == ""
  }

  /** PathEqual holds exactly for `b`, for `b` with its separator, and for "". */
  lemma PathEqualIff(a: string, b: string)
    ensures PathEqual(a, b) <==> a == b || a == WithSeparator(b) || a == ""
  {
    var p := WithSeparator(b);
    if a != b && HasPrefix(a, p) {
      assert p + PathTrimPrefix(a, b) == a;
    }
    if a == p {
      assert HasPrefix(a, p);
    }
  }

  lemma PathEqualCases(a: string, b: string)
    ensures PathEqual(a, a)
    ensures PathEqual("", b)
    ensures !EndsWithSeparator(b) ==> PathEqual(b + [Separator], b)
  {
    PathEqualIff("", b);
    PathEqualIff(b + [Separator], b);
  }

  /** A second separator is not absorbed: "x//" is not the same path as "x/". */
  lemma PathEqualDoubleSeparator()
    ensures !PathEqual("x//", "x/")
  {
    PathEqualIff("x//", "x/");
    assert WithSeparator("x/") == "x/";
  }

  /**
   * IsVendorDir: the literal '/' (not the separator constant) delimits a
   * "vendor" segment, and that segment must be followed by '/'.
   */
  function IsVendorDir(dir: string): (r: bool)
    ensures HasPrefix(dir, "vendor/") ==> r
  {
    HasPrefix(dir, "vendor/") || Contains(dir, "/vendor/")
  }

  /** IsVendorDir holds exactly when a "vendor/" segment starts somewhere in `dir`. */
  lemma IsVendorDirIff(dir: string)
    ensures IsVendorDir(dir) <==> exists i :: VendorSegmentAt(dir, i)
  {
    if HasPrefix(dir, "vendor/") {
      assert VendorSegmentAt(dir, 0);
    } else if Contains(dir, "/vendor/") {
      var k := Index(dir, "/vendor/").value;
      SlashVendorIsSegment(dir, k);
    }
    if exists i :: VendorSegmentAt(dir, i) {
      var i :| VendorSegmentAt(dir, i);
      if i > 0 {
        SegmentIsSlashVendor(dir, i);
      } else {
        assert HasPrefix(dir, "vendor/");
      }
    }
  }

  /** An occurrence of "/vendor/" at `k` is a "vendor/" segment at `k + 1`. */
  lemma SlashVendorIsSegment(dir: string, k: nat)
    requires OccursAt(dir, "/vendor/", k)
    ensures VendorSegmentAt(dir, k + 1)
  {
    assert dir[k..k + 8] == "/vendor/";
    assert dir[k + 1..k + 8] == dir[k..k + 8][1..] == "vendor/";
    assert dir[k] == dir[k..k + 8][0] == '/';
  }

  /** A "vendor/" segment after a '/' at `i` is an occurrence of "/vendor/" at `i - 1`. */
  lemma SegmentIsSlashVendor(dir: string, i: nat)
    requires VendorSegmentAt(dir, i) && i > 0
    ensures OccursAt(dir, "/vendor/", i - 1)
  {
    assert dir[i - 1..i + 7] == [dir[i - 1]] + dir[i..i + 7];
  }

  /** A segment named "vendor", followed by '/', starts at index `i` of `dir`. */
  predicate VendorSegmentAt(dir: string, i: int) {
    OccursAt(dir, "vendor/", i) && (i == 0 || dir[i - 1] == '/')
  }

  lemma VendorExamples()
    ensures !IsVendorDir("vendor")
    ensures !IsVendorDir("a/vendor")
    ensures IsVendorDir("a/vendor/b")
  {
    VendorBare();
    VendorTrailing();
    VendorNested();
  }

  lemma VendorBare()
    ensures !IsVendorDir("vendor")
  {
    IsVendorDirIff("vendor");
  }

  lemma VendorTrailing()
    ensures !IsVendorDir("a/vendor")
  {
    IsVendorDirIff("a/vendor");
    forall i | 0 <= i ensures !VendorSegmentAt("a/vendor", i) {
      if i == 1 {
        assert "a/vendor"[1..8][0] == '/' != "vendor/"[0];
      }
    }
  }

  lemma VendorNested()
    ensures IsVendorDir("a/vendor/b")
  {
    IsVendorDirIff("a/vendor/b");
    assert VendorSegmentAt("a/vendor/b", 2);
  }

  /** The URI prefix of a local file. */
  const FileScheme: string := "file://"

  /** isURI */
  predicate IsURI(s: string)
    ensures IsURI(s) <==> HasPrefix(s, FileScheme) && |s| > |FileScheme| && s[|FileScheme|] == '/'
  {
    assert |s| >= 8 ==> s[..8] == s[..7] + [s[7]];
    HasPrefix(s, "file:///")
  }

  /** pathToURI */
  function PathToURI(path: string): (r: string)
    ensures HasPrefix(r, FileScheme) && |r| == |FileScheme| + |path|
  {
    FileScheme + path
  }

  /** Stripping the scheme from pathToURI's output gives the path back. */
  lemma PathToURIRoundTrip(path: string)
    ensures TrimPrefix(PathToURI(path), FileScheme) == path
  {
    assert PathToURI(path)[|FileScheme|..] == path;
  }

  /** pathToURI yields a URI exactly for absolute paths. */
  lemma {:induction false} PathToURIIsURI(path: string)
    ensures IsURI(PathToURI(path)) <==> HasPrefix(path, "/")
  {
    var u := PathToURI(path);
    if HasPrefix(path, "/") {
      assert u[..8] == FileScheme + path[..1];
    }
    if IsURI(u) {
      assert path[..1] == u[7..8];
    }
  }
}
