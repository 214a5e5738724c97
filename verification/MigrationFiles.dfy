/**
  The migrations directory: file names, the version a name carries, the text order `sort` lists
  them in, and the awk filter that picks the pending ones.
 */
module MigrationFiles {
  import opened Options
  import opened Orders
  import opened Text

  // ---------- Names ----------

  const SUFFIX := ".sql"

  /** The pattern ^[0-9]+-.*\.sql$ */
  predicate IsMigrationName(n: string) {
    var k := DigitRun(n);
    0 < k && k + 5 <= |n| && n[k] == '-' && n[|n| - 4..] == SUFFIX
  }

  /** Ten digits without a leading zero: the seconds since the epoch, as `create` writes them. */
  predicate Dated(n: string) {
    IsMigrationName(n) && DigitRun(n) == 10 && n[0] != '0'
  }

  function NameVersion(n: string): Version
    requires Dated(n)
  {
    VersionRange(n[..10]);
    Value(n[..10])
  }

  lemma VersionRange(s: string)
    requires |s| == 10 && AllDigits(s) && s[0] != '0'
    ensures 1_000_000_000 <= Value(s) <= 9_999_999_999
  {
    assert Value(s) == Horner(DigitValue(s[0]), s[1..]);
    HornerBounds(DigitValue(s[0]), s[1..]);
    assert Power10(9) == 1_000_000_000;
    assert 1 <= DigitValue(s[0]) <= 9;
  }

  /** Every migration of the directory has a ten-digit version of its own; other files may lie about. */
  ghost predicate WellNamed(names: set<string>) {
    && (forall n | n in names :: '/' !in n)
    && (forall n | n in names && IsMigrationName(n) :: Dated(n))
    && (forall n, m | n in names && m in names && Dated(n) && Dated(m) && NameVersion(n) == NameVersion(m) :: n == m)
  }

  ghost function VersionSet(names: set<string>): set<Version> {
    set n | n in names && Dated(n) :: NameVersion(n)
  }

  /** What follows the last slash. */
  function BaseName(path: string): string {
    if path == [] || path[|path| - 1] == '/' then []
    else BaseName(path[..|path| - 1]) + [path[|path| - 1]]
  }

  function PathOf(dir: string, n: string): string {
    dir + "/" + n
  }

  lemma {:induction false} BaseNameOfPath(dir: string, n: string)
    requires '/' !in n
    ensures BaseName(PathOf(dir, n)) == n
  {
    var p := PathOf(dir, n);
    if n == [] {
      assert p[|p| - 1] == '/';
    } else {
      assert p[..|p| - 1] == PathOf(dir, n[..|n| - 1]);
      BaseNameOfPath(dir, n[..|n| - 1]);
    }
  }

  /** The first field of a line cut at dashes. */
  function CutDash(line: string): string {
    if line == [] || line[0] == '-' then [] else [line[0]] + CutDash(line[1..])
  }

  function MigrationVersion(path: string): string {
    CutDash(BaseName(path))
  }

  lemma {:induction false} CutDashStops(a: string, rest: string)
    requires '-' !in a
    ensures CutDash(a + "-" + rest) == a
  {
    var line := a + "-" + rest;
    if a != [] {
      assert line[1..] == a[1..] + "-" + rest;
      CutDashStops(a[1..], rest);
    }
  }

  /** The version text cut from a path is the ten digits its file name starts with. */
  lemma VersionOfPath(dir: string, n: string)
    requires '/' !in n && Dated(n)
    ensures MigrationVersion(PathOf(dir, n)) == n[..10]
    ensures AllDigits(MigrationVersion(PathOf(dir, n))) && Value(MigrationVersion(PathOf(dir, n))) == NameVersion(n)
  {
    BaseNameOfPath(dir, n);
    assert n == n[..10] + "-" + n[11..];
    CutDashStops(n[..10], n[11..]);
  }

  /** The glob "<text>-*.sql" of `find -name`. */
  predicate MatchesGlob(text: string, n: string) {
    |text| + 5 <= |n| && n[..|text|] == text && n[|text|] == '-' && n[|n| - 4..] == SUFFIX
  }

  /** In a well-named directory the glob of a version finds exactly the migration of that version. */
  lemma GlobFindsVersion(names: set<string>, v: Version, n: string)
    requires WellNamed(names) && n in names
    ensures MatchesGlob(Padded(v, 10), n) <==> Dated(n) && NameVersion(n) == v
  {
    var text := Padded(v, 10);
    TenDigits(v);
    if MatchesGlob(text, n) {
      assert n == text + n[10..];
      DigitRunOf(text, n[10..]);
    }
    if Dated(n) && NameVersion(n) == v {
      EqualWidthInjective(n[..10], text);
    }
  }

  // ---------- The shapes of names ----------

  /** A migration is named by digits, a dash, anything and ".sql". */
  lemma NameShape(n: string)
    ensures IsMigrationName(n) <==> exists d, x :: d != "" && AllDigits(d) && n == d + "-" + x + ".sql"
  {
    if IsMigrationName(n) {
      var k := DigitRun(n);
      assert n == n[..k] + "-" + n[k + 1..|n| - 4] + ".sql";
    }
    if d, x :| d != "" && AllDigits(d) && n == d + "-" + x + ".sql" {
      assert n == d + ("-" + x + ".sql");
      DigitRunOf(d, "-" + x + ".sql");
      assert n[|n| - 4..] == ".sql";
    }
  }

  lemma GlobShape(text: string, n: string)
    ensures MatchesGlob(text, n) <==> exists x :: n == text + "-" + x + ".sql"
  {
    if MatchesGlob(text, n) {
      assert n == text + "-" + n[|text| + 1..|n| - 4] + ".sql";
    }
    if x :| n == text + "-" + x + ".sql" {
      assert n == text + ("-" + x + ".sql");
      assert n[|n| - 4..] == ".sql";
    }
  }

  /** Concretely, any file named after the first migration of the program has its version. */
  lemma FirstMigration(dir: string, x: string)
    requires '/' !in x
    ensures var n := "1507560488" + "-" + x + ".sql";
      Dated(n) && NameVersion(n) == 1_507_560_488 && MigrationVersion(dir + "/" + n) == "1507560488"
  {
    var d := "1507560488";
    var n := d + "-" + x + ".sql";
    SpelledVersion(d);
    assert n == d + ("-" + x + ".sql") && d[0] == '1';
    DigitRunOf(d, "-" + x + ".sql");
    assert n[|n| - 4..] == ".sql" && n[..10] == d && n[0] == d[0];
    forall i | 0 <= i < |n| ensures n[i] != '/' {
      assert i < 10 ==> IsDigit(n[i]) by { assert i < 10 ==> n[i] == d[i]; }
      assert 10 < i < |n| - 4 ==> n[i] == x[i - 11];
    }
    VersionOfPath(dir, n);
  }

  // ---------- Text order ----------

  /** The part of a line `sort -n` reads as its number: blanks, a sign, digits, a fraction. */
  function NumericPrefix(s: string, stage: nat): string {
    if s == [] then []
    else if stage == 0 && (s[0] == ' ' || s[0] == '\t') then [s[0]] + NumericPrefix(s[1..], 0)
    else if stage == 0 && s[0] == '-' then [s[0]] + NumericPrefix(s[1..], 1)
    else if IsDigit(s[0]) then [s[0]] + NumericPrefix(s[1..], if stage == 0 then 1 else stage)
    else if stage <= 1 && s[0] == '.' then [s[0]] + NumericPrefix(s[1..], 2)
    else []
  }

  /** `sort -k1nr`: larger number first, ties broken by the text of the whole line. `key` is the number read. */
  predicate SortBefore(key: string -> real, a: string, b: string) {
    var x, y := key(NumericPrefix(a, 0)), key(NumericPrefix(b, 0));
    x > y || (x == y && TextLess(a, b))
  }

  lemma {:induction false} NumericPrefixStopsAtSlash(dir: string, a: string, b: string, stage: nat)
    ensures NumericPrefix(dir + "/" + a, stage) == NumericPrefix(dir + "/" + b, stage)
  {
    var s, t := dir + "/" + a, dir + "/" + b;
    if dir != [] {
      assert s[1..] == dir[1..] + "/" + a && t[1..] == dir[1..] + "/" + b;
      NumericPrefixStopsAtSlash(dir[1..], a, b, 0);
      NumericPrefixStopsAtSlash(dir[1..], a, b, 1);
      NumericPrefixStopsAtSlash(dir[1..], a, b, 2);
      NumericPrefixStopsAtSlash(dir[1..], a, b, stage);
    }
  }

  /**
    The numeric key never separates two files of one directory, so the listing is in text order,
    and text order of dated names is the order of their versions.
   */
  lemma SortBeforeIsVersionOrder(key: string -> real, dir: string, n: string, m: string)
    requires Dated(n) && Dated(m) && NameVersion(n) != NameVersion(m)
    ensures SortBefore(key, PathOf(dir, n), PathOf(dir, m)) <==> NameVersion(n) < NameVersion(m)
  {
    SortBeforeIsTextOrder(key, dir, n, m);
    assert n == n[..10] + n[10..] && m == m[..10] + m[10..];
    TextLessDiffering(n[..10], m[..10], n[10..], m[10..]);
    EqualWidthOrder(0, n[..10], m[..10]);
  }

  lemma SortBeforeIsTextOrder(key: string -> real, dir: string, n: string, m: string)
    ensures SortBefore(key, PathOf(dir, n), PathOf(dir, m)) <==> TextLess(n, m)
  {
    NumericPrefixStopsAtSlash(dir, n, m, 0);
    TextLessCommonPrefix(dir + "/", n, m);
  }

  ghost predicate SortedPaths(key: string -> real, dir: string, names: set<string>, paths: seq<string>) {
    && (forall i | 0 <= i < |paths| :: BaseName(paths[i]) in names && paths[i] == PathOf(dir, BaseName(paths[i])))
    && (forall i, j | 0 <= i < j < |paths| :: SortBefore(key, paths[i], paths[j]))
  }

  /** A listing of the directory as `find | sort` prints it: every file once, in the order of `sort`. */
  ghost predicate IsListing(key: string -> real, dir: string, names: set<string>, paths: seq<string>) {
    SortedPaths(key, dir, names, paths) && forall n | n in names :: PathOf(dir, n) in paths
  }

  lemma {:induction false} FindTextMin(names: set<string>) returns (n: string)
    requires names != {}
    ensures n in names && forall m | m in names :: m == n || TextLess(n, m)
  {
    n :| n in names;
    var rest := names - {n};
    if rest != {} {
      var m := FindTextMin(rest);
      TextLessTotal(n, m);
      if TextLess(n, m) {
        forall x | x in rest ensures TextLess(n, x) {
          if x != m {
            TextLessTransitive(n, m, x);
          }
        }
      } else {
        n := m;
      }
    }
    assert names == rest + {n} || n in rest;
  }

  method Listing(key: string -> real, dir: string, names: set<string>) returns (paths: seq<string>)
    requires forall n | n in names :: '/' !in n
    ensures IsListing(key, dir, names, paths)
  {
    paths := [];
    var rest := names;
    while rest != {}
      invariant rest <= names
      invariant SortedPaths(key, dir, names, paths)
      invariant forall n | n in names :: n in rest || PathOf(dir, n) in paths
      invariant forall i, n | 0 <= i < |paths| && n in rest :: SortBefore(key, paths[i], PathOf(dir, n))
      decreases rest
    {
      ghost var w := FindTextMin(rest);
      forall m | m in rest ensures m == w || SortBefore(key, PathOf(dir, w), PathOf(dir, m)) {
        SortBeforeIsTextOrder(key, dir, w, m);
      }
      var n :| n in rest && forall m | m in rest :: m == n || SortBefore(key, PathOf(dir, n), PathOf(dir, m));
      BaseNameOfPath(dir, n);
      ghost var before := paths;
      paths := paths + [PathOf(dir, n)];
      rest := rest - {n};
      forall m | m in names ensures m in rest || PathOf(dir, m) in paths {
        assert m == n || m in rest || PathOf(dir, m) in before;
      }
    }
  }

  // ---------- The pending filter ----------

  predicate IsPending(path: string, last: nat) {
    var n := BaseName(path);
    Dated(n) && NameVersion(n) > last
  }

  function PendingPaths(paths: seq<string>, last: nat): seq<string> {
    if paths == [] then []
    else
      var path := paths[|paths| - 1];
      PendingPaths(paths[..|paths| - 1], last) + if IsPending(path, last) then [path] else []
  }

  /** `paths` names migrations of the directory, and their versions are `plan`, in order. */
  ghost predicate Lists(dir: string, names: set<string>, paths: seq<string>, plan: seq<Version>) {
    |paths| == |plan| && forall i | 0 <= i < |paths| ::
      var n := BaseName(paths[i]);
      n in names && paths[i] == PathOf(dir, n) && Dated(n) && NameVersion(n) == plan[i]
  }

  ghost function Above(vs: set<Version>, last: nat): set<Version> {
    set v | v in vs && v > last
  }

  /**
    The awk program: prints the pending paths, counting `limit` down and leaving at zero.
    A negative limit never reaches zero.
   */
  method FilterPending(dir: string, names: set<string>, paths: seq<string>, last: nat, limit: int)
      returns (out: seq<string>)
    requires WellNamed(names)
    requires forall i | 0 <= i < |paths| :: BaseName(paths[i]) in names
    ensures out == FirstN(if limit < 0 then None else Some(limit), PendingPaths(paths, last))
  {
    out := [];
    var left := limit;
    var i := 0;
    while i < |paths|
      invariant 0 <= i <= |paths|
      invariant out == PendingPaths(paths[..i], last)
      invariant left == limit - |out| && (limit >= 0 ==> left >= 0)
      invariant limit > 0 ==> left > 0
    {
      var n := BaseName(paths[i]);
      assert paths[..i + 1][..i] == paths[..i];
      if left != 0 && IsMigrationName(n) && NameVersion(n) > last {
        out := out + [paths[i]];
        left := left - 1;
        if left == 0 {
          PendingPrefix(paths, i + 1, last);
          return;
        }
      } else if left == 0 {
        PendingPrefix(paths, i, last);
        return;
      }
      i := i + 1;
    }
    assert paths[..i] == paths;
  }

  lemma {:induction false} PendingPrefix(paths: seq<string>, k: nat, last: nat)
    requires k <= |paths|
    ensures PendingPaths(paths[..k], last) <= PendingPaths(paths, last)
  {
    if k == |paths| {
      assert paths[..k] == paths;
    } else {
      PendingPrefix(paths[..|paths| - 1], k, last);
      assert paths[..|paths| - 1][..k] == paths[..k];
    }
  }

  lemma LaterInListing(key: string -> real, dir: string, names: set<string>, n: string, m: string)
    requires WellNamed(names) && n in names && m in names && Dated(n) && Dated(m)
    requires SortBefore(key, PathOf(dir, n), PathOf(dir, m))
    ensures NameVersion(n) < NameVersion(m)
  {
    SortBeforeIsTextOrder(key, dir, n, m);
    TextLessIrreflexive(n);
    SortBeforeIsVersionOrder(key, dir, n, m);
  }

  lemma {:induction false} PendingElements(paths: seq<string>, last: nat)
    ensures forall p :: p in PendingPaths(paths, last) <==> p in paths && IsPending(p, last)
  {
    if paths != [] {
      PendingElements(paths[..|paths| - 1], last);
      assert paths == paths[..|paths| - 1] + [paths[|paths| - 1]];
    }
  }

  lemma ListsSnoc(dir: string, names: set<string>, paths: seq<string>, plan: seq<Version>, n: string)
    requires Lists(dir, names, paths, plan) && n in names && '/' !in n && Dated(n)
    ensures Lists(dir, names, paths + [PathOf(dir, n)], plan + [NameVersion(n)])
  {
    BaseNameOfPath(dir, n);
  }

  lemma AscendingSnoc(q: seq<Version>, v: Version)
    requires Ascending(q) && forall i | 0 <= i < |q| :: q[i] < v
    ensures Ascending(q + [v])
  {
  }

  /** A pending path at the end of a listing is newer than every pending path before it. */
  lemma LastIsNewest(key: string -> real, dir: string, names: set<string>, front: seq<string>, path: string, last: nat,
                     p: string)
    requires WellNamed(names) && SortedPaths(key, dir, names, front + [path])
    requires IsPending(path, last) && p in PendingPaths(front, last)
    ensures IsPending(p, last) && NameVersion(BaseName(p)) < NameVersion(BaseName(path))
  {
    var paths := front + [path];
    PendingElements(front, last);
    var j :| 0 <= j < |front| && front[j] == p;
    assert paths[j] == p && paths[|front|] == path;
    assert SortBefore(key, paths[j], paths[|front|]);
    LaterInListing(key, dir, names, BaseName(p), BaseName(path));
  }

  lemma {:induction false} PendingAscends(key: string -> real, dir: string, names: set<string>, paths: seq<string>,
                                          last: nat) returns (q: seq<Version>)
    requires WellNamed(names) && SortedPaths(key, dir, names, paths)
    ensures Lists(dir, names, PendingPaths(paths, last), q) && Ascending(q)
  {
    if paths == [] {
      q := [];
    } else {
      var front, path := paths[..|paths| - 1], paths[|paths| - 1];
      q := PendingAscends(key, dir, names, front, last);
      if IsPending(path, last) {
        assert paths == front + [path];
        forall i | 0 <= i < |q| ensures q[i] < NameVersion(BaseName(path)) {
          LastIsNewest(key, dir, names, front, path, last, PendingPaths(front, last)[i]);
        }
        AscendingSnoc(q, NameVersion(BaseName(path)));
        assert path == PathOf(dir, BaseName(path));
        ListsSnoc(dir, names, PendingPaths(front, last), q, BaseName(path));
        q := q + [NameVersion(BaseName(path))];
      }
    }
  }

  /** The pending list is ascending in version, and holds exactly the migrations newer than `last`. */
  lemma PendingIsAboveLast(key: string -> real, dir: string, names: set<string>, paths: seq<string>, last: nat)
    requires WellNamed(names) && IsListing(key, dir, names, paths)
    ensures Lists(dir, names, PendingPaths(paths, last), Asc(Above(VersionSet(names), last)))
  {
    var q := PendingAscends(key, dir, names, paths, last);
    PendingElements(paths, last);
    var out := PendingPaths(paths, last);
    var s := Above(VersionSet(names), last);
    forall v | v in s ensures v in q {
      var n :| n in names && Dated(n) && NameVersion(n) == v;
      BaseNameOfPath(dir, n);
      assert PathOf(dir, n) in out;
      var i :| 0 <= i < |out| && out[i] == PathOf(dir, n);
      assert q[i] == v;
    }
    forall v | v in q ensures v in s {
      var i :| 0 <= i < |q| && q[i] == v;
      assert out[i] in out && NameVersion(BaseName(out[i])) == v;
    }
    assert Elems(q) == s;
    AscUnique(q, s);
  }
}
