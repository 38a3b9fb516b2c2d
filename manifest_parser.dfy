/**
 * Query and filter logic of the test-manifest parser
 * (testing/mozbase/manifestparser/manifestparser/manifestparser.py):
 * filtering tests by checks, tag/key-value selection and its inverse,
 * the ordered list of manifests, path (de)normalisation, the directory
 * audit as set differences, and the defaulting of `expected`.
 *
 * A test is a dictionary from field names to string values.  Reading
 * manifests and walking the file system are not modelled: the tests and the
 * files found on disk are inputs.
 */
module ManifestParser {
  import opened Wrappers

  type Test = map<string, string>

  /** What `get` returns: the selected tests, or one field of each of them. */
  datatype Selection = Tests(tests: seq<Test>) | Values(values: seq<string>)

  // ---------------------------------------------------------------------------
  // Checks and the tests they keep

  /** Every check accepts the test. */
  predicate PassesAll(checks: seq<Test -> bool>, t: Test)
  {
    forall k :: 0 <= k < |checks| ==> checks[k](t)
  }

  /** The tests every check accepts, in their original order. */
  function Keep(tests: seq<Test>, checks: seq<Test -> bool>): (r: seq<Test>)
    ensures |r| <= |tests|
  {
    if tests == [] then []
    else (if PassesAll(checks, tests[0]) then [tests[0]] else []) + Keep(tests[1..], checks)
  }

  /** Exactly the tests of the input that pass every check survive. */
  lemma {:induction false} KeepMembers(tests: seq<Test>, checks: seq<Test -> bool>)
    ensures forall t :: t in Keep(tests, checks) <==> t in tests && PassesAll(checks, t)
  {
    if tests != [] {
      KeepMembers(tests[1..], checks);
      assert tests == [tests[0]] + tests[1..];
    }
  }

  /** Runs the checks on one test in order, stopping at the first that rejects it. */
  method Passes(checks: seq<Test -> bool>, t: Test) returns (passed: bool)
    ensures passed == PassesAll(checks, t)
  {
    passed := true;
    var j := 0;
    while j < |checks| && passed
      invariant 0 <= j <= |checks|
      invariant passed <==> forall k :: 0 <= k < j ==> checks[k](t)
      invariant !passed ==> !PassesAll(checks, t)
    {
      if !checks[j](t) {
        passed := false;
      }
      j := j + 1;
    }
  }

  /** Filtering a test followed by more tests. */
  lemma KeepCons(t: Test, rest: seq<Test>, checks: seq<Test -> bool>)
    ensures Keep([t] + rest, checks) == (if PassesAll(checks, t) then [t] else []) + Keep(rest, checks)
  {
    assert ([t] + rest)[1..] == rest;
  }

  /** Filtering a concatenation filters each part in place: the original order is kept. */
  lemma {:induction false} KeepAppend(a: seq<Test>, b: seq<Test>, checks: seq<Test -> bool>)
    ensures Keep(a + b, checks) == Keep(a, checks) + Keep(b, checks)
  {
    if a == [] {
      assert a + b == b;
    } else {
      var t, rest := a[0], a[1..];
      assert a == [t] + rest && a + b == [t] + (rest + b);
      KeepAppend(rest, b, checks);
      KeepCons(t, rest, checks);
      KeepCons(t, rest + b, checks);
      var h := if PassesAll(checks, t) then [t] else [];
      assert h + (Keep(rest, checks) + Keep(b, checks)) == (h + Keep(rest, checks)) + Keep(b, checks);
    }
  }

  /** A test list whose every test passes is kept whole. */
  lemma {:induction false} KeepAll(tests: seq<Test>, checks: seq<Test -> bool>)
    requires forall i :: 0 <= i < |tests| ==> PassesAll(checks, tests[i])
    ensures Keep(tests, checks) == tests
  {
    if tests != [] {
      KeepAll(tests[1..], checks);
    }
  }

  // ---------------------------------------------------------------------------
  // The checks built by `get`

  /** `test.get(key) == value`: the field is present and equal. */
  predicate FieldIs(t: Test, key: string, value: string)
  {
    key in t && t[key] == value
  }

  /** The tag check: all tags are fields of the test, or (inverse) none is. */
  function HasTags(tags: set<string>, inverse: bool): Test -> bool
  {
    if inverse then (t: Test) => tags !! t.Keys else (t: Test) => tags <= t.Keys
  }

  /** The key-value check: every pair matches the test, or (inverse) none does. */
  function DictQuery(kwargs: map<string, string>, inverse: bool): Test -> bool
  {
    if inverse then (t: Test) => forall k :: k in kwargs ==> !FieldIs(t, k, kwargs[k])
    else (t: Test) => forall k :: k in kwargs ==> FieldIs(t, k, kwargs[k])
  }

  /** The tests `get` selects. */
  function Selected(tests: seq<Test>, inverse: bool, tags: set<string>, kwargs: map<string, string>): seq<Test>
  {
    Keep(tests, [HasTags(tags, inverse), DictQuery(kwargs, inverse)])
  }

  /**
   * A plain `get` keeps a test iff it has every tag and every pair matches;
   * an inverse `get` keeps it iff it has none of the tags and no pair matches.
   */
  lemma SelectedMembers(tests: seq<Test>, inverse: bool, tags: set<string>, kwargs: map<string, string>, t: Test)
    ensures !inverse ==> (t in Selected(tests, inverse, tags, kwargs) <==>
                          t in tests && tags <= t.Keys && forall k :: k in kwargs ==> k in t && t[k] == kwargs[k])
    ensures inverse ==> (t in Selected(tests, inverse, tags, kwargs) <==>
                         t in tests && (forall g :: g in tags ==> g !in t) && forall k :: k in kwargs ==> !(k in t && t[k] == kwargs[k]))
  {
    var checks := [HasTags(tags, inverse), DictQuery(kwargs, inverse)];
    KeepMembers(tests, checks);
    assert PassesAll(checks, t) <==> checks[0](t) && checks[1](t);
    if inverse {
      assert checks[0](t) <==> forall g :: g in tags ==> g !in t;
      assert checks[1](t) <==> forall k :: k in kwargs ==> !FieldIs(t, k, kwargs[k]);
    } else {
      assert checks[1](t) <==> forall k :: k in kwargs ==> FieldIs(t, k, kwargs[k]);
    }
  }

  /** For a single key-value pair and no tags, a `get` and its inverse split the tests between them. */
  lemma InverseSplits(tests: seq<Test>, key: string, value: string, t: Test)
    requires t in tests
    ensures t in Selected(tests, false, {}, map[key := value]) <==> t !in Selected(tests, true, {}, map[key := value])
  {
    var kwargs := map[key := value];
    SelectedMembers(tests, false, {}, kwargs, t);
    SelectedMembers(tests, true, {}, kwargs, t);
    assert kwargs.Keys == {key};
  }

  // ---------------------------------------------------------------------------
  // Manifests named by tests

  /** The manifest of a test; a missing or empty field is "". */
  function ManifestOf(t: Test): string
  {
    if "manifest" in t then t["manifest"] else ""
  }

  /** The position of the first test whose manifest is m (|tests| when there is none). */
  function FirstIndex(tests: seq<Test>, m: string): (r: nat)
    ensures r <= |tests|
    ensures r < |tests| ==> ManifestOf(tests[r]) == m
    ensures forall j :: 0 <= j < r ==> ManifestOf(tests[j]) != m
  {
    if tests == [] then 0
    else if ManifestOf(tests[0]) == m then 0
    else 1 + FirstIndex(tests[1..], m)
  }

  /** A test that is the first with its manifest is where FirstIndex points. */
  lemma FirstIndexAt(tests: seq<Test>, m: string, i: nat)
    requires i < |tests| && ManifestOf(tests[i]) == m
    requires forall j :: 0 <= j < i ==> ManifestOf(tests[j]) != m
    ensures FirstIndex(tests, m) == i
  {
  }

  /** A manifest found among the first n tests is first found at the same place in the whole list. */
  lemma FirstIndexPrefix(tests: seq<Test>, n: nat, m: string)
    requires n <= |tests| && FirstIndex(tests[..n], m) < n
    ensures FirstIndex(tests, m) == FirstIndex(tests[..n], m)
  {
    var i := FirstIndex(tests[..n], m);
    assert tests[..n][i] == tests[i];
    forall j | 0 <= j < i ensures ManifestOf(tests[j]) != m {
      assert tests[..n][j] == tests[j];
    }
    FirstIndexAt(tests, m, i);
  }

  /** The distinct non-empty manifests of the tests, in the order they first appear. */
  function DistinctManifests(tests: seq<Test>): seq<string>
  {
    if tests == [] then []
    else
      var before := DistinctManifests(tests[..|tests| - 1]);
      var m := ManifestOf(tests[|tests| - 1]);
      if m != "" && m !in before then before + [m] else before
  }

  /** The manifests of the tests, empty ones included. */
  function ManifestSet(tests: seq<Test>): set<string>
  {
    if tests == [] then {} else ManifestSet(tests[..|tests| - 1]) + {ManifestOf(tests[|tests| - 1])}
  }

  /** A manifest is in the set exactly when some test has it. */
  lemma {:induction false} ManifestSetMembers(tests: seq<Test>, x: string)
    ensures x in ManifestSet(tests) <==> exists j :: 0 <= j < |tests| && ManifestOf(tests[j]) == x
  {
    if tests != [] {
      var n := |tests| - 1;
      var p := tests[..n];
      ManifestSetMembers(p, x);
      if x in ManifestSet(p) {
        var j :| 0 <= j < n && ManifestOf(p[j]) == x;
        assert ManifestOf(tests[j]) == x;
      }
      if exists j :: 0 <= j < |tests| && ManifestOf(tests[j]) == x {
        var j :| 0 <= j < |tests| && ManifestOf(tests[j]) == x;
        if j < n {
          assert ManifestOf(p[j]) == x;
        }
      }
    }
  }

  /** The listed manifests are the non-empty manifests of the tests, each listed once. */
  lemma {:induction false} DistinctManifestsMembers(tests: seq<Test>)
    ensures forall a, b :: 0 <= a < b < |DistinctManifests(tests)| ==> DistinctManifests(tests)[a] != DistinctManifests(tests)[b]
    ensures forall x :: x in DistinctManifests(tests) <==> x != "" && x in ManifestSet(tests)
  {
    if tests != [] {
      DistinctManifestsMembers(tests[..|tests| - 1]);
    }
  }

  /** The listed manifests are in the order of the first test that has each of them. */
  lemma {:induction false} DistinctManifestsOrder(tests: seq<Test>)
    ensures forall a :: 0 <= a < |DistinctManifests(tests)| ==> FirstIndex(tests, DistinctManifests(tests)[a]) < |tests|
    ensures forall a, b :: 0 <= a < b < |DistinctManifests(tests)| ==>
              FirstIndex(tests, DistinctManifests(tests)[a]) < FirstIndex(tests, DistinctManifests(tests)[b])
  {
    if tests != [] {
      var n := |tests| - 1;
      var p := tests[..n];
      DistinctManifestsOrder(p);
      DistinctManifestsMembers(p);
      var before := DistinctManifests(p);
      var m := ManifestOf(tests[n]);
      forall a | 0 <= a < |before| ensures FirstIndex(tests, before[a]) == FirstIndex(p, before[a]) < n {
        assert |p| == n && FirstIndex(p, before[a]) < |p|;
        FirstIndexPrefix(tests, n, before[a]);
      }
      if m != "" && m !in before {
        ManifestSetMembers(p, m);
        forall j | 0 <= j < n ensures ManifestOf(tests[j]) != m {
          assert p[j] == tests[j];
        }
        FirstIndexAt(tests, m, n);
      }
    }
  }

  /**
   * Each manifest is listed once; exactly the non-empty manifests of the
   * tests are listed; and they are listed in the order of their first test.
   */
  lemma DistinctManifestsOrdered(tests: seq<Test>)
    ensures var ms := DistinctManifests(tests);
            && (forall a, b :: 0 <= a < b < |ms| ==> ms[a] != ms[b])
            && (forall x :: x in ms <==> x != "" && exists j :: 0 <= j < |tests| && ManifestOf(tests[j]) == x)
            && (forall a, b :: 0 <= a < b < |ms| ==> FirstIndex(tests, ms[a]) < FirstIndex(tests, ms[b]))
  {
    DistinctManifestsMembers(tests);
    DistinctManifestsOrder(tests);
    forall x {
      ManifestSetMembers(tests, x);
    }
  }

  // ---------------------------------------------------------------------------
  // Path normalisation

  /** Replaces every occurrence of one character by another. */
  function Replace(s: string, from: char, to: char): (r: string)
    ensures |r| == |s|
    ensures forall i :: 0 <= i < |s| ==> r[i] == (if s[i] == from then to else s[i])
  {
    seq(|s|, i requires 0 <= i < |s| => if s[i] == from then to else s[i])
  }

  /** normalize_path: forward slashes become the platform separator, which is a backslash on Windows. */
  function NormalizePath(path: string, onWindows: bool): string
  {
    if onWindows then Replace(path, '/', '\\') else path
  }

  /** denormalize_path: the platform separator becomes a forward slash. */
  function DenormalizePath(path: string, onWindows: bool): string
  {
    if onWindows then Replace(path, '\\', '/') else path
  }

  /**
   * The two are inverse on the paths they produce: off Windows both are the
   * identity; on Windows denormalising a path without backslashes after
   * normalising it gives it back, and the other way round for paths without
   * forward slashes.
   */
  lemma NormalizeRoundTrip(path: string, onWindows: bool)
    ensures !onWindows ==> NormalizePath(path, onWindows) == path && DenormalizePath(path, onWindows) == path
    ensures '\\' !in path ==> DenormalizePath(NormalizePath(path, onWindows), onWindows) == path
    ensures '/' !in path ==> NormalizePath(DenormalizePath(path, onWindows), onWindows) == path
  {
    if onWindows {
      if '\\' !in path {
        var r := DenormalizePath(NormalizePath(path, onWindows), onWindows);
        assert forall i :: 0 <= i < |path| ==> r[i] == path[i];
      }
      if '/' !in path {
        var r := NormalizePath(DenormalizePath(path, onWindows), onWindows);
        assert forall i :: 0 <= i < |path| ==> r[i] == path[i];
      }
    }
  }

  /** On Windows a normalised path has no forward slash, and a denormalised one no backslash. */
  lemma NormalizedSeparators(path: string)
    ensures '/' !in NormalizePath(path, true)
    ensures '\\' !in DenormalizePath(path, true)
  {
    var n := NormalizePath(path, true);
    var d := DenormalizePath(path, true);
    assert forall i :: 0 <= i < |n| ==> n[i] != '/';
    assert forall i :: 0 <= i < |d| ==> d[i] != '\\';
  }

  // ---------------------------------------------------------------------------
  // The directory audit

  /**
   * verifyDirectory: the manifest paths missing on disk, and the files on
   * disk missing from the manifests.
   */
  function VerifyDirectory(paths: seq<string>, files: set<string>): (r: (set<string>, set<string>))
    ensures r.0 !! r.1
    ensures forall p :: p in paths ==> (p in r.0 <==> p !in files) && p !in r.1
    ensures forall f :: f in files ==> (f in r.1 <==> f !in paths) && f !in r.0
    ensures r.0 + r.1 + (set p | p in paths && p in files) == (set p | p in paths) + files
  {
    var pathSet := set p | p in paths;
    (pathSet - files, files - pathSet)
  }

  // ---------------------------------------------------------------------------
  // The parser's test list

  class ManifestParser {
    var tests: seq<Test>
    /** The manifests read so far, in the key order of their defaults table. */
    var manifestNames: seq<string>

    constructor (tests: seq<Test>, manifestNames: seq<string>)
      ensures this.tests == tests && this.manifestNames == manifestNames
    {
      this.tests := tests;
      this.manifestNames := manifestNames;
    }

    /** The tests a query runs on: the given list, or the parser's own when none is given. */
    function Source(given: Option<seq<Test>>): seq<Test>
      reads this
    {
      if given.Some? then given.value else tests
    }

    /** query: the tests every check accepts, in order; a check that fails stops checking that test. */
    method Query(checks: seq<Test -> bool>, given: Option<seq<Test>>) returns (retval: seq<Test>)
      ensures retval == Keep(Source(given), checks)
    {
      var ts := Source(given);
      retval := [];
      var i := 0;
      while i < |ts|
        invariant 0 <= i <= |ts|
        invariant retval + Keep(ts[i..], checks) == Keep(ts, checks)
      {
        var passed := Passes(checks, ts[i]);
        assert ts[i..] == [ts[i]] + ts[i + 1..];
        KeepCons(ts[i], ts[i + 1..], checks);
        if passed {
          retval := retval + [ts[i]];
        }
        i := i + 1;
      }
    }

    /**
     * get: the tests selected by tags and key-value pairs (or by their
     * inverse); with a key, that field of each selected test, which is a
     * key error when a selected test lacks it.
     */
    method Get(key: string, inverse: bool, tags: set<string>, given: Option<seq<Test>>, kwargs: map<string, string>)
      returns (r: Result<Selection>)
      ensures var s := Selected(Source(given), inverse, tags, kwargs);
              && (key == "" ==> r == Ok(Tests(s)))
              && (key != "" ==> (r.Ok? <==> forall i :: 0 <= i < |s| ==> key in s[i]))
              && (key != "" && r.Ok? ==> r.value.Values? && |r.value.values| == |s|
                                          && forall i :: 0 <= i < |s| ==> r.value.values[i] == s[i][key])
    {
      var selected := Query([HasTags(tags, inverse), DictQuery(kwargs, inverse)], given);
      if key == "" {
        return Ok(Tests(selected));
      }
      var values: seq<string> := [];
      var i := 0;
      while i < |selected|
        invariant 0 <= i <= |selected| && |values| == i
        invariant forall j :: 0 <= j < i ==> key in selected[j] && values[j] == selected[j][key]
      {
        if key !in selected[i] {
          return Err("KeyError: " + key);
        }
        values := values + [selected[i][key]];
        i := i + 1;
      }
      return Ok(Values(values));
    }

    /**
     * manifests: without tests, every manifest read; otherwise the distinct
     * non-empty manifests of the tests, in the order they first appear.
     */
    method Manifests(given: Option<seq<Test>>) returns (ms: seq<string>)
      ensures given.None? ==> ms == manifestNames
      ensures given.Some? ==> ms == DistinctManifests(given.value)
    {
      if given.None? {
        return manifestNames;
      }
      var ts := given.value;
      ms := [];
      var i := 0;
      while i < |ts|
        invariant 0 <= i <= |ts|
        invariant ms == DistinctManifests(ts[..i])
      {
        assert ts[..i + 1][..i] == ts[..i];
        var manifest := ManifestOf(ts[i]);
        if manifest != "" && manifest !in ms {
          ms := ms + [manifest];
        }
        i := i + 1;
      }
      assert ts[..i] == ts;
    }

    /** paths: the path of every test, in order; a key error when a test has none. */
    function Paths(): (r: Result<seq<string>>)
      reads this
      ensures r.Ok? <==> forall i :: 0 <= i < |tests| ==> "path" in tests[i]
      ensures r.Ok? ==> |r.value| == |tests| && forall i :: 0 <= i < |tests| ==> r.value[i] == tests[i]["path"]
    {
      var ts := tests;
      if forall i :: 0 <= i < |ts| ==> "path" in ts[i] then
        Ok(seq(|ts|, i requires 0 <= i < |ts| && "path" in ts[i] => ts[i]["path"]))
      else
        Err("KeyError: path")
    }

    /**
     * The defaulting step of active_tests: copies of the tests in which a
     * missing `expected` field becomes "pass"; the parser's own tests are
     * left as they are.
     */
    method ActiveTestDefaults() returns (active: seq<Test>)
      ensures |active| == |tests|
      ensures forall i :: 0 <= i < |tests| ==>
                && "expected" in active[i]
                && active[i]["expected"] == (if "expected" in tests[i] then tests[i]["expected"] else "pass")
                && active[i].Keys == tests[i].Keys + {"expected"}
                && forall k :: k in tests[i] && k != "expected" ==> active[i][k] == tests[i][k]
    {
      active := tests;
      var i := 0;
      while i < |active|
        invariant 0 <= i <= |active| == |tests|
        invariant forall j :: 0 <= j < i ==> active[j] == tests[j]["expected" := if "expected" in tests[j] then tests[j]["expected"] else "pass"]
        invariant forall j :: i <= j < |active| ==> active[j] == tests[j]
      {
        var test := active[i];
        var expected := if "expected" in test then test["expected"] else "pass";
        active := active[i := test["expected" := expected]];
        i := i + 1;
      }
    }
  }
}
