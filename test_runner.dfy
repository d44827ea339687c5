/**
 * The autotester driver: which files of a fixture folder are SIMPLE sources, which are
 * query files, how each query is paired with a source, where its XML report goes, and
 * which folders of a directory walk are run.
 *
 * A directory listing is a sequence of entries (a name and whether it is a regular file);
 * running the autotester is represented by the command it would be given.
 */
module TestRunner {
  import opened Wrappers

  predicate EndsWith(s: string, suffix: string)
  {
    |suffix| <= |s| && s[|s| - |suffix|..] == suffix
  }

  predicate OccursAt(s: string, sub: string, i: int)
  {
    0 <= i <= |s| - |sub| && s[i..i + |sub|] == sub
  }

  predicate Contains(s: string, sub: string)
  {
    exists i :: 0 <= i <= |s| - |sub| && OccursAt(s, sub, i)
  }

  lemma EndsWithAt(s: string, suffix: string, k: nat)
    requires EndsWith(s, suffix) && k < |suffix|
    ensures s[|s| - |suffix| + k] == suffix[k]
  {
    assert s[|s| - |suffix|..][k] == suffix[k];
  }

  /** One entry of a directory listing. */
  datatype Entry = Entry(name: string, isFile: bool)

  /** The command line handed to the autotester for one (source, query) pair. */
  datatype Command = Command(sourcePath: string, queryPath: string, xmlPath: string)

  /** os.path.join for a listing name, which never contains a separator. */
  function Join(folder: string, name: string): string
  {
    if |folder| == 0 || folder[|folder| - 1] == '/' then folder + name else folder + "/" + name
  }

  /** os.path.basename: everything after the last '/'. */
  function Basename(p: string): string
  {
    if |p| == 0 || p[|p| - 1] == '/' then "" else Basename(p[..|p| - 1]) + [p[|p| - 1]]
  }

  /** After a separator (or at the start), a name without separators is the basename. */
  lemma {:induction false} BasenameAfterSlash(p: string, name: string)
    requires |p| == 0 || p[|p| - 1] == '/'
    requires '/' !in name
    ensures Basename(p + name) == name
  {
    var j := p + name;
    if |name| > 0 {
      assert j[..|j| - 1] == p + name[..|name| - 1];
      assert name[..|name| - 1] + [name[|name| - 1]] == name;
      BasenameAfterSlash(p, name[..|name| - 1]);
    } else {
      assert j == p;
    }
  }

  lemma BasenameOfJoin(folder: string, name: string)
    requires '/' !in name
    ensures Basename(Join(folder, name)) == name
  {
    if |folder| == 0 || folder[|folder| - 1] == '/' {
      BasenameAfterSlash(folder, name);
    } else {
      assert folder + "/" + name == (folder + "/") + name;
      BasenameAfterSlash(folder + "/", name);
    }
  }

  // ---------------------------------------------------------------- sources

  predicate IsSourceEntry(folder: string, e: Entry)
  {
    e.isFile && (EndsWith(e.name, ".simple") || EndsWith(e.name, "_source.txt"))
    && !Contains(Join(folder, e.name), "numbered")
  }

  /** The joined paths of the source entries of a listing, in listing order. */
  function SourcePaths(folder: string, listing: seq<Entry>): seq<string>
  {
    if |listing| == 0 then []
    else
      var last := listing[|listing| - 1];
      SourcePaths(folder, listing[..|listing| - 1])
        + (if IsSourceEntry(folder, last) then [Join(folder, last.name)] else [])
  }

  lemma {:induction false} SourcePathsMembership(folder: string, listing: seq<Entry>, p: string)
    ensures p in SourcePaths(folder, listing)
            <==> exists i :: 0 <= i < |listing| && IsSourceEntry(folder, listing[i])
                             && p == Join(folder, listing[i].name)
  {
    if |listing| > 0 {
      var init := listing[..|listing| - 1];
      SourcePathsMembership(folder, init, p);
      if p in SourcePaths(folder, listing) && p !in SourcePaths(folder, init) {
        var n := |listing| - 1;
        assert IsSourceEntry(folder, listing[n]) && p == Join(folder, listing[n].name);
      }
      if exists i :: 0 <= i < |listing| && IsSourceEntry(folder, listing[i])
                     && p == Join(folder, listing[i].name) {
        var i :| 0 <= i < |listing| && IsSourceEntry(folder, listing[i])
                 && p == Join(folder, listing[i].name);
        if i < |listing| - 1 {
          assert init[i] == listing[i];
        }
      }
    }
  }

  /** find_source_files: keeps the source entries, appending their joined paths. */
  method FindSourceFiles(folder: string, listing: seq<Entry>) returns (sources: seq<string>)
    ensures sources == SourcePaths(folder, listing)
    ensures |sources| <= |listing|
  {
    sources := [];
    var i := 0;
    while i < |listing|
      invariant 0 <= i <= |listing|
      invariant sources == SourcePaths(folder, listing[..i])
      invariant |sources| <= i
    {
      var e := listing[i];
      assert listing[..i + 1][..i] == listing[..i];
      if IsSourceEntry(folder, e) {
        sources := sources + [Join(folder, e.name)];
      }
      i := i + 1;
    }
    assert listing[..i] == listing;
  }

  // ---------------------------------------------------------------- matching source

  /** get_matching_source: the source file name that belongs to a query file name. */
  function MatchingSource(query: string): Option<string>
  {
    if EndsWith(query, "_queries.txt") then Some(query[..|query| - 12] + "_source.txt")
    else if EndsWith(query, ".query") then Some(query[..|query| - 6] + ".simple")
    else None
  }

  /** A query name has a matching source exactly when it has one of the two query suffixes,
   *  and the stem is kept while the suffix is swapped for the corresponding source suffix. */
  lemma MatchingSourceSpec(query: string)
    ensures MatchingSource(query).Some?
            <==> EndsWith(query, "_queries.txt") || EndsWith(query, ".query")
    ensures forall stem :: MatchingSource(stem + "_queries.txt") == Some(stem + "_source.txt")
    ensures forall stem :: MatchingSource(stem + ".query") == Some(stem + ".simple")
    ensures MatchingSource(query).Some? ==>
              var s := MatchingSource(query).value;
              EndsWith(s, "_source.txt") || EndsWith(s, ".simple")
  {
    forall stem: string ensures MatchingSource(stem + "_queries.txt") == Some(stem + "_source.txt") {
      var q := stem + "_queries.txt";
      assert EndsWith(q, "_queries.txt");
      assert q[..|q| - 12] == stem;
    }
    forall stem: string ensures MatchingSource(stem + ".query") == Some(stem + ".simple") {
      var q := stem + ".query";
      assert EndsWith(q, ".query");
      assert q[|q| - 1] == 'y';
      assert q[..|q| - 6] == stem;
    }
    if MatchingSource(query).Some? {
      var s := MatchingSource(query).value;
      if EndsWith(query, "_queries.txt") {
        assert s[|s| - 11..] == "_source.txt";
      } else {
        assert s[|s| - 7..] == ".simple";
      }
    }
  }

  /** Two different query names never map to the same source name. */
  lemma MatchingSourceInjective(a: string, b: string)
    requires MatchingSource(a).Some? && MatchingSource(a) == MatchingSource(b)
    ensures a == b
  {
    var s := MatchingSource(a).value;
    assert EndsWith(a, "_queries.txt") <==> s[|s| - 1] == 't';
    assert EndsWith(b, "_queries.txt") <==> s[|s| - 1] == 't';
    if EndsWith(a, "_queries.txt") {
      assert a[..|a| - 12] == s[..|s| - 11] == b[..|b| - 12];
      assert a == a[..|a| - 12] + "_queries.txt";
      assert b == b[..|b| - 12] + "_queries.txt";
    } else {
      assert a[..|a| - 6] == s[..|s| - 7] == b[..|b| - 6];
      assert a == a[..|a| - 6] + ".query";
      assert b == b[..|b| - 6] + ".query";
    }
  }

  // ---------------------------------------------------------------- queries and pairing

  /** The query-file test of run_tests_in_folder, applied to the joined path. */
  predicate IsQueryPath(path: string)
  {
    EndsWith(path, "_queries.txt") || EndsWith(path, ".query")
    || (EndsWith(path, ".txt") && !EndsWith(path, "_source.txt"))
  }

  predicate IsQueryEntry(folder: string, e: Entry)
  {
    e.isFile && IsQueryPath(Join(folder, e.name))
  }

  /** A "_source.txt" file is never taken for a query file. */
  lemma SourceFileIsNoQuery(path: string)
    requires EndsWith(path, "_source.txt")
    ensures !IsQueryPath(path)
  {
    EndsWithAt(path, "_source.txt", 6);
    EndsWithAt(path, "_source.txt", 10);
  }

  /** The joined paths of the query entries of a listing, in listing order. */
  function QueryPaths(folder: string, listing: seq<Entry>): seq<string>
  {
    if |listing| == 0 then []
    else
      var last := listing[|listing| - 1];
      QueryPaths(folder, listing[..|listing| - 1])
        + (if IsQueryEntry(folder, last) then [Join(folder, last.name)] else [])
  }

  /** The (source, query) pairs collected from a listing, in listing order. */
  function FolderPairs(sources: seq<string>, folder: string, listing: seq<Entry>): seq<(string, string)>
  {
    if |listing| == 0 then []
    else
      var last := listing[|listing| - 1];
      var thing := Join(folder, last.name);
      FolderPairs(sources, folder, listing[..|listing| - 1])
        + (if !IsQueryEntry(folder, last) then []
           else if |sources| == 1 then [(sources[0], thing)]
           else if MatchingSource(thing).Some? then [(MatchingSource(thing).value, thing)]
           else [])
  }

  /** With one source every query file is paired with it, in listing order; with several,
   *  each query is paired with its derived name, whether or not that name is among the
   *  sources, and a query with no derivable name is dropped. Only query files are paired. */
  lemma {:induction false} FolderPairsSpec(sources: seq<string>, folder: string, listing: seq<Entry>)
    ensures forall k :: 0 <= k < |FolderPairs(sources, folder, listing)| ==>
              var (s, q) := FolderPairs(sources, folder, listing)[k];
              IsQueryPath(q) && q in QueryPaths(folder, listing)
              && (if |sources| == 1 then s == sources[0] else MatchingSource(q) == Some(s))
    ensures |sources| == 1 ==>
              |FolderPairs(sources, folder, listing)| == |QueryPaths(folder, listing)|
              && forall k :: 0 <= k < |QueryPaths(folder, listing)| ==>
                   FolderPairs(sources, folder, listing)[k] == (sources[0], QueryPaths(folder, listing)[k])
    ensures |sources| != 1 ==>
              forall q :: q in QueryPaths(folder, listing) && MatchingSource(q).Some? ==>
                (MatchingSource(q).value, q) in FolderPairs(sources, folder, listing)
  {
    if |listing| > 0 {
      var init := listing[..|listing| - 1];
      FolderPairsSpec(sources, folder, init);
    }
  }

  /** run_autotester: the source and query are re-rooted in the folder by basename, and the
   *  report is "output-" + the query basename without its last four characters + ".xml". */
  function AutotesterCommand(folder: string, source: string, query: string): Command
  {
    var s := Basename(source);
    var q := Basename(query);
    Command(Join(folder, s), Join(folder, q), Join(folder, "output-" + Stem4(q) + ".xml"))
  }

  /** Python's q[:-4]. */
  function Stem4(q: string): string
  {
    if |q| >= 4 then q[..|q| - 4] else ""
  }

  /** For a "<stem>.txt" query the report is "output-<stem>.xml"; a ".query" name loses only
   *  four characters, so "a.query" is reported in "output-a.q.xml". */
  lemma ReportPathSpec(folder: string, source: string, stem: string)
    requires '/' !in stem
    ensures AutotesterCommand(folder, source, stem + ".txt").xmlPath
            == Join(folder, "output-" + stem + ".xml")
  {
    var q := stem + ".txt";
    BasenameOfJoin("", q);
    assert Join("", q) == q;
    assert Stem4(q) == stem;
  }

  lemma ReportPathOfDotQuery(folder: string, source: string)
    ensures AutotesterCommand(folder, source, "a.query").xmlPath == Join(folder, "output-a.q.xml")
  {
    var q := "a.query";
    BasenameOfJoin("", q);
    assert Join("", q) == q;
    assert q[..|q| - 4] == "a.q";
    assert "output-" + Stem4(q) + ".xml" == "output-a.q.xml";
  }

  /** run_tests_in_folder: no runs without a source; otherwise the collected pairs are run in
   *  the order they were collected. */
  method RunTestsInFolder(folder: string, listing: seq<Entry>) returns (runs: seq<Command>)
    ensures SourcePaths(folder, listing) == [] ==> runs == []
    ensures SourcePaths(folder, listing) != [] ==>
              var pairs := FolderPairs(SourcePaths(folder, listing), folder, listing);
              |runs| == |pairs|
              && forall k :: 0 <= k < |runs| ==> runs[k] == AutotesterCommand(folder, pairs[k].0, pairs[k].1)
  {
    var sources := FindSourceFiles(folder, listing);
    if |sources| == 0 {
      return [];
    }
    var queries: seq<(string, string)> := [];
    var i := 0;
    while i < |listing|
      invariant 0 <= i <= |listing|
      invariant queries == FolderPairs(sources, folder, listing[..i])
    {
      var e := listing[i];
      var thing := Join(folder, e.name);
      assert listing[..i + 1][..i] == listing[..i];
      if e.isFile && IsQueryPath(thing) {
        if |sources| == 1 {
          queries := queries + [(sources[0], thing)];
        } else {
          var src := MatchingSource(thing);
          if src.Some? {
            queries := queries + [(src.value, thing)];
          }
        }
      }
      i := i + 1;
    }
    assert listing[..i] == listing;
    runs := [];
    var k := 0;
    while k < |queries|
      invariant 0 <= k <= |queries|
      invariant |runs| == k
      invariant forall m :: 0 <= m < k ==> runs[m] == AutotesterCommand(folder, queries[m].0, queries[m].1)
    {
      runs := runs + [AutotesterCommand(folder, queries[k].0, queries[k].1)];
      k := k + 1;
    }
  }

  // ---------------------------------------------------------------- the directory walk

  /** A path as its sequence of components, so that joining is injective. */
  type Path = seq<string>

  /** One step of a top-down os.walk: a directory and the names of its subdirectories. */
  datatype WalkStep = WalkStep(root: Path, dirs: seq<string>)

  /** What a top-down walk of a tree guarantees: every directory is visited once, the
   *  subdirectory names of a directory are distinct, and a subdirectory is visited after
   *  its parent. */
  predicate WellFormedWalk(walk: seq<WalkStep>)
  {
    (forall i, j :: 0 <= i < j < |walk| ==> walk[i].root != walk[j].root)
    && (forall i, a, b :: 0 <= i < |walk| && 0 <= a < b < |walk[i].dirs| ==> walk[i].dirs[a] != walk[i].dirs[b])
    && (forall i, j, a :: (0 <= i < |walk| && 0 <= j < |walk| && 0 <= a < |walk[i].dirs|
          && walk[j].root == walk[i].root + [walk[i].dirs[a]]) ==> i < j)
  }

  function ChildPaths(root: Path, dirs: seq<string>): seq<Path>
    ensures |ChildPaths(root, dirs)| == |dirs|
  {
    if |dirs| == 0 then [] else ChildPaths(root, dirs[..|dirs| - 1]) + [root + [dirs[|dirs| - 1]]]
  }

  lemma {:induction false} ChildPathsAt(root: Path, dirs: seq<string>, a: nat)
    requires a < |dirs|
    ensures ChildPaths(root, dirs)[a] == root + [dirs[a]]
  {
    if a < |dirs| - 1 {
      ChildPathsAt(root, dirs[..|dirs| - 1], a);
    }
  }

  /** The first `count` subdirectory paths of a directory, as a set. */
  function ChildSet(root: Path, dirs: seq<string>, count: nat): set<Path>
    requires count <= |dirs|
  {
    set b | 0 <= b < count :: root + [dirs[b]]
  }

  lemma ChildStep(root: Path, dirs: seq<string>, a: nat)
    requires a < |dirs|
    ensures ChildSet(root, dirs, a + 1) == ChildSet(root, dirs, a) + {root + [dirs[a]]}
    ensures ChildPaths(root, dirs[..a + 1]) == ChildPaths(root, dirs[..a]) + [root + [dirs[a]]]
  {
    assert dirs[..a + 1][..a] == dirs[..a];
  }

  /** The folders run_tests runs, given the directories already seen. */
  function WalkRuns(walk: seq<WalkStep>, seen: set<Path>): seq<Path>
  {
    if |walk| == 0 then []
    else
      var step := walk[0];
      if step.root in seen then WalkRuns(walk[1..], seen)
      else if |step.dirs| == 0 then [step.root] + WalkRuns(walk[1..], seen + {step.root})
      else ChildPaths(step.root, step.dirs)
           + WalkRuns(walk[1..], seen + ChildSet(step.root, step.dirs, |step.dirs|))
  }

  predicate Distinct(runs: seq<Path>)
  {
    forall p, q :: 0 <= p < q < |runs| ==> runs[p] != runs[q]
  }

  /** A run's origin: step `o.0` of the walk, as a leaf root (o.1 == -1) or through its
   *  subdirectory o.1. */
  predicate ValidOrigin(walk: seq<WalkStep>, o: (nat, int))
  {
    o.0 < |walk| && -1 <= o.1 < |walk[o.0].dirs|
  }

  function Origin(walk: seq<WalkStep>, o: (nat, int)): Path
    requires ValidOrigin(walk, o)
  {
    if o.1 == -1 then walk[o.0].root else walk[o.0].root + [walk[o.0].dirs[o.1]]
  }

  /** Every run so far comes from a step before `i`, or from one of the first `a`
   *  subdirectories of step `i`. */
  predicate Traced(walk: seq<WalkStep>, runs: seq<Path>, origin: seq<(nat, int)>, i: nat, a: nat)
  {
    |origin| == |runs|
    && forall p :: 0 <= p < |runs| ==>
         ValidOrigin(walk, origin[p]) && runs[p] == Origin(walk, origin[p])
         && (origin[p].0 < i || (origin[p].0 == i && 0 <= origin[p].1 < a))
  }

  /** In a well-formed walk, the next subdirectory of step i has not been run yet. */
  lemma ChildIsNew(walk: seq<WalkStep>, runs: seq<Path>, origin: seq<(nat, int)>, i: nat, a: nat)
    requires WellFormedWalk(walk) && i < |walk| && a < |walk[i].dirs|
    requires Traced(walk, runs, origin, i, a)
    ensures walk[i].root + [walk[i].dirs[a]] !in runs
  {
    var child := walk[i].root + [walk[i].dirs[a]];
    forall p | 0 <= p < |runs| ensures runs[p] != child {
      var (j, m) := origin[p];
      if j < i && m == -1 {
        assert walk[j].root != child;
      } else if j < i {
        assert runs[p][..|runs[p]| - 1] == walk[j].root;
        assert child[..|child| - 1] == walk[i].root;
      } else {
        assert runs[p][|runs[p]| - 1] == walk[i].dirs[m];
      }
    }
  }

  lemma WalkRunsStep(walk: seq<WalkStep>, i: nat, seen: set<Path>)
    requires i < |walk|
    ensures WalkRuns(walk[i..], seen)
            == if walk[i].root in seen then WalkRuns(walk[i + 1..], seen)
               else if |walk[i].dirs| == 0 then [walk[i].root] + WalkRuns(walk[i + 1..], seen + {walk[i].root})
               else ChildPaths(walk[i].root, walk[i].dirs)
                    + WalkRuns(walk[i + 1..], seen + ChildSet(walk[i].root, walk[i].dirs, |walk[i].dirs|))
  {
    assert walk[i..][1..] == walk[i + 1..];
  }

  /** The three cases of one step of the walk, for the runs still to come. */
  lemma WalkSkip(walk: seq<WalkStep>, i: nat, seen: set<Path>, runs: seq<Path>, total: seq<Path>)
    requires i < |walk| && walk[i].root in seen && runs + WalkRuns(walk[i..], seen) == total
    ensures runs + WalkRuns(walk[i + 1..], seen) == total
  {
    WalkRunsStep(walk, i, seen);
  }

  lemma WalkLeaf(walk: seq<WalkStep>, i: nat, seen: set<Path>, runs: seq<Path>, total: seq<Path>)
    requires i < |walk| && walk[i].root !in seen && |walk[i].dirs| == 0
    requires runs + WalkRuns(walk[i..], seen) == total
    ensures (runs + [walk[i].root]) + WalkRuns(walk[i + 1..], seen + {walk[i].root}) == total
  {
    WalkRunsStep(walk, i, seen);
  }

  lemma WalkInner(walk: seq<WalkStep>, i: nat, seen: set<Path>, runs: seq<Path>, total: seq<Path>)
    requires i < |walk| && walk[i].root !in seen && |walk[i].dirs| > 0
    requires runs + WalkRuns(walk[i..], seen) == total
    ensures (runs + ChildPaths(walk[i].root, walk[i].dirs))
            + WalkRuns(walk[i + 1..], seen + ChildSet(walk[i].root, walk[i].dirs, |walk[i].dirs|)) == total
  {
    WalkRunsStep(walk, i, seen);
  }

  lemma DistinctSnoc(runs: seq<Path>, x: Path)
    requires Distinct(runs) && x !in runs
    ensures Distinct(runs + [x])
  {
  }

  lemma TraceNext(walk: seq<WalkStep>, runs: seq<Path>, origin: seq<(nat, int)>, i: nat)
    requires Traced(walk, runs, origin, i, 0)
    ensures Traced(walk, runs, origin, i + 1, 0)
  {
  }

  lemma TraceChild(walk: seq<WalkStep>, runs: seq<Path>, origin: seq<(nat, int)>, i: nat, a: nat)
    requires i < |walk| && a < |walk[i].dirs| && Traced(walk, runs, origin, i, a)
    ensures Traced(walk, runs + [walk[i].root + [walk[i].dirs[a]]], origin + [(i, a)], i, a + 1)
  {
  }

  /** A leaf not seen before is run once: every earlier run has been seen, so it is new. */
  lemma LeafRun(walk: seq<WalkStep>, runs: seq<Path>, origin: seq<(nat, int)>, i: nat, seen: set<Path>)
    requires i < |walk| && walk[i].root !in seen
    requires forall p :: 0 <= p < |runs| ==> runs[p] in seen
    requires Traced(walk, runs, origin, i, 0)
    requires WellFormedWalk(walk) ==> Distinct(runs)
    ensures Traced(walk, runs + [walk[i].root], origin + [(i, -1)], i + 1, 0)
    ensures WellFormedWalk(walk) ==> Distinct(runs + [walk[i].root])
    ensures forall p :: 0 <= p < |runs| + 1 ==> (runs + [walk[i].root])[p] in seen + {walk[i].root}
  {
    if WellFormedWalk(walk) {
      DistinctSnoc(runs, walk[i].root);
    }
  }

  /** The inner loop of run_tests for a non-leaf step: each subdirectory is added to `seen`
   *  and run. */
  method RunChildren(walk: seq<WalkStep>, i: nat, runs0: seq<Path>, seen0: set<Path>,
                     ghost origin0: seq<(nat, int)>)
    returns (runs: seq<Path>, seen: set<Path>, ghost origin: seq<(nat, int)>)
    requires i < |walk|
    requires forall p :: 0 <= p < |runs0| ==> runs0[p] in seen0
    requires Traced(walk, runs0, origin0, i, 0)
    requires WellFormedWalk(walk) ==> Distinct(runs0)
    ensures runs == runs0 + ChildPaths(walk[i].root, walk[i].dirs)
    ensures seen == seen0 + ChildSet(walk[i].root, walk[i].dirs, |walk[i].dirs|)
    ensures forall p :: 0 <= p < |runs| ==> runs[p] in seen
    ensures Traced(walk, runs, origin, i + 1, 0)
    ensures WellFormedWalk(walk) ==> Distinct(runs)
  {
    var step := walk[i];
    runs, seen, origin := runs0, seen0, origin0;
    var a := 0;
    while a < |step.dirs|
      invariant 0 <= a <= |step.dirs|
      invariant runs == runs0 + ChildPaths(step.root, step.dirs[..a])
      invariant seen == seen0 + ChildSet(step.root, step.dirs, a)
      invariant forall p :: 0 <= p < |runs| ==> runs[p] in seen
      invariant Traced(walk, runs, origin, i, a)
      invariant WellFormedWalk(walk) ==> Distinct(runs)
    {
      var child := step.root + [step.dirs[a]];
      if WellFormedWalk(walk) {
        ChildIsNew(walk, runs, origin, i, a);
        DistinctSnoc(runs, child);
      }
      ChildStep(step.root, step.dirs, a);
      TraceChild(walk, runs, origin, i, a);
      seen := seen + {child};
      runs := runs + [child];
      origin := origin + [(i, a)];
      a := a + 1;
    }
    assert step.dirs[..a] == step.dirs;
  }

  /** run_tests: a leaf that has not been seen is run; a non-leaf that has not been seen runs
   *  each of its subdirectories; both are recorded in `seen` first. Over a well-formed walk no
   *  folder is run twice. */
  method RunTests(walk: seq<WalkStep>) returns (runs: seq<Path>)
    ensures runs == WalkRuns(walk, {})
    ensures WellFormedWalk(walk) ==> Distinct(runs)
  {
    var seen: set<Path> := {};
    runs := [];
    ghost var origin: seq<(nat, int)> := [];
    var i := 0;
    while i < |walk|
      invariant 0 <= i <= |walk|
      invariant runs + WalkRuns(walk[i..], seen) == WalkRuns(walk, {})
      invariant forall p :: 0 <= p < |runs| ==> runs[p] in seen
      invariant Traced(walk, runs, origin, i, 0)
      invariant WellFormedWalk(walk) ==> Distinct(runs)
    {
      var step := walk[i];
      if step.root in seen {
        WalkSkip(walk, i, seen, runs, WalkRuns(walk, {}));
        TraceNext(walk, runs, origin, i);
      } else if |step.dirs| == 0 {
        WalkLeaf(walk, i, seen, runs, WalkRuns(walk, {}));
        LeafRun(walk, runs, origin, i, seen);
        seen := seen + {step.root};
        runs := runs + [step.root];
        origin := origin + [(i, -1)];
      } else {
        WalkInner(walk, i, seen, runs, WalkRuns(walk, {}));
        runs, seen, origin := RunChildren(walk, i, runs, seen, origin);
      }
      i := i + 1;
    }
  }
}
