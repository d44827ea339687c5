/**
 * result_parser.py: tallies the autotester's per-query verdicts. The module-level
 * dictionaries and counters are the fields of one Results object; each report is handed to
 * ParseOne as its sequence of `query` elements, and the warnings it would print are returned.
 */
module ResultParser {
  import opened Wrappers
  import opened Report

  /** get_dupes: the set of elements that occur at least twice. */
  method GetDupes(xs: seq<string>) returns (dupes: set<string>)
    ensures forall x :: x in dupes <==> multiset(xs)[x] >= 2
    ensures dupes == {} <==> NoRepeats(xs)
  {
    dupes := {};
    var uniq: set<string> := {};
    var i := 0;
    while i < |xs|
      invariant 0 <= i <= |xs|
      invariant forall x :: x in uniq <==> multiset(xs[..i])[x] >= 1
      invariant forall x :: x in dupes <==> multiset(xs[..i])[x] >= 2
    {
      assert xs[..i + 1] == xs[..i] + [xs[i]];
      if xs[i] in uniq {
        dupes := dupes + {xs[i]};
      } else {
        uniq := uniq + {xs[i]};
      }
      i := i + 1;
    }
    assert xs[..i] == xs;
    NoRepeatsIff(xs);
    if dupes == {} {
      assert forall x :: multiset(xs)[x] <= 1 by {
        forall x ensures multiset(xs)[x] <= 1 {
          assert x !in dupes;
        }
      }
    } else {
      var x :| x in dupes;
      assert multiset(xs)[x] >= 2;
    }
  }

  /** What parse_one prints about one query besides its verdict. */
  datatype Warning =
    | ThrewException(id: TestId)
    | NoCorrectResult(id: TestId)
    | DuplicateAnswers(id: TestId, dupes: set<string>)

  function Dupes(xs: seq<string>): set<string>
  {
    set x | x in xs && multiset(xs)[x] >= 2
  }

  /** The warnings for one query: a missing `correct` child is reported (as a thrown exception
   *  when an `exception` child exists), a `correct` child without text is skipped, and
   *  otherwise the comma-separated answers are checked for repeats. */
  function QueryWarnings(q: QueryElem): seq<Warning>
  {
    match q.correct
    case None => if q.exception then [ThrewException(IdOf(q))] else [NoCorrectResult(IdOf(q))]
    case Some(None) => []
    case Some(Some(text)) =>
      var d := Dupes(Split(text, ','));
      if |d| > 0 then [DuplicateAnswers(IdOf(q), d)] else []
  }

  function AllWarnings(qs: seq<QueryElem>): seq<Warning>
  {
    if |qs| == 0 then [] else AllWarnings(qs[..|qs| - 1]) + QueryWarnings(qs[|qs| - 1])
  }

  lemma PrefixStep(qs: seq<QueryElem>, i: nat)
    requires i < |qs|
    ensures AllWarnings(qs[..i + 1]) == AllWarnings(qs[..i]) + QueryWarnings(qs[i])
    ensures PassedIds(qs[..i + 1]) == PassedIds(qs[..i]) + (if qs[i].failed then [] else [IdOf(qs[i])])
    ensures FailedIds(qs[..i + 1]) == FailedIds(qs[..i]) + (if qs[i].failed then [IdOf(qs[i])] else [])
  {
    assert qs[..i + 1][..i] == qs[..i];
  }

  /** A query whose expected answer repeats no element raises no duplicate warning, and no
   *  query raises more than one warning. */
  lemma QueryWarningsSpec(q: QueryElem)
    ensures |QueryWarnings(q)| <= 1
    ensures q.correct.Some? && q.correct.value.Some? && NoRepeats(Split(q.correct.value.value, ','))
            ==> QueryWarnings(q) == []
    ensures q.correct.None? ==> |QueryWarnings(q)| == 1
  {
    if q.correct.Some? && q.correct.value.Some? {
      var xs := Split(q.correct.value.value, ',');
      NoRepeatsIff(xs);
      if NoRepeats(xs) {
        assert Dupes(xs) == {};
      }
    }
  }

  /** The second half of parse_one's loop body: what is printed about the expected answer. */
  method CheckAnswer(query: QueryElem) returns (warnings: seq<Warning>)
    ensures warnings == QueryWarnings(query)
  {
    var id := IdOf(query);
    if query.correct.None? {
      if query.exception {
        return [ThrewException(id)];
      } else {
        return [NoCorrectResult(id)];
      }
    }
    var correctAns := query.correct.value;
    if correctAns.None? {
      return [];
    }
    var dupes := GetDupes(Split(correctAns.value, ','));
    assert dupes == Dupes(Split(correctAns.value, ','));
    warnings := if |dupes| > 0 then [DuplicateAnswers(id, dupes)] else [];
  }

  /** The module's globals. */
  class Results {
    var passedTests: map<string, seq<TestId>>
    var failedTests: map<string, seq<TestId>>
    var numFailed: nat
    var numPassed: nat

    constructor ()
      ensures passedTests == map[] && failedTests == map[] && numFailed == 0 && numPassed == 0
    {
      passedTests, failedTests := map[], map[];
      numFailed, numPassed := 0, 0;
    }

    /** parse_one: the file's lists are reset and refilled in document order; the counters
     *  are only ever increased, so parsing the same file twice replaces its lists but counts
     *  its queries twice. The warnings never touch the lists or counters. */
    method ParseOne(filename: string, queries: seq<QueryElem>) returns (warnings: seq<Warning>)
      modifies this
      ensures passedTests == old(passedTests)[filename := PassedIds(queries)]
      ensures failedTests == old(failedTests)[filename := FailedIds(queries)]
      ensures numFailed == old(numFailed) + |FailedIds(queries)|
      ensures numPassed == old(numPassed) + |PassedIds(queries)|
      ensures warnings == AllWarnings(queries)
    {
      // the two lists stored under `filename`, which the loop appends to
      var passed: seq<TestId> := [];
      var failed: seq<TestId> := [];
      warnings := [];
      var i := 0;
      while i < |queries|
        invariant 0 <= i <= |queries|
        invariant passed == PassedIds(queries[..i]) && failed == FailedIds(queries[..i])
        invariant passedTests == old(passedTests) && failedTests == old(failedTests)
        invariant numFailed == old(numFailed) + |failed|
        invariant numPassed == old(numPassed) + |passed|
        invariant warnings == AllWarnings(queries[..i])
      {
        var query := queries[i];
        PrefixStep(queries, i);
        var id := IdOf(query);
        if query.failed {
          failed := failed + [id];
        } else {
          passed := passed + [id];
        }
        Count(query);
        var w := CheckAnswer(query);
        warnings := warnings + w;
        i := i + 1;
      }
      assert queries[..i] == queries;
      passedTests := passedTests[filename := passed];
      failedTests := failedTests[filename := failed];
    }

    /** The first half of parse_one's loop body: the query's verdict is counted. */
    method Count(query: QueryElem)
      modifies this
      ensures passedTests == old(passedTests) && failedTests == old(failedTests)
      ensures numFailed == old(numFailed) + (if query.failed then 1 else 0)
      ensures numPassed == old(numPassed) + (if query.failed then 0 else 1)
    {
      if query.failed {
        numFailed := numFailed + 1;
      } else {
        numPassed := numPassed + 1;
      }
    }

    /** main, for inputs that all name report files (`reports` maps a file to its queries):
     *  bad arguments exit with 1 and change nothing; a file that cannot be read raises, which
     *  exits with 1; otherwise the status is num_failed unless the run is quiet. */
    method Run(argv: seq<string>, reports: map<string, seq<QueryElem>>) returns (status: nat)
      modifies this
      ensures ParseArgs(argv).Err? ==> status == 1 && unchanged(this)
      ensures ParseArgs(argv).Ok? && (forall f :: f in ParseArgs(argv).value.inputs ==> f in reports)
              ==> status == ExitStatus(ParseArgs(argv).value, numFailed)
                  && numFailed == old(numFailed) + TotalFailed(ParseArgs(argv).value.inputs, reports)
    {
      var args := ParseArgs(argv);
      if args.Err? {
        return 1;
      }
      var inputs := args.value.inputs;
      var k := 0;
      while k < |inputs|
        invariant 0 <= k <= |inputs|
        invariant (forall f :: f in inputs[..k] ==> f in reports)
                  ==> numFailed == old(numFailed) + TotalFailed(inputs[..k], reports)
      {
        var file := inputs[k];
        if file !in reports {
          return 1;
        }
        assert inputs[..k + 1] == inputs[..k] + [file];
        var _ := ParseOne(file, reports[file]);
        k := k + 1;
      }
      assert inputs[..k] == inputs;
      status := ExitStatus(args.value, numFailed);
    }
  }
}
