/**
 * parse_result_xml.py: the older tally script. It differs from result_parser.py in that its
 * get_dupes lists every repeated occurrence, and a query without a `correct` child makes
 * parse_one raise (after that query has been counted) instead of being skipped.
 */
module ParseResultXml {
  import opened Wrappers
  import opened Report

  /** One entry per occurrence that repeats an earlier element, in input order. */
  function RepeatOccurrences(xs: seq<string>): seq<string>
  {
    if |xs| == 0 then []
    else
      var init := xs[..|xs| - 1];
      RepeatOccurrences(init) + (if xs[|xs| - 1] in init then [xs[|xs| - 1]] else [])
  }

  /** An element seen k times contributes k - 1 entries. */
  lemma {:induction false} RepeatOccurrencesCount(xs: seq<string>)
    ensures forall x :: multiset(RepeatOccurrences(xs))[x] == if x in xs then multiset(xs)[x] - 1 else 0
  {
    if |xs| > 0 {
      var init, last := xs[..|xs| - 1], xs[|xs| - 1];
      RepeatOccurrencesCount(init);
      assert xs == init + [last];
      assert multiset(xs) == multiset(init) + multiset{last};
      forall x ensures multiset(RepeatOccurrences(xs))[x] == if x in xs then multiset(xs)[x] - 1 else 0 {
        if x in init {
          assert x in multiset(init);
        }
      }
    }
  }

  /** The result is empty exactly when no element repeats. */
  lemma RepeatOccurrencesEmpty(xs: seq<string>)
    ensures |RepeatOccurrences(xs)| == 0 <==> NoRepeats(xs)
  {
    RepeatOccurrencesCount(xs);
    NoRepeatsIff(xs);
    var d := RepeatOccurrences(xs);
    if |d| == 0 {
      forall x ensures multiset(xs)[x] <= 1 {
        assert multiset(d)[x] == 0;
      }
    } else {
      assert d[0] in multiset(d);
    }
  }

  /** get_dupes (list variant): the repeated occurrences, in input order. */
  method GetDupes(xs: seq<string>) returns (dupes: seq<string>)
    ensures dupes == RepeatOccurrences(xs)
  {
    dupes := [];
    var uniq: set<string> := {};
    var i := 0;
    while i < |xs|
      invariant 0 <= i <= |xs|
      invariant uniq == set x | x in xs[..i]
      invariant dupes == RepeatOccurrences(xs[..i])
    {
      var x := xs[i];
      assert xs[..i + 1] == xs[..i] + [x];
      assert xs[..i + 1][..i] == xs[..i];
      if x in uniq {
        dupes := dupes + [x];
      } else {
        uniq := uniq + {x};
      }
      i := i + 1;
    }
    assert xs[..i] == xs;
  }

  /** What parse_one prints about one query's expected answer. */
  datatype Warning = DuplicateResults(id: TestId, dupes: seq<string>)

  function QueryWarnings(q: QueryElem): seq<Warning>
    requires q.correct.Some?
  {
    match q.correct.value
    case None => []
    case Some(text) =>
      var d := RepeatOccurrences(Split(text, ','));
      if |d| > 0 then [DuplicateResults(IdOf(q), d)] else []
  }

  /** The warnings of a run of queries that all have a `correct` child. */
  function AllWarnings(qs: seq<QueryElem>): seq<Warning>
    requires forall i :: 0 <= i < |qs| ==> qs[i].correct.Some?
  {
    if |qs| == 0 then [] else AllWarnings(qs[..|qs| - 1]) + QueryWarnings(qs[|qs| - 1])
  }

  predicate AllHaveCorrect(qs: seq<QueryElem>)
  {
    forall i :: 0 <= i < |qs| ==> qs[i].correct.Some?
  }

  /** The number of queries parse_one gets through before it stops. */
  function Reached(qs: seq<QueryElem>): (n: nat)
    ensures n <= |qs|
  {
    if |qs| == 0 then 0
    else if qs[0].correct.None? then 1
    else 1 + Reached(qs[1..])
  }

  /** parse_one gets through every query when all have a `correct` child; otherwise it stops
   *  on the first query without one, having counted it. */
  lemma {:induction false} ReachedSpec(qs: seq<QueryElem>)
    ensures AllHaveCorrect(qs) ==> Reached(qs) == |qs|
    ensures !AllHaveCorrect(qs) ==>
              Reached(qs) >= 1 && qs[Reached(qs) - 1].correct.None?
              && AllHaveCorrect(qs[..Reached(qs) - 1])
  {
    if |qs| > 0 && qs[0].correct.Some? {
      var tail := qs[1..];
      ReachedSpec(tail);
      assert forall i :: 0 < i < |qs| ==> qs[i] == tail[i - 1];
      if !AllHaveCorrect(qs) {
        assert !AllHaveCorrect(tail);
        var n := Reached(tail);
        assert forall i :: 0 < i < n ==> qs[..n][i] == tail[..n - 1][i - 1];
      }
    }
  }

  /** One step of parse_one's loop, in terms of Reached. */
  lemma ReachedStep(qs: seq<QueryElem>, i: nat)
    requires i < |qs| && AllHaveCorrect(qs[..i])
    ensures qs[i].correct.None? ==> Reached(qs) == i + 1 && !AllHaveCorrect(qs)
    ensures qs[i].correct.Some? ==> i + 1 <= Reached(qs) && AllHaveCorrect(qs[..i + 1])
  {
    ReachedSpec(qs);
    assert forall j :: 0 <= j < i ==> qs[..i][j] == qs[j];
    assert forall j :: 0 <= j < i ==> qs[..i + 1][j] == qs[j];
    if !AllHaveCorrect(qs) {
      var n := Reached(qs);
      assert forall j :: 0 <= j < n - 1 ==> qs[..n - 1][j] == qs[j];
    }
  }

  lemma PrefixStep(qs: seq<QueryElem>, i: nat)
    requires i < |qs| && AllHaveCorrect(qs[..i + 1])
    ensures AllWarnings(qs[..i + 1]) == AllWarnings(qs[..i]) + QueryWarnings(qs[i])
  {
    assert qs[..i + 1][..i] == qs[..i];
  }

  lemma PassFailStep(qs: seq<QueryElem>, i: nat)
    requires i < |qs|
    ensures PassedIds(qs[..i + 1]) == PassedIds(qs[..i]) + (if qs[i].failed then [] else [IdOf(qs[i])])
    ensures FailedIds(qs[..i + 1]) == FailedIds(qs[..i]) + (if qs[i].failed then [IdOf(qs[i])] else [])
  {
    assert qs[..i + 1][..i] == qs[..i];
  }

  method CheckAnswer(query: QueryElem) returns (warnings: seq<Warning>)
    requires query.correct.Some?
    ensures warnings == QueryWarnings(query)
  {
    var correctAns := query.correct.value;
    if correctAns.None? {
      return [];
    }
    var dupes := GetDupes(Split(correctAns.value, ','));
    warnings := if |dupes| > 0 then [DuplicateResults(IdOf(query), dupes)] else [];
  }

  /** The module's globals. */
  class Results {
    var passedTests: map<string, seq<TestId>>
    var failedTests: map<string, seq<TestId>>
    var numFailed: nat
    var numPassed: nat

    constructor ()
      ensures passedTests == map[] && failedTests == map[] && numFailed == 0 && numPassed == 0
    {
      passedTests, failedTests := map[], map[];
      numFailed, numPassed := 0, 0;
    }

    /** parse_one: like result_parser's, except that reading `.text` of a missing `correct`
     *  child raises; the query that raises has already been counted and listed. */
    method ParseOne(filename: string, queries: seq<QueryElem>) returns (r: Result<seq<Warning>>)
      modifies this
      ensures var done := queries[..Reached(queries)];
              passedTests == old(passedTests)[filename := PassedIds(done)]
              && failedTests == old(failedTests)[filename := FailedIds(done)]
              && numFailed == old(numFailed) + |FailedIds(done)|
              && numPassed == old(numPassed) + |PassedIds(done)|
      ensures r.Err? <==> !AllHaveCorrect(queries)
      ensures r.Ok? ==> r.value == AllWarnings(queries)
    {
      var passed: seq<TestId> := [];
      var failed: seq<TestId> := [];
      var warnings: seq<Warning> := [];
      var i := 0;
      while i < |queries|
        invariant 0 <= i <= |queries|
        invariant i <= Reached(queries)
        invariant AllHaveCorrect(queries[..i])
        invariant passed == PassedIds(queries[..i]) && failed == FailedIds(queries[..i])
        invariant passedTests == old(passedTests) && failedTests == old(failedTests)
        invariant numFailed == old(numFailed) + |failed|
        invariant numPassed == old(numPassed) + |passed|
        invariant warnings == AllWarnings(queries[..i])
      {
        var query := queries[i];
        ReachedStep(queries, i);
        PassFailStep(queries, i);
        var id := IdOf(query);
        if query.failed {
          failed := failed + [id];
        } else {
          passed := passed + [id];
        }
        Count(query);
        if query.correct.None? {
          assert failed == FailedIds(queries[..i + 1]) && passed == PassedIds(queries[..i + 1]);
          assert queries[..Reached(queries)] == queries[..i + 1];
          Store(filename, passed, failed);
          return Err("'NoneType' object has no attribute 'text'");
        }
        PrefixStep(queries, i);
        var w := CheckAnswer(query);
        warnings := warnings + w;
        i := i + 1;
      }
      assert queries[..i] == queries;
      Store(filename, passed, failed);
      r := Ok(warnings);
    }

    /** The lists parse_one built for filename replace the ones stored before. */
    method Store(filename: string, passed: seq<TestId>, failed: seq<TestId>)
      modifies this
      ensures passedTests == old(passedTests)[filename := passed]
      ensures failedTests == old(failedTests)[filename := failed]
      ensures numFailed == old(numFailed) && numPassed == old(numPassed)
    {
      passedTests := passedTests[filename := passed];
      failedTests := failedTests[filename := failed];
    }
  
    /** The counting half of parse_one's loop body: the query's verdict is counted. */
    method Count(query: QueryElem)
      modifies this
      ensures passedTests == old(passedTests) && failedTests == old(failedTests)
      ensures numFailed == old(numFailed) + (if query.failed then 1 else 0)
      ensures numPassed == old(numPassed) + (if query.failed then 0 else 1)
    {
      if query.failed {
        numFailed := numFailed + 1;
      } else {
        numPassed := numPassed + 1;
      }
    }

    /** main, for inputs that all name report files: bad arguments exit with 1 and change
     *  nothing; a file that cannot be read, or a query without a `correct` child, raises,
     *  which exits with 1; otherwise the status is num_failed unless the run is quiet. */
    method Run(argv: seq<string>, reports: map<string, seq<QueryElem>>) returns (status: nat)
      modifies this
      ensures ParseArgs(argv).Err? ==> status == 1 && unchanged(this)
      ensures ParseArgs(argv).Ok? && !Clean(ParseArgs(argv).value.inputs, reports) ==> status == 1
      ensures ParseArgs(argv).Ok? && Clean(ParseArgs(argv).value.inputs, reports)
              ==> status == ExitStatus(ParseArgs(argv).value, numFailed)
                  && numFailed == old(numFailed) + TotalFailed(ParseArgs(argv).value.inputs, reports)
    {
      var args := ParseArgs(argv);
      if args.Err? {
        return 1;
      }
      var inputs := args.value.inputs;
      var k := 0;
      while k < |inputs|
        invariant 0 <= k <= |inputs|
        invariant Clean(inputs[..k], reports)
        invariant numFailed == old(numFailed) + TotalFailed(inputs[..k], reports)
      {
        var file := inputs[k];
        if file !in reports {
          return 1;
        }
        var r := ParseOne(file, reports[file]);
        if r.Err? {
          return 1;
        }
        CleanStep(inputs, k, reports);
        k := k + 1;
      }
      assert inputs[..k] == inputs;
      status := ExitStatus(args.value, numFailed);
    }
  }

  /** Every input names a report whose queries all have a `correct` child. */
  predicate Clean(files: seq<string>, reports: map<string, seq<QueryElem>>)
  {
    forall f :: f in files ==> f in reports && AllHaveCorrect(reports[f])
  }

  /** One more clean report file: main's loop gets through it whole. */
  lemma CleanStep(files: seq<string>, k: nat, reports: map<string, seq<QueryElem>>)
    requires k < |files| && Clean(files[..k], reports)
    requires files[k] in reports && AllHaveCorrect(reports[files[k]])
    ensures Clean(files[..k + 1], reports)
    ensures var qs := reports[files[k]];
      qs[..Reached(qs)] == qs
      && TotalFailed(files[..k + 1], reports) == TotalFailed(files[..k], reports) + |FailedIds(qs[..Reached(qs)])|
  {
    assert files[..k + 1] == files[..k] + [files[k]];
    ReachedSpec(reports[files[k]]);
  }
}
