/**
 * The autotester's XML report as the two result parsers read it: each `query` element is a
 * record of the children they look for. Also Python's str.split on one separator, which
 * both parsers apply to the expected answer.
 */
module Report {
  import opened Wrappers

  /** One `query` element. `num` is the text of its `id` child and `name` that child's
   *  `comment` attribute (either may be missing); `failed` and `exception` say whether those
   *  children exist; `correct` is None when there is no `correct` child and Some(text)
   *  otherwise, where the text itself may be missing. */
  datatype QueryElem = QueryElem(
    num: Option<string>,
    name: Option<string>,
    failed: bool,
    exception: bool,
    correct: Option<Option<string>>)

  /** The (num, name) pair recorded for a query in the passed/failed lists. */
  type TestId = (Option<string>, Option<string>)

  function IdOf(q: QueryElem): TestId
  {
    (q.num, q.name)
  }

  /** The ids of the failed queries, in document order. */
  function FailedIds(qs: seq<QueryElem>): seq<TestId>
  {
    if |qs| == 0 then []
    else FailedIds(qs[..|qs| - 1]) + (if qs[|qs| - 1].failed then [IdOf(qs[|qs| - 1])] else [])
  }

  /** The ids of the passed queries, in document order. */
  function PassedIds(qs: seq<QueryElem>): seq<TestId>
  {
    if |qs| == 0 then []
    else PassedIds(qs[..|qs| - 1]) + (if qs[|qs| - 1].failed then [] else [IdOf(qs[|qs| - 1])])
  }

  /** Every query lands in exactly one of the two lists: it is failed if and only if it has a
   *  `failed` child, whatever its other children are. */
  lemma {:induction false} VerdictPartition(qs: seq<QueryElem>)
    ensures |FailedIds(qs)| + |PassedIds(qs)| == |qs|
    ensures forall i :: 0 <= i < |qs| && qs[i].failed ==> IdOf(qs[i]) in FailedIds(qs)
    ensures forall i :: 0 <= i < |qs| && !qs[i].failed ==> IdOf(qs[i]) in PassedIds(qs)
  {
    if |qs| > 0 {
      var init := qs[..|qs| - 1];
      VerdictPartition(init);
      forall i | 0 <= i < |qs| - 1 ensures qs[i] == init[i] { }
    }
  }

  // ---------------------------------------------------------------- str.split

  /** Python's s.split(sep) for a one-character separator: never empty, and "" splits to [""]. */
  function Split(s: string, sep: char): (r: seq<string>)
    ensures |r| >= 1
  {
    if |s| == 0 then [""]
    else
      var rest := Split(s[1..], sep);
      if s[0] == sep then [""] + rest else [[s[0]] + rest[0]] + rest[1..]
  }

  /** sep.join(parts) */
  function JoinWith(parts: seq<string>, sep: char): string
  {
    if |parts| == 0 then "" else if |parts| == 1 then parts[0] else parts[0] + [sep] + JoinWith(parts[1..], sep)
  }

  function CountChar(s: string, c: char): nat
  {
    if |s| == 0 then 0 else (if s[0] == c then 1 else 0) + CountChar(s[1..], c)
  }

  /** Splitting yields one piece more than there are separators, no piece holds a separator,
   *  and joining the pieces back gives the original text. */
  lemma {:induction false} SplitSpec(s: string, sep: char)
    ensures |Split(s, sep)| == CountChar(s, sep) + 1
    ensures forall k :: 0 <= k < |Split(s, sep)| ==> sep !in Split(s, sep)[k]
    ensures JoinWith(Split(s, sep), sep) == s
  {
    if |s| > 0 {
      SplitSpec(s[1..], sep);
      var rest := Split(s[1..], sep);
      if s[0] == sep {
        assert JoinWith([""] + rest, sep) == "" + [sep] + JoinWith(rest, sep);
        assert s == [s[0]] + s[1..];
      } else {
        var r := Split(s, sep);
        assert r[1..] == rest[1..];
        if |rest| == 1 {
          assert JoinWith(r, sep) == [s[0]] + rest[0];
        } else {
          assert JoinWith(r, sep) == [s[0]] + rest[0] + [sep] + JoinWith(rest[1..], sep);
          assert JoinWith(rest, sep) == rest[0] + [sep] + JoinWith(rest[1..], sep);
        }
        assert s == [s[0]] + s[1..];
        forall k | 0 <= k < |r| ensures sep !in r[k] {
          if k > 0 {
            assert r[k] == rest[k];
          }
        }
      }
    }
  }

  // ---------------------------------------------------------------- repeated elements

  predicate NoRepeats(xs: seq<string>)
  {
    forall i, j :: 0 <= i < j < |xs| ==> xs[i] != xs[j]
  }

  /** No element occurs twice exactly when no two positions hold the same element. */
  lemma {:induction false} NoRepeatsIff(xs: seq<string>)
    ensures (forall x :: multiset(xs)[x] <= 1) <==> NoRepeats(xs)
  {
    if |xs| > 0 {
      var init, last := xs[..|xs| - 1], xs[|xs| - 1];
      NoRepeatsIff(init);
      assert xs == init + [last];
      assert multiset(xs) == multiset(init) + multiset{last};
      if NoRepeats(xs) {
        assert NoRepeats(init) by {
          forall i, j | 0 <= i < j < |init| ensures init[i] != init[j] {
            assert init[i] == xs[i] && init[j] == xs[j];
          }
        }
        assert last !in init by {
          forall i | 0 <= i < |init| ensures init[i] != last {
            assert init[i] == xs[i];
          }
        }
      }
      if forall x :: multiset(xs)[x] <= 1 {
        assert forall x :: multiset(init)[x] <= 1 by {
          forall x ensures multiset(init)[x] <= 1 {
            assert multiset(xs)[x] <= 1;
          }
        }
        assert multiset(xs)[last] <= 1;
        assert last !in multiset(init);
        forall i, j | 0 <= i < j < |xs| ensures xs[i] != xs[j] {
          if j == |xs| - 1 {
            assert xs[i] == init[i];
            assert xs[i] in multiset(init);
          } else {
            assert xs[i] == init[i] && xs[j] == init[j];
          }
        }
      }
    }
  }

  // ---------------------------------------------------------------- main

  /** Command-line arguments: a leading "-q" makes the run quiet; the rest are the inputs. */
  datatype Args = Args(quiet: bool, inputs: seq<string>)

  /** main's argument handling; argv[0] is the script name. */
  function ParseArgs(argv: seq<string>): Result<Args>
  {
    if |argv| < 2 then Err("usage: ./parse_result_xml.py [-q] <folder|result.xml>...")
    else
      var quiet := argv[1] == "-q";
      var inputs := if quiet then argv[2..] else argv[1..];
      if |inputs| == 0 then Err("at least one input must be given") else Ok(Args(quiet, inputs))
  }

  /** The arguments are rejected exactly when there is no input after the optional "-q";
   *  only a "-q" in first position is taken as the flag. */
  lemma ParseArgsSpec(argv: seq<string>)
    ensures ParseArgs(argv).Err? <==> |argv| < 2 || (argv[1] == "-q" && |argv| == 2)
    ensures ParseArgs(argv).Ok? ==>
              var a := ParseArgs(argv).value;
              |a.inputs| > 0 && a.quiet == (argv[1] == "-q")
              && argv == argv[..|argv| - |a.inputs|] + a.inputs
              && |argv| - |a.inputs| == (if a.quiet then 2 else 1)
  {
  }

  /** The status sys.exit(n) leaves: POSIX keeps the low eight bits. */
  function ExitStatus(args: Args, numFailed: nat): nat
  {
    if args.quiet then 0 else numFailed % 256
  }

  /** The failures counted over a list of report files, a repeated file counting again. */
  function TotalFailed(files: seq<string>, reports: map<string, seq<QueryElem>>): nat
    requires forall f :: f in files ==> f in reports
  {
    if |files| == 0 then 0
    else TotalFailed(files[..|files| - 1], reports) + |FailedIds(reports[files[|files| - 1]])|
  }
}
