/**
 * What processFollows (pkb/design_extractor.cpp) records: one Follows record per statement,
 * pushed in pre-order, naming the statement's neighbours and all its earlier and later
 * siblings in its statement list.
 */
module ExtractorFollows {
  import opened ExtractorTree

  /** pkb::Follows. 0 stands for "no such statement". */
  datatype Follows = Follows(
    id: nat,
    directlyBefore: nat,
    directlyAfter: nat,
    before: set<nat>,
    after: set<nat>)

  /** The record of the statement at index i of its list. */
  function FollowsAt(l: seq<NStmt>, i: nat): (r: Follows)
    requires i < |l|
    ensures r.id == l[i].id
  {
    Follows(
      l[i].id,
      if i > 0 then l[i - 1].id else 0,
      if i + 1 < |l| then l[i + 1].id else 0,
      IdSet(l[..i]),
      IdSet(l[i + 1..]))
  }

  /** The records processFollows pushes for a statement list, in the order it pushes them. */
  function FollowsRecords(l: seq<NStmt>): seq<Follows>
    decreases l, 1
  {
    FollowsFrom(l, 0)
  }

  /** The records for the statements of l from index i on. */
  function FollowsFrom(l: seq<NStmt>, i: nat): seq<Follows>
    decreases l, 0, |l| - i
  {
    if i >= |l| then [] else [FollowsAt(l, i)] + NestedFollows(l[i]) + FollowsFrom(l, i + 1)
  }

  /** The records for the statement lists nested in n. */
  function NestedFollows(n: NStmt): seq<Follows>
    decreases n
  {
    match n
    case NIf(_, _, t, f) => FollowsRecords(t) + FollowsRecords(f)
    case NWhile(_, _, b) => FollowsRecords(b)
    case _ => []
  }

  /** Some statement list in l, nested ones included, has at least two statements. */
  predicate HasFollows(l: seq<NStmt>)
    decreases l, 1
  {
    |l| >= 2 || exists i :: 0 <= i < |l| && NestedHasFollows(l[i])
  }

  predicate NestedHasFollows(n: NStmt)
    decreases n, 0
  {
    match n
    case NIf(_, _, t, f) => HasFollows(t) || HasFollows(f)
    case NWhile(_, _, b) => HasFollows(b)
    case _ => false
  }

  /** The records and the statements they describe line up. */
  predicate Describes(recs: seq<Follows>, p: seq<NStmt>)
  {
    |recs| == |p| && forall k :: 0 <= k < |recs| ==> recs[k].id == p[k].id
  }

  lemma DescribesAppend(r1: seq<Follows>, p1: seq<NStmt>, r2: seq<Follows>, p2: seq<NStmt>)
    requires Describes(r1, p1) && Describes(r2, p2)
    ensures Describes(r1 + r2, p1 + p2)
  {
  }

  lemma PreorderFrom(l: seq<NStmt>, i: nat)
    requires i < |l|
    ensures Preorder(l[i..]) == Subtree(l[i]) + Preorder(l[i + 1..])
  {
    assert l[i..][0] == l[i];
    assert l[i..][1..] == l[i + 1..];
  }

  /** processFollows pushes exactly one record per statement, in pre-order. */
  lemma {:induction false} FollowsRecordsDescribe(l: seq<NStmt>)
    ensures Describes(FollowsRecords(l), Preorder(l))
    decreases l, 1
  {
    FollowsFromDescribe(l, 0);
    assert l[0..] == l;
  }

  lemma {:induction false} FollowsFromDescribe(l: seq<NStmt>, i: nat)
    requires i <= |l|
    ensures Describes(FollowsFrom(l, i), Preorder(l[i..]))
    decreases l, 0, |l| - i
  {
    if i < |l| {
      NestedDescribe(l[i]);
      FollowsFromDescribe(l, i + 1);
      PreorderFrom(l, i);
      DescribesAppend([FollowsAt(l, i)], [l[i]], NestedFollows(l[i]), Subtree(l[i])[1..]);
      assert Subtree(l[i]) == [l[i]] + Subtree(l[i])[1..];
      DescribesAppend([FollowsAt(l, i)] + NestedFollows(l[i]), Subtree(l[i]),
                      FollowsFrom(l, i + 1), Preorder(l[i + 1..]));
    } else {
      assert l[i..] == [];
    }
  }

  lemma {:induction false} NestedDescribe(n: NStmt)
    ensures Describes(NestedFollows(n), Subtree(n)[1..])
    decreases n
  {
    match n
    case NIf(_, _, t, f) =>
      FollowsRecordsDescribe(t);
      FollowsRecordsDescribe(f);
      assert Subtree(n)[1..] == Preorder(t) + Preorder(f);
      DescribesAppend(FollowsRecords(t), Preorder(t), FollowsRecords(f), Preorder(f));
    case NWhile(_, _, b) =>
      FollowsRecordsDescribe(b);
      assert Subtree(n)[1..] == Preorder(b);
    case _ =>
  }

  /**
   * Follows* is the transitive closure of Follows: a statement's later siblings are its
   * direct follower and that follower's later siblings, and the last statement has none.
   */
  lemma AfterUnfolds(l: seq<NStmt>, i: nat)
    requires i < |l|
    ensures i + 1 < |l| ==>
      FollowsAt(l, i).after == {FollowsAt(l, i).directlyAfter} + FollowsAt(l, i + 1).after
    ensures i + 1 == |l| ==> FollowsAt(l, i).after == {} && FollowsAt(l, i).directlyAfter == 0
  {
    if i + 1 < |l| {
      assert l[i + 1..] == [l[i + 1]] + l[i + 2..];
      IdSetAppend([l[i + 1]], l[i + 2..]);
    } else {
      assert l[i + 1..] == [];
    }
  }

  /** The mirror image: the earlier siblings are the direct predecessor and its earlier siblings. */
  lemma BeforeUnfolds(l: seq<NStmt>, i: nat)
    requires i < |l|
    ensures i > 0 ==>
      FollowsAt(l, i).before == FollowsAt(l, i - 1).before + {FollowsAt(l, i).directlyBefore}
    ensures i == 0 ==> FollowsAt(l, i).before == {} && FollowsAt(l, i).directlyBefore == 0
  {
    if i > 0 {
      assert l[..i] == l[..i - 1] + [l[i - 1]];
      IdSetAppend(l[..i - 1], [l[i - 1]]);
    }
  }

  /**
   * Follows* read from either end agrees: in a list whose numbers are distinct, the statement
   * at j is after the one at i exactly when the one at i is before the one at j.
   */
  lemma AfterBeforeAgree(l: seq<NStmt>, i: nat, j: nat)
    requires Distinct(Ids(l))
    requires forall k :: 0 <= k < |l| ==> l[k].id > 0
    requires i < |l| && j < |l|
    ensures l[j].id in FollowsAt(l, i).after <==> i < j
    ensures l[i].id in FollowsAt(l, j).before <==> i < j
    ensures FollowsAt(l, i).directlyAfter == l[j].id <==> j == i + 1
    ensures FollowsAt(l, j).directlyBefore == l[i].id <==> j == i + 1
  {
    if l[j].id in FollowsAt(l, i).after {
      var k :| 0 <= k < |l[i + 1..]| && l[i + 1..][k].id == l[j].id;
      assert Ids(l)[i + 1 + k] == Ids(l)[j];
    }
    if i < j {
      assert l[i + 1..][j - i - 1] == l[j];
    }
    if l[i].id in FollowsAt(l, j).before {
      var k :| 0 <= k < |l[..j]| && l[..j][k].id == l[i].id;
      assert Ids(l)[k] == Ids(l)[i];
    }
    if i < j {
      assert l[..j][i] == l[i];
    }
    if FollowsAt(l, i).directlyAfter == l[j].id {
      assert i + 1 < |l| ==> Ids(l)[i + 1] == Ids(l)[j];
    }
    if FollowsAt(l, j).directlyBefore == l[i].id {
      assert j > 0 ==> Ids(l)[j - 1] == Ids(l)[i];
    }
  }

  /** Some record names a later sibling. */
  predicate SomeAfter(recs: seq<Follows>)
  {
    exists k :: 0 <= k < |recs| && recs[k].after != {}
  }

  /** Some statement has a later sibling exactly when some list holds two statements. */
  lemma {:induction false} HasFollowsRecords(l: seq<NStmt>)
    ensures HasFollows(l) <==> SomeAfter(FollowsRecords(l))
    decreases l, 1
  {
    HasFollowsFrom(l, 0);
    assert l[0..] == l;
  }

  /** Some statement of l from index i on has a later sibling, or some list nested in one of them does. */
  predicate HasFollowsFromIndex(l: seq<NStmt>, i: nat)
  {
    i + 1 < |l| || exists k :: i <= k < |l| && NestedHasFollows(l[k])
  }

  lemma SomeAfterAppend(a: seq<Follows>, b: seq<Follows>)
    ensures SomeAfter(a + b) <==> SomeAfter(a) || SomeAfter(b)
  {
    if SomeAfter(a + b) {
      var k :| 0 <= k < |a + b| && (a + b)[k].after != {};
      if k >= |a| {
        assert b[k - |a|] == (a + b)[k];
      }
    }
    if SomeAfter(b) {
      var k :| 0 <= k < |b| && b[k].after != {};
      assert (a + b)[|a| + k] == b[k];
    }
    if SomeAfter(a) {
      var k :| 0 <= k < |a| && a[k].after != {};
      assert (a + b)[k] == a[k];
    }
  }

  lemma {:induction false} HasFollowsFrom(l: seq<NStmt>, i: nat)
    requires i <= |l|
    ensures HasFollowsFromIndex(l, i) <==> SomeAfter(FollowsFrom(l, i))
    decreases l, 0, |l| - i
  {
    if i < |l| {
      var here := [FollowsAt(l, i)];
      NestedHasFollowsRecords(l[i]);
      HasFollowsFrom(l, i + 1);
      SomeAfterAppend(here, NestedFollows(l[i]));
      SomeAfterAppend(here + NestedFollows(l[i]), FollowsFrom(l, i + 1));
      assert SomeAfter(here) <==> i + 1 < |l| by {
        if i + 1 < |l| {
          var rest := l[i + 1..];
          assert rest[0].id in IdSet(rest);
          assert here[0].after != {};
        } else {
          assert l[i + 1..] == [];
        }
      }
      if HasFollowsFromIndex(l, i + 1) {
        if i + 2 < |l| {
        } else {
          var k :| i + 1 <= k < |l| && NestedHasFollows(l[k]);
        }
      }
    } else {
      assert FollowsFrom(l, i) == [];
    }
  }

  lemma {:induction false} NestedHasFollowsRecords(n: NStmt)
    ensures NestedHasFollows(n) <==> SomeAfter(NestedFollows(n))
    decreases n
  {
    match n
    case NIf(_, _, t, f) =>
      HasFollowsRecords(t);
      HasFollowsRecords(f);
      SomeAfterAppend(FollowsRecords(t), FollowsRecords(f));
    case NWhile(_, _, b) =>
      HasFollowsRecords(b);
    case _ =>
  }
}
