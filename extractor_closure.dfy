/**
 * What reprocessStmtList (pkb/design_extractor.cpp) leaves behind for a list without call
 * statements: every container of the list, nested ones included, uses and modifies what its
 * direct children do. Reprocessing a later statement or the enclosing container touches only
 * its own records, so a container finished earlier stays finished.
 */
module ExtractorClosure {
  import opened ExtractorTree
  import opened ExtractorUses
  import opened ExtractorReprocess
  import ExtractorParents

  /** No statement of the walk p is a call. */
  predicate CallFree(p: seq<NStmt>)
  {
    forall k :: 0 <= k < |p| ==> !p[k].NCall?
  }

  /** r has the statement records of u except those numbered in ids. */
  predicate StmtsKept(u: UsesModifies, r: UsesModifies, ids: set<nat>)
  {
    && |r.statements| == |u.statements|
    && forall i :: 0 <= i < |u.statements| && i + 1 !in ids ==> r.statements[i] == u.statements[i]
  }

  /** Every variable is used and modified by at least the statements it was before. */
  ghost predicate VarsGrow(u: UsesModifies, r: UsesModifies)
  {
    forall v :: VarAt(u, v).usedBy <= VarAt(r, v).usedBy && VarAt(u, v).modifiedBy <= VarAt(r, v).modifiedBy
  }

  /** Every container statement of the walk p is finished in r. */
  predicate AllDone(r: UsesModifies, p: seq<NStmt>)
  {
    forall m :: m in p && m.IsContainer() ==> ContainerDone(r, m)
  }

  lemma KeptTrans(a: UsesModifies, b: UsesModifies, c: UsesModifies, ids1: set<nat>, ids2: set<nat>, ids: set<nat>)
    requires StmtsKept(a, b, ids1) && StmtsKept(b, c, ids2) && ids1 + ids2 <= ids
    ensures StmtsKept(a, c, ids)
  {
  }

  lemma VarsGrowTrans(a: UsesModifies, b: UsesModifies, c: UsesModifies)
    requires VarsGrow(a, b) && VarsGrow(b, c)
    ensures VarsGrow(a, c)
  {
    forall v ensures VarAt(a, v).usedBy <= VarAt(c, v).usedBy && VarAt(a, v).modifiedBy <= VarAt(c, v).modifiedBy {
      assert VarAt(a, v).usedBy <= VarAt(b, v).usedBy && VarAt(a, v).modifiedBy <= VarAt(b, v).modifiedBy;
    }
  }

  /** A container's own update rewrites only its own record and only adds to the variables. */
  lemma ContainerStepFrame(u: UsesModifies, n: NStmt)
    requires n.IsContainer() && HasStmt(u, n.id) && KidsWithin(u, ExtractorParents.Children(n))
    ensures StmtsKept(u, ContainerStep(u, n), {n.id})
    ensures VarsGrow(u, ContainerStep(u, n))
  {
    var r := ContainerStep(u, n);
    RecordKept(u, n.id, StmtAt(r, n.id));
  }

  /** Rewriting the record of statement id keeps every other record. */
  lemma RecordKept(u: UsesModifies, id: nat, s: StmtRecord)
    requires HasStmt(u, id)
    ensures StmtsKept(u, u.(statements := u.statements[id - 1 := s]), {id})
  {
  }

  /** A finished container stays finished while its own record and its children's are kept
   *  and the variables only grow. */
  lemma ContainerKept(u: UsesModifies, r: UsesModifies, m: NStmt, ids: set<nat>)
    requires m.IsContainer() && ContainerDone(u, m) && StmtsKept(u, r, ids) && VarsGrow(u, r)
    requires m.id !in ids && forall c :: c in ExtractorParents.Children(m) ==> c.id !in ids
    ensures ContainerDone(r, m)
  {
    var kids := ExtractorParents.Children(m);
    assert StmtAt(r, m.id) == StmtAt(u, m.id);
    forall k | 0 <= k < |kids| ensures StmtAt(r, kids[k].id) == StmtAt(u, kids[k].id) {
      assert kids[k] in kids;
    }
    forall v | v in StmtAt(r, m.id).used ensures m.id in VarAt(r, v).usedBy {
      assert VarAt(u, v).usedBy <= VarAt(r, v).usedBy;
    }
    forall v | v in StmtAt(r, m.id).modified ensures m.id in VarAt(r, v).modifiedBy {
      assert VarAt(u, v).modifiedBy <= VarAt(r, v).modifiedBy;
    }
  }

  /** The children of a container lie in its subtree. */
  lemma ChildrenInSubtree(m: NStmt)
    ensures forall c :: c in ExtractorParents.Children(m) ==> c.id in IdSet(Subtree(m))
  {
    SubtreeIds(m);
    forall c | c in ExtractorParents.Children(m) ensures c.id in IdSet(Subtree(m)) {
      match m
      case NIf(_, _, t, f) =>
        if c in t {
          MemberSubtreeIds(t, c);
        } else {
          MemberSubtreeIds(f, c);
        }
      case NWhile(_, _, b) =>
        MemberSubtreeIds(b, c);
    }
  }

  /** A statement of a list is numbered among the list's numbers, and so is all of its subtree. */
  lemma {:induction false} MemberSubtreeIds(l: seq<NStmt>, c: NStmt)
    requires c in l
    ensures c.id in AllIds(l) && IdSet(Subtree(c)) <= AllIds(l)
    decreases l
  {
    IdSetAppend(Subtree(l[0]), Preorder(l[1..]));
    assert Subtree(l[0])[0] == l[0];
    if c == l[0] {
    } else {
      MemberSubtreeIds(l[1..], c);
    }
  }

  /** A statement anywhere in the walk of l has its whole subtree numbered among l's numbers. */
  lemma {:induction false} WalkSubtreeIds(l: seq<NStmt>, m: NStmt)
    requires m in Preorder(l)
    ensures IdSet(Subtree(m)) <= AllIds(l)
    decreases l
  {
    IdSetAppend(Subtree(l[0]), Preorder(l[1..]));
    if m in Subtree(l[0]) {
      SubtreeSubtreeIds(l[0], m);
    } else {
      WalkSubtreeIds(l[1..], m);
    }
  }

  lemma {:induction false} SubtreeSubtreeIds(n: NStmt, m: NStmt)
    requires m in Subtree(n)
    ensures IdSet(Subtree(m)) <= IdSet(Subtree(n))
    decreases n
  {
    SubtreeIds(n);
    match n
    case NIf(_, _, t, f) =>
      if m != n {
        assert m in Preorder(t) + Preorder(f);
        if m in Preorder(t) {
          WalkSubtreeIds(t, m);
        } else {
          WalkSubtreeIds(f, m);
        }
      }
    case NWhile(_, _, b) =>
      if m != n {
        WalkSubtreeIds(b, m);
      }
    case _ =>
  }

  /** Finished containers of a walk stay finished when only other numbers are rewritten. */
  lemma AllDoneKept(u: UsesModifies, r: UsesModifies, l: seq<NStmt>, ids: set<nat>)
    requires AllDone(u, Preorder(l)) && StmtsKept(u, r, ids) && VarsGrow(u, r) && AllIds(l) !! ids
    ensures AllDone(r, Preorder(l))
  {
    forall m | m in Preorder(l) && m.IsContainer() ensures ContainerDone(r, m) {
      WalkSubtreeIds(l, m);
      ChildrenInSubtree(m);
      assert Subtree(m)[0] == m;
      ContainerKept(u, r, m, ids);
    }
  }

  /** Splitting a walk with distinct numbers: both parts have distinct numbers, and no number
   *  is shared between them. */
  lemma DistinctSplit(a: seq<NStmt>, b: seq<NStmt>)
    requires Distinct(Ids(a + b))
    ensures Distinct(Ids(a)) && Distinct(Ids(b)) && IdSet(a) !! IdSet(b)
  {
    assert forall i :: 0 <= i < |a| ==> (a + b)[i] == a[i];
    assert forall j :: 0 <= j < |b| ==> (a + b)[|a| + j] == b[j];
    forall i, j | 0 <= i < |a| && 0 <= j < |b| ensures a[i].id != b[j].id {
      assert Ids(a + b)[i] != Ids(a + b)[|a| + j];
    }
    forall i, j | 0 <= i < j < |b| ensures Ids(b)[i] != Ids(b)[j] {
      assert Ids(a + b)[|a| + i] != Ids(a + b)[|a| + j];
    }
  }

  lemma CallFreeSplit(a: seq<NStmt>, b: seq<NStmt>)
    requires CallFree(a + b)
    ensures CallFree(a) && CallFree(b)
  {
    assert forall i :: 0 <= i < |a| ==> (a + b)[i] == a[i];
    assert forall j :: 0 <= j < |b| ==> (a + b)[|a| + j] == b[j];
  }

  /** The numbers of a container's subtree: its own and those of the walks of its branches. */
  lemma SubtreeIds(n: NStmt)
    ensures n.NIf? ==> IdSet(Subtree(n)) == {n.id} + AllIds(n.trueCase) + AllIds(n.falseCase)
    ensures n.NWhile? ==> IdSet(Subtree(n)) == {n.id} + AllIds(n.body)
  {
    IdSetSingle(n);
    match n
    case NIf(_, _, t, f) =>
      assert Subtree(n) == [n] + (Preorder(t) + Preorder(f));
      IdSetAppend([n], Preorder(t) + Preorder(f));
      IdSetAppend(Preorder(t), Preorder(f));
    case NWhile(_, _, b) =>
      IdSetAppend([n], Preorder(b));
    case _ =>
  }

  lemma IdSetSingle(n: NStmt)
    ensures IdSet([n]) == {n.id}
  {
    assert [n][0] == n;
  }

  /** The parts of a container's subtree: the container, then the walks of its branches. */
  lemma ContainerParts(n: NStmt)
    requires n.IsContainer() && Distinct(Ids(Subtree(n))) && CallFree(Subtree(n))
    ensures n.NIf? ==>
      && UniquelyNumbered(n.trueCase) && UniquelyNumbered(n.falseCase)
      && CallFree(Preorder(n.trueCase)) && CallFree(Preorder(n.falseCase))
      && AllIds(n.trueCase) !! AllIds(n.falseCase)
      && n.id !in AllIds(n.trueCase) + AllIds(n.falseCase)
      && IdSet(Subtree(n)) == {n.id} + AllIds(n.trueCase) + AllIds(n.falseCase)
    ensures n.NWhile? ==>
      && UniquelyNumbered(n.body) && CallFree(Preorder(n.body)) && n.id !in AllIds(n.body)
      && IdSet(Subtree(n)) == {n.id} + AllIds(n.body)
  {
    IdSetSingle(n);
    match n
    case NIf(_, _, t, f) =>
      assert Subtree(n) == [n] + (Preorder(t) + Preorder(f));
      DistinctSplit([n], Preorder(t) + Preorder(f));
      DistinctSplit(Preorder(t), Preorder(f));
      CallFreeSplit([n], Preorder(t) + Preorder(f));
      CallFreeSplit(Preorder(t), Preorder(f));
      IdSetAppend([n], Preorder(t) + Preorder(f));
      IdSetAppend(Preorder(t), Preorder(f));
    case NWhile(_, _, b) =>
      DistinctSplit([n], Preorder(b));
      CallFreeSplit([n], Preorder(b));
      IdSetAppend([n], Preorder(b));
  }

  /**
   * Reprocessing a call-free statement with distinct numbers rewrites only the records of its
   * own subtree, only adds to the variables, and leaves every container of the subtree with
   * the uses and modifies of its direct children.
   */
  lemma {:induction false} StmtClosed(u: UsesModifies, n: NStmt, proc: string, fuel: nat)
    requires Within(Subtree(n), |u.statements|) && proc in u.procedures && BodiesWithin(u)
    requires CallFree(Subtree(n)) && Distinct(Ids(Subtree(n)))
    ensures var r := ReprocessStmt(u, n, proc, fuel);
      StmtsKept(u, r, IdSet(Subtree(n))) && VarsGrow(u, r) && AllDone(r, Subtree(n))
    decreases n, 1
  {
    var r := ReprocessStmt(u, n, proc, fuel);
    assert Subtree(n)[0] == n;
    WithinSubtree(n, |u.statements|);
    match n
    case NIf(_, _, _, _) =>
      IfClosed(u, n, proc, fuel);
    case NWhile(_, _, _) =>
      WhileClosed(u, n, proc, fuel);
    case NCall(_, _) =>
      assert false;
    case _ =>
      assert r == u;
  }

  lemma {:induction false} IfClosed(u: UsesModifies, n: NStmt, proc: string, fuel: nat)
    requires n.NIf? && Within(Subtree(n), |u.statements|) && proc in u.procedures && BodiesWithin(u)
    requires CallFree(Subtree(n)) && Distinct(Ids(Subtree(n)))
    ensures var r := ReprocessIf(u, n, proc, fuel);
      StmtsKept(u, r, IdSet(Subtree(n))) && VarsGrow(u, r) && AllDone(r, Subtree(n))
    decreases n, 0
  {
    var r := ReprocessIf(u, n, proc, fuel);
    WithinSubtree(n, |u.statements|);
    ContainerParts(n);
    var t, f := n.trueCase, n.falseCase;
    var u1 := ReprocessList(u, t, proc, fuel);
    var u2 := ReprocessList(u1, f, proc, fuel);
    assert r == ContainerStep(u2, n);
    ListClosed(u, t, proc, fuel);
    ListClosed(u1, f, proc, fuel);
    AllDoneKept(u1, u2, t, AllIds(f));
    KidsOfContainer(u2, n);
    ContainerStepFrame(u2, n);
    AllDoneKept(u2, r, t, {n.id});
    AllDoneKept(u2, r, f, {n.id});
    KeptTrans(u, u1, u2, AllIds(t), AllIds(f), AllIds(t) + AllIds(f));
    KeptTrans(u, u2, r, AllIds(t) + AllIds(f), {n.id}, IdSet(Subtree(n)));
    VarsGrowTrans(u, u1, u2);
    VarsGrowTrans(u, u2, r);
    IfDone(r, n);
  }

  lemma {:induction false} WhileClosed(u: UsesModifies, n: NStmt, proc: string, fuel: nat)
    requires n.NWhile? && Within(Subtree(n), |u.statements|) && proc in u.procedures && BodiesWithin(u)
    requires CallFree(Subtree(n)) && Distinct(Ids(Subtree(n)))
    ensures var r := ReprocessWhile(u, n, proc, fuel);
      StmtsKept(u, r, IdSet(Subtree(n))) && VarsGrow(u, r) && AllDone(r, Subtree(n))
    decreases n, 0
  {
    var r := ReprocessWhile(u, n, proc, fuel);
    WithinSubtree(n, |u.statements|);
    ContainerParts(n);
    var b := n.body;
    var u1 := ReprocessList(u, b, proc, fuel);
    assert r == ContainerStep(u1, n);
    ListClosed(u, b, proc, fuel);
    KidsOfContainer(u1, n);
    ContainerStepFrame(u1, n);
    AllDoneKept(u1, r, b, {n.id});
    KeptTrans(u, u1, r, AllIds(b), {n.id}, IdSet(Subtree(n)));
    VarsGrowTrans(u, u1, r);
    WhileDone(r, n);
  }

  /** The whole subtree of a finished if statement is finished when both branches are. */
  lemma IfDone(r: UsesModifies, n: NStmt)
    requires n.NIf? && ContainerDone(r, n)
    requires AllDone(r, Preorder(n.trueCase)) && AllDone(r, Preorder(n.falseCase))
    ensures AllDone(r, Subtree(n))
  {
  }

  /** The whole subtree of a finished while statement is finished when its body is. */
  lemma WhileDone(r: UsesModifies, n: NStmt)
    requires n.NWhile? && ContainerDone(r, n) && AllDone(r, Preorder(n.body))
    ensures AllDone(r, Subtree(n))
  {
  }

  /**
   * reprocessStmtList on a call-free list with distinct numbers: only the records of the
   * list's own statements are rewritten, the variables only grow, and every container of the
   * list, nested ones included, uses and modifies what its direct children do and is entered
   * in those variables' records.
   */
  lemma {:induction false} ListClosed(u: UsesModifies, l: seq<NStmt>, proc: string, fuel: nat)
    requires Within(Preorder(l), |u.statements|) && proc in u.procedures && BodiesWithin(u)
    requires CallFree(Preorder(l)) && UniquelyNumbered(l)
    ensures var r := ReprocessList(u, l, proc, fuel);
      StmtsKept(u, r, AllIds(l)) && VarsGrow(u, r) && AllDone(r, Preorder(l))
    decreases l
  {
    if |l| > 0 {
      var r := ReprocessList(u, l, proc, fuel);
      WithinPreorder(l, |u.statements|);
      var u1 := ReprocessStmt(u, l[0], proc, fuel);
      assert r == ReprocessList(u1, l[1..], proc, fuel);
      DistinctSplit(Subtree(l[0]), Preorder(l[1..]));
      CallFreeSplit(Subtree(l[0]), Preorder(l[1..]));
      IdSetAppend(Subtree(l[0]), Preorder(l[1..]));
      StmtClosed(u, l[0], proc, fuel);
      ListClosed(u1, l[1..], proc, fuel);
      StmtDoneKept(u1, r, l[0], AllIds(l[1..]));
      KeptTrans(u, u1, r, IdSet(Subtree(l[0])), AllIds(l[1..]), AllIds(l));
      VarsGrowTrans(u, u1, r);
    }
  }

  /** Finished containers of a subtree stay finished when only other numbers are rewritten. */
  lemma StmtDoneKept(u: UsesModifies, r: UsesModifies, n: NStmt, ids: set<nat>)
    requires AllDone(u, Subtree(n)) && StmtsKept(u, r, ids) && VarsGrow(u, r) && IdSet(Subtree(n)) !! ids
    ensures AllDone(r, Subtree(n))
  {
    forall m | m in Subtree(n) && m.IsContainer() ensures ContainerDone(r, m) {
      SubtreeSubtreeIds(n, m);
      ChildrenInSubtree(m);
      assert Subtree(m)[0] == m;
      ContainerKept(u, r, m, ids);
    }
  }

  /** A statement of the walk of l lies in the subtree of one of l's statements. */
  lemma {:induction false} WalkMember(l: seq<NStmt>, m: NStmt) returns (k: nat)
    requires m in Preorder(l)
    ensures k < |l| && m in Subtree(l[k])
    decreases l
  {
    if m in Subtree(l[0]) {
      k := 0;
    } else {
      var j := WalkMember(l[1..], m);
      k := j + 1;
      assert l[k] == l[1..][j];
    }
  }

  /** The subtree of a statement of l lies in the walk of l. */
  lemma {:induction false} SubtreeInWalk(l: seq<NStmt>, k: nat)
    requires k < |l|
    ensures forall x :: x in Subtree(l[k]) ==> x in Preorder(l)
    decreases k
  {
    if k > 0 {
      assert l[k] == l[1..][k - 1];
      SubtreeInWalk(l[1..], k - 1);
    }
  }

  /**
   * Once every container of n's subtree is finished, n uses and modifies everything that any
   * statement nested in it, at any depth, uses and modifies.
   */
  lemma {:induction false} NestedIncluded(r: UsesModifies, n: NStmt, m: NStmt)
    requires AllDone(r, Subtree(n)) && Within(Subtree(n), |r.statements|) && m in Subtree(n)
    ensures HasStmt(r, m.id) && HasStmt(r, n.id)
    ensures StmtAt(r, m.id).used <= StmtAt(r, n.id).used
    ensures StmtAt(r, m.id).modified <= StmtAt(r, n.id).modified
    decreases n
  {
    assert Subtree(n)[0] == n;
    WithinSubtree(n, |r.statements|);
    if m != n {
      var j := ChildOf(n, m);
      var c := ExtractorParents.Children(n)[j];
      assert ContainerDone(r, n);
      assert Within(Subtree(c), |r.statements|) by {
        forall i | 0 <= i < |Subtree(c)| ensures 1 <= Subtree(c)[i].id <= |r.statements| {
          assert Subtree(c)[i] in Subtree(n);
        }
      }
      NestedIncluded(r, c, m);
    }
  }

  /** A statement nested in n, other than n itself, lies in the subtree of one of n's
   *  children, and that subtree lies in n's. */
  lemma ChildOf(n: NStmt, m: NStmt) returns (j: nat)
    requires m in Subtree(n) && m != n
    ensures n.IsContainer() && j < |ExtractorParents.Children(n)|
    ensures m in Subtree(ExtractorParents.Children(n)[j])
    ensures forall x :: x in Subtree(ExtractorParents.Children(n)[j]) ==> x in Subtree(n)
  {
    var kids := ExtractorParents.Children(n);
    match n
    case NIf(_, _, t, f) =>
      if m in Preorder(t) {
        var k := WalkMember(t, m);
        SubtreeInWalk(t, k);
        j := k;
        assert kids[j] == t[k];
      } else {
        assert m in Preorder(f);
        var k := WalkMember(f, m);
        SubtreeInWalk(f, k);
        j := |t| + k;
        assert kids[j] == f[k];
      }
    case NWhile(_, _, b) =>
      var k := WalkMember(b, m);
      SubtreeInWalk(b, k);
      j := k;
    case _ =>
      assert false;
  }

  /** The subtree of a statement nested in c lies in c's subtree. */
  lemma {:induction false} NestedSubtree(c: NStmt, n: NStmt)
    requires n in Subtree(c)
    ensures forall x :: x in Subtree(n) ==> x in Subtree(c)
    decreases c
  {
    if n != c {
      var j := ChildOf(c, n);
      NestedSubtree(ExtractorParents.Children(c)[j], n);
    }
  }

  /** The subtree of a statement of the walk of l lies in that walk. */
  lemma WalkSubtree(l: seq<NStmt>, n: NStmt)
    requires n in Preorder(l)
    ensures forall x :: x in Subtree(n) ==> x in Preorder(l)
  {
    var k := WalkMember(l, n);
    NestedSubtree(l[k], n);
    SubtreeInWalk(l, k);
  }

  /**
   * Once every container of the walk of l is finished, each statement of l, at any depth,
   * uses and modifies everything nested in it.
   */
  lemma WalkNestedIncluded(r: UsesModifies, l: seq<NStmt>, n: NStmt, m: NStmt)
    requires AllDone(r, Preorder(l)) && Within(Preorder(l), |r.statements|)
    requires n in Preorder(l) && m in Subtree(n)
    ensures HasStmt(r, m.id) && HasStmt(r, n.id)
    ensures StmtAt(r, m.id).used <= StmtAt(r, n.id).used
    ensures StmtAt(r, m.id).modified <= StmtAt(r, n.id).modified
  {
    WalkSubtree(l, n);
    assert Within(Subtree(n), |r.statements|) by {
      forall i | 0 <= i < |Subtree(n)| ensures 1 <= Subtree(n)[i].id <= |r.statements| {
        assert Subtree(n)[i] in Preorder(l);
      }
    }
    NestedIncluded(r, n, m);
  }

  // processProgram's third pass over every procedure body

  /** No procedure body holds a call statement. */
  predicate ProgramCallFree(bodies: seq<seq<NStmt>>)
  {
    forall k :: 0 <= k < |bodies| ==> CallFree(Preorder(bodies[k]))
  }

  /** Each body numbers its statements apart, and no two bodies share a number. */
  predicate BodiesApart(bodies: seq<seq<NStmt>>)
  {
    && (forall k :: 0 <= k < |bodies| ==> UniquelyNumbered(bodies[k]))
    && (forall a, b :: 0 <= a < b < |bodies| ==> AllIds(bodies[a]) !! AllIds(bodies[b]))
  }

  /**
   * Reprocessing body i of a call-free program leaves its containers finished and keeps the
   * bodies finished before it finished, since their numbers are not rewritten.
   */
  lemma BodyClosed(u: UsesModifies, bodies: seq<seq<NStmt>>, i: nat, proc: string, fuel: nat)
    requires i < |bodies| && Within(Preorder(bodies[i]), |u.statements|) && proc in u.procedures && BodiesWithin(u)
    requires ProgramCallFree(bodies) && BodiesApart(bodies)
    requires forall k :: 0 <= k < i ==> AllDone(u, Preorder(bodies[k]))
    ensures var r := ReprocessList(u, bodies[i], proc, fuel);
      forall k :: 0 <= k <= i ==> AllDone(r, Preorder(bodies[k]))
  {
    var r := ReprocessList(u, bodies[i], proc, fuel);
    ListClosed(u, bodies[i], proc, fuel);
    forall k | 0 <= k < i ensures AllDone(r, Preorder(bodies[k])) {
      AllDoneKept(u, r, bodies[k], AllIds(bodies[i]));
    }
  }
}
