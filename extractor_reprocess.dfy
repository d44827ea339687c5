/**
 * The second uses/modifies pass of the design extractor (reprocessStmtList in
 * pkb/design_extractor.cpp): a container takes on what its body statements use and modify,
 * and a call statement takes on what its callee uses and modifies, after the callee's body
 * has been reprocessed in turn.
 */
module ExtractorReprocess {
  import opened ExtractorTree
  import opened ExtractorUses
  import ExtractorParents

  /** The record of statement number id. */
  function StmtAt(u: UsesModifies, id: nat): StmtRecord
    requires HasStmt(u, id)
  {
    u.statements[id - 1]
  }

  /** Every procedure body only names statements that have a record. */
  predicate BodiesWithin(u: UsesModifies)
  {
    forall q :: q in u.procedures ==> Within(Preorder(u.procedures[q].body), |u.statements|)
  }

  /**
   * r is u with sets only grown: the same statements and procedures, the same tree nodes and
   * bodies, and every uses and modifies set a superset of the one before.
   */
  predicate Grows(u: UsesModifies, r: UsesModifies)
  {
    && |r.statements| == |u.statements|
    && (forall i :: 0 <= i < |u.statements| ==>
          && r.statements[i].stmt == u.statements[i].stmt
          && u.statements[i].used <= r.statements[i].used
          && u.statements[i].modified <= r.statements[i].modified)
    && r.procedures.Keys == u.procedures.Keys
    && (forall q :: q in u.procedures ==>
          && r.procedures[q].body == u.procedures[q].body
          && u.procedures[q].used <= r.procedures[q].used
          && u.procedures[q].modified <= r.procedures[q].modified)
  }

  lemma GrowsTrans(a: UsesModifies, b: UsesModifies, c: UsesModifies)
    requires Grows(a, b) && Grows(b, c)
    ensures Grows(a, c)
  {
  }

  lemma GrowsBodies(u: UsesModifies, r: UsesModifies)
    requires Grows(u, r) && BodiesWithin(u)
    ensures BodiesWithin(r)
  {
    forall q | q in r.procedures ensures Within(Preorder(r.procedures[q].body), |r.statements|) {
      assert r.procedures[q].body == u.procedures[q].body;
    }
  }

  /** Every statement of kids has a record. */
  predicate KidsWithin(u: UsesModifies, kids: seq<NStmt>)
  {
    forall k :: 0 <= k < |kids| ==> HasStmt(u, kids[k].id)
  }

  /** The variables the statements of kids are recorded as using: the loop over a body. */
  function UnionUsed(u: UsesModifies, kids: seq<NStmt>): (r: set<string>)
    requires KidsWithin(u, kids)
    ensures forall k :: 0 <= k < |kids| ==> StmtAt(u, kids[k].id).used <= r
    ensures forall x :: x in r ==> exists k :: 0 <= k < |kids| && x in StmtAt(u, kids[k].id).used
    decreases |kids|
  {
    if |kids| == 0 then {}
    else
      var rest := UnionUsed(u, kids[1..]);
      assert forall k :: 1 <= k < |kids| ==> kids[k] == kids[1..][k - 1];
      StmtAt(u, kids[0].id).used + rest
  }

  /** The variables the statements of kids are recorded as modifying. */
  function UnionModified(u: UsesModifies, kids: seq<NStmt>): (r: set<string>)
    requires KidsWithin(u, kids)
    ensures forall k :: 0 <= k < |kids| ==> StmtAt(u, kids[k].id).modified <= r
    ensures forall x :: x in r ==> exists k :: 0 <= k < |kids| && x in StmtAt(u, kids[k].id).modified
    decreases |kids|
  {
    if |kids| == 0 then {}
    else
      var rest := UnionModified(u, kids[1..]);
      assert forall k :: 1 <= k < |kids| ==> kids[k] == kids[1..][k - 1];
      StmtAt(u, kids[0].id).modified + rest
  }

  /** Statement id is entered in the records of the variables it uses and modifies; procs are
   *  entered as users and modifiers too. */
  function Mark(u: UsesModifies, uses: set<string>, mods: set<string>, id: nat, procs: set<string>): (r: UsesModifies)
    ensures r.statements == u.statements && r.procedures == u.procedures
    ensures forall v :: v in uses ==> id in VarAt(r, v).usedBy && procs <= VarAt(r, v).usedByProcs
    ensures forall v :: v in mods ==> id in VarAt(r, v).modifiedBy && procs <= VarAt(r, v).modifiedByProcs
    ensures forall v :: v !in uses + mods ==> VarAt(r, v) == VarAt(u, v)
  {
    u.(variables := map v | v in u.variables.Keys + uses + mods ::
         VarPlus(VarAt(u, v), If(v in uses, {id}), If(v in mods, {id}), If(v in uses, procs), If(v in mods, procs)))
  }

  /** A container statement gains the sets of its direct children. */
  function ContainerStep(u: UsesModifies, n: NStmt): (r: UsesModifies)
    requires n.IsContainer() && HasStmt(u, n.id) && KidsWithin(u, ExtractorParents.Children(n))
    ensures Grows(u, r)
    ensures r.statements == u.statements[n.id - 1 := StmtAt(r, n.id)]
    ensures forall v :: VarAt(u, v).usedBy <= VarAt(r, v).usedBy && VarAt(u, v).modifiedBy <= VarAt(r, v).modifiedBy
  {
    var kids := ExtractorParents.Children(n);
    var s := StmtPlus(StmtAt(u, n.id), UnionUsed(u, kids), UnionModified(u, kids));
    var u' := u.(statements := u.statements[n.id - 1 := s]);
    var r := Mark(u', s.used, s.modified, n.id, {});
    assert forall i :: 0 <= i < |u.statements| && i != n.id - 1 ==> r.statements[i] == u.statements[i];
    MarkGrows(u', s.used, s.modified, n.id, {});
    r
  }

  /** Entering a statement in variables' records only adds to them. */
  lemma MarkGrows(u: UsesModifies, uses: set<string>, mods: set<string>, id: nat, procs: set<string>)
    ensures var r := Mark(u, uses, mods, id, procs);
      forall v :: VarAt(u, v).usedBy <= VarAt(r, v).usedBy && VarAt(u, v).modifiedBy <= VarAt(r, v).modifiedBy
  {
    var r := Mark(u, uses, mods, id, procs);
    forall v ensures VarAt(u, v).usedBy <= VarAt(r, v).usedBy && VarAt(u, v).modifiedBy <= VarAt(r, v).modifiedBy {
      if v in uses + mods {
        assert r.variables[v] == VarPlus(VarAt(u, v), If(v in uses, {id}), If(v in mods, {id}), If(v in uses, procs), If(v in mods, procs));
      }
    }
  }

  /** A call statement of procedure proc gains the sets of the procedure it calls, and passes
   *  them on to proc. */
  function CallStep(u: UsesModifies, n: NStmt, proc: string): (r: UsesModifies)
    requires n.NCall? && HasStmt(u, n.id) && proc in u.procedures
    ensures Grows(u, r)
  {
    var callee := ProcAt(u, n.procName);
    var s := StmtPlus(StmtAt(u, n.id), callee.used, callee.modified);
    var u1 := Mark(u.(statements := u.statements[n.id - 1 := s]), callee.used, callee.modified, n.id, {proc});
    var p := u1.procedures[proc];
    var r := u1.(procedures := u1.procedures[proc := p.(used := p.used + s.used, modified := p.modified + s.modified)]);
    assert forall i :: 0 <= i < |u.statements| && i != n.id - 1 ==> r.statements[i] == u.statements[i];
    r
  }

  lemma KidsOfContainer(u: UsesModifies, n: NStmt)
    requires n.IsContainer() && Within(Subtree(n), |u.statements|)
    ensures KidsWithin(u, ExtractorParents.Children(n))
    ensures HasStmt(u, n.id)
  {
    WithinSubtree(n, |u.statements|);
    var kids := ExtractorParents.Children(n);
    forall k | 0 <= k < |kids| ensures HasStmt(u, kids[k].id) {
      if n.NIf? {
        if k < |n.trueCase| {
          ListHeadWithin(n.trueCase, k, |u.statements|);
        } else {
          assert kids[k] == n.falseCase[k - |n.trueCase|];
          ListHeadWithin(n.falseCase, k - |n.trueCase|, |u.statements|);
        }
      } else {
        ListHeadWithin(n.body, k, |u.statements|);
      }
    }
  }

  /** A statement of a list is numbered within the bound when the whole walk is. */
  lemma {:induction false} ListHeadWithin(l: seq<NStmt>, k: nat, count: nat)
    requires k < |l| && Within(Preorder(l), count)
    ensures 1 <= l[k].id <= count
    decreases k
  {
    WithinPreorder(l, count);
    if k == 0 {
      WithinSubtree(l[0], count);
    } else {
      assert l[k] == l[1..][k - 1];
      ListHeadWithin(l[1..], k - 1, count);
    }
  }

  /** What reprocessing leaves for a container: it uses and modifies everything its direct
   *  children do, and is entered in the records of those variables. */
  predicate ContainerDone(r: UsesModifies, n: NStmt)
  {
    && HasStmt(r, n.id) && KidsWithin(r, ExtractorParents.Children(n))
    && (forall k :: 0 <= k < |ExtractorParents.Children(n)| ==>
          var c := ExtractorParents.Children(n)[k];
          StmtAt(r, c.id).used <= StmtAt(r, n.id).used && StmtAt(r, c.id).modified <= StmtAt(r, n.id).modified)
    && (forall v :: v in StmtAt(r, n.id).used ==> n.id in VarAt(r, v).usedBy)
    && (forall v :: v in StmtAt(r, n.id).modified ==> n.id in VarAt(r, v).modifiedBy)
  }

  /** What reprocessing leaves for a call statement of proc: it uses and modifies everything
   *  its callee does, and proc takes that on. */
  predicate CallDone(r: UsesModifies, n: NStmt, proc: string)
    requires n.NCall?
  {
    && HasStmt(r, n.id) && proc in r.procedures
    && ProcAt(r, n.procName).used <= StmtAt(r, n.id).used <= r.procedures[proc].used
    && ProcAt(r, n.procName).modified <= StmtAt(r, n.id).modified <= r.procedures[proc].modified
    && (n.procName != proc ==>
         && (forall v :: v in ProcAt(r, n.procName).used ==> n.id in VarAt(r, v).usedBy && proc in VarAt(r, v).usedByProcs)
         && (forall v :: v in ProcAt(r, n.procName).modified ==> n.id in VarAt(r, v).modifiedBy && proc in VarAt(r, v).modifiedByProcs))
  }

  /**
   * reprocessStmtList for one statement of procedure proc. A call first reprocesses the body
   * of its callee; `fuel` bounds how deep those calls nest (see processProgram).
   * Afterwards a container uses and modifies everything its direct children do, and a call
   * statement everything its callee does, which proc in turn takes on.
   */
  function ReprocessStmt(u: UsesModifies, n: NStmt, proc: string, fuel: nat): (r: UsesModifies)
    requires Within(Subtree(n), |u.statements|) && proc in u.procedures && BodiesWithin(u)
    ensures Grows(u, r) && BodiesWithin(r)
    ensures n.IsContainer() ==> ContainerDone(r, n)
    ensures n.NCall? ==> CallDone(r, n, proc)
    decreases fuel, n, 1
  {
    match n
    case NIf(_, _, _, _) => ReprocessIf(u, n, proc, fuel)
    case NWhile(_, _, _) => ReprocessWhile(u, n, proc, fuel)
    case NCall(_, _) => ReprocessCall(u, n, proc, fuel)
    case _ => u
  }

  /** An if statement: both branches, then the statement itself. */
  function ReprocessIf(u: UsesModifies, n: NStmt, proc: string, fuel: nat): (r: UsesModifies)
    requires n.NIf? && Within(Subtree(n), |u.statements|) && proc in u.procedures && BodiesWithin(u)
    ensures Grows(u, r) && BodiesWithin(r) && ContainerDone(r, n)
    decreases fuel, n, 0
  {
    WithinSubtree(n, |u.statements|);
    var u1 := ReprocessList(u, n.trueCase, proc, fuel);
    var u2 := ReprocessList(u1, n.falseCase, proc, fuel);
    GrowsTrans(u, u1, u2);
    ContainerAfter(u, u2, n)
  }

  /** A while statement: its body, then the statement itself. */
  function ReprocessWhile(u: UsesModifies, n: NStmt, proc: string, fuel: nat): (r: UsesModifies)
    requires n.NWhile? && Within(Subtree(n), |u.statements|) && proc in u.procedures && BodiesWithin(u)
    ensures Grows(u, r) && BodiesWithin(r) && ContainerDone(r, n)
    decreases fuel, n, 0
  {
    WithinSubtree(n, |u.statements|);
    var u1 := ReprocessList(u, n.body, proc, fuel);
    ContainerAfter(u, u1, n)
  }

  /** The container's own update once its children are done. */
  function ContainerAfter(u: UsesModifies, u1: UsesModifies, n: NStmt): (r: UsesModifies)
    requires n.IsContainer() && Within(Subtree(n), |u.statements|) && BodiesWithin(u) && Grows(u, u1)
    ensures Grows(u, r) && BodiesWithin(r) && ContainerDone(r, n)
  {
    KidsOfContainer(u1, n);
    var r := ContainerStep(u1, n);
    GrowsTrans(u, u1, r);
    GrowsBodies(u, r);
    ContainerFacts(u1, n, r);
    r
  }

  /** A call statement: the callee's body first, while fuel lasts, then the statement. */
  function ReprocessCall(u: UsesModifies, n: NStmt, proc: string, fuel: nat): (r: UsesModifies)
    requires n.NCall? && Within(Subtree(n), |u.statements|) && proc in u.procedures && BodiesWithin(u)
    ensures Grows(u, r) && BodiesWithin(r) && CallDone(r, n, proc)
    decreases fuel, n, 0
  {
    WithinSubtree(n, |u.statements|);
    var u1 := if fuel > 0 && n.procName in u.procedures then ReprocessList(u, u.procedures[n.procName].body, n.procName, fuel - 1) else u;
    var r := CallStep(u1, n, proc);
    GrowsTrans(u, u1, r);
    GrowsBodies(u, r);
    CallFacts(u1, n, proc, r);
    r
  }

  lemma ContainerFacts(u: UsesModifies, n: NStmt, r: UsesModifies)
    requires n.IsContainer() && HasStmt(u, n.id) && KidsWithin(u, ExtractorParents.Children(n))
    requires r == ContainerStep(u, n)
    ensures ContainerDone(r, n)
  {
    var kids := ExtractorParents.Children(n);
    var s := StmtPlus(StmtAt(u, n.id), UnionUsed(u, kids), UnionModified(u, kids));
    assert StmtAt(r, n.id) == s;
    forall k | 0 <= k < |kids|
      ensures StmtAt(r, kids[k].id).used <= s.used && StmtAt(r, kids[k].id).modified <= s.modified
    {
      if kids[k].id != n.id {
        assert StmtAt(r, kids[k].id) == StmtAt(u, kids[k].id);
      }
    }
  }

  lemma CallFacts(u: UsesModifies, n: NStmt, proc: string, r: UsesModifies)
    requires n.NCall? && HasStmt(u, n.id) && proc in u.procedures
    requires r == CallStep(u, n, proc)
    ensures CallDone(r, n, proc)
  {
    var callee := ProcAt(u, n.procName);
    var s := StmtPlus(StmtAt(u, n.id), callee.used, callee.modified);
    assert StmtAt(r, n.id) == s;
    if n.procName != proc {
      assert ProcAt(r, n.procName) == callee;
    }
  }

  /** reprocessStmtList: each statement of the list in turn. */
  function ReprocessList(u: UsesModifies, l: seq<NStmt>, proc: string, fuel: nat): (r: UsesModifies)
    requires Within(Preorder(l), |u.statements|) && proc in u.procedures && BodiesWithin(u)
    ensures Grows(u, r) && BodiesWithin(r)
    decreases fuel, l
  {
    if |l| == 0 then u
    else
      WithinPreorder(l, |u.statements|);
      var u1 := ReprocessStmt(u, l[0], proc, fuel);
      var r := ReprocessList(u1, l[1..], proc, fuel);
      GrowsTrans(u, u1, r);
      r
  }
}
