/**
 * The pattern clauses (pql/eval/pattern.cpp): `pattern a(v, spec)` keeps the assignments whose
 * right-hand side matches the expression spec and whose left-hand side is the variable;
 * `pattern ifs(v, _, _)` and `pattern w(v, _)` keep the containers whose condition uses the
 * variable. With a variable declaration the clause also narrows the variable's domain and
 * records the join between the two declarations.
 */
module PatternEval {
  import opened Wrappers
  import opened PqlAst
  import opened EvalTable
  import SimpleAst
  import Pkb
  import PatternMatching
  import opened FollowsCalls
  import opened UsesModifies

  /** Assignment patterns carry an expression spec; if and while patterns share one rule. */
  datatype PatternKind = AssignKind(spec: ExprSpec) | CondKind

  /** The statement an entry of the pattern's declaration stands for. */
  function StmtOfEntry(statements: seq<Pkb.Statement>, e: Entry): Result<Pkb.Statement>
  {
    var n :- e.GetStmtNum();
    Pkb.StatementAt(statements, n)
  }

  /** The right-hand side against the expression spec: no expression matches everything, a
   *  sub-expression spec matches partially, any other exactly. */
  predicate ExprOk(spec: ExprSpec, rhs: SimpleAst.Expr)
  {
    spec.expr.None?
    || (if spec.isSubexpr then PatternMatching.PartialMatch(spec.expr.value, rhs)
        else PatternMatching.ExactMatch(spec.expr.value, rhs))
  }

  /** The test made before the variable part: the right-hand side for an assignment, a
   *  non-empty condition for a container. */
  predicate Pre(kind: PatternKind, st: Pkb.Statement)
  {
    match kind
    case AssignKind(spec) => st.ast.AssignStmt? && ExprOk(spec, st.ast.rhs)
    case CondKind => st.conditionVars != {}
  }

  /** Whether the variable part accepts a variable name. */
  predicate VarOk(kind: PatternKind, st: Pkb.Statement, name: string)
  {
    match kind
    case AssignKind(_) => st.ast.AssignStmt? && st.ast.lhs == name
    case CondKind => name in st.conditionVars
  }

  /** The entries of the variable domain that the statement accepts; an entry without a name
   *  makes the lookup fail. */
  function MatchingVars(kind: PatternKind, st: Pkb.Statement, vdom: Domain): (r: Result<Domain>)
    ensures r.Ok? <==> forall v :: v in vdom ==> v.GetVal().Ok?
    ensures r.Ok? ==> r.value <= vdom && forall v :: v in vdom ==> (v in r.value <==> VarOk(kind, st, v.val))
  {
    if exists v :: v in vdom && v.GetVal().Err? then Err("Cannot getVal for statement entry")
    else Ok(set v | v in vdom && VarOk(kind, st, v.val))
  }

  /** The loop over the variable domain for one statement. */
  method MatchVars(kind: PatternKind, st: Pkb.Statement, vdom: Domain) returns (r: Result<Domain>)
    ensures r == MatchingVars(kind, st, vdom)
  {
    var found: Domain := {};
    var rest := vdom;
    while rest != {}
      invariant rest <= vdom
      invariant forall v :: v in vdom - rest ==> v.GetVal().Ok?
      invariant found == set v | v in vdom - rest && VarOk(kind, st, v.val)
      decreases |rest|
    {
      var v :| v in rest;
      var name := v.GetVal();
      if name.Err? {
        UnnamedEntry(kind, st, vdom, v);
        return Err(name.msg);
      }
      found := MatchedSoFar(kind, st, vdom, rest, found, v);
      rest := rest - {v};
    }
    assert vdom - rest == vdom;
    r := Ok(found);
  }

  /** An entry without a name makes the whole lookup fail. */
  lemma UnnamedEntry(kind: PatternKind, st: Pkb.Statement, vdom: Domain, v: Entry)
    requires v in vdom && v.GetVal().Err?
    ensures MatchingVars(kind, st, vdom) == Err(v.GetVal().msg)
  {
  }

  /** One named entry of the variable domain, added to the matches when the statement
   *  accepts its name. */
  method MatchedSoFar(kind: PatternKind, st: Pkb.Statement, vdom: Domain, rest: Domain, found: Domain, v: Entry)
    returns (found': Domain)
    requires v in rest && rest <= vdom && v.GetVal().Ok?
    requires found == set x | x in vdom - rest && VarOk(kind, st, x.val)
    ensures found' == set x | x in vdom - (rest - {v}) && VarOk(kind, st, x.val)
  {
    assert vdom - (rest - {v}) == (vdom - rest) + {v};
    found' := if VarOk(kind, st, v.val) then found + {v} else found;
  }

  /** What one entry of the pattern's domain contributes: whether it stays, its join pairs and
   *  the variable entries it matches. */
  datatype Step = Step(keep: bool, pairs: set<(Entry, Entry)>, vars: Domain)

  /** The body of the loop over the pattern's domain, for one entry. */
  function EntryStep(kind: PatternKind, statements: seq<Pkb.Statement>, ent: EntRef, vdom: Domain, e: Entry)
    : Result<Step>
  {
    var st :- StmtOfEntry(statements, e);
    if !Pre(kind, st) then Ok(Step(false, {}, {}))
    else
      match ent
      case EntName(n) => Ok(Step(VarOk(kind, st, n), {}, {}))
      case EntDecl(_) =>
        var vs :- MatchingVars(kind, st, vdom);
        Ok(Step(vs != {}, set v | v in vs :: (e, v), vs))
      case EntWildcard => Ok(Step(true, {}, {}))
      case EntInvalid => Err("unreachable: invalid entity type")
  }

  method StepEntry(kind: PatternKind, statements: seq<Pkb.Statement>, ent: EntRef, vdom: Domain, e: Entry)
    returns (r: Result<Step>)
    ensures r == EntryStep(kind, statements, ent, vdom, e)
  {
    var st :- StmtOfEntry(statements, e);
    if !Pre(kind, st) {
      return Ok(Step(false, {}, {}));
    }
    match ent {
      case EntName(n) =>
        r := Ok(Step(VarOk(kind, st, n), {}, {}));
      case EntDecl(_) =>
        var vs :- MatchVars(kind, st, vdom);
        r := Ok(Step(vs != {}, set v | v in vs :: (e, v), vs));
      case EntWildcard =>
        r := Ok(Step(true, {}, {}));
      case EntInvalid =>
        r := Err("unreachable: invalid entity type");
    }
  }

  /** The pattern spec over a whole domain: every entry's step works, the kept entries, the
   *  join pairs and the matched variable entries. */
  ghost predicate AllSteps(kind: PatternKind, statements: seq<Pkb.Statement>, ent: EntRef, vdom: Domain, dom: Domain)
  {
    forall e :: e in dom ==> EntryStep(kind, statements, ent, vdom, e).Ok?
  }

  ghost function KeptEntries(kind: PatternKind, statements: seq<Pkb.Statement>, ent: EntRef, vdom: Domain, dom: Domain)
    : Domain
  {
    set e | e in dom && EntryStep(kind, statements, ent, vdom, e).Ok? && EntryStep(kind, statements, ent, vdom, e).value.keep
  }

  ghost function JoinPairs(kind: PatternKind, statements: seq<Pkb.Statement>, ent: EntRef, vdom: Domain, dom: Domain)
    : set<(Entry, Entry)>
  {
    set e, p | e in dom && EntryStep(kind, statements, ent, vdom, e).Ok?
               && p in EntryStep(kind, statements, ent, vdom, e).value.pairs :: p
  }

  ghost function MatchedVars(kind: PatternKind, statements: seq<Pkb.Statement>, ent: EntRef, vdom: Domain, dom: Domain)
    : Domain
  {
    set e, v | e in dom && EntryStep(kind, statements, ent, vdom, e).Ok?
               && v in EntryStep(kind, statements, ent, vdom, e).value.vars :: v
  }

  /** The kept entries, the join pairs and the matched variable entries together. */
  ghost function Summary(kind: PatternKind, statements: seq<Pkb.Statement>, ent: EntRef, vdom: Domain, dom: Domain)
    : (Domain, set<(Entry, Entry)>, Domain)
  {
    (KeptEntries(kind, statements, ent, vdom, dom), JoinPairs(kind, statements, ent, vdom, dom),
     MatchedVars(kind, statements, ent, vdom, dom))
  }

  lemma KeptAdd(kind: PatternKind, statements: seq<Pkb.Statement>, ent: EntRef, vdom: Domain, done: Domain, e: Entry)
    requires EntryStep(kind, statements, ent, vdom, e).Ok?
    ensures var s := EntryStep(kind, statements, ent, vdom, e).value;
            KeptEntries(kind, statements, ent, vdom, done + {e})
              == KeptEntries(kind, statements, ent, vdom, done) + (if s.keep then {e} else {})
  {
  }

  lemma PairsAdd(kind: PatternKind, statements: seq<Pkb.Statement>, ent: EntRef, vdom: Domain, done: Domain, e: Entry)
    requires EntryStep(kind, statements, ent, vdom, e).Ok?
    ensures JoinPairs(kind, statements, ent, vdom, done + {e})
              == JoinPairs(kind, statements, ent, vdom, done) + EntryStep(kind, statements, ent, vdom, e).value.pairs
  {
    var d2 := done + {e};
    forall p | p in JoinPairs(kind, statements, ent, vdom, d2)
      ensures p in JoinPairs(kind, statements, ent, vdom, done) + EntryStep(kind, statements, ent, vdom, e).value.pairs
    {
      var x :| x in d2 && EntryStep(kind, statements, ent, vdom, x).Ok? && p in EntryStep(kind, statements, ent, vdom, x).value.pairs;
      if x != e {
        assert p in JoinPairs(kind, statements, ent, vdom, done);
      }
    }
  }

  lemma VarsAdd(kind: PatternKind, statements: seq<Pkb.Statement>, ent: EntRef, vdom: Domain, done: Domain, e: Entry)
    requires EntryStep(kind, statements, ent, vdom, e).Ok?
    ensures MatchedVars(kind, statements, ent, vdom, done + {e})
              == MatchedVars(kind, statements, ent, vdom, done) + EntryStep(kind, statements, ent, vdom, e).value.vars
  {
    var d2 := done + {e};
    forall v | v in MatchedVars(kind, statements, ent, vdom, d2)
      ensures v in MatchedVars(kind, statements, ent, vdom, done) + EntryStep(kind, statements, ent, vdom, e).value.vars
    {
      var x :| x in d2 && EntryStep(kind, statements, ent, vdom, x).Ok? && v in EntryStep(kind, statements, ent, vdom, x).value.vars;
      if x != e {
        assert v in MatchedVars(kind, statements, ent, vdom, done);
      }
    }
  }

  /** Adding one entry to the entries handled so far adds exactly its step's contribution. */
  lemma AddOneEntry(kind: PatternKind, statements: seq<Pkb.Statement>, ent: EntRef, vdom: Domain, done: Domain, e: Entry)
    requires EntryStep(kind, statements, ent, vdom, e).Ok?
    ensures var s := EntryStep(kind, statements, ent, vdom, e).value;
            KeptEntries(kind, statements, ent, vdom, done + {e})
              == KeptEntries(kind, statements, ent, vdom, done) + (if s.keep then {e} else {})
    ensures var s := EntryStep(kind, statements, ent, vdom, e).value;
            JoinPairs(kind, statements, ent, vdom, done + {e}) == JoinPairs(kind, statements, ent, vdom, done) + s.pairs
    ensures var s := EntryStep(kind, statements, ent, vdom, e).value;
            MatchedVars(kind, statements, ent, vdom, done + {e}) == MatchedVars(kind, statements, ent, vdom, done) + s.vars
  {
    KeptAdd(kind, statements, ent, vdom, done, e);
    PairsAdd(kind, statements, ent, vdom, done, e);
    VarsAdd(kind, statements, ent, vdom, done, e);
  }

  /** One entry of the loop over the pattern's domain. */
  method AddStep(kind: PatternKind, statements: seq<Pkb.Statement>, ent: EntRef, vdom: Domain,
                 ghost done: Domain, e: Entry, acc: (Domain, set<(Entry, Entry)>, Domain))
    returns (r: Result<(Domain, set<(Entry, Entry)>, Domain)>)
    requires acc == Summary(kind, statements, ent, vdom, done)
    ensures r.Ok? <==> EntryStep(kind, statements, ent, vdom, e).Ok?
    ensures r.Ok? ==> r.value == Summary(kind, statements, ent, vdom, done + {e})
  {
    var step := StepEntry(kind, statements, ent, vdom, e);
    if step.Err? {
      return Err(step.msg);
    }
    AddOneEntry(kind, statements, ent, vdom, done, e);
    var kept := if step.value.keep then acc.0 + {e} else acc.0;
    assert kept == KeptEntries(kind, statements, ent, vdom, done + {e});
    r := Ok((kept, acc.1 + step.value.pairs, acc.2 + step.value.vars));
  }

  /** The loop over the pattern's domain, before the table is written. */
  method CollectPattern(kind: PatternKind, statements: seq<Pkb.Statement>, ent: EntRef, vdom: Domain, dom: Domain)
    returns (r: Result<(Domain, set<(Entry, Entry)>, Domain)>)
    ensures r.Ok? <==> AllSteps(kind, statements, ent, vdom, dom)
    ensures r.Ok? ==> r.value == Summary(kind, statements, ent, vdom, dom)
  {
    var acc: (Domain, set<(Entry, Entry)>, Domain) := ({}, {}, {});
    var rest := dom;
    assert dom - rest == {};
    assert KeptEntries(kind, statements, ent, vdom, {}) == {};
    assert JoinPairs(kind, statements, ent, vdom, {}) == {};
    assert MatchedVars(kind, statements, ent, vdom, {}) == {};
    while rest != {}
      invariant rest <= dom
      invariant AllSteps(kind, statements, ent, vdom, dom - rest)
      invariant acc == Summary(kind, statements, ent, vdom, dom - rest)
      decreases |rest|
    {
      var e :| e in rest;
      ghost var done := dom - rest;
      assert dom - (rest - {e}) == done + {e};
      var next := AddStep(kind, statements, ent, vdom, done, e, acc);
      if next.Err? {
        return Err(next.msg);
      }
      acc := next.value;
      rest := rest - {e};
    }
    assert dom - rest == dom;
    r := Ok(acc);
  }

  /** What a pattern clause does to the table. */
  twostate predicate PatternOutcome(kind: PatternKind, statements: seq<Pkb.Statement>, table: Table,
                                    decl: Declaration, ent: EntRef, new res: Result<()>)
    reads table
  {
    var dom := DomainOf(old(table.domains), decl);
    var vdom := if ent.EntDecl? then DomainOf(old(table.domains), ent.decl) else {};
    (res.Ok? <==> AllSteps(kind, statements, ent, vdom, dom))
    && (res.Err? ==> table.domains == old(table.domains) && table.joins == old(table.joins))
    && (res.Ok? && ent.EntDecl? ==>
          table.domains == old(table.domains)[ent.decl := MatchedVars(kind, statements, ent, vdom, dom) * vdom]
                                             [decl := KeptEntries(kind, statements, ent, vdom, dom)]
          && table.joins == old(table.joins) + [Join(decl, ent.decl, JoinPairs(kind, statements, ent, vdom, dom))])
    && (res.Ok? && !ent.EntDecl? ==>
          table.domains == old(table.domains)[decl := KeptEntries(kind, statements, ent, vdom, dom)]
          && table.joins == old(table.joins))
  }

  /** Every statement an assignment entry names is an assignment. */
  ghost predicate AssignmentsOnly(statements: seq<Pkb.Statement>, dom: Domain)
  {
    forall e :: e in dom && StmtOfEntry(statements, e).Ok? ==> StmtOfEntry(statements, e).value.ast.AssignStmt?
  }

  /** AssignPatternCond::evaluate for kind AssignKind, evaluate_if_while_pattern for CondKind. The
   *  variable declaration is selected before the pattern's own one. */
  method EvaluatePattern(kind: PatternKind, kb: Pkb.ProgramKB, table: Table, decl: Declaration, ent: EntRef)
    returns (res: Result<()>)
    requires ent.EntDecl? ==> ent.decl.designEnt == VariableEnt
    requires kind.AssignKind? ==> decl.designEnt == AssignEnt && AssignmentsOnly(kb.statements, table.GetDomain(decl))
    modifies table
    ensures table.selectDecls == old(table.selectDecls) + DeclsOf(ent) + {decl}
    ensures PatternOutcome(kind, kb.statements, table, decl, ent, res)
  {
    if ent.EntDecl? {
      table.AddSelectDecl(ent.decl);
    }
    table.AddSelectDecl(decl);
    var statements := kb.statements;
    var dom := table.GetDomain(decl);
    var vdom := if ent.EntDecl? then table.GetDomain(ent.decl) else {};
    var collected := CollectPattern(kind, statements, ent, vdom, dom);
    if collected.Err? {
      return Err(collected.msg);
    }
    var (kept, pairs, vars) := collected.value;
    if ent.EntDecl? {
      var both := EntrySetIntersect(vars, table.GetDomain(ent.decl));
      assert both == vars * vdom;
      table.PutDomain(ent.decl, both);
      table.AddJoin(Join(decl, ent.decl, pairs));
    }
    table.PutDomain(decl, kept);
    res := Ok(());
  }

  /** PatternCond::evaluate: the if and while forms demand an if or a while declaration. */
  method EvaluatePatternCond(kb: Pkb.ProgramKB, table: Table, cond: PatternCond) returns (res: Result<()>)
    requires cond.ent.EntDecl? ==> cond.ent.decl.designEnt == VariableEnt
    requires cond.AssignPattern? ==>
               cond.assignDecl.designEnt == AssignEnt && AssignmentsOnly(kb.statements, table.GetDomain(cond.assignDecl))
    requires cond.IfPattern? ==> cond.ifDecl.designEnt == IfEnt
    requires cond.WhilePattern? ==> cond.whileDecl.designEnt == WhileEnt
    modifies table
    ensures cond.AssignPattern? ==> PatternOutcome(AssignKind(cond.exprSpec), kb.statements, table, cond.assignDecl, cond.ent, res)
    ensures cond.IfPattern? ==> PatternOutcome(CondKind, kb.statements, table, cond.ifDecl, cond.ent, res)
    ensures cond.WhilePattern? ==> PatternOutcome(CondKind, kb.statements, table, cond.whileDecl, cond.ent, res)
  {
    match cond {
      case AssignPattern(d, ent, spec) => res := EvaluatePattern(AssignKind(spec), kb, table, d, ent);
      case IfPattern(d, ent) => res := EvaluatePattern(CondKind, kb, table, d, ent);
      case WhilePattern(d, ent) => res := EvaluatePattern(CondKind, kb, table, d, ent);
    }
  }

  /** Which entries a pattern keeps: an entry whose statement is found stays exactly when it
   *  passes the spec (or, for a container, has a condition variable) and its variable part is
   *  the named variable, any variable of the variable domain, or '_'. */
  lemma KeptMeaning(kind: PatternKind, statements: seq<Pkb.Statement>, ent: EntRef, vdom: Domain, dom: Domain, e: Entry)
    requires e in dom && AllSteps(kind, statements, ent, vdom, dom)
    ensures StmtOfEntry(statements, e).Ok?
    ensures var st := StmtOfEntry(statements, e).value;
            e in KeptEntries(kind, statements, ent, vdom, dom) <==>
              Pre(kind, st)
              && (ent.EntName? ==> VarOk(kind, st, ent.name))
              && (ent.EntDecl? ==> exists v :: v in vdom && VarOk(kind, st, v.val))
  {
    var st := StmtOfEntry(statements, e).value;
    if Pre(kind, st) && ent.EntDecl? {
      assert MatchingVars(kind, st, vdom).Ok?;
      var vs := MatchingVars(kind, st, vdom).value;
      if exists v :: v in vdom && VarOk(kind, st, v.val) {
        var v :| v in vdom && VarOk(kind, st, v.val);
        assert v in vs;
      }
    }
  }

  /** The join of `pattern a(v, ...)` pairs each kept entry with exactly the variable entries its
   *  statement accepts, and the matched variables are those of the pairs. */
  lemma JoinPairsMeaning(kind: PatternKind, statements: seq<Pkb.Statement>, ent: EntRef, vdom: Domain, dom: Domain)
    requires ent.EntDecl? && AllSteps(kind, statements, ent, vdom, dom)
    ensures forall p :: p in JoinPairs(kind, statements, ent, vdom, dom) <==>
              p.0 in dom && p.1 in vdom && Pre(kind, StmtOfEntry(statements, p.0).value)
              && VarOk(kind, StmtOfEntry(statements, p.0).value, p.1.val)
    ensures forall p :: p in JoinPairs(kind, statements, ent, vdom, dom) ==>
              p.0 in KeptEntries(kind, statements, ent, vdom, dom) && p.1 in MatchedVars(kind, statements, ent, vdom, dom)
  {
    forall p: (Entry, Entry) | p.0 in dom && p.1 in vdom && Pre(kind, StmtOfEntry(statements, p.0).value)
               && VarOk(kind, StmtOfEntry(statements, p.0).value, p.1.val)
      ensures p in JoinPairs(kind, statements, ent, vdom, dom)
    {
      var s := EntryStep(kind, statements, ent, vdom, p.0).value;
      assert p.1 in s.vars;
      assert p in s.pairs;
    }
    forall p | p in JoinPairs(kind, statements, ent, vdom, dom)
      ensures p.0 in dom && p.1 in vdom && Pre(kind, StmtOfEntry(statements, p.0).value)
              && VarOk(kind, StmtOfEntry(statements, p.0).value, p.1.val)
      ensures p.0 in KeptEntries(kind, statements, ent, vdom, dom) && p.1 in MatchedVars(kind, statements, ent, vdom, dom)
    {
      var e :| e in dom && EntryStep(kind, statements, ent, vdom, e).Ok?
               && p in EntryStep(kind, statements, ent, vdom, e).value.pairs;
      var s := EntryStep(kind, statements, ent, vdom, e).value;
      var v :| v in s.vars && p == (e, v);
    }
  }
}
