/**
 * The Uses and Modifies clauses (pql/eval/uses_modifies.cpp). They do not go through the generic
 * relation evaluation: a procedure form (UsesP, ModifiesP) and a statement form (UsesS,
 * ModifiesS) each have their own case analysis over the two arguments, parametrised by the
 * getters that tell Uses from Modifies.
 */
module UsesModifies {
  import opened Wrappers
  import opened PqlAst
  import opened EvalTable
  import Pkb
  import PkbVariable
  import opened RelationAbstractor
  import opened FollowsCalls

  /** UsesModifiesRelationAbstractor: the variables of a statement or a procedure, the
   *  procedures and statements recorded against a variable, and the membership tests. */
  datatype UsesModifiesAbstractor = UsesModifiesAbstractor(
    relationName: string,
    stmtVars: Pkb.Statement -> set<string>,
    procVars: Pkb.Procedure -> set<string>,
    varProcs: Pkb.Variable -> set<string>,
    varStmts: Pkb.Variable -> set<Pkb.Statement>,
    procRelates: (Pkb.Procedure, string) -> bool,
    stmtRelates: (Pkb.Statement, string) -> bool)

  /** The UsesP and UsesS bindings (each fills the half its form reads). */
  function Uses(): UsesModifiesAbstractor
  {
    UsesModifiesAbstractor(
      "Uses",
      (s: Pkb.Statement) => s.usedVars,
      (p: Pkb.Procedure) => p.usedVars,
      (v: Pkb.Variable) => v.usedByProcs,
      (v: Pkb.Variable) => v.usedBy,
      (p: Pkb.Procedure, v: string) => p.UsesVariable(v),
      (s: Pkb.Statement, v: string) => s.UsesVariable(v))
  }

  /** The ModifiesP and ModifiesS bindings. */
  function Modifies(): UsesModifiesAbstractor
  {
    UsesModifiesAbstractor(
      "Modifies",
      (s: Pkb.Statement) => s.modifiedVars,
      (p: Pkb.Procedure) => p.modifiedVars,
      (v: Pkb.Variable) => v.modifiedByProcs,
      (v: Pkb.Variable) => v.modifiedBy,
      (p: Pkb.Procedure, v: string) => p.ModifiesVariable(v),
      (s: Pkb.Statement, v: string) => s.ModifiesVariable(v))
  }

  /** In both bindings the membership tests agree with the variable sets, so a (name, name)
   *  clause holds exactly when the (name, declaration) clause would keep that variable. */
  lemma TestsAgreeWithSets(p: Pkb.Procedure, s: Pkb.Statement, v: string)
    ensures Uses().procRelates(p, v) <==> v in Uses().procVars(p)
    ensures Uses().stmtRelates(s, v) <==> v in Uses().stmtVars(s)
    ensures Modifies().procRelates(p, v) <==> v in Modifies().procVars(p)
    ensures Modifies().stmtRelates(s, v) <==> v in Modifies().stmtVars(s)
  {
  }

  predicate NamedEnt(decl: Declaration)
  {
    decl.designEnt in {VariableEnt, ProcedureEnt, ConstantEnt}
  }

  /** The entries of decl for the given names. */
  ghost function NameEntries(decl: Declaration, names: set<string>): Domain
  {
    set n | n in names && EntryOfString(decl, n).Ok? :: EntryOfString(decl, n).value
  }

  /** The entries of decl for the given statement numbers. */
  ghost function StmtEntries(decl: Declaration, nums: set<nat>): Domain
  {
    set n | n in nums && EntryOfStmtNum(decl, n).Ok? :: EntryOfStmtNum(decl, n).value
  }

  /** An entry is among decl's name entries exactly when it is decl's entry for one of the names. */
  lemma NameEntriesMembership(decl: Declaration, names: set<string>, e: Entry)
    requires NamedEnt(decl)
    ensures e in NameEntries(decl, names) <==> e.decl == decl && e.val in names && EntryOfString(decl, e.val) == Ok(e)
  {
    if e in NameEntries(decl, names) {
      var n :| n in names && e == EntryOfString(decl, n).value;
      assert e.val == n;
    }
  }

  /** An entry is among decl's statement entries exactly when it is decl's entry for one of the
   *  numbers. */
  lemma StmtEntriesMembership(decl: Declaration, nums: set<nat>, e: Entry)
    requires !NamedEnt(decl)
    ensures e in StmtEntries(decl, nums) <==>
              e.decl == decl && e.stmtNum in nums && EntryOfStmtNum(decl, e.stmtNum) == Ok(e)
  {
    if e in StmtEntries(decl, nums) {
      var n :| n in nums && e == EntryOfStmtNum(decl, n).value;
      assert e.stmtNum == n;
    }
  }

  /** The loop that emplaces one entry per name. */
  method MakeNameEntries(decl: Declaration, names: set<string>) returns (d: Domain)
    requires NamedEnt(decl)
    ensures d == NameEntries(decl, names)
  {
    d := {};
    var rest := names;
    while rest != {}
      invariant rest <= names
      invariant d == NameEntries(decl, names - rest)
      decreases |rest|
    {
      var n :| n in rest;
      d := d + {EntryOfString(decl, n).value};
      rest := rest - {n};
      assert names - rest == (names - (rest + {n})) + {n};
    }
    assert names - rest == names;
  }

  /** The loop that emplaces one entry per statement number. */
  method MakeStmtEntries(decl: Declaration, nums: set<nat>) returns (d: Domain)
    requires !NamedEnt(decl)
    ensures d == StmtEntries(decl, nums)
  {
    d := {};
    var rest := nums;
    while rest != {}
      invariant rest <= nums
      invariant d == StmtEntries(decl, nums - rest)
      decreases |rest|
    {
      var n :| n in rest;
      d := d + {EntryOfStmtNum(decl, n).value};
      rest := rest - {n};
      assert nums - rest == (nums - (rest + {n})) + {n};
    }
    assert nums - rest == nums;
  }

  /** How an entry's related variables are found: through the procedure or the statement it
   *  names. */
  datatype Lookup =
    | ProcLookup(um: UsesModifiesAbstractor, procedures: map<string, Pkb.Procedure>)
    | StmtLookup(um: UsesModifiesAbstractor, statements: seq<Pkb.Statement>)
  {
    function Vars(e: Entry): Result<set<string>>
    {
      match this
      case ProcLookup(um, procedures) => ProcEntryVars(um, procedures, e)
      case StmtLookup(um, statements) => StmtEntryVars(um, statements, e)
    }
  }

  /** The entries of dom whose related variables can be looked up and are not empty. */
  ghost function NonEmptyRelated(dom: Domain, lookup: Lookup): Domain
  {
    set e | e in dom && lookup.Vars(e).Ok? && lookup.Vars(e).value != {}
  }

  ghost predicate AllLooked(dom: Domain, lookup: Lookup)
  {
    forall e :: e in dom ==> lookup.Vars(e).Ok?
  }

  /** The (declaration, _) loop: keep the entries that relate some variable; a lookup that fails
   *  aborts. */
  method KeepRelated(dom: Domain, lookup: Lookup) returns (r: Result<Domain>)
    ensures r.Ok? <==> AllLooked(dom, lookup)
    ensures r.Ok? ==> r.value == NonEmptyRelated(dom, lookup)
  {
    var kept: Domain := {};
    var rest := dom;
    while rest != {}
      invariant rest <= dom
      invariant AllLooked(dom - rest, lookup)
      invariant kept == NonEmptyRelated(dom - rest, lookup)
      decreases |rest|
    {
      var e :| e in rest;
      var vars := lookup.Vars(e);
      if vars.Err? {
        LookupFails(dom, e, lookup);
        return Err(vars.msg);
      }
      KeepStep(dom - rest, e, lookup);
      if vars.value != {} {
        kept := kept + {e};
      }
      assert dom - (rest - {e}) == (dom - rest) + {e};
      rest := rest - {e};
    }
    assert dom - rest == dom;
    r := Ok(kept);
  }

  /** One more looked-up entry: it is kept exactly when it relates some variable. */
  lemma KeepStep(done: Domain, e: Entry, lookup: Lookup)
    requires lookup.Vars(e).Ok?
    ensures NonEmptyRelated(done + {e}, lookup)
            == NonEmptyRelated(done, lookup) + (if lookup.Vars(e).value != {} then {e} else {})
    ensures AllLooked(done, lookup) ==> AllLooked(done + {e}, lookup)
  {
  }

  lemma LookupFails(dom: Domain, e: Entry, lookup: Lookup)
    requires e in dom && lookup.Vars(e).Err?
    ensures !AllLooked(dom, lookup)
  {
  }

  /** Intersects a declaration's domain with the entries the clause allows and stores it back. */
  method Restrict(table: Table, decl: Declaration, keep: Domain)
    modifies table
    ensures table.domains == old(table.domains)[decl := keep * DomainOf(old(table.domains), decl)]
    ensures table.joins == old(table.joins) && table.selectDecls == old(table.selectDecls)
  {
    var both := EntrySetIntersect(keep, table.GetDomain(decl));
    assert both == keep * table.GetDomain(decl);
    table.PutDomain(decl, both);
  }

  /** Restricts a declaration of a named entity to the entries of the given names. */
  method RestrictToNames(table: Table, decl: Declaration, names: set<string>)
    requires NamedEnt(decl)
    modifies table
    ensures table.domains == old(table.domains)[decl := NameEntries(decl, names) * DomainOf(old(table.domains), decl)]
    ensures table.joins == old(table.joins) && table.selectDecls == old(table.selectDecls)
  {
    var newDomain := MakeNameEntries(decl, names);
    Restrict(table, decl, newDomain);
  }

  /** The (declaration, _) form: the declaration keeps the entries that relate some variable;
   *  a lookup that fails leaves the table as it was. */
  method RestrictToRelated(table: Table, decl: Declaration, lookup: Lookup) returns (res: Result<()>)
    modifies table
    ensures table.joins == old(table.joins) && table.selectDecls == old(table.selectDecls)
    ensures res.Err? ==> table.domains == old(table.domains)
    ensures var dom := DomainOf(old(table.domains), decl);
            (res.Ok? <==> AllLooked(dom, lookup))
            && (res.Ok? ==> table.domains == old(table.domains)[decl := NonEmptyRelated(dom, lookup) * dom])
  {
    var dom := table.GetDomain(decl);
    var newDomain :- KeepRelated(dom, lookup);
    Restrict(table, decl, newDomain);
    res := Ok(());
  }

  /** The kept entries are a subset of the domain, and with every lookup working an entry stays
   *  exactly when it relates some variable. */
  lemma NonEmptyRelatedIsFilter(dom: Domain, lookup: Lookup)
    ensures NonEmptyRelated(dom, lookup) <= dom
    ensures AllLooked(dom, lookup) ==>
              forall e :: e in dom ==> (e in NonEmptyRelated(dom, lookup) <==> lookup.Vars(e).value != {})
  {
  }

  // ------------------------------------------------------------ the procedure form

  /** The variables a procedure relates, looked up by name. */
  function ProcVarsNamed(um: UsesModifiesAbstractor, procedures: map<string, Pkb.Procedure>, name: string)
    : (r: Result<set<string>>)
    ensures r.Ok? <==> name in procedures
    ensures r.Ok? ==> r.value == um.procVars(procedures[name])
  {
    var p :- Pkb.ProcedureNamed(procedures, name);
    Ok(um.procVars(p))
  }

  /** The variables the procedure named by a procedure entry relates. */
  function ProcEntryVars(um: UsesModifiesAbstractor, procedures: map<string, Pkb.Procedure>, e: Entry)
    : Result<set<string>>
  {
    var name :- e.GetVal();
    ProcVarsNamed(um, procedures, name)
  }

  /** The (declaration, declaration) form: procedure entries related to variable entries. */
  function ProcTwoDecl(um: UsesModifiesAbstractor, procedures: map<string, Pkb.Procedure>,
                       procDecl: Declaration, varDecl: Declaration): TwoDecl<string, string>
  {
    TwoDecl(procDecl, varDecl, NameEntryValue, (name: string) => ProcVarsNamed(um, procedures, name),
            EntryOfString, EntryOfString)
  }

  /** The argument checks of evaluateP: the procedure may not be '_', and declarations must be a
   *  procedure and a variable. */
  predicate ProcArgsOk(proc: EntRef, v: EntRef)
  {
    !proc.EntWildcard?
    && (proc.EntDecl? ==> proc.decl.designEnt == ProcedureEnt)
    && (v.EntDecl? ==> v.decl.designEnt == VariableEnt)
  }

  function DeclsOf(r: EntRef): set<Declaration>
  {
    if r.EntDecl? then {r.decl} else {}
  }

  /** What evaluateP does once the arguments pass the checks. */
  twostate predicate ProcOutcome(um: UsesModifiesAbstractor, procedures: map<string, Pkb.Procedure>,
                                 variables: map<string, Pkb.Variable>, table: Table, proc: EntRef, v: EntRef,
                                 new res: Result<()>)
    reads table
  {
    (!(proc.EntDecl? && v.EntDecl?) ==> table.joins == old(table.joins))
    && (proc.EntName? && v.EntName? ==>
          table.domains == old(table.domains)
          && (res.Ok? <==> proc.name in procedures && um.procRelates(procedures[proc.name], v.name)))
    && (proc.EntName? && v.EntDecl? ==>
          (res.Ok? <==> proc.name in procedures && um.procVars(procedures[proc.name]) != {})
          && (res.Ok? ==> table.domains == old(table.domains)[v.decl :=
                NameEntries(v.decl, um.procVars(procedures[proc.name])) * DomainOf(old(table.domains), v.decl)]))
    && (proc.EntName? && v.EntWildcard? ==>
          table.domains == old(table.domains)
          && (res.Ok? <==> proc.name in procedures && um.procVars(procedures[proc.name]) != {}))
    && (proc.EntDecl? && v.EntName? ==>
          (res.Ok? <==> v.name in variables && um.varProcs(variables[v.name]) != {})
          && (res.Ok? ==> table.domains == old(table.domains)[proc.decl :=
                NameEntries(proc.decl, um.varProcs(variables[v.name])) * DomainOf(old(table.domains), proc.decl)]))
    && (proc.EntDecl? && v.EntDecl? ==> TwoDeclOutcome(ProcTwoDecl(um, procedures, proc.decl, v.decl), table, res))
    && (proc.EntDecl? && v.EntWildcard? ==>
          var dom := DomainOf(old(table.domains), proc.decl);
          var lookup := ProcLookup(um, procedures);
          (res.Ok? <==> AllLooked(dom, lookup))
          && (res.Ok? ==> table.domains == old(table.domains)[proc.decl := NonEmptyRelated(dom, lookup) * dom]))
    && (proc.EntInvalid? || v.EntInvalid? ==> res.Err?)
  }

  /** UsesModifiesRelationAbstractor::evaluateP */
  method EvaluateP(um: UsesModifiesAbstractor, kb: Pkb.ProgramKB, table: Table, proc: EntRef, v: EntRef)
    returns (res: Result<()>)
    modifies table
    ensures table.selectDecls == old(table.selectDecls) + DeclsOf(proc) + DeclsOf(v)
    ensures res.Err? ==> table.domains == old(table.domains) && table.joins == old(table.joins)
    ensures !ProcArgsOk(proc, v) ==> res.Err?
    ensures ProcArgsOk(proc, v) ==> ProcOutcome(um, kb.procedures, kb.variables, table, proc, v, res)
  {
    if proc.EntDecl? {
      table.AddSelectDecl(proc.decl);
    }
    if v.EntDecl? {
      table.AddSelectDecl(v.decl);
    }
    if proc.EntWildcard? {
      return Err("first argument of Uses/Modifies cannot be '_'");
    }
    if proc.EntDecl? && proc.decl.designEnt != ProcedureEnt {
      return Err("entity for first argument of " + um.relationName + " must be a procedure");
    }
    if v.EntDecl? && v.decl.designEnt != VariableEnt {
      return Err("entity for second argument of " + um.relationName + " must be a variable");
    }
    var procedures, variables := kb.procedures, kb.variables;
    if proc.EntName? && v.EntName? {
      var p :- Pkb.ProcedureNamed(procedures, proc.name);
      if !um.procRelates(p, v.name) {
        return Err(um.relationName + " is always false");
      }
      res := Ok(());
    } else if proc.EntName? && v.EntDecl? {
      var used :- ProcVarsNamed(um, procedures, proc.name);
      if used == {} {
        return Err(um.relationName + " is always false; the procedure relates no variables");
      }
      RestrictToNames(table, v.decl, used);
      res := Ok(());
    } else if proc.EntName? && v.EntWildcard? {
      var used :- ProcVarsNamed(um, procedures, proc.name);
      if used == {} {
        return Err(um.relationName + " is always false; the procedure relates no variables");
      }
      res := Ok(());
    } else if proc.EntDecl? && v.EntName? {
      var variable :- Pkb.VariableNamed(variables, v.name);
      var procs := um.varProcs(variable);
      if procs == {} {
        return Err(um.relationName + " is always false; no procedure relates '" + v.name + "'");
      }
      RestrictToNames(table, proc.decl, procs);
      res := Ok(());
    } else if proc.EntDecl? && v.EntDecl? {
      res := EvaluateTwoDeclRelations(ProcTwoDecl(um, procedures, proc.decl, v.decl), table);
    } else if proc.EntDecl? && v.EntWildcard? {
      res := RestrictToRelated(table, proc.decl, ProcLookup(um, procedures));
    } else {
      res := Err("unreachable");
    }
  }

  // ------------------------------------------------------------ the statement form

  /** The variables the statement with a given number relates. */
  function StmtVarsAt(um: UsesModifiesAbstractor, statements: seq<Pkb.Statement>, n: nat): (r: Result<set<string>>)
    ensures r.Ok? <==> 1 <= n <= |statements|
    ensures r.Ok? ==> r.value == um.stmtVars(statements[n - 1])
  {
    var s :- Pkb.StatementAt(statements, n);
    Ok(um.stmtVars(s))
  }

  /** The variables the statement of a statement entry relates. */
  function StmtEntryVars(um: UsesModifiesAbstractor, statements: seq<Pkb.Statement>, e: Entry): Result<set<string>>
  {
    var n :- e.GetStmtNum();
    StmtVarsAt(um, statements, n)
  }

  /** The (declaration, declaration) form: statement entries related to variable entries. */
  function StmtTwoDecl(um: UsesModifiesAbstractor, statements: seq<Pkb.Statement>,
                       stmtDecl: Declaration, varDecl: Declaration): TwoDecl<nat, string>
  {
    TwoDecl(stmtDecl, varDecl, StmtEntryValue, (n: nat) => StmtVarsAt(um, statements, n),
            EntryOfStmtNum, EntryOfString)
  }

  /** The argument checks of evaluateS: the statement may not be '_', and declarations must be a
   *  variable and a statement entity. */
  predicate StmtArgsOk(stmt: StmtRef, v: EntRef)
  {
    !stmt.StmtWildcard?
    && (v.EntDecl? ==> v.decl.designEnt == VariableEnt)
    && (stmt.StmtDecl? ==> IsStmtEnt(stmt.decl.designEnt))
  }

  /** The numbers of the statements recorded against a variable that are of entity ent. */
  ghost function RelatedStmtNums(um: UsesModifiesAbstractor, variable: Pkb.Variable, ent: DesignEnt): set<nat>
    requires ent != InvalidEnt
  {
    PkbVariable.Filtered(um.varStmts(variable), ent)
  }

  /** What evaluateS does once the arguments pass the checks. */
  twostate predicate StmtOutcome(um: UsesModifiesAbstractor, statements: seq<Pkb.Statement>,
                                 variables: map<string, Pkb.Variable>, table: Table, stmt: StmtRef, v: EntRef,
                                 new res: Result<()>)
    reads table
  {
    (!(stmt.StmtDecl? && v.EntDecl?) ==> table.joins == old(table.joins))
    && (stmt.StmtId? && v.EntName? ==>
          table.domains == old(table.domains)
          && (res.Ok? <==> 1 <= stmt.id <= |statements| && um.stmtRelates(statements[stmt.id - 1], v.name)))
    && (stmt.StmtId? && v.EntDecl? ==>
          (res.Ok? <==> 1 <= stmt.id <= |statements|)
          && (res.Ok? ==> table.domains == old(table.domains)[v.decl :=
                NameEntries(v.decl, um.stmtVars(statements[stmt.id - 1])) * DomainOf(old(table.domains), v.decl)]))
    && (stmt.StmtId? && v.EntWildcard? ==>
          table.domains == old(table.domains)
          && (res.Ok? <==> 1 <= stmt.id <= |statements| && um.stmtVars(statements[stmt.id - 1]) != {}))
    && (stmt.StmtDecl? && v.EntName? && IsStmtEnt(stmt.decl.designEnt) ==>
          (res.Ok? <==> v.name in variables)
          && (res.Ok? ==> table.domains == old(table.domains)[stmt.decl :=
                StmtEntries(stmt.decl, RelatedStmtNums(um, variables[v.name], stmt.decl.designEnt))
                * DomainOf(old(table.domains), stmt.decl)]))
    && (stmt.StmtDecl? && v.EntDecl? ==> TwoDeclOutcome(StmtTwoDecl(um, statements, stmt.decl, v.decl), table, res))
    && (stmt.StmtDecl? && v.EntWildcard? ==>
          var dom := DomainOf(old(table.domains), stmt.decl);
          var lookup := StmtLookup(um, statements);
          (res.Ok? <==> AllLooked(dom, lookup))
          && (res.Ok? ==> table.domains == old(table.domains)[stmt.decl := NonEmptyRelated(dom, lookup) * dom]))
    && (stmt.StmtInvalid? || v.EntInvalid? ==> res.Err?)
  }

  /** A statement entity is never one of the three named entities. */
  lemma StmtEntIsNotNamed(decl: Declaration)
    requires IsStmtEnt(decl.designEnt)
    ensures !NamedEnt(decl) && decl.designEnt != InvalidEnt && decl.designEnt != ProcedureEnt
  {
  }

  /** UsesModifiesRelationAbstractor::evaluateS */
  method EvaluateS(um: UsesModifiesAbstractor, kb: Pkb.ProgramKB, table: Table, stmt: StmtRef, v: EntRef)
    returns (res: Result<()>)
    modifies table
    ensures table.selectDecls ==
              old(table.selectDecls) + (if stmt.StmtDecl? then {stmt.decl} else {}) + DeclsOf(v)
    ensures res.Err? ==> table.domains == old(table.domains) && table.joins == old(table.joins)
    ensures !StmtArgsOk(stmt, v) ==> res.Err?
    ensures StmtArgsOk(stmt, v) ==> StmtOutcome(um, kb.statements, kb.variables, table, stmt, v, res)
  {
    if stmt.StmtDecl? {
      table.AddSelectDecl(stmt.decl);
    }
    if v.EntDecl? {
      table.AddSelectDecl(v.decl);
    }
    if stmt.StmtWildcard? {
      return Err("first argument of Uses/Modifies cannot be '_'");
    }
    if v.EntDecl? && v.decl.designEnt != VariableEnt {
      return Err("entity for second argument of " + um.relationName + " must be a variable");
    }
    if stmt.StmtDecl? && !IsStmtEnt(stmt.decl.designEnt) {
      return Err("first argument for " + um.relationName + " must be a statement entity");
    }
    var statements, variables := kb.statements, kb.variables;
    if stmt.StmtId? && v.EntName? {
      var s :- Pkb.StatementAt(statements, stmt.id);
      if !um.stmtRelates(s, v.name) {
        return Err(um.relationName + " is always false");
      }
      res := Ok(());
    } else if stmt.StmtId? && v.EntDecl? {
      var vars :- StmtVarsAt(um, statements, stmt.id);
      RestrictToNames(table, v.decl, vars);
      res := Ok(());
    } else if stmt.StmtId? && v.EntWildcard? {
      var vars :- StmtVarsAt(um, statements, stmt.id);
      if vars == {} {
        return Err(um.relationName + " is always false");
      }
      res := Ok(());
    } else if stmt.StmtDecl? && v.EntName? {
      var variable :- Pkb.VariableNamed(variables, v.name);
      StmtEntIsNotNamed(stmt.decl);
      var nums := PkbVariable.FilterStmts(um.varStmts(variable), stmt.decl.designEnt);
      match nums {
        case Err(m) =>
          assert false;
          res := Err(m);
        case Ok(ns) =>
          var newDomain := MakeStmtEntries(stmt.decl, ns);
          Restrict(table, stmt.decl, newDomain);
          res := Ok(());
      }
    } else if stmt.StmtDecl? && v.EntDecl? {
      res := EvaluateTwoDeclRelations(StmtTwoDecl(um, statements, stmt.decl, v.decl), table);
    } else if stmt.StmtDecl? && v.EntWildcard? {
      res := RestrictToRelated(table, stmt.decl, StmtLookup(um, statements));
    } else {
      res := Err("unreachable");
    }
  }

  /** UsesP::evaluate, UsesS::evaluate, ModifiesP::evaluate and ModifiesS::evaluate. */
  method EvaluateRelCond(kb: Pkb.ProgramKB, table: Table, cond: RelCond) returns (res: Result<()>)
    requires cond.UsesS? || cond.UsesP? || cond.ModifiesS? || cond.ModifiesP?
    modifies table
    ensures res.Err? ==> table.domains == old(table.domains) && table.joins == old(table.joins)
    ensures cond.UsesP? && ProcArgsOk(cond.userP, cond.ent) ==>
              ProcOutcome(Uses(), kb.procedures, kb.variables, table, cond.userP, cond.ent, res)
    ensures cond.ModifiesP? && ProcArgsOk(cond.modifierP, cond.ent) ==>
              ProcOutcome(Modifies(), kb.procedures, kb.variables, table, cond.modifierP, cond.ent, res)
    ensures cond.UsesS? && StmtArgsOk(cond.userS, cond.ent) ==>
              StmtOutcome(Uses(), kb.statements, kb.variables, table, cond.userS, cond.ent, res)
    ensures cond.ModifiesS? && StmtArgsOk(cond.modifierS, cond.ent) ==>
              StmtOutcome(Modifies(), kb.statements, kb.variables, table, cond.modifierS, cond.ent, res)
  {
    match cond {
      case UsesP(p, e) => res := EvaluateP(Uses(), kb, table, p, e);
      case ModifiesP(p, e) => res := EvaluateP(Modifies(), kb, table, p, e);
      case UsesS(s, e) => res := EvaluateS(Uses(), kb, table, s, e);
      case ModifiesS(s, e) => res := EvaluateS(Modifies(), kb, table, s, e);
    }
  }
}
