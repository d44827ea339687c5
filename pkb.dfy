/**
 * The program knowledge base that the query evaluator reads (pkb/pkb.cpp): the numbered
 * statements, the procedures and variables by name, the constants, and the relation-exists
 * flags. The per-statement and per-procedure records are values whose one-line getters
 * (pkb/statement.cpp) become fields and membership predicates.
 */
module Pkb {
  import opened Wrappers
  import SimpleAst

  /** A numbered statement with what the design extractor recorded about it. */
  datatype Statement = Statement(
    ast: SimpleAst.Stmt,
    stmtNum: nat,
    directlyBefore: nat,
    directlyAfter: nat,
    before: set<nat>,
    after: set<nat>,
    usedVars: set<string>,
    modifiedVars: set<string>,
    conditionVars: set<string>)
  {
    /** 0 stands for "no such statement", as in the source. */
    predicate HasFollower() { directlyAfter != 0 }
    predicate IsFollower() { directlyBefore != 0 }
    predicate DoesFollow(id: nat) { directlyBefore == id }
    predicate DoesFollowTransitively(id: nat) { id in before }
    predicate IsFollowedBy(id: nat) { directlyAfter == id }
    predicate IsFollowedTransitivelyBy(id: nat) { id in after }
    predicate UsesVariable(v: string) { v in usedVars }
    predicate ModifiesVariable(v: string) { v in modifiedVars }
  }

  /** A procedure with its variables and its direct and transitive callees and callers. */
  datatype Procedure = Procedure(
    name: string,
    astProc: SimpleAst.Procedure,
    usedVars: set<string>,
    modifiedVars: set<string>,
    calls: set<string>,
    calledBy: set<string>,
    callsT: set<string>,
    calledByT: set<string>)
  {
    predicate UsesVariable(v: string) { v in usedVars }
    predicate ModifiesVariable(v: string) { v in modifiedVars }
    predicate CallsProcedure(p: string) { p in calls }
    predicate IsCalledByProcedure(p: string) { p in calledBy }
    predicate CallsProcedureTransitively(p: string) { p in callsT }
    predicate IsTransitivelyCalledByProcedure(p: string) { p in calledByT }
  }

  /** A variable with the statements and procedures that use or modify it. */
  datatype Variable = Variable(
    name: string,
    usedBy: set<Statement>,
    modifiedBy: set<Statement>,
    usedByProcs: set<string>,
    modifiedByProcs: set<string>)

  /** A procedure as addProcedure creates it: nothing recorded yet. */
  function NewProcedure(name: string, proc: SimpleAst.Procedure): Procedure
  {
    Procedure(name, proc, {}, {}, {}, {}, {}, {})
  }

  /** getStatementAt over a statement list: statement numbers start at 1. */
  function StatementAt(statements: seq<Statement>, n: nat): (r: Result<Statement>)
    ensures r.Ok? <==> 1 <= n <= |statements|
    ensures r.Ok? ==> r.value == statements[n - 1]
  {
    if n > |statements| || n == 0 then Err("StatementNum is out of range") else Ok(statements[n - 1])
  }

  /** getProcedureNamed over a procedure map. */
  function ProcedureNamed(procedures: map<string, Procedure>, name: string): (r: Result<Procedure>)
    ensures r.Ok? <==> name in procedures
    ensures r.Ok? ==> r.value == procedures[name]
  {
    if name in procedures then Ok(procedures[name]) else Err("no procedure named '" + name + "'")
  }

  /** getVariableNamed over a variable map. */
  function VariableNamed(variables: map<string, Variable>, name: string): (r: Result<Variable>)
    ensures r.Ok? <==> name in variables
    ensures r.Ok? ==> r.value == variables[name]
  {
    if name in variables then Ok(variables[name]) else Err("no variable named '" + name + "'")
  }

  class ProgramKB {
    /** Statement n is statements[n - 1]. */
    var statements: seq<Statement>
    var procedures: map<string, Procedure>
    var variables: map<string, Variable>
    var constants: set<string>
    var followsExists: bool
    var parentExists: bool
    var callsExists: bool
    /** The flags the CFG reports. */
    var nextExists: bool
    var affectsExists: bool
    var nextBipExists: bool
    var affectsBipExists: bool
    var program: SimpleAst.Program

    constructor (prog: SimpleAst.Program)
      ensures program == prog
      ensures statements == [] && procedures == map[] && variables == map[] && constants == {}
      ensures !followsExists && !parentExists && !callsExists
      ensures !nextExists && !affectsExists && !nextBipExists && !affectsBipExists
    {
      program := prog;
      statements := [];
      procedures := map[];
      variables := map[];
      constants := {};
      followsExists, parentExists, callsExists := false, false, false;
      nextExists, affectsExists, nextBipExists, affectsBipExists := false, false, false, false;
    }

    /** getStatementAt: statement numbers start at 1. */
    function GetStatementAt(n: nat): (r: Result<Statement>)
      reads this
      ensures r.Ok? <==> 1 <= n <= |statements|
      ensures r.Ok? ==> r.value == statements[n - 1]
    {
      StatementAt(statements, n)
    }

    /** getProcedureNamed */
    function GetProcedureNamed(name: string): (r: Result<Procedure>)
      reads this
      ensures r.Ok? <==> name in procedures
      ensures r.Ok? ==> r.value == procedures[name]
    {
      ProcedureNamed(procedures, name)
    }

    /** maybeGetProcedureNamed: none (the source's null) for an unknown name. */
    function MaybeGetProcedureNamed(name: string): (r: Option<Procedure>)
      reads this
      ensures r.Some? <==> name in procedures
      ensures r.Some? ==> r.value == procedures[name]
    {
      if name in procedures then Some(procedures[name]) else None
    }

    /** getVariableNamed */
    function GetVariableNamed(name: string): (r: Result<Variable>)
      reads this
      ensures r.Ok? <==> name in variables
      ensures r.Ok? ==> r.value == variables[name]
    {
      VariableNamed(variables, name)
    }

    /** maybeGetVariableNamed */
    function MaybeGetVariableNamed(name: string): (r: Option<Variable>)
      reads this
      ensures r.Some? <==> name in variables
      ensures r.Some? ==> r.value == variables[name]
    {
      if name in variables then Some(variables[name]) else None
    }

    /** addProcedure: fails on a name already present, otherwise adds exactly that entry. */
    method AddProcedure(name: string, proc: SimpleAst.Procedure) returns (r: Result<Procedure>)
      modifies this
      ensures r.Err? <==> name in old(procedures)
      ensures r.Err? ==> procedures == old(procedures)
      ensures r.Ok? ==> r.value == NewProcedure(name, proc) && procedures == old(procedures)[name := r.value]
      ensures statements == old(statements) && variables == old(variables) && constants == old(constants)
    {
      if name in procedures {
        return Err("duplicate definition of procedure '" + name + "'");
      }
      var p := NewProcedure(name, proc);
      procedures := procedures[name := p];
      r := Ok(p);
    }

    /** addConstant: set insertion, so adding a constant twice is adding it once. */
    method AddConstant(value: string)
      modifies this
      ensures constants == old(constants) + {value}
      ensures statements == old(statements) && procedures == old(procedures) && variables == old(variables)
    {
      constants := constants + {value};
    }

    function FollowsRelationExists(): bool reads this { followsExists }
    function ParentRelationExists(): bool reads this { parentExists }
    function CallsRelationExists(): bool reads this { callsExists }
    function NextRelationExists(): bool reads this { nextExists }
    function AffectsRelationExists(): bool reads this { affectsExists }
    function NextBipRelationExists(): bool reads this { nextBipExists }
    function AffectsBipRelationExists(): bool reads this { affectsBipExists }

    /** The checked and the unchecked lookups agree: the null result is exactly the failure. */
    lemma LookupsAgree(name: string)
      ensures MaybeGetProcedureNamed(name).None? <==> GetProcedureNamed(name).Err?
      ensures MaybeGetProcedureNamed(name).Some? ==>
                GetProcedureNamed(name) == Ok(MaybeGetProcedureNamed(name).value)
      ensures MaybeGetVariableNamed(name).None? <==> GetVariableNamed(name).Err?
      ensures MaybeGetVariableNamed(name).Some? ==>
                GetVariableNamed(name) == Ok(MaybeGetVariableNamed(name).value)
    {
    }
  }
}
