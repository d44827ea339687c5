/**
 * The statement filters of a variable (pkb/variable.cpp): which of the statements that use or
 * modify a variable are of a given design entity.
 */
module PkbVariable {
  import opened Wrappers
  import SimpleAst
  import PqlAst
  import Pkb

  /** design_entity_matches: fails only for an entity outside the enumeration's named cases. */
  function DesignEntityMatches(stmt: SimpleAst.Stmt, ent: PqlAst.DesignEnt): (r: Result<bool>)
    ensures r.Err? <==> ent == PqlAst.InvalidEnt
  {
    match ent
    case StmtEnt => Ok(true)
    case ProgLineEnt => Ok(true)
    case ReadEnt => Ok(stmt.ReadStmt?)
    case PrintEnt => Ok(stmt.PrintStmt?)
    case CallEnt => Ok(stmt.ProcCall?)
    case WhileEnt => Ok(stmt.WhileLoop?)
    case IfEnt => Ok(stmt.IfStmt?)
    case AssignEnt => Ok(stmt.AssignStmt?)
    case VariableEnt => Ok(false)
    case ConstantEnt => Ok(false)
    case ProcedureEnt => Ok(false)
    case InvalidEnt => Err("invalid design entity")
  }

  /** The statement kind each statement entity stands for. */
  predicate IsOfKind(stmt: SimpleAst.Stmt, ent: PqlAst.DesignEnt)
  {
    match ent
    case ReadEnt => stmt.ReadStmt?
    case PrintEnt => stmt.PrintStmt?
    case CallEnt => stmt.ProcCall?
    case WhileEnt => stmt.WhileLoop?
    case IfEnt => stmt.IfStmt?
    case AssignEnt => stmt.AssignStmt?
    case _ => false
  }

  /** stmt and prog_line match every statement, the six kinds match their own statements, and
   *  variable, constant and procedure match none. */
  lemma MatchesByGroup(stmt: SimpleAst.Stmt, ent: PqlAst.DesignEnt)
    ensures ent in {PqlAst.StmtEnt, PqlAst.ProgLineEnt} ==> DesignEntityMatches(stmt, ent) == Ok(true)
    ensures ent in {PqlAst.ReadEnt, PqlAst.PrintEnt, PqlAst.CallEnt, PqlAst.WhileEnt, PqlAst.IfEnt, PqlAst.AssignEnt} ==>
              DesignEntityMatches(stmt, ent) == Ok(IsOfKind(stmt, ent))
    ensures ent in {PqlAst.VariableEnt, PqlAst.ConstantEnt, PqlAst.ProcedureEnt} ==>
              DesignEntityMatches(stmt, ent) == Ok(false)
  {
  }

  /** The numbers of the statements in stmts that match ent. */
  ghost function Filtered(stmts: set<Pkb.Statement>, ent: PqlAst.DesignEnt): set<nat>
    requires ent != PqlAst.InvalidEnt
  {
    set s | s in stmts && DesignEntityMatches(s.ast, ent) == Ok(true) :: s.stmtNum
  }

  /** The loop shared by the two filtered getters; the entity test fails on the first statement
   *  it meets when the entity is invalid, and is never run on an empty set. */
  method FilterStmts(stmts: set<Pkb.Statement>, ent: PqlAst.DesignEnt) returns (r: Result<set<nat>>)
    ensures r.Err? <==> ent == PqlAst.InvalidEnt && stmts != {}
    ensures r.Ok? ==> ent != PqlAst.InvalidEnt || stmts == {}
    ensures r.Ok? && ent != PqlAst.InvalidEnt ==> r.value == Filtered(stmts, ent)
    ensures r.Ok? && ent == PqlAst.InvalidEnt ==> r.value == {}
  {
    var ret: set<nat> := {};
    var rest := stmts;
    while rest != {}
      invariant rest <= stmts
      invariant ent == PqlAst.InvalidEnt ==> rest == stmts && ret == {}
      invariant ent != PqlAst.InvalidEnt ==> ret == Filtered(stmts - rest, ent)
      decreases |rest|
    {
      var s :| s in rest;
      var m := DesignEntityMatches(s.ast, ent);
      if m.Err? {
        return Err(m.msg);
      }
      FilteredStep(stmts - rest, s, ent);
      if m.value {
        ret := ret + {s.stmtNum};
      }
      assert stmts - (rest - {s}) == (stmts - rest) + {s};
      rest := rest - {s};
    }
    assert stmts - rest == stmts;
    r := Ok(ret);
  }

  /** One more statement: its number joins the filtered ones exactly when it matches. */
  lemma FilteredStep(done: set<Pkb.Statement>, s: Pkb.Statement, ent: PqlAst.DesignEnt)
    requires ent != PqlAst.InvalidEnt
    ensures Filtered(done + {s}, ent)
            == Filtered(done, ent) + (if DesignEntityMatches(s.ast, ent) == Ok(true) then {s.stmtNum} else {})
  {
  }

  /** Variable::getUsingStmtNumsFiltered: procedure is refused before the loop. */
  method GetUsingStmtNumsFiltered(v: Pkb.Variable, ent: PqlAst.DesignEnt) returns (r: Result<set<nat>>)
    ensures ent == PqlAst.ProcedureEnt ==> r.Err?
    ensures ent != PqlAst.ProcedureEnt && ent != PqlAst.InvalidEnt ==> r == Ok(Filtered(v.usedBy, ent))
    ensures ent == PqlAst.InvalidEnt ==> (r.Err? <==> v.usedBy != {})
  {
    if ent == PqlAst.ProcedureEnt {
      return Err("invalid design entity for getUsingStmtNumsFiltered");
    }
    r := FilterStmts(v.usedBy, ent);
  }

  /** Variable::getModifyingStmtNumsFiltered */
  method GetModifyingStmtNumsFiltered(v: Pkb.Variable, ent: PqlAst.DesignEnt) returns (r: Result<set<nat>>)
    ensures ent == PqlAst.ProcedureEnt ==> r.Err?
    ensures ent != PqlAst.ProcedureEnt && ent != PqlAst.InvalidEnt ==> r == Ok(Filtered(v.modifiedBy, ent))
    ensures ent == PqlAst.InvalidEnt ==> (r.Err? <==> v.modifiedBy != {})
  {
    if ent == PqlAst.ProcedureEnt {
      return Err("invalid design entity for getModifyingStmtNumsFiltered");
    }
    r := FilterStmts(v.modifiedBy, ent);
  }

  /** What a filter keeps: all statements for stmt/prog_line, the statements of that kind for
   *  the six kinds, none for variable and constant; always a subset of the recorded ones. */
  lemma FilteredByGroup(stmts: set<Pkb.Statement>, ent: PqlAst.DesignEnt)
    requires ent != PqlAst.InvalidEnt
    ensures Filtered(stmts, ent) <= set s | s in stmts :: s.stmtNum
    ensures ent in {PqlAst.StmtEnt, PqlAst.ProgLineEnt} ==>
              Filtered(stmts, ent) == set s | s in stmts :: s.stmtNum
    ensures ent in {PqlAst.VariableEnt, PqlAst.ConstantEnt, PqlAst.ProcedureEnt} ==> Filtered(stmts, ent) == {}
    ensures forall s :: s in stmts && IsOfKind(s.ast, ent) ==> s.stmtNum in Filtered(stmts, ent)
    ensures forall n :: n in Filtered(stmts, ent) && ent !in {PqlAst.StmtEnt, PqlAst.ProgLineEnt} ==>
              exists s :: s in stmts && s.stmtNum == n && IsOfKind(s.ast, ent)
  {
    forall n | n in Filtered(stmts, ent) && ent !in {PqlAst.StmtEnt, PqlAst.ProgLineEnt}
      ensures exists s :: s in stmts && s.stmtNum == n && IsOfKind(s.ast, ent)
    {
      var s :| s in stmts && DesignEntityMatches(s.ast, ent) == Ok(true) && s.stmtNum == n;
      MatchesByGroup(s.ast, ent);
    }
    forall s | s in stmts && IsOfKind(s.ast, ent) ensures s.stmtNum in Filtered(stmts, ent) {
      MatchesByGroup(s.ast, ent);
    }
  }
}
