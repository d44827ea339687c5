/**
 * The Follows, Follows*, Calls and Calls* clauses (pql/eval/follows.cpp, pql/eval/calls.cpp):
 * each is the generic relation evaluation with a configuration of knowledge-base lookups. The
 * configurations read the knowledge base's statements, procedures and flags, passed here as
 * values.
 */
module FollowsCalls {
  import opened Wrappers
  import opened PqlAst
  import opened EvalTable
  import Pkb
  import opened RelationAbstractor

  /** The statement number or the name as an entry of a declaration's domain. */
  function StmtEntryValue(e: Entry): Result<nat> { e.GetStmtNum() }
  function NameEntryValue(e: Entry): Result<string> { e.GetVal() }

  /** A follower as a set: none when the statement number is 0. */
  function NonZero(n: nat): (r: set<nat>)
    ensures r == if n == 0 then {} else {n}
  {
    if n != 0 then {n} else {}
  }

  /** Follows: a is directly followed by b. */
  function FollowsAbstractor(statements: seq<Pkb.Statement>, followsExists: bool): Abstractor<Pkb.Statement, nat>
  {
    Abstractor(
      "Follows", None, None, true,
      (a: Pkb.Statement, b: Pkb.Statement) => a.IsFollowedBy(b.stmtNum),
      (a: Pkb.Statement, b: Pkb.Statement) => a.DoesFollow(b.stmtNum),
      (s: Pkb.Statement) => NonZero(s.directlyAfter),
      (s: Pkb.Statement) => NonZero(s.directlyBefore),
      (n: nat) => Pkb.StatementAt(statements, n),
      followsExists,
      StmtEntryValue,
      EntryOfStmtNum)
  }

  /** Follows*: a is followed by b, directly or not. */
  function FollowsTAbstractor(statements: seq<Pkb.Statement>, followsExists: bool): Abstractor<Pkb.Statement, nat>
  {
    Abstractor(
      "Follows*", None, None, true,
      (a: Pkb.Statement, b: Pkb.Statement) => a.IsFollowedTransitivelyBy(b.stmtNum),
      (a: Pkb.Statement, b: Pkb.Statement) => a.DoesFollowTransitively(b.stmtNum),
      (s: Pkb.Statement) => s.after,
      (s: Pkb.Statement) => s.before,
      (n: nat) => Pkb.StatementAt(statements, n),
      followsExists,
      StmtEntryValue,
      EntryOfStmtNum)
  }

  /** Calls: procedure a calls b directly; both arguments must be procedures. */
  function CallsAbstractor(procedures: map<string, Pkb.Procedure>, callsExists: bool): Abstractor<Pkb.Procedure, string>
  {
    Abstractor(
      "Calls", Some(ProcedureEnt), Some(ProcedureEnt), false,
      (a: Pkb.Procedure, b: Pkb.Procedure) => a.CallsProcedure(b.name),
      (a: Pkb.Procedure, b: Pkb.Procedure) => a.IsCalledByProcedure(b.name),
      (p: Pkb.Procedure) => p.calls,
      (p: Pkb.Procedure) => p.calledBy,
      (name: string) => Pkb.ProcedureNamed(procedures, name),
      callsExists,
      NameEntryValue,
      EntryOfString)
  }

  /** Calls*: procedure a calls b directly or through other procedures. */
  function CallsTAbstractor(procedures: map<string, Pkb.Procedure>, callsExists: bool): Abstractor<Pkb.Procedure, string>
  {
    Abstractor(
      "Calls*", Some(ProcedureEnt), Some(ProcedureEnt), false,
      (a: Pkb.Procedure, b: Pkb.Procedure) => a.CallsProcedureTransitively(b.name),
      (a: Pkb.Procedure, b: Pkb.Procedure) => a.IsTransitivelyCalledByProcedure(b.name),
      (p: Pkb.Procedure) => p.callsT,
      (p: Pkb.Procedure) => p.calledByT,
      (name: string) => Pkb.ProcedureNamed(procedures, name),
      callsExists,
      NameEntryValue,
      EntryOfString)
  }

  /** In every configuration the relation and the related sets agree: a holds with b exactly
   *  when b's key is among a's related values (for Follows, a statement numbered 0 is never a
   *  follower), and likewise for the inverse. */
  lemma RelatedSetsAgreeWithRelation(statements: seq<Pkb.Statement>, procedures: map<string, Pkb.Procedure>,
                                     flag: bool, a: Pkb.Statement, b: Pkb.Statement, p: Pkb.Procedure, q: Pkb.Procedure)
    ensures var f := FollowsAbstractor(statements, flag);
            b.stmtNum != 0 ==>
              (f.relationHolds(a, b) <==> b.stmtNum in f.getAllRelated(a))
              && (f.inverseRelationHolds(a, b) <==> b.stmtNum in f.getAllInverselyRelated(a))
    ensures var f := FollowsTAbstractor(statements, flag);
            (f.relationHolds(a, b) <==> b.stmtNum in f.getAllRelated(a))
            && (f.inverseRelationHolds(a, b) <==> b.stmtNum in f.getAllInverselyRelated(a))
    ensures var c := CallsAbstractor(procedures, flag);
            (c.relationHolds(p, q) <==> q.name in c.getAllRelated(p))
            && (c.inverseRelationHolds(p, q) <==> q.name in c.getAllInverselyRelated(p))
    ensures var c := CallsTAbstractor(procedures, flag);
            (c.relationHolds(p, q) <==> q.name in c.getAllRelated(p))
            && (c.inverseRelationHolds(p, q) <==> q.name in c.getAllInverselyRelated(p))
  {
  }

  /** The entities of a Follows domain: the statements at the entries' numbers. */
  ghost function StmtsOf(statements: seq<Pkb.Statement>, dom: Domain, keep: Pkb.Statement -> bool): Domain
  {
    set e | e in dom && e.entryType == KStmt && 1 <= e.stmtNum <= |statements| && keep(statements[e.stmtNum - 1])
  }

  /** Follows(s, _) keeps the statements that have a follower and Follows(_, s), evaluated through
   *  the inverse, the statements that follow another; Follows* gives the same two answers. */
  lemma FollowsWildcardKeeps(statements: seq<Pkb.Statement>, flag: bool, dom: Domain)
    ensures Kept(FollowsAbstractor(statements, flag), dom, x => FollowsAbstractor(statements, flag).getAllRelated(x) != {})
            == StmtsOf(statements, dom, (s: Pkb.Statement) => s.HasFollower())
    ensures var inv := Inverse(FollowsAbstractor(statements, flag));
            Kept(inv, dom, x => inv.getAllRelated(x) != {}) == StmtsOf(statements, dom, (s: Pkb.Statement) => s.IsFollower())
  {
    var f := FollowsAbstractor(statements, flag);
    assert forall e :: EntityOf(f, e) == (if e.entryType == KStmt then Pkb.StatementAt(statements, e.stmtNum) else Err("Cannot getStmtNum for non-statement entry"));
    var inv := Inverse(f);
    assert forall e :: EntityOf(inv, e) == EntityOf(f, e);
  }

  /** Follows::evaluate */
  method EvaluateFollows(statements: seq<Pkb.Statement>, followsExists: bool, table: Table,
                         directlyBefore: StmtRef, directlyAfter: StmtRef) returns (res: Result<()>)
    modifies table
    ensures var a := FollowsAbstractor(statements, followsExists);
            var (l, r) := (OfStmtRef(directlyBefore), OfStmtRef(directlyAfter));
            (res.Err? ==> table.domains == old(table.domains) && table.joins == old(table.joins))
            && (DeclOk(a, l, None) && DeclOk(a, r, None) ==>
                  if Swaps(l, r) then Outcome(Inverse(a), table, r, l, res) else Outcome(a, table, l, r, res))
  {
    res := Evaluate(FollowsAbstractor(statements, followsExists), table, OfStmtRef(directlyBefore), OfStmtRef(directlyAfter));
  }

  /** FollowsT::evaluate */
  method EvaluateFollowsT(statements: seq<Pkb.Statement>, followsExists: bool, table: Table,
                          before: StmtRef, after: StmtRef) returns (res: Result<()>)
    modifies table
    ensures var a := FollowsTAbstractor(statements, followsExists);
            var (l, r) := (OfStmtRef(before), OfStmtRef(after));
            (res.Err? ==> table.domains == old(table.domains) && table.joins == old(table.joins))
            && (DeclOk(a, l, None) && DeclOk(a, r, None) ==>
                  if Swaps(l, r) then Outcome(Inverse(a), table, r, l, res) else Outcome(a, table, l, r, res))
  {
    res := Evaluate(FollowsTAbstractor(statements, followsExists), table, OfStmtRef(before), OfStmtRef(after));
  }

  /** Calls::evaluate: a declared argument that is not a procedure fails. */
  method EvaluateCalls(procedures: map<string, Pkb.Procedure>, callsExists: bool, table: Table,
                       caller: EntRef, proc: EntRef) returns (res: Result<()>)
    modifies table
    ensures caller.EntDecl? && caller.decl.designEnt != ProcedureEnt ==> res.Err?
    ensures proc.EntDecl? && proc.decl.designEnt != ProcedureEnt ==> res.Err?
    ensures var a := CallsAbstractor(procedures, callsExists);
            var (l, r) := (OfEntRef(caller), OfEntRef(proc));
            (res.Err? ==> table.domains == old(table.domains) && table.joins == old(table.joins))
            && (DeclOk(a, l, a.leftDeclEntity) && DeclOk(a, r, a.rightDeclEntity) ==>
                  if Swaps(l, r) then Outcome(Inverse(a), table, r, l, res) else Outcome(a, table, l, r, res))
  {
    res := Evaluate(CallsAbstractor(procedures, callsExists), table, OfEntRef(caller), OfEntRef(proc));
  }

  /** CallsT::evaluate */
  method EvaluateCallsT(procedures: map<string, Pkb.Procedure>, callsExists: bool, table: Table,
                        caller: EntRef, proc: EntRef) returns (res: Result<()>)
    modifies table
    ensures caller.EntDecl? && caller.decl.designEnt != ProcedureEnt ==> res.Err?
    ensures proc.EntDecl? && proc.decl.designEnt != ProcedureEnt ==> res.Err?
    ensures var a := CallsTAbstractor(procedures, callsExists);
            var (l, r) := (OfEntRef(caller), OfEntRef(proc));
            (res.Err? ==> table.domains == old(table.domains) && table.joins == old(table.joins))
            && (DeclOk(a, l, a.leftDeclEntity) && DeclOk(a, r, a.rightDeclEntity) ==>
                  if Swaps(l, r) then Outcome(Inverse(a), table, r, l, res) else Outcome(a, table, l, r, res))
  {
    res := Evaluate(CallsTAbstractor(procedures, callsExists), table, OfEntRef(caller), OfEntRef(proc));
  }
}
