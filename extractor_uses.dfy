/**
 * The uses and modifies tables the design extractor fills (pkb/design_extractor.cpp,
 * processExpr, processStmt and processStmtList): a record per statement, per procedure and
 * per variable. The first pass is written here as functions on the table value, in the
 * order the source visits the tree; lemmas then say what the pass has recorded, field by
 * field.
 */
module ExtractorUses {
  import opened SimpleAst
  import opened ExtractorTree

  /** pkb::Statement: the tree node and the variables it uses and modifies. */
  datatype StmtRecord = StmtRecord(stmt: Stmt, used: set<string>, modified: set<string>)

  /** pkb::Procedure; `body` stands for the procedure's `ast_proc` node, calls for callee names. */
  datatype ProcRecord = ProcRecord(
    body: seq<NStmt>,
    used: set<string>,
    modified: set<string>,
    calls: set<string>,
    calledBy: set<string>)

  /** pkb::Variable; statements by number, procedures by name. */
  datatype VarRecord = VarRecord(
    usedBy: set<nat>,
    modifiedBy: set<nat>,
    usedByProcs: set<string>,
    modifiedByProcs: set<string>)

  /** pkb->uses_modifies: statement n is statements[n - 1]. */
  datatype UsesModifies = UsesModifies(
    statements: seq<StmtRecord>,
    procedures: map<string, ProcRecord>,
    variables: map<string, VarRecord>)

  /** What collectStmt pushes for a statement: nothing recorded yet. */
  function NewRecord(s: Stmt): StmtRecord
  {
    StmtRecord(s, {}, {})
  }

  /** The entries operator[] creates for a name not yet in the map. */
  const EmptyProc := ProcRecord([], {}, {}, {}, {})
  const EmptyVar := VarRecord({}, {}, {}, {})

  function ProcAt(u: UsesModifies, name: string): ProcRecord
  {
    if name in u.procedures then u.procedures[name] else EmptyProc
  }

  function VarAt(u: UsesModifies, v: string): VarRecord
  {
    if v in u.variables then u.variables[v] else EmptyVar
  }

  /** The variables an expression reads. */
  function ExprVars(e: Expr): set<string>
    decreases e
  {
    match e
    case VarRef(name) => {name}
    case Constant(_) => {}
    case BinaryOp(_, lhs, rhs) => ExprVars(lhs) + ExprVars(rhs)
    case UnaryOp(_, inner) => ExprVars(inner)
  }

  /** What a statement uses by itself, its nested statements aside: an assignment its right-hand
   *  side, print its variable, if and while their conditions. */
  function DirectUses(n: NStmt): set<string>
  {
    match n
    case NAssign(_, _, rhs) => ExprVars(rhs)
    case NPrint(_, v) => {v}
    case NIf(_, c, _, _) => ExprVars(c)
    case NWhile(_, c, _) => ExprVars(c)
    case _ => {}
  }

  /** What a statement modifies by itself: an assignment its left-hand side, read its variable. */
  function DirectModifies(n: NStmt): set<string>
  {
    match n
    case NAssign(_, lhs, _) => {lhs}
    case NRead(_, v) => {v}
    case _ => {}
  }

  /** The procedure a call statement names. */
  function DirectCalls(n: NStmt): set<string>
  {
    if n.NCall? then {n.procName} else {}
  }

  predicate HasStmt(u: UsesModifies, id: nat)
  {
    1 <= id <= |u.statements|
  }

  /** Every statement of p has a record. */
  predicate Within(p: seq<NStmt>, count: nat)
  {
    forall k :: 0 <= k < |p| ==> 1 <= p[k].id <= count
  }

  lemma WithinAppend(p: seq<NStmt>, q: seq<NStmt>, count: nat)
    ensures Within(p + q, count) <==> Within(p, count) && Within(q, count)
  {
    if Within(p + q, count) {
      forall k | 0 <= k < |p| ensures 1 <= p[k].id <= count {
        assert p[k] == (p + q)[k];
      }
      forall k | 0 <= k < |q| ensures 1 <= q[k].id <= count {
        assert q[k] == (p + q)[|p| + k];
      }
    }
    if Within(p, count) && Within(q, count) {
      forall k | 0 <= k < |p + q| ensures 1 <= (p + q)[k].id <= count {
        if k >= |p| {
          assert (p + q)[k] == q[k - |p|];
        }
      }
    }
  }

  lemma WithinSubtree(n: NStmt, count: nat)
    requires Within(Subtree(n), count)
    ensures 1 <= n.id <= count
    ensures n.NIf? ==> Within(Preorder(n.trueCase), count) && Within(Preorder(n.falseCase), count)
    ensures n.NWhile? ==> Within(Preorder(n.body), count)
  {
    assert Subtree(n)[0] == n;
    match n
    case NIf(_, _, t, f) =>
      WithinAppend([n], Preorder(t), count);
      WithinAppend([n] + Preorder(t), Preorder(f), count);
    case NWhile(_, _, b) =>
      WithinAppend([n], Preorder(b), count);
    case _ =>
  }

  lemma WithinPreorder(l: seq<NStmt>, count: nat)
    requires |l| > 0 && Within(Preorder(l), count)
    ensures Within(Subtree(l[0]), count) && Within(Preorder(l[1..]), count)
  {
    WithinAppend(Subtree(l[0]), Preorder(l[1..]), count);
  }

  // The updates of one statement's own part, as processExpr and processStmt make them.

  /** Statement id of procedure proc uses the variables vars: the statement, the procedure and
   *  each variable record it. */
  function AddUses(u: UsesModifies, vars: set<string>, id: nat, proc: string): (r: UsesModifies)
    requires HasStmt(u, id) && proc in u.procedures
    ensures |r.statements| == |u.statements| && r.procedures.Keys == u.procedures.Keys
  {
    var s := u.statements[id - 1];
    var p := u.procedures[proc];
    UsesModifies(
      u.statements[id - 1 := s.(used := s.used + vars)],
      u.procedures[proc := p.(used := p.used + vars)],
      map v | v in u.variables.Keys + vars ::
        if v in vars then VarAt(u, v).(usedBy := VarAt(u, v).usedBy + {id}, usedByProcs := VarAt(u, v).usedByProcs + {proc})
        else u.variables[v])
  }

  /** Statement id of procedure proc modifies the variables vars. */
  function AddModifies(u: UsesModifies, vars: set<string>, id: nat, proc: string): (r: UsesModifies)
    requires HasStmt(u, id) && proc in u.procedures
    ensures |r.statements| == |u.statements| && r.procedures.Keys == u.procedures.Keys
  {
    var s := u.statements[id - 1];
    var p := u.procedures[proc];
    UsesModifies(
      u.statements[id - 1 := s.(modified := s.modified + vars)],
      u.procedures[proc := p.(modified := p.modified + vars)],
      map v | v in u.variables.Keys + vars ::
        if v in vars then VarAt(u, v).(modifiedBy := VarAt(u, v).modifiedBy + {id}, modifiedByProcs := VarAt(u, v).modifiedByProcs + {proc})
        else u.variables[v])
  }

  /** Procedure proc calls callee: proc records the call, callee the caller. */
  function AddCall(u: UsesModifies, proc: string, callee: string): (r: UsesModifies)
    ensures |r.statements| == |u.statements| && r.procedures.Keys == u.procedures.Keys + {proc, callee}
  {
    var u1 := u.(procedures := u.procedures[proc := ProcAt(u, proc).(calls := ProcAt(u, proc).calls + {callee})]);
    u1.(procedures := u1.procedures[callee := ProcAt(u1, callee).(calledBy := ProcAt(u1, callee).calledBy + {proc})])
  }

  // The first pass, in the order of the source.

  /** processExpr: every variable reference of e is used by statement id. */
  function ExprPass(u: UsesModifies, e: Expr, id: nat, proc: string): (r: UsesModifies)
    requires HasStmt(u, id) && proc in u.procedures
    ensures |r.statements| == |u.statements| && r.procedures.Keys == u.procedures.Keys
    decreases e
  {
    match e
    case VarRef(name) => AddUses(u, {name}, id, proc)
    case Constant(_) => u
    case BinaryOp(_, lhs, rhs) => ExprPass(ExprPass(u, lhs, id, proc), rhs, id, proc)
    case UnaryOp(_, inner) => ExprPass(u, inner, id, proc)
  }

  /** processStmt: the bodies of a container first, then its condition. */
  function StmtPass(u: UsesModifies, n: NStmt, proc: string): (r: UsesModifies)
    requires Within(Subtree(n), |u.statements|) && proc in u.procedures
    ensures |r.statements| == |u.statements| && u.procedures.Keys <= r.procedures.Keys
    decreases n
  {
    WithinSubtree(n, |u.statements|);
    match n
    case NIf(id, c, t, f) =>
      var u1 := ListPass(u, t, proc);
      var u2 := ListPass(u1, f, proc);
      ExprPass(u2, c, id, proc)
    case NWhile(id, c, b) => ExprPass(ListPass(u, b, proc), c, id, proc)
    case NAssign(id, lhs, rhs) => ExprPass(AddModifies(u, {lhs}, id, proc), rhs, id, proc)
    case NRead(id, v) => AddModifies(u, {v}, id, proc)
    case NPrint(id, v) => AddUses(u, {v}, id, proc)
    case NCall(_, callee) => AddCall(u, proc, callee)
  }

  /** processStmtList */
  function ListPass(u: UsesModifies, l: seq<NStmt>, proc: string): (r: UsesModifies)
    requires Within(Preorder(l), |u.statements|) && proc in u.procedures
    ensures |r.statements| == |u.statements| && u.procedures.Keys <= r.procedures.Keys
    decreases l
  {
    if |l| == 0 then u
    else
      WithinPreorder(l, |u.statements|);
      ListPass(StmtPass(u, l[0], proc), l[1..], proc)
  }

  // The same pass as a sequence of per-statement updates.

  /** The update for one statement's own part. */
  function Effect(u: UsesModifies, n: NStmt, proc: string): (r: UsesModifies)
    requires HasStmt(u, n.id) && proc in u.procedures
    ensures |r.statements| == |u.statements| && u.procedures.Keys <= r.procedures.Keys
  {
    match n
    case NAssign(id, lhs, rhs) => AddUses(AddModifies(u, {lhs}, id, proc), ExprVars(rhs), id, proc)
    case NRead(id, v) => AddModifies(u, {v}, id, proc)
    case NPrint(id, v) => AddUses(u, {v}, id, proc)
    case NCall(_, callee) => AddCall(u, proc, callee)
    case NIf(id, c, _, _) => AddUses(u, ExprVars(c), id, proc)
    case NWhile(id, c, _) => AddUses(u, ExprVars(c), id, proc)
  }

  /** The updates for the statements of p, one after another. */
  function Grow(u: UsesModifies, p: seq<NStmt>, proc: string): (r: UsesModifies)
    requires Within(p, |u.statements|) && proc in u.procedures
    ensures |r.statements| == |u.statements| && u.procedures.Keys <= r.procedures.Keys
    decreases |p|
  {
    if |p| == 0 then u else Grow(Effect(u, p[0], proc), p[1..], proc)
  }

  /** The order in which processStmt finishes statements: the bodies of a container, then it. */
  function PostSubtree(n: NStmt): seq<NStmt>
    decreases n
  {
    match n
    case NIf(_, _, t, f) => PostOrder(t) + PostOrder(f) + [n]
    case NWhile(_, _, b) => PostOrder(b) + [n]
    case _ => [n]
  }

  function PostOrder(l: seq<NStmt>): seq<NStmt>
    decreases l
  {
    if |l| == 0 then [] else PostSubtree(l[0]) + PostOrder(l[1..])
  }

  /** The two walks visit the same statements. */
  lemma {:induction false} PostOrderSame(l: seq<NStmt>)
    ensures forall n :: n in PostOrder(l) <==> n in Preorder(l)
    decreases l
  {
    if |l| > 0 {
      PostSubtreeSame(l[0]);
      PostOrderSame(l[1..]);
    }
  }

  lemma {:induction false} PostSubtreeSame(n: NStmt)
    ensures forall m :: m in PostSubtree(n) <==> m in Subtree(n)
    decreases n
  {
    match n
    case NIf(_, _, t, f) =>
      PostOrderSame(t);
      PostOrderSame(f);
    case NWhile(_, _, b) =>
      PostOrderSame(b);
    case _ =>
  }

  lemma PostOrderWithin(l: seq<NStmt>, count: nat)
    requires Within(Preorder(l), count)
    ensures Within(PostOrder(l), count)
  {
    PostOrderSame(l);
    forall k | 0 <= k < |PostOrder(l)| ensures 1 <= PostOrder(l)[k].id <= count {
      var m := PostOrder(l)[k];
      assert m in Preorder(l);
      var j :| 0 <= j < |Preorder(l)| && Preorder(l)[j] == m;
    }
  }

  lemma PostSubtreeWithin(n: NStmt, count: nat)
    requires Within(Subtree(n), count)
    ensures Within(PostSubtree(n), count)
  {
    PostSubtreeSame(n);
    forall k | 0 <= k < |PostSubtree(n)| ensures 1 <= PostSubtree(n)[k].id <= count {
      var m := PostSubtree(n)[k];
      assert m in Subtree(n);
      var j :| 0 <= j < |Subtree(n)| && Subtree(n)[j] == m;
    }
  }

  lemma {:induction false} GrowAppend(u: UsesModifies, p: seq<NStmt>, q: seq<NStmt>, proc: string)
    requires Within(p, |u.statements|) && Within(q, |u.statements|) && proc in u.procedures
    ensures Within(p + q, |u.statements|)
    ensures Grow(u, p + q, proc) == Grow(Grow(u, p, proc), q, proc)
    decreases |p|
  {
    WithinAppend(p, q, |u.statements|);
    if |p| > 0 {
      assert (p + q)[0] == p[0];
      assert (p + q)[1..] == p[1..] + q;
      GrowAppend(Effect(u, p[0], proc), p[1..], q, proc);
    } else {
      assert p + q == q;
    }
  }

  /** Adding the variables of two parts one after the other adds their union. */
  lemma AddUsesTwice(u: UsesModifies, a: set<string>, b: set<string>, id: nat, proc: string)
    requires HasStmt(u, id) && proc in u.procedures
    ensures AddUses(AddUses(u, a, id, proc), b, id, proc) == AddUses(u, a + b, id, proc)
  {
    var x := AddUses(AddUses(u, a, id, proc), b, id, proc);
    var y := AddUses(u, a + b, id, proc);
    var s := u.statements[id - 1];
    var p := u.procedures[proc];
    assert s.used + a + b == s.used + (a + b);
    assert p.used + a + b == p.used + (a + b);
    assert x.statements == y.statements by {
      forall i | 0 <= i < |x.statements| ensures x.statements[i] == y.statements[i] {
      }
    }
    assert x.procedures == y.procedures;
    assert x.variables == y.variables;
  }

  lemma AddUsesNothing(u: UsesModifies, id: nat, proc: string)
    requires HasStmt(u, id) && proc in u.procedures
    ensures AddUses(u, {}, id, proc) == u
  {
    var x := AddUses(u, {}, id, proc);
    var s := u.statements[id - 1];
    var p := u.procedures[proc];
    assert s.(used := s.used + {}) == s;
    assert p.(used := p.used + {}) == p;
    assert x.statements == u.statements;
    assert x.procedures == u.procedures;
    assert x.variables == u.variables;
  }

  /** processExpr records exactly the variables the expression reads. */
  lemma {:induction false} ExprPassUses(u: UsesModifies, e: Expr, id: nat, proc: string)
    requires HasStmt(u, id) && proc in u.procedures
    ensures ExprPass(u, e, id, proc) == AddUses(u, ExprVars(e), id, proc)
    decreases e
  {
    match e
    case VarRef(_) =>
    case Constant(_) =>
      AddUsesNothing(u, id, proc);
    case BinaryOp(_, lhs, rhs) =>
      ExprPassUses(u, lhs, id, proc);
      ExprPassUses(ExprPass(u, lhs, id, proc), rhs, id, proc);
      AddUsesTwice(u, ExprVars(lhs), ExprVars(rhs), id, proc);
    case UnaryOp(_, inner) =>
      ExprPassUses(u, inner, id, proc);
  }

  /** The first pass over a statement is the per-statement updates in the order it finishes them. */
  lemma {:induction false} StmtPassGrows(u: UsesModifies, n: NStmt, proc: string)
    requires Within(Subtree(n), |u.statements|) && proc in u.procedures
    ensures Within(PostSubtree(n), |u.statements|)
    ensures StmtPass(u, n, proc) == Grow(u, PostSubtree(n), proc)
    decreases n
  {
    WithinSubtree(n, |u.statements|);
    PostSubtreeWithin(n, |u.statements|);
    var count := |u.statements|;
    match n
    case NIf(id, c, t, f) =>
      PostOrderWithin(t, count);
      PostOrderWithin(f, count);
      var u1 := ListPass(u, t, proc);
      var u2 := ListPass(u1, f, proc);
      ListPassGrows(u, t, proc);
      ListPassGrows(u1, f, proc);
      ExprPassUses(u2, c, id, proc);
      GrowAppend(u, PostOrder(t), PostOrder(f), proc);
      GrowAppend(u, PostOrder(t) + PostOrder(f), [n], proc);
    case NWhile(id, c, b) =>
      PostOrderWithin(b, count);
      ListPassGrows(u, b, proc);
      ExprPassUses(ListPass(u, b, proc), c, id, proc);
      GrowAppend(u, PostOrder(b), [n], proc);
    case NAssign(id, lhs, rhs) =>
      ExprPassUses(AddModifies(u, {lhs}, id, proc), rhs, id, proc);
    case _ =>
  }

  lemma {:induction false} ListPassGrows(u: UsesModifies, l: seq<NStmt>, proc: string)
    requires Within(Preorder(l), |u.statements|) && proc in u.procedures
    ensures Within(PostOrder(l), |u.statements|)
    ensures ListPass(u, l, proc) == Grow(u, PostOrder(l), proc)
    decreases l
  {
    PostOrderWithin(l, |u.statements|);
    if |l| > 0 {
      WithinPreorder(l, |u.statements|);
      PostSubtreeWithin(l[0], |u.statements|);
      PostOrderWithin(l[1..], |u.statements|);
      StmtPassGrows(u, l[0], proc);
      ListPassGrows(StmtPass(u, l[0], proc), l[1..], proc);
      GrowAppend(u, PostSubtree(l[0]), PostOrder(l[1..]), proc);
    }
  }

  // What the first pass records, field by field.

  function StmtPlus(s: StmtRecord, used: set<string>, modified: set<string>): StmtRecord
  {
    s.(used := s.used + used, modified := s.modified + modified)
  }

  function ProcPlus(r: ProcRecord, used: set<string>, modified: set<string>, calls: set<string>, calledBy: set<string>): ProcRecord
  {
    r.(used := r.used + used, modified := r.modified + modified, calls := r.calls + calls, calledBy := r.calledBy + calledBy)
  }

  function VarPlus(r: VarRecord, usedBy: set<nat>, modifiedBy: set<nat>, usedByProcs: set<string>, modifiedByProcs: set<string>): VarRecord
  {
    r.(usedBy := r.usedBy + usedBy, modifiedBy := r.modifiedBy + modifiedBy,
       usedByProcs := r.usedByProcs + usedByProcs, modifiedByProcs := r.modifiedByProcs + modifiedByProcs)
  }

  function If<T>(b: bool, s: set<T>): set<T>
  {
    if b then s else {}
  }

  /** The variables the statements of p numbered x use by themselves. */
  function UsedAt(p: seq<NStmt>, x: nat): set<string>
    decreases |p|
  {
    if |p| == 0 then {} else If(p[0].id == x, DirectUses(p[0])) + UsedAt(p[1..], x)
  }

  function ModifiedAt(p: seq<NStmt>, x: nat): set<string>
    decreases |p|
  {
    if |p| == 0 then {} else If(p[0].id == x, DirectModifies(p[0])) + ModifiedAt(p[1..], x)
  }

  /** The variables the statements of p use by themselves. */
  function UsedIn(p: seq<NStmt>): set<string>
    decreases |p|
  {
    if |p| == 0 then {} else DirectUses(p[0]) + UsedIn(p[1..])
  }

  function ModifiedIn(p: seq<NStmt>): set<string>
    decreases |p|
  {
    if |p| == 0 then {} else DirectModifies(p[0]) + ModifiedIn(p[1..])
  }

  /** The procedures the call statements of p name. */
  function CalledIn(p: seq<NStmt>): set<string>
    decreases |p|
  {
    if |p| == 0 then {} else DirectCalls(p[0]) + CalledIn(p[1..])
  }

  /** The numbers of the statements of p that use v by themselves. */
  function UsersOf(p: seq<NStmt>, v: string): set<nat>
    decreases |p|
  {
    if |p| == 0 then {} else If(v in DirectUses(p[0]), {p[0].id}) + UsersOf(p[1..], v)
  }

  function ModifiersOf(p: seq<NStmt>, v: string): set<nat>
    decreases |p|
  {
    if |p| == 0 then {} else If(v in DirectModifies(p[0]), {p[0].id}) + ModifiersOf(p[1..], v)
  }

  lemma AddUsesFields(u: UsesModifies, vars: set<string>, id: nat, proc: string)
    requires HasStmt(u, id) && proc in u.procedures
    ensures var r := AddUses(u, vars, id, proc);
      && (forall i :: 0 <= i < |u.statements| ==> r.statements[i] == StmtPlus(u.statements[i], If(i + 1 == id, vars), {}))
      && (forall q :: ProcAt(r, q) == ProcPlus(ProcAt(u, q), If(q == proc, vars), {}, {}, {}))
      && (forall v :: VarAt(r, v) == VarPlus(VarAt(u, v), If(v in vars, {id}), {}, If(v in vars, {proc}), {}))
      && r.variables.Keys == u.variables.Keys + vars
  {
    var r := AddUses(u, vars, id, proc);
    forall i | 0 <= i < |u.statements|
      ensures r.statements[i] == StmtPlus(u.statements[i], If(i + 1 == id, vars), {})
    {
    }
    forall q ensures ProcAt(r, q) == ProcPlus(ProcAt(u, q), If(q == proc, vars), {}, {}, {}) {
    }
    forall v ensures VarAt(r, v) == VarPlus(VarAt(u, v), If(v in vars, {id}), {}, If(v in vars, {proc}), {}) {
    }
  }

  lemma AddModifiesFields(u: UsesModifies, vars: set<string>, id: nat, proc: string)
    requires HasStmt(u, id) && proc in u.procedures
    ensures var r := AddModifies(u, vars, id, proc);
      && (forall i :: 0 <= i < |u.statements| ==> r.statements[i] == StmtPlus(u.statements[i], {}, If(i + 1 == id, vars)))
      && (forall q :: ProcAt(r, q) == ProcPlus(ProcAt(u, q), {}, If(q == proc, vars), {}, {}))
      && (forall v :: VarAt(r, v) == VarPlus(VarAt(u, v), {}, If(v in vars, {id}), {}, If(v in vars, {proc})))
      && r.variables.Keys == u.variables.Keys + vars
  {
    var r := AddModifies(u, vars, id, proc);
    forall i | 0 <= i < |u.statements|
      ensures r.statements[i] == StmtPlus(u.statements[i], {}, If(i + 1 == id, vars))
    {
    }
    forall q ensures ProcAt(r, q) == ProcPlus(ProcAt(u, q), {}, If(q == proc, vars), {}, {}) {
    }
    forall v ensures VarAt(r, v) == VarPlus(VarAt(u, v), {}, If(v in vars, {id}), {}, If(v in vars, {proc})) {
    }
  }

  lemma AddCallFields(u: UsesModifies, proc: string, callee: string)
    ensures var r := AddCall(u, proc, callee);
      && r.statements == u.statements
      && (forall q :: ProcAt(r, q) == ProcPlus(ProcAt(u, q), {}, {}, If(q == proc, {callee}), If(q == callee, {proc})))
      && r.variables == u.variables
  {
    var r := AddCall(u, proc, callee);
    forall q ensures ProcAt(r, q) == ProcPlus(ProcAt(u, q), {}, {}, If(q == proc, {callee}), If(q == callee, {proc})) {
    }
  }

  /** One statement's own update: what each statement record gains. */
  lemma EffectStatements(u: UsesModifies, n: NStmt, proc: string)
    requires HasStmt(u, n.id) && proc in u.procedures
    ensures var r := Effect(u, n, proc);
      forall i :: 0 <= i < |u.statements| ==>
        r.statements[i] == StmtPlus(u.statements[i], If(n.id == i + 1, DirectUses(n)), If(n.id == i + 1, DirectModifies(n)))
  {
    match n
    case NAssign(id, lhs, rhs) =>
      AddModifiesFields(u, {lhs}, id, proc);
      AddUsesFields(AddModifies(u, {lhs}, id, proc), ExprVars(rhs), id, proc);
    case NRead(id, v) =>
      AddModifiesFields(u, {v}, id, proc);
    case NPrint(id, v) =>
      AddUsesFields(u, {v}, id, proc);
    case NCall(_, callee) =>
      AddCallFields(u, proc, callee);
    case NIf(id, c, _, _) =>
      AddUsesFields(u, ExprVars(c), id, proc);
    case NWhile(id, c, _) =>
      AddUsesFields(u, ExprVars(c), id, proc);
  }

  /** What each procedure record gains. */
  lemma EffectProc(u: UsesModifies, n: NStmt, proc: string, q: string)
    requires HasStmt(u, n.id) && proc in u.procedures
    ensures ProcAt(Effect(u, n, proc), q) == ProcPlus(ProcAt(u, q), If(q == proc, DirectUses(n)), If(q == proc, DirectModifies(n)),
                                                      If(q == proc, DirectCalls(n)), If(q in DirectCalls(n), {proc}))
  {
    match n
    case NAssign(id, lhs, rhs) =>
      AddModifiesProc(u, {lhs}, id, proc, q);
      AddUsesProc(AddModifies(u, {lhs}, id, proc), ExprVars(rhs), id, proc, q);
      ProcPlusTwice(ProcAt(u, q), {}, If(q == proc, {lhs}), {}, {}, If(q == proc, ExprVars(rhs)), {}, {}, {});
    case NRead(id, x) =>
      AddModifiesProc(u, {x}, id, proc, q);
    case NPrint(id, x) =>
      AddUsesProc(u, {x}, id, proc, q);
    case NCall(_, callee) =>
      AddCallProc(u, proc, callee, q);
    case NIf(id, c, _, _) =>
      AddUsesProc(u, ExprVars(c), id, proc, q);
    case NWhile(id, c, _) =>
      AddUsesProc(u, ExprVars(c), id, proc, q);
  }

  lemma AddUsesProc(u: UsesModifies, vars: set<string>, id: nat, proc: string, q: string)
    requires HasStmt(u, id) && proc in u.procedures
    ensures ProcAt(AddUses(u, vars, id, proc), q) == ProcPlus(ProcAt(u, q), If(q == proc, vars), {}, {}, {})
  {
  }

  lemma AddModifiesProc(u: UsesModifies, vars: set<string>, id: nat, proc: string, q: string)
    requires HasStmt(u, id) && proc in u.procedures
    ensures ProcAt(AddModifies(u, vars, id, proc), q) == ProcPlus(ProcAt(u, q), {}, If(q == proc, vars), {}, {})
  {
  }

  lemma AddCallProc(u: UsesModifies, proc: string, callee: string, q: string)
    ensures ProcAt(AddCall(u, proc, callee), q) == ProcPlus(ProcAt(u, q), {}, {}, If(q == proc, {callee}), If(q == callee, {proc}))
  {
  }

  lemma VarPlusTwice(r: VarRecord, a1: set<nat>, a2: set<nat>, a3: set<string>, a4: set<string>,
                      b1: set<nat>, b2: set<nat>, b3: set<string>, b4: set<string>)
    ensures VarPlus(VarPlus(r, a1, a2, a3, a4), b1, b2, b3, b4) == VarPlus(r, a1 + b1, a2 + b2, a3 + b3, a4 + b4)
  {
    assert r.usedBy + a1 + b1 == r.usedBy + (a1 + b1);
    assert r.modifiedBy + a2 + b2 == r.modifiedBy + (a2 + b2);
    assert r.usedByProcs + a3 + b3 == r.usedByProcs + (a3 + b3);
    assert r.modifiedByProcs + a4 + b4 == r.modifiedByProcs + (a4 + b4);
  }

  lemma AddUsesVar(u: UsesModifies, vars: set<string>, id: nat, proc: string, v: string)
    requires HasStmt(u, id) && proc in u.procedures
    ensures VarAt(AddUses(u, vars, id, proc), v) == VarPlus(VarAt(u, v), If(v in vars, {id}), {}, If(v in vars, {proc}), {})
  {
  }

  lemma AddModifiesVar(u: UsesModifies, vars: set<string>, id: nat, proc: string, v: string)
    requires HasStmt(u, id) && proc in u.procedures
    ensures VarAt(AddModifies(u, vars, id, proc), v) == VarPlus(VarAt(u, v), {}, If(v in vars, {id}), {}, If(v in vars, {proc}))
  {
  }

  /** One statement's own update, seen from one variable. */
  lemma EffectVar(u: UsesModifies, n: NStmt, proc: string, v: string)
    requires HasStmt(u, n.id) && proc in u.procedures
    ensures VarAt(Effect(u, n, proc), v) == VarPlus(VarAt(u, v), If(v in DirectUses(n), {n.id}), If(v in DirectModifies(n), {n.id}),
                                                    If(v in DirectUses(n), {proc}), If(v in DirectModifies(n), {proc}))
  {
    match n
    case NAssign(id, lhs, rhs) =>
      AddModifiesVar(u, {lhs}, id, proc, v);
      AddUsesVar(AddModifies(u, {lhs}, id, proc), ExprVars(rhs), id, proc, v);
      VarPlusTwice(VarAt(u, v), {}, If(v in {lhs}, {id}), {}, If(v in {lhs}, {proc}),
                   If(v in ExprVars(rhs), {id}), {}, If(v in ExprVars(rhs), {proc}), {});
    case NRead(id, x) =>
      AddModifiesVar(u, {x}, id, proc, v);
    case NPrint(id, x) =>
      AddUsesVar(u, {x}, id, proc, v);
    case NCall(_, callee) =>
      AddCallFields(u, proc, callee);
    case NIf(id, c, _, _) =>
      AddUsesVar(u, ExprVars(c), id, proc, v);
    case NWhile(id, c, _) =>
      AddUsesVar(u, ExprVars(c), id, proc, v);
  }

  lemma EffectVarKeys(u: UsesModifies, n: NStmt, proc: string)
    requires HasStmt(u, n.id) && proc in u.procedures
    ensures Effect(u, n, proc).variables.Keys == u.variables.Keys + DirectUses(n) + DirectModifies(n)
  {
    match n
    case NAssign(id, lhs, rhs) =>
      var u1 := AddModifies(u, {lhs}, id, proc);
      assert u1.variables.Keys == u.variables.Keys + {lhs};
      assert AddUses(u1, ExprVars(rhs), id, proc).variables.Keys == u1.variables.Keys + ExprVars(rhs);
    case NCall(_, callee) =>
      AddCallFields(u, proc, callee);
    case _ =>
  }

  /** What each variable record gains. */
  lemma EffectVariables(u: UsesModifies, n: NStmt, proc: string)
    requires HasStmt(u, n.id) && proc in u.procedures
    ensures var r := Effect(u, n, proc);
      && (forall v :: VarAt(r, v) == VarPlus(VarAt(u, v), If(v in DirectUses(n), {n.id}), If(v in DirectModifies(n), {n.id}),
                                              If(v in DirectUses(n), {proc}), If(v in DirectModifies(n), {proc})))
      && r.variables.Keys == u.variables.Keys + DirectUses(n) + DirectModifies(n)
  {
    forall v ensures VarAt(Effect(u, n, proc), v) == VarPlus(VarAt(u, v), If(v in DirectUses(n), {n.id}), If(v in DirectModifies(n), {n.id}),
                                              If(v in DirectUses(n), {proc}), If(v in DirectModifies(n), {proc}))
    {
      EffectVar(u, n, proc, v);
    }
    EffectVarKeys(u, n, proc);
  }

  lemma WithinTail(p: seq<NStmt>, count: nat)
    requires |p| > 0 && Within(p, count)
    ensures 1 <= p[0].id <= count && Within(p[1..], count)
  {
    assert p == [p[0]] + p[1..];
    WithinAppend([p[0]], p[1..], count);
  }

  lemma StmtPlusTwice(r: StmtRecord, a1: set<string>, a2: set<string>, b1: set<string>, b2: set<string>)
    ensures StmtPlus(StmtPlus(r, a1, a2), b1, b2) == StmtPlus(r, a1 + b1, a2 + b2)
  {
    assert r.used + a1 + b1 == r.used + (a1 + b1);
    assert r.modified + a2 + b2 == r.modified + (a2 + b2);
  }

  lemma ProcPlusTwice(r: ProcRecord, a1: set<string>, a2: set<string>, a3: set<string>, a4: set<string>,
                      b1: set<string>, b2: set<string>, b3: set<string>, b4: set<string>)
    ensures ProcPlus(ProcPlus(r, a1, a2, a3, a4), b1, b2, b3, b4) == ProcPlus(r, a1 + b1, a2 + b2, a3 + b3, a4 + b4)
  {
    assert r.used + a1 + b1 == r.used + (a1 + b1);
    assert r.modified + a2 + b2 == r.modified + (a2 + b2);
    assert r.calls + a3 + b3 == r.calls + (a3 + b3);
    assert r.calledBy + a4 + b4 == r.calledBy + (a4 + b4);
  }

  /** The updates of a run of statements add up, seen from one statement record. */
  lemma {:induction false} GrowStmt(u: UsesModifies, p: seq<NStmt>, proc: string, i: nat)
    requires Within(p, |u.statements|) && proc in u.procedures && i < |u.statements|
    ensures Grow(u, p, proc).statements[i] == StmtPlus(u.statements[i], UsedAt(p, i + 1), ModifiedAt(p, i + 1))
    decreases |p|
  {
    if |p| == 0 {
      assert StmtPlus(u.statements[i], {}, {}) == u.statements[i];
    } else {
      WithinTail(p, |u.statements|);
      var u1 := Effect(u, p[0], proc);
      EffectStatements(u, p[0], proc);
      GrowStmt(u1, p[1..], proc, i);
      StmtPlusTwice(u.statements[i], If(p[0].id == i + 1, DirectUses(p[0])), If(p[0].id == i + 1, DirectModifies(p[0])),
                    UsedAt(p[1..], i + 1), ModifiedAt(p[1..], i + 1));
    }
  }

  /** The same, seen from one procedure record. */
  lemma {:induction false} GrowProc(u: UsesModifies, p: seq<NStmt>, proc: string, q: string)
    requires Within(p, |u.statements|) && proc in u.procedures
    ensures ProcAt(Grow(u, p, proc), q) == ProcPlus(ProcAt(u, q), If(q == proc, UsedIn(p)), If(q == proc, ModifiedIn(p)),
                                                    If(q == proc, CalledIn(p)), If(q in CalledIn(p), {proc}))
    decreases |p|
  {
    if |p| == 0 {
      assert ProcPlus(ProcAt(u, q), {}, {}, {}, {}) == ProcAt(u, q);
    } else {
      WithinTail(p, |u.statements|);
      var u1 := Effect(u, p[0], proc);
      assert Grow(u, p, proc) == Grow(u1, p[1..], proc);
      GrowProc(u1, p[1..], proc, q);
      EffectProc(u, p[0], proc, q);
      ProcChain(ProcAt(Grow(u1, p[1..], proc), q), ProcAt(u1, q), ProcAt(u, q), p, proc, q);
    }
  }

  /** One statement's update to a procedure record followed by the rest of the run's. */
  lemma ProcChain(g: ProcRecord, mid: ProcRecord, base: ProcRecord, p: seq<NStmt>, proc: string, q: string)
    requires |p| > 0
    requires g == ProcPlus(mid, If(q == proc, UsedIn(p[1..])), If(q == proc, ModifiedIn(p[1..])),
                           If(q == proc, CalledIn(p[1..])), If(q in CalledIn(p[1..]), {proc}))
    requires mid == ProcPlus(base, If(q == proc, DirectUses(p[0])), If(q == proc, DirectModifies(p[0])),
                             If(q == proc, DirectCalls(p[0])), If(q in DirectCalls(p[0]), {proc}))
    ensures g == ProcPlus(base, If(q == proc, UsedIn(p)), If(q == proc, ModifiedIn(p)),
                          If(q == proc, CalledIn(p)), If(q in CalledIn(p), {proc}))
  {
    var n := p[0];
    ProcPlusTwice(base, If(q == proc, DirectUses(n)), If(q == proc, DirectModifies(n)),
                  If(q == proc, DirectCalls(n)), If(q in DirectCalls(n), {proc}),
                  If(q == proc, UsedIn(p[1..])), If(q == proc, ModifiedIn(p[1..])),
                  If(q == proc, CalledIn(p[1..])), If(q in CalledIn(p[1..]), {proc}));
    assert UsedIn(p) == DirectUses(n) + UsedIn(p[1..]);
    assert ModifiedIn(p) == DirectModifies(n) + ModifiedIn(p[1..]);
    assert CalledIn(p) == DirectCalls(n) + CalledIn(p[1..]);
    IfUnion(q in DirectCalls(n), q in CalledIn(p[1..]), {proc});
    if q == proc {
      assert If(q == proc, DirectUses(n)) + If(q == proc, UsedIn(p[1..])) == If(q == proc, UsedIn(p));
      assert If(q == proc, DirectModifies(n)) + If(q == proc, ModifiedIn(p[1..])) == If(q == proc, ModifiedIn(p));
      assert If(q == proc, DirectCalls(n)) + If(q == proc, CalledIn(p[1..])) == If(q == proc, CalledIn(p));
    }
  }

  /** The same, seen from one variable record. */
  lemma {:induction false} GrowVar(u: UsesModifies, p: seq<NStmt>, proc: string, v: string)
    requires Within(p, |u.statements|) && proc in u.procedures
    ensures VarAt(Grow(u, p, proc), v) == VarPlus(VarAt(u, v), UsersOf(p, v), ModifiersOf(p, v),
                                                  If(v in UsedIn(p), {proc}), If(v in ModifiedIn(p), {proc}))
    decreases |p|
  {
    if |p| == 0 {
      assert VarPlus(VarAt(u, v), {}, {}, {}, {}) == VarAt(u, v);
    } else {
      WithinTail(p, |u.statements|);
      var u1 := Effect(u, p[0], proc);
      assert Grow(u, p, proc) == Grow(u1, p[1..], proc);
      GrowVar(u1, p[1..], proc, v);
      EffectVar(u, p[0], proc, v);
      VarChain(VarAt(Grow(u1, p[1..], proc), v), VarAt(u1, v), VarAt(u, v), p, proc, v);
    }
  }

  /** One statement's update to a variable record followed by the rest of the run's. */
  lemma VarChain(g: VarRecord, mid: VarRecord, base: VarRecord, p: seq<NStmt>, proc: string, v: string)
    requires |p| > 0
    requires g == VarPlus(mid, UsersOf(p[1..], v), ModifiersOf(p[1..], v),
                          If(v in UsedIn(p[1..]), {proc}), If(v in ModifiedIn(p[1..]), {proc}))
    requires mid == VarPlus(base, If(v in DirectUses(p[0]), {p[0].id}), If(v in DirectModifies(p[0]), {p[0].id}),
                            If(v in DirectUses(p[0]), {proc}), If(v in DirectModifies(p[0]), {proc}))
    ensures g == VarPlus(base, UsersOf(p, v), ModifiersOf(p, v), If(v in UsedIn(p), {proc}), If(v in ModifiedIn(p), {proc}))
  {
    var n := p[0];
    var a1, a2, a3, a4 := If(v in DirectUses(n), {n.id}), If(v in DirectModifies(n), {n.id}),
                          If(v in DirectUses(n), {proc}), If(v in DirectModifies(n), {proc});
    var b1, b2, b3, b4 := UsersOf(p[1..], v), ModifiersOf(p[1..], v),
                          If(v in UsedIn(p[1..]), {proc}), If(v in ModifiedIn(p[1..]), {proc});
    VarPlusTwice(base, a1, a2, a3, a4, b1, b2, b3, b4);
    assert UsersOf(p, v) == a1 + b1 && ModifiersOf(p, v) == a2 + b2;
    IfUnion(v in DirectUses(n), v in UsedIn(p[1..]), {proc});
    IfUnion(v in DirectModifies(n), v in ModifiedIn(p[1..]), {proc});
    assert v in UsedIn(p) <==> v in DirectUses(n) || v in UsedIn(p[1..]);
    assert v in ModifiedIn(p) <==> v in DirectModifies(n) || v in ModifiedIn(p[1..]);
  }

  lemma IfUnion<T>(b: bool, c: bool, s: set<T>)
    ensures If(b, s) + If(c, s) == If(b || c, s)
  {
  }

  lemma EffectProcKeys(u: UsesModifies, n: NStmt, proc: string)
    requires HasStmt(u, n.id) && proc in u.procedures
    ensures Effect(u, n, proc).procedures.Keys == u.procedures.Keys + DirectCalls(n)
  {
    if n.NCall? {
      AddCallFields(u, proc, n.procName);
    }
  }

  /** Which procedures have a record after a run of statements. */
  lemma {:induction false} GrowProcKeys(u: UsesModifies, p: seq<NStmt>, proc: string)
    requires Within(p, |u.statements|) && proc in u.procedures
    ensures Grow(u, p, proc).procedures.Keys == u.procedures.Keys + CalledIn(p)
    decreases |p|
  {
    if |p| > 0 {
      WithinTail(p, |u.statements|);
      EffectProcKeys(u, p[0], proc);
      GrowProcKeys(Effect(u, p[0], proc), p[1..], proc);
    }
  }

  /** Which variables have a record after a run of statements. */
  lemma {:induction false} GrowVarKeys(u: UsesModifies, p: seq<NStmt>, proc: string)
    requires Within(p, |u.statements|) && proc in u.procedures
    ensures Grow(u, p, proc).variables.Keys == u.variables.Keys + UsedIn(p) + ModifiedIn(p)
    decreases |p|
  {
    if |p| > 0 {
      WithinTail(p, |u.statements|);
      EffectVarKeys(u, p[0], proc);
      GrowVarKeys(Effect(u, p[0], proc), p[1..], proc);
    }
  }
}
