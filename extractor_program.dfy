/**
 * processProgram (pkb/design_extractor.cpp): build the call graph, reject cyclic calls and
 * undefined callees, number the statements procedure by procedure, then run the follows,
 * uses/modifies, parent and reprocessing passes over every procedure body.
 */
module DesignExtractor {
  import opened Wrappers
  import opened SimpleAst
  import opened ExtractorTree
  import opened ExtractorUses
  import opened ExtractorReprocess
  import ExtractorFollows
  import ExtractorParents
  import opened PkbCallGraph
  import ExtractorClosure

  // processCallGraph

  /** The procedures the call statements of l name, in the order processCallGraph visits them. */
  function CallsIn(l: seq<Stmt>): seq<string>
    decreases l
  {
    if |l| == 0 then [] else CallsInStmt(l[0]) + CallsIn(l[1..])
  }

  function CallsInStmt(s: Stmt): seq<string>
    decreases s
  {
    match s
    case ProcCall(p) => [p]
    case IfStmt(_, t, f) => CallsIn(t) + CallsIn(f)
    case WhileLoop(_, b) => CallsIn(b)
    case _ => []
  }

  /** The graph after addEdge(a, c) for each c of callees in turn. */
  function WithEdges(g: Graph, a: string, callees: seq<string>): Graph
    decreases |callees|
  {
    if |callees| == 0 then g else WithEdge(WithEdges(g, a, callees[..|callees| - 1]), a, callees[|callees| - 1])
  }

  /** The graph processCallGraph builds over the procedures in turn. */
  function CallEdges(procs: seq<Procedure>): Graph
    decreases |procs|
  {
    if |procs| == 0 then map[]
    else
      var last := procs[|procs| - 1];
      WithEdges(CallEdges(procs[..|procs| - 1]), last.name, CallsIn(last.body))
  }

  lemma {:induction false} WithEdgesEdges(g: Graph, a: string, callees: seq<string>, x: string, y: string)
    ensures Edge(WithEdges(g, a, callees), x, y) <==> Edge(g, x, y) || (x == a && y in callees)
    decreases |callees|
  {
    if |callees| > 0 {
      var init := callees[..|callees| - 1];
      WithEdgesEdges(g, a, init, x, y);
      WithEdgeEdges(WithEdges(g, a, init), a, callees[|callees| - 1], x, y);
      assert callees == init + [callees[|callees| - 1]];
    }
  }

  /** The call graph has an edge from x to y exactly when a procedure named x has a call
   *  statement naming y, however deeply nested. */
  lemma {:induction false} CallEdgesEdges(procs: seq<Procedure>, x: string, y: string)
    ensures Edge(CallEdges(procs), x, y) <==>
      exists k :: 0 <= k < |procs| && procs[k].name == x && y in CallsIn(procs[k].body)
    decreases |procs|
  {
    if |procs| > 0 {
      var init := procs[..|procs| - 1];
      var last := procs[|procs| - 1];
      CallEdgesEdges(init, x, y);
      WithEdgesEdges(CallEdges(init), last.name, CallsIn(last.body), x, y);
      if exists k :: 0 <= k < |procs| && procs[k].name == x && y in CallsIn(procs[k].body) {
        var k :| 0 <= k < |procs| && procs[k].name == x && y in CallsIn(procs[k].body);
        if k < |procs| - 1 {
          assert init[k] == procs[k];
        }
      }
      if exists k :: 0 <= k < |init| && init[k].name == x && y in CallsIn(init[k].body) {
        var k :| 0 <= k < |init| && init[k].name == x && y in CallsIn(init[k].body);
        assert procs[k] == init[k];
      }
    }
  }

  /** processCallGraph over every procedure: one addEdge per call statement. */
  method ProcessCallGraph(procs: seq<Procedure>) returns (cg: CallGraph)
    ensures fresh(cg)
    ensures cg.adj == CallEdges(procs)
  {
    cg := new CallGraph();
    for i := 0 to |procs|
      invariant cg.adj == CallEdges(procs[..i])
    {
      var calls := CallsIn(procs[i].body);
      for j := 0 to |calls|
        invariant cg.adj == WithEdges(CallEdges(procs[..i]), procs[i].name, calls[..j])
      {
        assert calls[..j + 1][..j] == calls[..j];
        cg.AddEdge(procs[i].name, calls[j]);
      }
      assert calls[..|calls|] == calls;
      assert procs[..i + 1][..i] == procs[..i];
    }
    assert procs[..|procs|] == procs;
  }

  // Numbering (collectStmtList over every procedure)

  /** Every statement of the program in numbering order: procedure by procedure, pre-order. */
  function ProgramWalk(procs: seq<Procedure>): seq<Stmt>
    decreases |procs|
  {
    if |procs| == 0 then [] else ProgramWalk(procs[..|procs| - 1]) + Flatten(procs[|procs| - 1].body)
  }

  /** The records collectStmt pushes for the statements of l. */
  function Records(l: seq<Stmt>): (r: seq<StmtRecord>)
    ensures |r| == |l| && forall j :: 0 <= j < |l| ==> r[j] == NewRecord(l[j])
  {
    seq(|l|, j requires 0 <= j < |l| => NewRecord(l[j]))
  }

  /** The numbers of body k start after the statements of the procedures before it. */
  predicate NumberedAs(procs: seq<Procedure>, bodies: seq<seq<NStmt>>)
  {
    |bodies| == |procs| &&
    forall k :: 0 <= k < |procs| ==> bodies[k] == NumberList(procs[k].body, |ProgramWalk(procs[..k])| + 1)
  }

  /** Every statement of a numbered body has a record, and its record holds the statement. */
  predicate BodyRecorded(stmts: seq<StmtRecord>, body: seq<NStmt>)
  {
    forall n :: n in Preorder(body) ==> 1 <= n.id <= |stmts| && stmts[n.id - 1].stmt == Plain(n)
  }

  predicate Recorded(stmts: seq<StmtRecord>, bodies: seq<seq<NStmt>>)
  {
    forall k :: 0 <= k < |bodies| ==> BodyRecorded(stmts, bodies[k])
  }

  predicate DistinctNames(procs: seq<Procedure>)
  {
    forall a, b :: 0 <= a < b < |procs| ==> procs[a].name != procs[b].name
  }

  lemma {:induction false} PlainListIndex(l: seq<NStmt>)
    ensures |PlainList(l)| == |l|
    ensures forall j :: 0 <= j < |l| ==> PlainList(l)[j] == Plain(l[j])
    decreases |l|
  {
    if |l| > 0 {
      PlainListIndex(l[1..]);
      assert forall j :: 1 <= j < |l| ==> l[j] == l[1..][j - 1];
    }
  }

  /** What numbering one body from next on gives: consecutive numbers, in the order of the
   *  pre-order walk, each naming the statement at that place of the walk. */
  lemma NumberedBody(body: seq<Stmt>, next: nat)
    ensures var p := Preorder(NumberList(body, next));
      && |p| == |Flatten(body)|
      && forall j :: 0 <= j < |p| ==> p[j].id == next + j && Plain(p[j]) == Flatten(body)[j]
  {
    var p := Preorder(NumberList(body, next));
    NumberListConsecutive(body, next);
    NumberedWalk(body, next);
    PlainListIndex(p);
  }

  lemma BodyRecordedExtend(stmts: seq<StmtRecord>, more: seq<StmtRecord>, body: seq<NStmt>)
    requires BodyRecorded(stmts, body)
    ensures BodyRecorded(stmts + more, body)
  {
    forall n | n in Preorder(body) ensures (stmts + more)[n.id - 1] == stmts[n.id - 1] {
    }
  }

  /** Records appended after stmts, one per statement of a consecutively numbered walk,
   *  are found under the numbers of that walk. */
  lemma WalkRecorded(stmts: seq<StmtRecord>, flat: seq<Stmt>, body: seq<NStmt>)
    requires |Preorder(body)| == |flat|
    requires forall j :: 0 <= j < |flat| ==>
      Preorder(body)[j].id == |stmts| + 1 + j && Plain(Preorder(body)[j]) == flat[j]
    ensures BodyRecorded(stmts + Records(flat), body)
  {
    var p := Preorder(body);
    var more := Records(flat);
    forall n | n in p ensures 1 <= n.id <= |stmts + more| && (stmts + more)[n.id - 1].stmt == Plain(n) {
      var j :| 0 <= j < |p| && p[j] == n;
      assert (stmts + more)[|stmts| + j] == more[j];
    }
  }

  /** The records pushed for a newly numbered body hold its statements. */
  lemma BodyRecordedNew(stmts: seq<StmtRecord>, body: seq<Stmt>)
    ensures BodyRecorded(stmts + Records(Flatten(body)), NumberList(body, |stmts| + 1))
  {
    NumberedBody(body, |stmts| + 1);
    WalkRecorded(stmts, Flatten(body), NumberList(body, |stmts| + 1));
  }

  lemma ProgramWalkSnoc(procs: seq<Procedure>, i: nat)
    requires i < |procs|
    ensures ProgramWalk(procs[..i + 1]) == ProgramWalk(procs[..i]) + Flatten(procs[i].body)
  {
    assert procs[..i + 1][..i] == procs[..i];
  }

  /** Appending a procedure leaves the bodies numbered before it as they were. */
  lemma NumberedAsPrefix(ps: seq<Procedure>, p: Procedure, bodies: seq<seq<NStmt>>, b: seq<NStmt>, k: nat)
    requires NumberedAs(ps, bodies) && k < |ps|
    ensures (bodies + [b])[k] == NumberList((ps + [p])[k].body, |ProgramWalk((ps + [p])[..k])| + 1)
  {
    assert (ps + [p])[..k] == ps[..k];
  }

  lemma NumberedAsSnoc(ps: seq<Procedure>, p: Procedure, bodies: seq<seq<NStmt>>, b: seq<NStmt>)
    requires NumberedAs(ps, bodies) && b == NumberList(p.body, |ProgramWalk(ps)| + 1)
    ensures NumberedAs(ps + [p], bodies + [b])
  {
    var ps' := ps + [p];
    var bs := bodies + [b];
    forall k | 0 <= k < |ps'| ensures bs[k] == NumberList(ps'[k].body, |ProgramWalk(ps'[..k])| + 1) {
      if k < |ps| {
        NumberedAsPrefix(ps, p, bodies, b, k);
      } else {
        assert ps'[..k] == ps;
      }
    }
  }

  lemma NumberedAsExtend(procs: seq<Procedure>, i: nat, bodies: seq<seq<NStmt>>, next: nat)
    requires i < |procs| && NumberedAs(procs[..i], bodies) && next == |ProgramWalk(procs[..i])| + 1
    ensures NumberedAs(procs[..i + 1], bodies + [NumberList(procs[i].body, next)])
  {
    assert procs[..i + 1] == procs[..i] + [procs[i]];
    NumberedAsSnoc(procs[..i], procs[i], bodies, NumberList(procs[i].body, next));
  }

  lemma RecordsAppend(a: seq<Stmt>, b: seq<Stmt>)
    ensures Records(a + b) == Records(a) + Records(b)
  {
  }

  /** The names of the first i procedures. */
  function NamesUpTo(procs: seq<Procedure>, i: nat): set<string>
    requires i <= |procs|
  {
    set k | 0 <= k < i :: procs[k].name
  }

  lemma DistinctExtend(procs: seq<Procedure>, i: nat)
    requires i < |procs| && DistinctNames(procs[..i]) && procs[i].name !in NamesUpTo(procs, i)
    ensures DistinctNames(procs[..i + 1])
  {
    var ps := procs[..i + 1];
    forall a, b | 0 <= a < b < |ps| ensures ps[a].name != ps[b].name {
      if b < i {
        assert ps[a] == procs[..i][a] && ps[b] == procs[..i][b];
      } else {
        assert procs[a].name in NamesUpTo(procs, i);
      }
    }
  }

  lemma NotDistinct(procs: seq<Procedure>, i: nat)
    requires i < |procs| && procs[i].name in NamesUpTo(procs, i)
    ensures !DistinctNames(procs)
  {
    var k :| 0 <= k < i && procs[k].name == procs[i].name;
  }

  /** What collecting the first i procedures has built. */
  predicate Collected(procs: seq<Procedure>, i: nat, stmts: seq<StmtRecord>, table: map<string, ProcRecord>,
                      bodies: seq<seq<NStmt>>)
    requires i <= |procs|
  {
    && NumberedAs(procs[..i], bodies) && Recorded(stmts, bodies)
    && stmts == Records(ProgramWalk(procs[..i]))
    && DistinctNames(procs[..i])
    && table.Keys == NamesUpTo(procs, i)
    && forall k :: 0 <= k < i ==> table[procs[k].name] == EmptyProc.(body := bodies[k])
  }

  /** Collecting procedure i: its statements numbered on from the last and pushed, its name
   *  entered in the table. */
  lemma CollectStep(procs: seq<Procedure>, i: nat, stmts: seq<StmtRecord>, table: map<string, ProcRecord>,
                    bodies: seq<seq<NStmt>>)
    requires i < |procs| && Collected(procs, i, stmts, table, bodies) && procs[i].name !in table
    ensures var nb := NumberList(procs[i].body, |stmts| + 1);
      Collected(procs, i + 1, stmts + Records(Flatten(procs[i].body)), table[procs[i].name := EmptyProc.(body := nb)],
                bodies + [nb])
  {
    var nb := NumberList(procs[i].body, |stmts| + 1);
    NumberedAsExtend(procs, i, bodies, |stmts| + 1);
    CollectRecorded(stmts, bodies, procs[i].body);
    ProgramWalkSnoc(procs, i);
    RecordsAppend(ProgramWalk(procs[..i]), Flatten(procs[i].body));
    DistinctExtend(procs, i);
    CollectTable(procs, i, table, bodies, nb);
  }

  lemma CollectRecorded(stmts: seq<StmtRecord>, bodies: seq<seq<NStmt>>, body: seq<Stmt>)
    requires Recorded(stmts, bodies)
    ensures Recorded(stmts + Records(Flatten(body)), bodies + [NumberList(body, |stmts| + 1)])
  {
    var more := Records(Flatten(body));
    var bodies' := bodies + [NumberList(body, |stmts| + 1)];
    BodyRecordedNew(stmts, body);
    forall k | 0 <= k < |bodies'| ensures BodyRecorded(stmts + more, bodies'[k]) {
      if k < |bodies| {
        assert bodies'[k] == bodies[k];
        BodyRecordedExtend(stmts, more, bodies[k]);
      }
    }
  }

  lemma CollectTable(procs: seq<Procedure>, i: nat, table: map<string, ProcRecord>, bodies: seq<seq<NStmt>>,
                     nb: seq<NStmt>)
    requires i < |procs| && |bodies| == i && table.Keys == NamesUpTo(procs, i) && procs[i].name !in table
    requires forall k :: 0 <= k < i ==> table[procs[k].name] == EmptyProc.(body := bodies[k])
    ensures var table' := table[procs[i].name := EmptyProc.(body := nb)];
      && table'.Keys == NamesUpTo(procs, i + 1)
      && forall k :: 0 <= k < i + 1 ==> table'[procs[k].name] == EmptyProc.(body := (bodies + [nb])[k])
  {
    var table' := table[procs[i].name := EmptyProc.(body := nb)];
    assert NamesUpTo(procs, i + 1) == NamesUpTo(procs, i) + {procs[i].name};
    forall k | 0 <= k < i + 1 ensures table'[procs[k].name] == EmptyProc.(body := (bodies + [nb])[k]) {
      if k < i {
        assert procs[k].name in NamesUpTo(procs, i);
      }
    }
  }

  /** collectStmtList and the procedure table, procedure by procedure. A second procedure of
   *  the same name throws; here it fails. */
  method Collect(procs: seq<Procedure>) returns (r: Result<(seq<StmtRecord>, map<string, ProcRecord>, seq<seq<NStmt>>)>)
    ensures r.Err? <==> !DistinctNames(procs)
    ensures r.Err? ==> exists k :: 0 <= k < |procs| && r.msg == "procedure '" + procs[k].name + "' is already defined"
    ensures r.Ok? ==>
      var (stmts, table, bodies) := r.value;
      && NumberedAs(procs, bodies)
      && Recorded(stmts, bodies)
      && stmts == Records(ProgramWalk(procs))
      && table.Keys == NamesUpTo(procs, |procs|)
      && (forall k :: 0 <= k < |procs| ==> table[procs[k].name] == EmptyProc.(body := bodies[k]))
  {
    var stmts: seq<StmtRecord> := [];
    var table: map<string, ProcRecord> := map[];
    var bodies: seq<seq<NStmt>> := [];
    for i := 0 to |procs|
      invariant Collected(procs, i, stmts, table, bodies)
    {
      if procs[i].name in table {
        NotDistinct(procs, i);
        return Err("procedure '" + procs[i].name + "' is already defined");
      }
      CollectStep(procs, i, stmts, table, bodies);
      var nb := NumberList(procs[i].body, |stmts| + 1);
      stmts := stmts + Records(Flatten(procs[i].body));
      table := table[procs[i].name := EmptyProc.(body := nb)];
      bodies := bodies + [nb];
    }
    assert procs[..|procs|] == procs;
    return Ok((stmts, table, bodies));
  }

  // The first uses/modifies pass

  /** Every statement of a numbered body uses and modifies at least what it does by itself. */
  predicate BodyDirect(stmts: seq<StmtRecord>, body: seq<NStmt>)
  {
    forall n :: n in Preorder(body) ==>
      1 <= n.id <= |stmts| && DirectUses(n) <= stmts[n.id - 1].used && DirectModifies(n) <= stmts[n.id - 1].modified
  }

  /** The same for the first upto procedures' bodies. */
  predicate DirectRecorded(u: UsesModifies, bodies: seq<seq<NStmt>>, upto: nat)
  {
    forall k :: 0 <= k < upto && k < |bodies| ==> BodyDirect(u.statements, bodies[k])
  }

  /** The statement records keep their statements and only grow. */
  predicate Kept(u: UsesModifies, r: UsesModifies)
  {
    |r.statements| == |u.statements| &&
    forall i :: 0 <= i < |u.statements| ==>
      r.statements[i].stmt == u.statements[i].stmt &&
      u.statements[i].used <= r.statements[i].used && u.statements[i].modified <= r.statements[i].modified
  }

  lemma KeptTrans(a: UsesModifies, b: UsesModifies, c: UsesModifies)
    requires Kept(a, b) && Kept(b, c)
    ensures Kept(a, c)
  {
  }

  lemma GrowsKept(u: UsesModifies, r: UsesModifies)
    requires Grows(u, r)
    ensures Kept(u, r)
  {
  }

  /** Growing the records keeps what they already say about a body. */
  lemma KeptDirect(u: UsesModifies, r: UsesModifies, bodies: seq<seq<NStmt>>, upto: nat)
    requires Kept(u, r) && DirectRecorded(u, bodies, upto)
    ensures DirectRecorded(r, bodies, upto)
  {
    forall k | 0 <= k < upto && k < |bodies| ensures BodyDirect(r.statements, bodies[k]) {
      assert BodyDirect(u.statements, bodies[k]);
      forall n | n in Preorder(bodies[k])
        ensures 1 <= n.id <= |r.statements| &&
          DirectUses(n) <= r.statements[n.id - 1].used && DirectModifies(n) <= r.statements[n.id - 1].modified
      {
        assert 1 <= n.id <= |u.statements|;
      }
    }
  }

  lemma KeptRecorded(u: UsesModifies, r: UsesModifies, bodies: seq<seq<NStmt>>)
    requires Kept(u, r) && Recorded(u.statements, bodies)
    ensures Recorded(r.statements, bodies)
  {
    forall k | 0 <= k < |bodies| ensures BodyRecorded(r.statements, bodies[k]) {
      assert BodyRecorded(u.statements, bodies[k]);
      forall n | n in Preorder(bodies[k]) ensures 1 <= n.id <= |r.statements| && r.statements[n.id - 1].stmt == Plain(n) {
        assert 1 <= n.id <= |u.statements|;
      }
    }
  }

  /** processStmtList over one procedure body keeps every statement record and only adds to
   *  it. */
  lemma ListPassKept(u: UsesModifies, l: seq<NStmt>, proc: string)
    requires Within(Preorder(l), |u.statements|) && proc in u.procedures
    ensures Kept(u, ListPass(u, l, proc))
  {
    ListPassGrows(u, l, proc);
    var r := ListPass(u, l, proc);
    forall i | 0 <= i < |u.statements|
      ensures r.statements[i].stmt == u.statements[i].stmt &&
        u.statements[i].used <= r.statements[i].used && u.statements[i].modified <= r.statements[i].modified
    {
      GrowStmt(u, PostOrder(l), proc, i);
    }
  }

  /** After processStmtList over a body, each of its statements uses and modifies at least
   *  what it does by itself. */
  lemma ListPassDirect(u: UsesModifies, l: seq<NStmt>, proc: string)
    requires Within(Preorder(l), |u.statements|) && proc in u.procedures
    ensures BodyDirect(ListPass(u, l, proc).statements, l)
  {
    ListPassGrows(u, l, proc);
    GrowBodyDirect(u, l, proc);
  }

  /** The same for the updates in the order processStmtList makes them. */
  lemma GrowBodyDirect(u: UsesModifies, l: seq<NStmt>, proc: string)
    requires Within(PostOrder(l), |u.statements|) && proc in u.procedures
    ensures BodyDirect(Grow(u, PostOrder(l), proc).statements, l)
  {
    var p := PostOrder(l);
    var stmts := Grow(u, p, proc).statements;
    forall id | 1 <= id <= |u.statements|
      ensures stmts[id - 1] == StmtPlus(u.statements[id - 1], UsedAt(p, id), ModifiedAt(p, id))
    {
      GrowStmtAt(u, p, proc, id);
    }
    forall n | n in Preorder(l)
      ensures 1 <= n.id <= |stmts| && DirectUses(n) <= stmts[n.id - 1].used && DirectModifies(n) <= stmts[n.id - 1].modified
    {
      assert n in p by {
        PostOrderSame(l);
      }
      DirectOfPlus(stmts, u.statements, p, n);
    }
  }

  /** Records that gained what the statements of p use and modify by themselves hold, for each
   *  statement of p, what it does by itself. */
  lemma DirectOfPlus(stmts: seq<StmtRecord>, base: seq<StmtRecord>, p: seq<NStmt>, n: NStmt)
    requires |stmts| == |base| && Within(p, |base|) && n in p
    requires forall id :: 1 <= id <= |base| ==> stmts[id - 1] == StmtPlus(base[id - 1], UsedAt(p, id), ModifiedAt(p, id))
    ensures 1 <= n.id <= |stmts|
    ensures DirectUses(n) <= stmts[n.id - 1].used && DirectModifies(n) <= stmts[n.id - 1].modified
  {
    WithinHas(p, |base|, n);
    UsedAtHasNode(p, n);
  }

  lemma WithinHas(p: seq<NStmt>, count: nat, n: NStmt)
    requires Within(p, count) && n in p
    ensures 1 <= n.id <= count
  {
    var k :| 0 <= k < |p| && p[k] == n;
  }

  lemma {:induction false} UsedAtHasNode(p: seq<NStmt>, n: NStmt)
    requires n in p
    ensures DirectUses(n) <= UsedAt(p, n.id) && DirectModifies(n) <= ModifiedAt(p, n.id)
    decreases |p|
  {
    if p[0] != n {
      assert n in p[1..];
      UsedAtHasNode(p[1..], n);
    }
  }

  /** GrowStmt, for the record of statement number id. */
  lemma GrowStmtAt(u: UsesModifies, p: seq<NStmt>, proc: string, id: nat)
    requires Within(p, |u.statements|) && proc in u.procedures && 1 <= id <= |u.statements|
    ensures Grow(u, p, proc).statements[id - 1] == StmtPlus(u.statements[id - 1], UsedAt(p, id), ModifiedAt(p, id))
  {
    var i := id - 1;
    assert i + 1 == id;
    GrowStmt(u, p, proc, i);
  }

  /** processStmtList changes no procedure's body. */
  lemma ListPassBodies(u: UsesModifies, l: seq<NStmt>, proc: string)
    requires Within(Preorder(l), |u.statements|) && proc in u.procedures
    ensures forall q :: ProcAt(ListPass(u, l, proc), q).body == ProcAt(u, q).body
  {
    ListPassGrows(u, l, proc);
    forall q ensures ProcAt(ListPass(u, l, proc), q).body == ProcAt(u, q).body {
      GrowProc(u, PostOrder(l), proc, q);
    }
  }

  lemma BodiesAfterPass(u: UsesModifies, r: UsesModifies)
    requires BodiesWithin(u) && |r.statements| == |u.statements| && u.procedures.Keys <= r.procedures.Keys
    requires forall q :: ProcAt(r, q).body == ProcAt(u, q).body
    ensures BodiesWithin(r)
  {
    forall q | q in r.procedures ensures Within(Preorder(r.procedures[q].body), |r.statements|) {
      assert r.procedures[q].body == ProcAt(u, q).body;
      if q !in u.procedures {
        assert Preorder([]) == [];
      }
    }
  }

  lemma WithinOfRecorded(u: UsesModifies, bodies: seq<seq<NStmt>>, k: nat)
    requires k < |bodies|
    requires forall n :: n in Preorder(bodies[k]) ==> 1 <= n.id <= |u.statements|
    ensures Within(Preorder(bodies[k]), |u.statements|)
  {
    var p := Preorder(bodies[k]);
    forall j | 0 <= j < |p| ensures 1 <= p[j].id <= |u.statements| {
      assert p[j] in p;
    }
  }

  /** The procedure table names each procedure's numbered body. */
  predicate Table(u: UsesModifies, procs: seq<Procedure>, bodies: seq<seq<NStmt>>)
  {
    |bodies| == |procs| &&
    forall k :: 0 <= k < |procs| ==> procs[k].name in u.procedures && u.procedures[procs[k].name].body == bodies[k]
  }

  /** The records processFollows pushes for the procedures in turn. */
  function AllFollows(bodies: seq<seq<NStmt>>): seq<ExtractorFollows.Follows>
    decreases |bodies|
  {
    if |bodies| == 0 then [] else AllFollows(bodies[..|bodies| - 1]) + ExtractorFollows.FollowsRecords(bodies[|bodies| - 1])
  }

  /** One step of the second pass: processStmtList over procedure i. */
  lemma PassStep(u0: UsesModifies, u: UsesModifies, procs: seq<Procedure>, bodies: seq<seq<NStmt>>, i: nat)
    requires i < |procs|
    requires Table(u, procs, bodies) && BodiesWithin(u) && Kept(u0, u) && DirectRecorded(u, bodies, i)
    ensures var r := ListPass(u, bodies[i], procs[i].name);
      Table(r, procs, bodies) && BodiesWithin(r) && Kept(u0, r) && DirectRecorded(r, bodies, i + 1)
  {
    var name := procs[i].name;
    assert Within(Preorder(u.procedures[name].body), |u.statements|);
    var r := ListPass(u, bodies[i], name);
    ListPassKept(u, bodies[i], name);
    ListPassBodies(u, bodies[i], name);
    ListPassDirect(u, bodies[i], name);
    KeptTrans(u0, u, r);
    KeptDirect(u, r, bodies, i);
    BodiesAfterPass(u, r);
    forall k | 0 <= k < |procs| ensures procs[k].name in r.procedures && r.procedures[procs[k].name].body == bodies[k] {
      assert ProcAt(r, procs[k].name).body == ProcAt(u, procs[k].name).body;
    }
  }

  /** The second pass of processProgram: processFollows and processStmtList per procedure. */
  method FollowsAndUses(u0: UsesModifies, procs: seq<Procedure>, bodies: seq<seq<NStmt>>)
    returns (u: UsesModifies, follows: seq<ExtractorFollows.Follows>, followsExists: bool)
    requires Table(u0, procs, bodies) && BodiesWithin(u0)
    ensures Table(u, procs, bodies) && BodiesWithin(u) && Kept(u0, u)
    ensures DirectRecorded(u, bodies, |bodies|)
    ensures follows == AllFollows(bodies)
    ensures followsExists <==> exists k :: 0 <= k < |bodies| && ExtractorFollows.HasFollows(bodies[k])
  {
    u := u0;
    follows := [];
    followsExists := false;
    for i := 0 to |procs|
      invariant Table(u, procs, bodies) && BodiesWithin(u) && Kept(u0, u)
      invariant DirectRecorded(u, bodies, i)
      invariant follows == AllFollows(bodies[..i])
      invariant followsExists <==> exists k :: 0 <= k < i && ExtractorFollows.HasFollows(bodies[k])
    {
      assert bodies[..i + 1][..i] == bodies[..i];
      follows := follows + ExtractorFollows.FollowsRecords(bodies[i]);
      followsExists := followsExists || ExtractorFollows.HasFollows(bodies[i]);
      PassStep(u0, u, procs, bodies, i);
      u := ListPass(u, bodies[i], procs[i].name);
    }
    assert bodies[..|procs|] == bodies;
  }

  // The third pass

  /** The placements processAncestors records for the procedures in turn. */
  function AllPlacements(bodies: seq<seq<NStmt>>): seq<ExtractorParents.Placement>
    decreases |bodies|
  {
    if |bodies| == 0 then [] else AllPlacements(bodies[..|bodies| - 1]) + ExtractorParents.BodyPlacements(bodies[|bodies| - 1])
  }

  /** Some statement of the program sits inside a container: processAncestors' parent flag. */
  predicate AnyParent(p: seq<ExtractorParents.Placement>)
  {
    exists k :: 0 <= k < |p| && p[k].parent.Some?
  }

  lemma AnyParentAppend(a: seq<ExtractorParents.Placement>, b: seq<ExtractorParents.Placement>)
    ensures AnyParent(a + b) <==> AnyParent(a) || AnyParent(b)
  {
    if AnyParent(a) {
      var k :| 0 <= k < |a| && a[k].parent.Some?;
      assert (a + b)[k] == a[k];
    }
    if AnyParent(b) {
      var k :| 0 <= k < |b| && b[k].parent.Some?;
      assert (a + b)[|a| + k] == b[k];
    }
    if AnyParent(a + b) {
      var k :| 0 <= k < |a + b| && (a + b)[k].parent.Some?;
      if k < |a| {
        assert a[k] == (a + b)[k];
      } else {
        assert b[k - |a|] == (a + b)[k];
      }
    }
  }

  /** The entries processDescendants writes for the procedures in turn, later ones winning. */
  function AllChildMaps(bodies: seq<seq<NStmt>>): map<nat, set<nat>>
    decreases |bodies|
  {
    if |bodies| == 0 then map[] else AllChildMaps(bodies[..|bodies| - 1]) + ExtractorParents.ChildMap(bodies[|bodies| - 1])
  }

  function AllDescMaps(bodies: seq<seq<NStmt>>): map<nat, set<nat>>
    decreases |bodies|
  {
    if |bodies| == 0 then map[] else AllDescMaps(bodies[..|bodies| - 1]) + ExtractorParents.DescMap(bodies[|bodies| - 1])
  }

  lemma ThirdPassSnoc(bodies: seq<seq<NStmt>>, i: nat)
    requires i < |bodies|
    ensures AllPlacements(bodies[..i + 1]) == AllPlacements(bodies[..i]) + ExtractorParents.BodyPlacements(bodies[i])
    ensures AllChildMaps(bodies[..i + 1]) == AllChildMaps(bodies[..i]) + ExtractorParents.ChildMap(bodies[i])
    ensures AllDescMaps(bodies[..i + 1]) == AllDescMaps(bodies[..i]) + ExtractorParents.DescMap(bodies[i])
  {
    assert bodies[..i + 1][..i] == bodies[..i];
  }

  /** The body of procedure i is within the statement table. */
  lemma TableWithin(u: UsesModifies, procs: seq<Procedure>, bodies: seq<seq<NStmt>>, i: nat)
    requires Table(u, procs, bodies) && BodiesWithin(u) && i < |procs|
    ensures procs[i].name in u.procedures && Within(Preorder(bodies[i]), |u.statements|)
  {
    assert u.procedures[procs[i].name].body == bodies[i];
  }

  lemma TableGrows(u: UsesModifies, r: UsesModifies, procs: seq<Procedure>, bodies: seq<seq<NStmt>>)
    requires Table(u, procs, bodies) && Grows(u, r)
    ensures Table(r, procs, bodies)
  {
  }

  /** The third pass of processProgram: processAncestors, reprocessStmtList and
   *  processDescendants per procedure. */
  method Reprocess(u0: UsesModifies, procs: seq<Procedure>, bodies: seq<seq<NStmt>>)
    returns (u: UsesModifies, placements: seq<ExtractorParents.Placement>, parentExists: bool,
             children: map<nat, set<nat>>, descendants: map<nat, set<nat>>)
    requires Table(u0, procs, bodies) && BodiesWithin(u0)
    ensures Table(u, procs, bodies) && BodiesWithin(u) && Grows(u0, u)
    ensures placements == AllPlacements(bodies)
    ensures parentExists <==> AnyParent(placements)
    ensures children == AllChildMaps(bodies) && descendants == AllDescMaps(bodies)
    ensures ExtractorClosure.ProgramCallFree(bodies) && ExtractorClosure.BodiesApart(bodies) ==>
      forall k :: 0 <= k < |bodies| ==> ExtractorClosure.AllDone(u, Preorder(bodies[k]))
  {
    u := u0;
    placements := [];
    parentExists := false;
    children := map[];
    descendants := map[];
    for i := 0 to |procs|
      invariant Table(u, procs, bodies) && BodiesWithin(u) && Grows(u0, u)
      invariant placements == AllPlacements(bodies[..i])
      invariant parentExists <==> AnyParent(placements)
      invariant children == AllChildMaps(bodies[..i]) && descendants == AllDescMaps(bodies[..i])
      invariant ExtractorClosure.ProgramCallFree(bodies) && ExtractorClosure.BodiesApart(bodies) ==>
        forall k :: 0 <= k < i ==> ExtractorClosure.AllDone(u, Preorder(bodies[k]))
    {
      ThirdPassSnoc(bodies, i);
      var here := ExtractorParents.BodyPlacements(bodies[i]);
      parentExists := parentExists || AnyParent(here);
      AnyParentAppend(placements, here);
      placements := placements + here;
      var name := procs[i].name;
      TableWithin(u, procs, bodies, i);
      var u' := ReprocessList(u, bodies[i], name, |procs|);
      if ExtractorClosure.ProgramCallFree(bodies) && ExtractorClosure.BodiesApart(bodies) {
        ExtractorClosure.BodyClosed(u, bodies, i, name, |procs|);
      }
      GrowsTrans(u0, u, u');
      TableGrows(u, u', procs, bodies);
      u := u';
      children := children + ExtractorParents.ChildMap(bodies[i]);
      descendants := descendants + ExtractorParents.DescMap(bodies[i]);
    }
    assert bodies[..|procs|] == bodies;
  }

  /** Numbering gives each body distinct numbers, and the bodies of different procedures
   *  numbers of their own. */
  lemma NumberedApart(procs: seq<Procedure>, bodies: seq<seq<NStmt>>)
    requires NumberedAs(procs, bodies)
    ensures ExtractorClosure.BodiesApart(bodies)
  {
    forall k | 0 <= k < |bodies| ensures UniquelyNumbered(bodies[k]) {
      NumberListUnique(procs[k].body, |ProgramWalk(procs[..k])| + 1);
    }
    forall a, b | 0 <= a < b < |bodies| ensures AllIds(bodies[a]) !! AllIds(bodies[b]) {
      var sa := |ProgramWalk(procs[..a])| + 1;
      var sb := |ProgramWalk(procs[..b])| + 1;
      NumberListUnique(procs[a].body, sa);
      NumberListUnique(procs[b].body, sb);
      WalkLength(procs[a].body);
      WalkAfter(procs, a, b);
    }
  }

  /** The walk of a body has one entry per statement. */
  lemma WalkLength(body: seq<Stmt>)
    ensures |Flatten(body)| == SizeList(body)
  {
    NumberedBody(body, 1);
    NumberListConsecutive(body, 1);
  }

  /** The statements of procedure a come before those of every later procedure b. */
  lemma {:induction false} WalkAfter(procs: seq<Procedure>, a: nat, b: nat)
    requires a < b <= |procs|
    ensures |ProgramWalk(procs[..a])| + |Flatten(procs[a].body)| <= |ProgramWalk(procs[..b])|
    decreases b
  {
    ProgramWalkSnoc(procs, b - 1);
    if b - 1 > a {
      WalkAfter(procs, a, b - 1);
    }
  }

  // processProgram

  /** What processProgram leaves in the program knowledge base. */
  datatype Extracted = Extracted(
    uses: UsesModifies,
    bodies: seq<seq<NStmt>>,
    follows: seq<ExtractorFollows.Follows>,
    followsExists: bool,
    placements: seq<ExtractorParents.Placement>,
    parentExists: bool,
    children: map<nat, set<nat>>,
    descendants: map<nat, set<nat>>)

  /** A call to the empty name that no procedure defines: missingProc's "none missing" answer
   *  is the empty name, so such a call can hide every other undefined callee. */
  ghost predicate EmptyCalleeMissing(g: Graph, procs: seq<Procedure>)
  {
    Called(g, "") && !Defined(procs, "")
  }

  /** The checks processProgram makes on the call graph before numbering anything. */
  method CheckCalls(procs: seq<Procedure>) returns (err: Option<string>)
    ensures HasCycle(CallEdges(procs)) ==> err == Some("Cyclic or recursive calls are not allowed")
    ensures err.None? ==>
      !HasCycle(CallEdges(procs)) && (AllDefined(CallEdges(procs), procs) || EmptyCalleeMissing(CallEdges(procs), procs))
    ensures !HasCycle(CallEdges(procs)) && AllDefined(CallEdges(procs), procs) ==> err.None?
    ensures !HasCycle(CallEdges(procs)) && !AllDefined(CallEdges(procs), procs) && !EmptyCalleeMissing(CallEdges(procs), procs) ==>
      err.Some?
    ensures !HasCycle(CallEdges(procs)) && err.Some? ==>
      exists c :: Called(CallEdges(procs), c) && !Defined(procs, c) && err.value == "Procedure '" + c + "' is undefined"
  {
    var cg := ProcessCallGraph(procs);
    var cyclic := cg.CycleExists();
    if cyclic {
      return Some("Cyclic or recursive calls are not allowed");
    }
    var missing := cg.MissingProc(procs);
    if missing != "" {
      return Some("Procedure '" + missing + "' is undefined");
    }
    return None;
  }

  /** The facts processProgram establishes about a program whose checks pass. */
  predicate Extraction(procs: seq<Procedure>, e: Extracted)
  {
    && NumberedAs(procs, e.bodies)
    && Recorded(e.uses.statements, e.bodies)
    && |e.uses.statements| == |ProgramWalk(procs)|
    && DirectRecorded(e.uses, e.bodies, |e.bodies|)
    && Table(e.uses, procs, e.bodies)
    && e.follows == AllFollows(e.bodies)
    && (e.followsExists <==> exists k :: 0 <= k < |e.bodies| && ExtractorFollows.HasFollows(e.bodies[k]))
    && e.placements == AllPlacements(e.bodies)
    && (e.parentExists <==> AnyParent(e.placements))
    && e.children == AllChildMaps(e.bodies) && e.descendants == AllDescMaps(e.bodies)
    && (ExtractorClosure.ProgramCallFree(e.bodies) ==>
          forall k :: 0 <= k < |e.bodies| ==> ExtractorClosure.AllDone(e.uses, Preorder(e.bodies[k])))
  }

  /**
   * In a program without call statements, the third pass leaves every statement using and
   * modifying everything nested in it, at any depth.
   */
  lemma NestedUsesModifies(procs: seq<Procedure>, e: Extracted, k: nat, n: NStmt, m: NStmt)
    requires Extraction(procs, e) && ExtractorClosure.ProgramCallFree(e.bodies)
    requires k < |e.bodies| && n in Preorder(e.bodies[k]) && m in Subtree(n)
    ensures 1 <= n.id <= |e.uses.statements| && 1 <= m.id <= |e.uses.statements|
    ensures e.uses.statements[m.id - 1].used <= e.uses.statements[n.id - 1].used
    ensures e.uses.statements[m.id - 1].modified <= e.uses.statements[n.id - 1].modified
  {
    WithinOfRecorded(e.uses, e.bodies, k);
    ExtractorClosure.WalkNestedIncluded(e.uses, e.bodies[k], n, m);
  }

  /** processProgram after the call graph checks: numbering and the three passes. What the
   *  third pass leaves for the uses/modifies closure is stated for programs without call
   *  statements only. */
  method Build(procs: seq<Procedure>) returns (r: Result<Extracted>)
    ensures r.Err? <==> !DistinctNames(procs)
    ensures r.Err? ==> exists k :: 0 <= k < |procs| && r.msg == "procedure '" + procs[k].name + "' is already defined"
    ensures r.Ok? ==> Extraction(procs, r.value)
  {
    var collected := Collect(procs);
    if collected.Err? {
      return Err(collected.msg);
    }
    var (stmts, table, bodies) := collected.value;
    var u0 := UsesModifies(stmts, table, map[]);
    assert Table(u0, procs, bodies);
    assert BodiesWithin(u0) by {
      forall q | q in u0.procedures ensures Within(Preorder(u0.procedures[q].body), |u0.statements|) {
        var k :| 0 <= k < |procs| && procs[k].name == q;
        WithinOfRecorded(u0, bodies, k);
      }
    }
    var u1, follows, followsExists := FollowsAndUses(u0, procs, bodies);
    var u2, placements, parentExists, children, descendants := Reprocess(u1, procs, bodies);
    NumberedApart(procs, bodies);
    GrowsKept(u1, u2);
    KeptDirect(u1, u2, bodies, |bodies|);
    KeptRecorded(u0, u1, bodies);
    KeptRecorded(u1, u2, bodies);
    return Ok(Extracted(u2, bodies, follows, followsExists, placements, parentExists, children, descendants));
  }

  /**
   * processProgram. Cyclic calls and a callee no procedure defines fail before anything is
   * numbered; a procedure name given twice fails during numbering. Otherwise the statements
   * are numbered 1, 2, ... procedure by procedure in pre-order, each record holds its
   * statement, and every statement uses and modifies at least what it does by itself.
   */
  method ProcessProgram(prog: Program) returns (r: Result<Extracted>)
    ensures HasCycle(CallEdges(prog.procedures)) ==> r == Err("Cyclic or recursive calls are not allowed")
    ensures (!HasCycle(CallEdges(prog.procedures)) && !AllDefined(CallEdges(prog.procedures), prog.procedures)
             && !EmptyCalleeMissing(CallEdges(prog.procedures), prog.procedures)) ==>
      r.Err? && exists c :: Called(CallEdges(prog.procedures), c) && !Defined(prog.procedures, c) && r.msg == "Procedure '" + c + "' is undefined"
    ensures !HasCycle(CallEdges(prog.procedures)) && AllDefined(CallEdges(prog.procedures), prog.procedures) ==>
      && (r.Ok? <==> DistinctNames(prog.procedures))
      && (r.Err? ==> exists k :: 0 <= k < |prog.procedures| && r.msg == "procedure '" + prog.procedures[k].name + "' is already defined")
    ensures r.Ok? ==>
      && !HasCycle(CallEdges(prog.procedures))
      && (AllDefined(CallEdges(prog.procedures), prog.procedures) || EmptyCalleeMissing(CallEdges(prog.procedures), prog.procedures))
      && DistinctNames(prog.procedures)
      && Extraction(prog.procedures, r.value)
  {
    var err := CheckCalls(prog.procedures);
    if err.Some? {
      return Err(err.value);
    }
    r := Build(prog.procedures);
  }
}
