/**
 * The statement numbers that the design extractor (pkb/design_extractor.cpp) writes into the
 * SIMPLE tree. The source stores each number in the tree node itself; here a numbered tree is
 * a value of its own, NStmt, and `Plain` forgets the numbers again.
 */
module ExtractorTree {
  import opened SimpleAst

  /** A statement together with the number collectStmt gave it. */
  datatype NStmt =
    | NRead(id: nat, varName: string)
    | NPrint(id: nat, varName: string)
    | NCall(id: nat, procName: string)
    | NAssign(id: nat, lhs: string, rhs: Expr)
    | NIf(id: nat, condition: Expr, trueCase: seq<NStmt>, falseCase: seq<NStmt>)
    | NWhile(id: nat, condition: Expr, body: seq<NStmt>)
  {
    predicate IsContainer() { NIf? || NWhile? }
  }

  /** The tree the parser built, without the numbers. */
  function Plain(n: NStmt): Stmt
    decreases n
  {
    match n
    case NRead(_, v) => ReadStmt(v)
    case NPrint(_, v) => PrintStmt(v)
    case NCall(_, p) => ProcCall(p)
    case NAssign(_, lhs, rhs) => AssignStmt(lhs, rhs)
    case NIf(_, c, t, f) => IfStmt(c, PlainList(t), PlainList(f))
    case NWhile(_, c, b) => WhileLoop(c, PlainList(b))
  }

  function PlainList(l: seq<NStmt>): seq<Stmt>
    decreases l
  {
    if |l| == 0 then [] else [Plain(l[0])] + PlainList(l[1..])
  }

  /** How many statements s holds, s itself included. */
  function Size(s: Stmt): nat
    decreases s
  {
    match s
    case IfStmt(_, t, f) => 1 + SizeList(t) + SizeList(f)
    case WhileLoop(_, b) => 1 + SizeList(b)
    case _ => 1
  }

  function SizeList(l: seq<Stmt>): nat
    decreases l
  {
    if |l| == 0 then 0 else Size(l[0]) + SizeList(l[1..])
  }

  /**
   * The numbers collectStmt hands out when the statement vector already holds next - 1
   * statements: the statement itself first, then its then-branch, then its else-branch.
   */
  function Number(s: Stmt, next: nat): NStmt
    decreases s
  {
    match s
    case ReadStmt(v) => NRead(next, v)
    case PrintStmt(v) => NPrint(next, v)
    case ProcCall(p) => NCall(next, p)
    case AssignStmt(lhs, rhs) => NAssign(next, lhs, rhs)
    case IfStmt(c, t, f) => NIf(next, c, NumberList(t, next + 1), NumberList(f, next + 1 + SizeList(t)))
    case WhileLoop(c, b) => NWhile(next, c, NumberList(b, next + 1))
  }

  function NumberList(l: seq<Stmt>, next: nat): seq<NStmt>
    decreases l
  {
    if |l| == 0 then [] else [Number(l[0], next)] + NumberList(l[1..], next + Size(l[0]))
  }

  /** A statement followed by everything nested in it, in the order collectStmt visits them. */
  function Subtree(n: NStmt): seq<NStmt>
    decreases n
  {
    match n
    case NIf(_, _, t, f) => [n] + Preorder(t) + Preorder(f)
    case NWhile(_, _, b) => [n] + Preorder(b)
    case _ => [n]
  }

  function Preorder(l: seq<NStmt>): seq<NStmt>
    decreases l
  {
    if |l| == 0 then [] else Subtree(l[0]) + Preorder(l[1..])
  }

  /** The same walk over the tree without numbers. */
  function FlattenOne(s: Stmt): seq<Stmt>
    decreases s
  {
    match s
    case IfStmt(_, t, f) => [s] + Flatten(t) + Flatten(f)
    case WhileLoop(_, b) => [s] + Flatten(b)
    case _ => [s]
  }

  function Flatten(l: seq<Stmt>): seq<Stmt>
    decreases l
  {
    if |l| == 0 then [] else FlattenOne(l[0]) + Flatten(l[1..])
  }

  /** The numbers of the statements of l, in order. */
  function Ids(l: seq<NStmt>): (r: seq<nat>)
    ensures |r| == |l|
    ensures forall i :: 0 <= i < |l| ==> r[i] == l[i].id
  {
    seq(|l|, i requires 0 <= i < |l| => l[i].id)
  }

  /** The numbers of the statements of l, as a set. */
  function IdSet(l: seq<NStmt>): set<nat>
  {
    set i | 0 <= i < |l| :: l[i].id
  }

  lemma IdSetAppend(a: seq<NStmt>, b: seq<NStmt>)
    ensures IdSet(a + b) == IdSet(a) + IdSet(b)
  {
    forall x | x in IdSet(a + b) ensures x in IdSet(a) + IdSet(b) {
      var i :| 0 <= i < |a + b| && (a + b)[i].id == x;
      if i >= |a| {
        assert b[i - |a|] == (a + b)[i];
      }
    }
    forall x | x in IdSet(a) + IdSet(b) ensures x in IdSet(a + b) {
      if x in IdSet(a) {
        var i :| 0 <= i < |a| && a[i].id == x;
        assert (a + b)[i] == a[i];
      } else {
        var i :| 0 <= i < |b| && b[i].id == x;
        assert (a + b)[|a| + i] == b[i];
      }
    }
  }

  /** The numbers of every statement in l, nested ones included. */
  function AllIds(l: seq<NStmt>): set<nat>
  {
    IdSet(Preorder(l))
  }

  predicate Distinct(s: seq<nat>)
  {
    forall i, j :: 0 <= i < j < |s| ==> s[i] != s[j]
  }

  /** No two statements of l, nested ones included, share a number. */
  predicate UniquelyNumbered(l: seq<NStmt>)
  {
    Distinct(Ids(Preorder(l)))
  }

  /** The numbers of a pre-order walk are next, next + 1, next + 2, ... */
  predicate Consecutive(p: seq<NStmt>, next: nat)
  {
    forall i :: 0 <= i < |p| ==> p[i].id == next + i
  }

  lemma ConsecutiveAppend(p: seq<NStmt>, q: seq<NStmt>, next: nat)
    requires Consecutive(p, next) && Consecutive(q, next + |p|)
    ensures Consecutive(p + q, next)
  {
  }

  /**
   * collectStmt numbers in pre-order: the walk over the numbered statement has the numbers
   * next, next + 1, ..., next + Size(s) - 1, one for each statement.
   */
  lemma {:induction false} NumberConsecutive(s: Stmt, next: nat)
    ensures |Subtree(Number(s, next))| == Size(s)
    ensures Consecutive(Subtree(Number(s, next)), next)
    decreases s
  {
    match s
    case IfStmt(c, t, f) =>
      NumberListConsecutive(t, next + 1);
      NumberListConsecutive(f, next + 1 + SizeList(t));
      IfConsecutive(c, t, f, next);
    case WhileLoop(c, b) =>
      NumberListConsecutive(b, next + 1);
      WhileConsecutive(c, b, next);
    case _ =>
  }

  /** The if case of NumberConsecutive, given the walks over both numbered branches. */
  lemma IfConsecutive(c: Expr, t: seq<Stmt>, f: seq<Stmt>, next: nat)
    requires |Preorder(NumberList(t, next + 1))| == SizeList(t)
    requires Consecutive(Preorder(NumberList(t, next + 1)), next + 1)
    requires |Preorder(NumberList(f, next + 1 + SizeList(t)))| == SizeList(f)
    requires Consecutive(Preorder(NumberList(f, next + 1 + SizeList(t))), next + 1 + SizeList(t))
    ensures |Subtree(Number(IfStmt(c, t, f), next))| == Size(IfStmt(c, t, f))
    ensures Consecutive(Subtree(Number(IfStmt(c, t, f), next)), next)
  {
    var n := Number(IfStmt(c, t, f), next);
    assert n == NIf(next, c, NumberList(t, next + 1), NumberList(f, next + 1 + SizeList(t)));
    IfWalk(n, next, SizeList(t), SizeList(f));
  }

  /** A numbered if node followed by consecutive walks over its branches is consecutive. */
  lemma IfWalk(n: NStmt, next: nat, a: nat, b: nat)
    requires n.NIf? && n.id == next
    requires |Preorder(n.trueCase)| == a && Consecutive(Preorder(n.trueCase), next + 1)
    requires |Preorder(n.falseCase)| == b && Consecutive(Preorder(n.falseCase), next + 1 + a)
    ensures |Subtree(n)| == 1 + a + b && Consecutive(Subtree(n), next)
  {
    var pt, pf := Preorder(n.trueCase), Preorder(n.falseCase);
    ConsecutiveAppend(pt, pf, next + 1);
    NodeThenWalk(n, pt + pf, next);
    assert Subtree(n) == [n] + (pt + pf);
  }

  /** The while case of NumberConsecutive, given the walk over the numbered body. */
  lemma WhileConsecutive(c: Expr, b: seq<Stmt>, next: nat)
    requires |Preorder(NumberList(b, next + 1))| == SizeList(b)
    requires Consecutive(Preorder(NumberList(b, next + 1)), next + 1)
    ensures |Subtree(Number(WhileLoop(c, b), next))| == Size(WhileLoop(c, b))
    ensures Consecutive(Subtree(Number(WhileLoop(c, b), next)), next)
  {
    NodeThenWalk(Number(WhileLoop(c, b), next), Preorder(NumberList(b, next + 1)), next);
  }

  lemma NodeThenWalk(n: NStmt, p: seq<NStmt>, next: nat)
    requires n.id == next && Consecutive(p, next + 1)
    ensures Consecutive([n] + p, next)
  {
  }

  lemma {:induction false} NumberListConsecutive(l: seq<Stmt>, next: nat)
    ensures |Preorder(NumberList(l, next))| == SizeList(l)
    ensures Consecutive(Preorder(NumberList(l, next)), next)
    decreases l
  {
    if |l| > 0 {
      var nl := NumberList(l, next);
      assert nl[0] == Number(l[0], next);
      assert nl[1..] == NumberList(l[1..], next + Size(l[0]));
      NumberConsecutive(l[0], next);
      NumberListConsecutive(l[1..], next + Size(l[0]));
      ConsecutiveAppend(Subtree(nl[0]), Preorder(nl[1..]), next);
    }
  }

  /** Each statement is numbered once: numbering gives no two statements the same number. */
  lemma NumberListUnique(l: seq<Stmt>, next: nat)
    ensures UniquelyNumbered(NumberList(l, next))
    ensures forall k :: k in AllIds(NumberList(l, next)) <==> next <= k < next + SizeList(l)
  {
    NumberListConsecutive(l, next);
    var p := Preorder(NumberList(l, next));
    forall k | next <= k < next + SizeList(l)
      ensures k in AllIds(NumberList(l, next))
    {
      assert p[k - next].id == k;
    }
  }

  /** Numbering keeps the tree: forgetting the numbers gives back the parsed statement. */
  lemma {:induction false} NumberPlain(s: Stmt, next: nat)
    ensures Plain(Number(s, next)) == s
    decreases s
  {
    match s
    case IfStmt(c, t, f) =>
      NumberListPlain(t, next + 1);
      NumberListPlain(f, next + 1 + SizeList(t));
    case WhileLoop(c, b) =>
      NumberListPlain(b, next + 1);
    case _ =>
  }

  lemma {:induction false} NumberListPlain(l: seq<Stmt>, next: nat)
    ensures PlainList(NumberList(l, next)) == l
    decreases l
  {
    if |l| > 0 {
      var nl := NumberList(l, next);
      assert nl[0] == Number(l[0], next);
      assert nl[1..] == NumberList(l[1..], next + Size(l[0]));
      NumberPlain(l[0], next);
      NumberListPlain(l[1..], next + Size(l[0]));
      assert l == [l[0]] + l[1..];
    }
  }

  lemma {:induction false} PlainListAppend(a: seq<NStmt>, b: seq<NStmt>)
    ensures PlainList(a + b) == PlainList(a) + PlainList(b)
    decreases |a|
  {
    if |a| > 0 {
      assert (a + b)[0] == a[0];
      assert (a + b)[1..] == a[1..] + b;
      PlainListAppend(a[1..], b);
    } else {
      assert a + b == b;
    }
  }

  lemma {:induction false} FlattenAppend(a: seq<Stmt>, b: seq<Stmt>)
    ensures Flatten(a + b) == Flatten(a) + Flatten(b)
    decreases |a|
  {
    if |a| > 0 {
      assert (a + b)[0] == a[0];
      assert (a + b)[1..] == a[1..] + b;
      FlattenAppend(a[1..], b);
    } else {
      assert a + b == b;
    }
  }

  /** The walk over a numbered tree, with the numbers forgotten, is the walk over the plain tree. */
  lemma {:induction false} SubtreePlain(n: NStmt)
    ensures PlainList(Subtree(n)) == FlattenOne(Plain(n))
    decreases n
  {
    match n
    case NIf(_, c, t, f) =>
      PreorderPlain(t);
      PreorderPlain(f);
      PlainListAppend([n], Preorder(t));
      PlainListAppend([n] + Preorder(t), Preorder(f));
    case NWhile(_, c, b) =>
      PreorderPlain(b);
      PlainListAppend([n], Preorder(b));
    case _ =>
  }

  lemma {:induction false} PreorderPlain(l: seq<NStmt>)
    ensures PlainList(Preorder(l)) == Flatten(PlainList(l))
    decreases l
  {
    if |l| > 0 {
      SubtreePlain(l[0]);
      PreorderPlain(l[1..]);
      PlainListAppend(Subtree(l[0]), Preorder(l[1..]));
      assert PlainList(l) == [Plain(l[0])] + PlainList(l[1..]);
    }
  }

  /** The statements collectStmtList pushes, in the order it pushes them: the pre-order walk. */
  lemma NumberedWalk(l: seq<Stmt>, next: nat)
    ensures PlainList(Preorder(NumberList(l, next))) == Flatten(l)
  {
    PreorderPlain(NumberList(l, next));
    NumberListPlain(l, next);
  }
}
