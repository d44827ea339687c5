/**
 * The `with` clause (pql/eval/with.cpp): the two sides must have the same type; two literals
 * are compared once; an attribute against a literal filters one domain; two attributes are
 * joined, iterating over the smaller domain.
 *
 * Table::extractAttr and the call, print and read statement getters of procedures and
 * variables are not part of this model; they are the lookups of WithLookups.
 */
module WithEval {
  import opened Wrappers
  import opened PqlAst
  import opened EvalTable
  import opened RelationAbstractor
  import opened Decimal

  datatype WithType = NumberType | StringType

  /** get_type: numbers, stmt#, value and prog_line synonyms are numeric; strings, procName and
   *  varName are text; any other synonym or attribute fails. */
  function TypeOf(ref: WithCondRef): (r: Result<WithType>)
    ensures ref.WithNumber? ==> r == Ok(NumberType)
    ensures ref.WithString? ==> r == Ok(StringType)
    ensures ref.WithDecl? ==> (r.Ok? <==> ref.decl.designEnt == ProgLineEnt) && (r.Ok? ==> r.value == NumberType)
    ensures ref.WithAttr? ==> (r.Ok? <==> ref.attrRef.attrName != InvalidAttr)
    ensures ref.WithAttr? && r.Ok? ==> (r.value == StringType <==> ref.attrRef.attrName in {ProcName, VarName})
  {
    match ref
    case WithNumber(_) => Ok(NumberType)
    case WithString(_) => Ok(StringType)
    case WithDecl(d) =>
      if d.designEnt != ProgLineEnt then Err("standalone synonym in 'with' can only be 'prog_line'") else Ok(NumberType)
    case WithAttr(ar) =>
      match ar.attrName
      case ProcName => Ok(StringType)
      case VarName => Ok(StringType)
      case StmtNum => Ok(NumberType)
      case Value => Ok(NumberType)
      case InvalidAttr => Err("invalid WithCondRef")
  }

  /** The knowledge-base lookups the clause relies on: the attribute entry of an entry, and the
   *  call statements of a procedure and the print and read statements of a variable, none when
   *  no procedure or variable has that name. */
  datatype WithLookups = WithLookups(
    extractAttr: (Entry, AttrRef) -> Entry,
    callStmts: string -> Option<set<nat>>,
    printStmts: string -> Option<set<nat>>,
    readStmts: string -> Option<set<nat>>)

  predicate IsLiteral(ref: WithCondRef) { ref.WithString? || ref.WithNumber? }

  predicate Numeric(a: AttrName) { a == Value || a == StmtNum }

  // ------------------------------------------------------------ attrRef = constant

  /** The text an attribute entry is compared with: a statement number as its decimal text,
   *  anything else as its name. */
  function AttrText(attrName: AttrName, attr: Entry): (r: Result<string>)
    ensures attrName == StmtNum ==> (r.Ok? <==> attr.entryType == KStmt) && (r.Ok? ==> r.value == NatText(attr.stmtNum))
    ensures attrName != StmtNum ==> r == attr.GetVal()
  {
    if attrName == StmtNum then
      var n :- attr.GetStmtNum();
      Ok(NatText(n))
    else attr.GetVal()
  }

  function AttrEquals(look: WithLookups, ref: AttrRef, c: string, e: Entry): Result<bool>
  {
    var t :- AttrText(ref.attrName, look.extractAttr(e, ref));
    Ok(t == c)
  }

  ghost predicate AllAttrOk(look: WithLookups, ref: AttrRef, dom: Domain)
  {
    forall e :: e in dom ==> AttrEquals(look, ref, "", e).Ok?
  }

  ghost function AttrKept(look: WithLookups, ref: AttrRef, c: string, dom: Domain): Domain
  {
    set e | e in dom && AttrEquals(look, ref, c, e) == Ok(true)
  }

  /** The loop of handle_attrref_const over the attribute's domain. */
  method FilterByAttr(look: WithLookups, ref: AttrRef, c: string, dom: Domain) returns (r: Result<Domain>)
    ensures r.Ok? <==> AllAttrOk(look, ref, dom)
    ensures r.Ok? ==> r.value == AttrKept(look, ref, c, dom)
  {
    var kept: Domain := {};
    var rest := dom;
    while rest != {}
      invariant rest <= dom
      invariant AllAttrOk(look, ref, dom - rest)
      invariant kept == AttrKept(look, ref, c, dom - rest)
      decreases |rest|
    {
      var e :| e in rest;
      var eq := AttrEquals(look, ref, c, e);
      if eq.Err? {
        return Err(eq.msg);
      }
      if eq.value {
        kept := kept + {e};
      }
      rest := rest - {e};
      assert dom - rest == (dom - (rest + {e})) + {e};
    }
    assert dom - rest == dom;
    r := Ok(kept);
  }

  /** What attrRef = constant does to the table: the attribute's domain keeps the entries whose
   *  attribute text is the constant; a failing attribute read changes nothing. */
  twostate predicate ConstOutcome(look: WithLookups, table: Table, ref: AttrRef, c: string, new res: Result<()>)
    reads table
  {
    var dom := DomainOf(old(table.domains), ref.decl);
    (res.Ok? <==> AllAttrOk(look, ref, dom))
    && table.joins == old(table.joins)
    && (res.Err? ==> table.domains == old(table.domains))
    && (res.Ok? ==> table.domains == old(table.domains)[ref.decl := AttrKept(look, ref, c, dom)])
  }

  /** handle_attrref_const: a value or stmt# attribute is compared with a number, a name
   *  attribute with a string. */
  method HandleAttrRefConst(look: WithLookups, table: Table, ref: AttrRef, right: WithCondRef)
    returns (res: Result<()>)
    requires IsLiteral(right)
    requires Numeric(ref.attrName) ==> right.WithNumber?
    requires !Numeric(ref.attrName) ==> ref.attrName in {ProcName, VarName}
    modifies table
    ensures table.selectDecls == old(table.selectDecls) + {ref.decl}
    ensures ConstOutcome(look, table, ref, right.text, res)
  {
    var dom := table.GetDomain(ref.decl);
    table.AddSelectDecl(ref.decl);
    var kept := FilterByAttr(look, ref, right.text, dom);
    if kept.Err? {
      return Err(kept.msg);
    }
    table.PutDomain(ref.decl, kept.value);
    res := Ok(());
  }

  /** stmt# = "n" keeps exactly the entries whose statement number is n when n is written
   *  without leading zeros, and none when it has one. */
  lemma StmtNumConstMeaning(look: WithLookups, ref: AttrRef, c: string, dom: Domain, e: Entry)
    requires ref.attrName == StmtNum && e in dom && AllAttrOk(look, ref, dom)
    ensures look.extractAttr(e, ref).entryType == KStmt
    ensures AllDigits(c) && |c| >= 1 && (|c| > 1 ==> c[0] != '0') ==>
              (e in AttrKept(look, ref, c, dom) <==> look.extractAttr(e, ref).stmtNum == DigitsValue(c))
    ensures |c| > 1 && c[0] == '0' ==> e !in AttrKept(look, ref, c, dom)
  {
    assert AttrEquals(look, ref, "", e).Ok?;
    var n := look.extractAttr(e, ref).stmtNum;
    if AllDigits(c) && |c| >= 1 && (|c| > 1 ==> c[0] != '0') {
      ValueOfText(n);
      if n == DigitsValue(c) {
        CanonicalText(c);
      }
    }
  }

  // ------------------------------------------------------------ attrRef = attrRef

  /** The right entry handle_ref_ref_consts builds from a left entry: the same number or value,
   *  or the number converted to or from text when one side is stmt# and the other value. */
  function Counterpart(lAttr: AttrName, rAttr: AttrName, rDecl: Declaration, e1: Entry): Result<Entry>
  {
    if lAttr == rAttr then
      if rAttr == Value then (var v :- e1.GetVal(); EntryOfString(rDecl, v))
      else (var n :- e1.GetStmtNum(); EntryOfStmtNum(rDecl, n))
    else if rAttr == Value then (var n :- e1.GetStmtNum(); EntryOfString(rDecl, NatText(n)))
    else (var v :- e1.GetVal(); var n :- Stoll(v); EntryOfStmtNum(rDecl, n))
  }

  /** The statement entries of rDecl for the numbers ids that the right domain holds. */
  function StmtEntriesIn(rDecl: Declaration, ids: set<nat>, rdom: Domain): (r: Domain)
    ensures r <= rdom
  {
    set i | i in ids && EntryOfStmtNum(rDecl, i).Ok? && EntryOfStmtNum(rDecl, i).value in rdom
      :: EntryOfStmtNum(rDecl, i).value
  }

  /** handle_ref_right_procname: the procedure of that name, or the calls to it. */
  function ProcNameMatches(look: WithLookups, rDecl: Declaration, rdom: Domain, lattr: Entry): Result<set<Entry>>
  {
    if rDecl.designEnt == ProcedureEnt then
      var v :- lattr.GetVal();
      var e :- EntryOfString(rDecl, v);
      Ok(if e in rdom then {e} else {})
    else if rDecl.designEnt == CallEnt then
      var v :- lattr.GetVal();
      match look.callStmts(v)
      case None => Ok({})
      case Some(ids) => Ok(StmtEntriesIn(rDecl, ids, rdom))
    else Err("unreachable")
  }

  /** handle_ref_right_varname: the variable of that name, or the prints or reads of it. */
  function VarNameMatches(look: WithLookups, rDecl: Declaration, rdom: Domain, lattr: Entry): Result<set<Entry>>
  {
    if rDecl.designEnt == VariableEnt then
      var v :- lattr.GetVal();
      var e :- EntryOfString(rDecl, v);
      Ok(if e in rdom then {e} else {})
    else if rDecl.designEnt == PrintEnt || rDecl.designEnt == ReadEnt then
      var v :- lattr.GetVal();
      match (if rDecl.designEnt == PrintEnt then look.printStmts(v) else look.readStmts(v))
      case None => Ok({})
      case Some(ids) => Ok(StmtEntriesIn(rDecl, ids, rdom))
    else Err("unreachable")
  }

  /** The right entries one left entry matches, all of them in the right domain. */
  function MatchesOf(look: WithLookups, lRef: AttrRef, rRef: AttrRef, rdom: Domain, e: Entry): (r: Result<set<Entry>>)
    ensures r.Ok? ==> r.value <= rdom
  {
    if Numeric(lRef.attrName) && Numeric(rRef.attrName) then
      var e2 :- Counterpart(lRef.attrName, rRef.attrName, rRef.decl, e);
      Ok(if e2 in rdom then {e2} else {})
    else
      var lattr := look.extractAttr(e, lRef);
      if rRef.attrName == ProcName then ProcNameMatches(look, rRef.decl, rdom, lattr)
      else if rRef.attrName == VarName then VarNameMatches(look, rRef.decl, rdom, lattr)
      else Err("unreachable")
  }

  /** The join of two attributes as a two-declaration rule over entries: a left entry stands for
   *  itself and its matches are already entries. */
  function PairRule(look: WithLookups, lRef: AttrRef, rRef: AttrRef, rdom: Domain): TwoDecl<Entry, Entry>
  {
    TwoDecl(lRef.decl, rRef.decl,
            (e: Entry) => Ok(e),
            (e: Entry) => MatchesOf(look, lRef, rRef, rdom, e),
            (d: Declaration, e: Entry) => Ok(e),
            (d: Declaration, e: Entry) => Ok(e))
  }

  /** The attribute whose domain is iterated comes first: the right one when its domain is
   *  strictly smaller. */
  function Ordered(domains: map<Declaration, Domain>, left: AttrRef, right: AttrRef): (AttrRef, AttrRef)
  {
    if |DomainOf(domains, right.decl)| < |DomainOf(domains, left.decl)| then (right, left) else (left, right)
  }

  /** What two attributes do to the table: with the smaller domain first, its entries without a
   *  match are removed, the other domain becomes the matched entries, and one join records the
   *  matches; a failure changes nothing. */
  twostate predicate AttrAttrOutcome(look: WithLookups, table: Table, left: AttrRef, right: AttrRef, new res: Result<()>)
    reads table
  {
    var (l, r) := Ordered(old(table.domains), left, right);
    var t := PairRule(look, l, r, DomainOf(old(table.domains), r.decl));
    var dom := DomainOf(old(table.domains), l.decl);
    (res.Ok? <==> t.AllOk(dom))
    && (res.Err? ==> table.domains == old(table.domains) && table.joins == old(table.joins))
    && (res.Ok? ==>
          table.domains == old(table.domains)[l.decl := t.KeptLeft(dom)][r.decl := t.NewRight(dom)]
          && table.joins == old(table.joins) + [Join(l.decl, r.decl, t.Pairs(dom))])
  }

  /** handle_attrref_attrref, with handle_ref_ref_consts for two numeric attributes. */
  method HandleAttrRefAttrRef(look: WithLookups, table: Table, left: AttrRef, right: AttrRef)
    returns (res: Result<()>)
    modifies table
    ensures table.selectDecls == old(table.selectDecls) + {left.decl, right.decl}
    ensures AttrAttrOutcome(look, table, left, right, res)
  {
    var lDom := table.GetDomain(left.decl);
    var rDom := table.GetDomain(right.decl);
    table.AddSelectDecl(left.decl);
    table.AddSelectDecl(right.decl);
    var l, r := left, right;
    if |rDom| < |lDom| {
      l, r := right, left;
      lDom, rDom := rDom, lDom;
    }
    var t := PairRule(look, l, r, rDom);
    var collected := CollectTwoDecl(t, lDom);
    if collected.Err? {
      return Err(collected.msg);
    }
    var (kept, newRight, pairs) := collected.value;
    table.PutDomain(l.decl, kept);
    table.PutDomain(r.decl, newRight);
    table.AddJoin(Join(l.decl, r.decl, pairs));
    res := Ok(());
  }

  /** For two numeric attributes, a left entry stays exactly when its counterpart is in the
   *  right domain; the new right domain is the counterparts of the kept entries, and the join
   *  pairs each kept entry with its counterpart. */
  lemma NumericPairsMeaning(look: WithLookups, lRef: AttrRef, rRef: AttrRef, rdom: Domain, dom: Domain)
    requires Numeric(lRef.attrName) && Numeric(rRef.attrName)
    requires PairRule(look, lRef, rRef, rdom).AllOk(dom)
    ensures forall e :: e in dom ==> Counterpart(lRef.attrName, rRef.attrName, rRef.decl, e).Ok?
    ensures forall e :: e in dom ==>
              (e in PairRule(look, lRef, rRef, rdom).KeptLeft(dom) <==>
                 Counterpart(lRef.attrName, rRef.attrName, rRef.decl, e).value in rdom)
    ensures forall p: (Entry, Entry) :: p in PairRule(look, lRef, rRef, rdom).Pairs(dom) <==>
              p.0 in dom && Counterpart(lRef.attrName, rRef.attrName, rRef.decl, p.0).Ok?
              && p.1 == Counterpart(lRef.attrName, rRef.attrName, rRef.decl, p.0).value && p.1 in rdom
    ensures PairRule(look, lRef, rRef, rdom).NewRight(dom) <= rdom
  {
    var t := PairRule(look, lRef, rRef, rdom);
    forall e | e in dom
      ensures Counterpart(lRef.attrName, rRef.attrName, rRef.decl, e).Ok?
    {
      assert t.EntryOk(e);
    }
    forall p: (Entry, Entry) | p.0 in dom && Counterpart(lRef.attrName, rRef.attrName, rRef.decl, p.0).Ok?
               && p.1 == Counterpart(lRef.attrName, rRef.attrName, rRef.decl, p.0).value && p.1 in rdom
      ensures p in t.Pairs(dom)
    {
      assert p.1 in t.Rel(p.0);
    }
  }

  /** stmt# against value: a statement numbered n is matched with the constant written n, and
   *  that constant is matched back with the statement, whichever side is iterated. */
  lemma StmtNumValueCounterparts(sDecl: Declaration, cDecl: Declaration, n: nat)
    requires sDecl.designEnt !in {VariableEnt, ProcedureEnt, ConstantEnt} && cDecl.designEnt == ConstantEnt
    ensures Counterpart(StmtNum, Value, cDecl, EntryOfStmtNum(sDecl, n).value) == EntryOfString(cDecl, NatText(n))
    ensures n <= LongLongMax ==> Counterpart(Value, StmtNum, sDecl, EntryOfString(cDecl, NatText(n)).value) == EntryOfStmtNum(sDecl, n)
    ensures n > LongLongMax ==> Counterpart(Value, StmtNum, sDecl, EntryOfString(cDecl, NatText(n)).value).Err?
  {
    StollOfText(n);
  }

  // ------------------------------------------------------------ WithCond::evaluate

  /** The sides in the order evaluate uses: a literal, or an attribute facing a synonym, goes
   *  to the right. */
  function Normalise(lhs: WithCondRef, rhs: WithCondRef): (r: (WithCondRef, WithCondRef))
    ensures r == (lhs, rhs) || r == (rhs, lhs)
    ensures !IsLiteral(lhs) || !IsLiteral(rhs) ==> !IsLiteral(r.0)
    ensures r.0.WithAttr? ==> !r.1.WithDecl?
  {
    if IsLiteral(lhs) || (lhs.WithAttr? && rhs.WithDecl?) then (rhs, lhs) else (lhs, rhs)
  }

  /** WithCond::evaluate */
  method EvaluateWith(look: WithLookups, table: Table, cond: WithCond) returns (res: Result<()>)
    modifies table
    ensures TypeOf(cond.lhs).Err? || TypeOf(cond.rhs).Err? || TypeOf(cond.lhs) != TypeOf(cond.rhs) ==>
              res.Err? && unchanged(table)
    ensures IsLiteral(cond.lhs) && IsLiteral(cond.rhs) ==>
              (res.Ok? <==> TypeOf(cond.lhs) == TypeOf(cond.rhs) && cond.lhs.text == cond.rhs.text) && unchanged(table)
    ensures var (l, r) := Normalise(cond.lhs, cond.rhs);
            TypeOf(cond.lhs).Ok? && TypeOf(cond.lhs) == TypeOf(cond.rhs) && !(IsLiteral(cond.lhs) && IsLiteral(cond.rhs)) ==>
              (l.WithDecl? ==> res.Err? && unchanged(table))
              && (l.WithAttr? && IsLiteral(r) ==>
                    table.selectDecls == old(table.selectDecls) + {l.attrRef.decl}
                    && ConstOutcome(look, table, l.attrRef, r.text, res))
              && (l.WithAttr? && r.WithAttr? ==>
                    table.selectDecls == old(table.selectDecls) + {l.attrRef.decl, r.attrRef.decl}
                    && AttrAttrOutcome(look, table, l.attrRef, r.attrRef, res))
  {
    var lt := TypeOf(cond.lhs);
    var rt := TypeOf(cond.rhs);
    if lt.Err? {
      return Err(lt.msg);
    }
    if rt.Err? {
      return Err(rt.msg);
    }
    if lt.value != rt.value {
      return Err("incompatible types for two sides of 'with'");
    }
    if IsLiteral(cond.lhs) && IsLiteral(cond.rhs) {
      if cond.lhs.text != cond.rhs.text {
        return Err("'" + cond.lhs.text + "' = '" + cond.rhs.text + "' is always false");
      }
      return Ok(());
    }
    var (left, right) := Normalise(cond.lhs, cond.rhs);
    match left {
      case WithDecl(_) =>
        res := Err("declaration in 'with' should have been desugared into '.stmt#'!");
      case WithAttr(ar) =>
        match right {
          case WithAttr(br) => res := HandleAttrRefAttrRef(look, table, ar, br);
          case WithString(_) => res := HandleAttrRefConst(look, table, ar, right);
          case WithNumber(_) => res := HandleAttrRefConst(look, table, ar, right);
        }
    }
  }
}
