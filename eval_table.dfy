/**
 * The evaluator's result table (pql/eval/table.cpp, pql/eval/table.h): entries (a declaration
 * with a statement number or a name), the domain of every declaration, the joins between two
 * declarations, and the declarations a query touches.
 *
 * Two operations of Entry do not do what they evidently mean to do; each is modelled as
 * written (EntryOfStringAsWritten, EqualsAsWritten) beside the corrected form (EntryOfString,
 * value equality of Entry) that the rest of the model uses.
 */
module EvalTable {
  import opened Wrappers
  import opened PqlAst

  datatype EntryType = KNull | KStmt | KVar | KProc | KConst

  /** An entry keeps both payloads, as the source's object does; the type says which is live. */
  datatype Entry = Entry(decl: Declaration, entryType: EntryType, val: string, stmtNum: nat)
  {
    /** Entry::getVal */
    function GetVal(): (r: Result<string>)
      ensures r.Ok? <==> entryType != KStmt
      ensures r.Ok? ==> r.value == val
    {
      if entryType == KStmt then Err("Cannot getVal for statement entry") else Ok(val)
    }

    /** Entry::getStmtNum */
    function GetStmtNum(): (r: Result<nat>)
      ensures r.Ok? <==> entryType == KStmt
      ensures r.Ok? ==> r.value == stmtNum
    {
      if entryType != KStmt then Err("Cannot getStmtNum for non-statement entry") else Ok(stmtNum)
    }
  }

  /** An entry as the two constructors leave it: the payload that is not live has its default. */
  predicate WellFormed(e: Entry)
  {
    (e.entryType == KStmt ==> e.val == "") && (e.entryType != KStmt ==> e.stmtNum == 0)
  }

  /** Entry(decl, string) as written: the procedure and constant cases set the type but have no
   *  break, so they fall through to the throwing default. */
  function EntryOfStringAsWritten(decl: Declaration, val: string): (r: Result<Entry>)
    ensures r.Ok? <==> decl.designEnt == VariableEnt
    ensures r.Ok? ==> r.value == Entry(decl, KVar, val, 0)
  {
    match decl.designEnt
    case VariableEnt => Ok(Entry(decl, KVar, val, 0))
    case _ => Err("Entry for {} should be instantiated using stmt num instead of string")
  }

  /** Entry(decl, string) as intended: variables, procedures and constants carry a name. */
  function EntryOfString(decl: Declaration, val: string): (r: Result<Entry>)
    ensures r.Ok? <==> decl.designEnt in {VariableEnt, ProcedureEnt, ConstantEnt}
    ensures r.Ok? ==> WellFormed(r.value) && r.value.decl == decl && r.value.GetVal() == Ok(val)
    ensures r.Ok? ==> r.value.entryType == (match decl.designEnt
                                            case VariableEnt => KVar
                                            case ProcedureEnt => KProc
                                            case _ => KConst)
  {
    match decl.designEnt
    case VariableEnt => Ok(Entry(decl, KVar, val, 0))
    case ProcedureEnt => Ok(Entry(decl, KProc, val, 0))
    case ConstantEnt => Ok(Entry(decl, KConst, val, 0))
    case _ => Err("Entry for {} should be instantiated using stmt num instead of string")
  }

  /** The fall-through: a procedure or constant name can never be made an entry as written,
   *  while the corrected constructor makes one and reads the name back. */
  lemma FallThroughFinding(decl: Declaration, val: string)
    requires decl.designEnt in {ProcedureEnt, ConstantEnt}
    ensures EntryOfStringAsWritten(decl, val).Err?
    ensures EntryOfString(decl, val).Ok? && EntryOfString(decl, val).value.GetVal() == Ok(val)
  {
  }

  /** Entry(decl, stmt num): refused for the three entities that are not statements. */
  function EntryOfStmtNum(decl: Declaration, n: nat): (r: Result<Entry>)
    ensures r.Ok? <==> decl.designEnt !in {VariableEnt, ProcedureEnt, ConstantEnt}
    ensures r.Ok? ==> WellFormed(r.value) && r.value.decl == decl && r.value.entryType == KStmt
    ensures r.Ok? ==> r.value.GetStmtNum() == Ok(n)
  {
    if decl.designEnt == VariableEnt || decl.designEnt == ProcedureEnt || decl.designEnt == ConstantEnt then
      Err("Entry for {} should be instantiated using string instead of stmt num")
    else
      Ok(Entry(decl, KStmt, "", n))
  }

  /** Entry::operator== as written: `&&` stops at the first false, and both getters of `other`
   *  are called when the types agree, one of which always throws. */
  function EqualsAsWritten(a: Entry, other: Entry): Result<bool>
  {
    if a.entryType != other.entryType then Ok(false)
    else match other.GetStmtNum()
      case Err(m) => Err(m)
      case Ok(n) =>
        if a.stmtNum != n then Ok(false)
        else match other.GetVal()
          case Err(m) => Err(m)
          case Ok(v) => Ok(a.val == v && a.decl == other.decl)
  }

  /** As written, equality never holds: it is false or it throws, and comparing an entry with
   *  itself always throws. */
  lemma EqualsAsWrittenNeverTrue(a: Entry, b: Entry)
    ensures EqualsAsWritten(a, b) != Ok(true)
    ensures EqualsAsWritten(a, a).Err?
  {
  }

  /** The corrected equality, value equality of entries, compares the type, the declaration and
   *  the live payload of well-formed entries. */
  lemma EntryEquality(a: Entry, b: Entry)
    requires WellFormed(a) && WellFormed(b)
    ensures a == b <==> a.entryType == b.entryType && a.decl == b.decl &&
                        (if a.entryType == KStmt then a.GetStmtNum() == b.GetStmtNum() else a.GetVal() == b.GetVal())
  {
  }

  type Domain = set<Entry>

  /** entry_set_intersect: the entries of a that are also in b. */
  method EntrySetIntersect(a: Domain, b: Domain) returns (r: Domain)
    ensures forall e :: e in r <==> e in a && e in b
  {
    r := {};
    var rest := a;
    while rest != {}
      invariant rest <= a
      invariant r == (a - rest) * b
      decreases |rest|
    {
      var e :| e in rest;
      if e in b {
        r := r + {e};
      }
      rest := rest - {e};
    }
  }

  /** A join: the value pairs the two declarations may take together. */
  datatype Join = Join(declA: Declaration, declB: Declaration, allowed: set<(Entry, Entry)>)

  /** The domain a table answers for decl: the stored set, or none for an unknown one. */
  function DomainOf(domains: map<Declaration, Domain>, decl: Declaration): (r: Domain)
    ensures decl in domains ==> r == domains[decl]
    ensures decl !in domains ==> r == {}
  {
    if decl in domains then domains[decl] else {}
  }

  /** Replacing one domain leaves every other declaration's domain as it was. */
  lemma PutThenGet(domains: map<Declaration, Domain>, decl: Declaration, entries: Domain, other: Declaration)
    ensures DomainOf(domains[decl := entries], decl) == entries
    ensures other != decl ==> DomainOf(domains[decl := entries], other) == DomainOf(domains, other)
  {
  }

  class Table {
    var domains: map<Declaration, Domain>
    var joins: seq<Join>
    var selectDecls: set<Declaration>

    constructor ()
      ensures domains == map[] && joins == [] && selectDecls == {}
    {
      domains := map[];
      joins := [];
      selectDecls := {};
    }

    /** putDomain / upsertDomains: the declaration's domain becomes entries. */
    method PutDomain(decl: Declaration, entries: Domain)
      modifies this
      ensures domains == old(domains)[decl := entries]
      ensures joins == old(joins) && selectDecls == old(selectDecls)
    {
      domains := domains[decl := entries];
    }

    /** getDomain */
    function GetDomain(decl: Declaration): (r: Domain)
      reads this
      ensures r == DomainOf(domains, decl)
    {
      DomainOf(domains, decl)
    }

    /** clearDomains */
    method ClearDomains()
      modifies this
      ensures domains == map[]
      ensures joins == old(joins) && selectDecls == old(selectDecls)
    {
      domains := map[];
    }

    /** addJoin */
    method AddJoin(join: Join)
      modifies this
      ensures joins == old(joins) + [join]
      ensures domains == old(domains) && selectDecls == old(selectDecls)
    {
      joins := joins + [join];
    }

    /** addSelectDecl */
    method AddSelectDecl(decl: Declaration)
      modifies this
      ensures selectDecls == old(selectDecls) + {decl}
      ensures domains == old(domains) && joins == old(joins)
    {
      selectDecls := selectDecls + {decl};
    }
  }
}
