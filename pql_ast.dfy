/**
 * The PQL query tree (pql/parser/ast.cpp): design entities and attribute names with their
 * name tables, the declaration list, and the tagged references whose accessors fail when
 * asked for a payload of another tag. A declaration is a value here; the source hands out
 * addresses, and since a declaration list never holds two declarations of one name, address
 * identity within one query is the same as equality of (name, entity).
 */
module PqlAst {
  import opened Wrappers
  import SimpleAst

  datatype DesignEnt =
    | StmtEnt | ReadEnt | PrintEnt | CallEnt | WhileEnt | IfEnt | AssignEnt
    | VariableEnt | ConstantEnt | ProcedureEnt | ProgLineEnt | InvalidEnt

  /** DESIGN_ENT_MAP: the declaration keyword of each entity; the invalid entity has none. */
  const DesignEntMap: map<string, DesignEnt> := map[
    "stmt" := StmtEnt, "read" := ReadEnt, "print" := PrintEnt, "call" := CallEnt,
    "while" := WhileEnt, "if" := IfEnt, "assign" := AssignEnt, "variable" := VariableEnt,
    "constant" := ConstantEnt, "procedure" := ProcedureEnt, "prog_line" := ProgLineEnt]

  /** INV_DESIGN_ENT_MAP, which names every entity, the invalid one included. */
  function DesignEntName(e: DesignEnt): string
  {
    match e
    case StmtEnt => "stmt"
    case ReadEnt => "read"
    case PrintEnt => "print"
    case CallEnt => "call"
    case WhileEnt => "while"
    case IfEnt => "if"
    case AssignEnt => "assign"
    case VariableEnt => "variable"
    case ConstantEnt => "constant"
    case ProcedureEnt => "procedure"
    case ProgLineEnt => "prog_line"
    case InvalidEnt => "invalid"
  }

  /** The two entity tables are inverse to each other on the eleven named entities. */
  lemma DesignEntMapsInverse()
    ensures forall n :: n in DesignEntMap ==> DesignEntName(DesignEntMap[n]) == n
    ensures forall e :: e != InvalidEnt ==>
              DesignEntName(e) in DesignEntMap && DesignEntMap[DesignEntName(e)] == e
    ensures DesignEntName(InvalidEnt) !in DesignEntMap
  {
  }

  /** The statement entities: a synonym of one of these may stand where a statement is meant. */
  predicate IsStmtEnt(e: DesignEnt)
  {
    e in {StmtEnt, ReadEnt, PrintEnt, CallEnt, WhileEnt, IfEnt, AssignEnt, ProgLineEnt}
  }

  datatype AttrName = ProcName | VarName | Value | StmtNum | InvalidAttr

  /** AttrNameMap: the text of each attribute name after the dot. */
  const AttrNameMap: map<string, AttrName> :=
    map["procName" := ProcName, "varName" := VarName, "value" := Value, "stmt#" := StmtNum]

  /** InvAttrNameMap */
  function AttrNameText(a: AttrName): string
  {
    match a
    case ProcName => "procName"
    case VarName => "varName"
    case Value => "value"
    case StmtNum => "stmt#"
    case InvalidAttr => "invalid"
  }

  /** The two attribute tables are inverse to each other on the four attribute names. */
  lemma AttrNameMapsInverse()
    ensures forall n :: n in AttrNameMap ==> AttrNameText(AttrNameMap[n]) == n
    ensures forall a :: a != InvalidAttr ==>
              AttrNameText(a) in AttrNameMap && AttrNameMap[AttrNameText(a)] == a
    ensures AttrNameText(InvalidAttr) !in AttrNameMap
  {
  }

  /** A synonym: equal exactly when name and entity are equal. */
  datatype Declaration = Declaration(name: string, designEnt: DesignEnt)

  /** The declarations of one query, keyed by name. */
  class DeclarationList {
    var declarations: map<string, Declaration>

    /** Every declaration is filed under its own name. */
    ghost predicate Valid()
      reads this
    {
      forall n :: n in declarations ==> declarations[n].name == n
    }

    constructor ()
      ensures Valid() && declarations == map[]
    {
      declarations := map[];
    }

    /** hasDeclaration */
    predicate HasDeclaration(name: string)
      reads this
    {
      name in declarations
    }

    /** getDeclaration: the declaration of that name, or none (the source's null). */
    function GetDeclaration(name: string): (r: Option<Declaration>)
      reads this
      requires Valid()
      ensures r.Some? <==> HasDeclaration(name)
      ensures r.Some? ==> r.value.name == name
    {
      if name in declarations then Some(declarations[name]) else None
    }

    /** addDeclaration: the source asserts that the name is new. */
    method AddDeclaration(name: string, ent: DesignEnt) returns (d: Declaration)
      requires Valid() && !HasDeclaration(name)
      modifies this
      ensures Valid()
      ensures d == Declaration(name, ent)
      ensures declarations == old(declarations)[name := d]
      ensures HasDeclaration(name) && GetDeclaration(name) == Some(d)
    {
      d := Declaration(name, ent);
      declarations := declarations[name := d];
    }
  }

  /** A statement reference: '_', a synonym, a statement number, or the default (invalid). */
  datatype StmtRef = StmtWildcard | StmtDecl(decl: Declaration) | StmtId(id: nat) | StmtInvalid
  {
    /** StmtRef::declaration */
    function GetDecl(): (r: Result<Declaration>)
      ensures r.Ok? <==> StmtDecl?
      ensures r.Ok? ==> r.value == decl
    {
      if StmtDecl? then Ok(decl) else Err("StmtRef is not a Declaration")
    }

    /** StmtRef::id */
    function GetId(): (r: Result<nat>)
      ensures r.Ok? <==> StmtId?
      ensures r.Ok? ==> r.value == id
    {
      if StmtId? then Ok(id) else Err("StmtRef is not a StmtId")
    }
  }

  /** An entity reference: '_', a synonym, a quoted name, or the default (invalid). */
  datatype EntRef = EntWildcard | EntDecl(decl: Declaration) | EntName(name: string) | EntInvalid
  {
    /** EntRef::declaration */
    function GetDecl(): (r: Result<Declaration>)
      ensures r.Ok? <==> EntDecl?
      ensures r.Ok? ==> r.value == decl
    {
      if EntDecl? then Ok(decl) else Err("EntRef is not a Declaration")
    }

    /** EntRef::name */
    function GetName(): (r: Result<string>)
      ensures r.Ok? <==> EntName?
      ensures r.Ok? ==> r.value == name
    {
      if EntName? then Ok(name) else Err("EntRef is not a Name")
    }
  }

  /** `s.procName`, `v.varName`, `c.value`, `s.stmt#`. */
  datatype AttrRef = AttrRef(decl: Declaration, attrName: AttrName)

  /** An element of the selected tuple: a synonym or an attribute of one. */
  datatype Elem = ElemDecl(decl: Declaration) | ElemAttr(attrRef: AttrRef)
  {
    /** Elem::declaration */
    function GetDecl(): (r: Result<Declaration>)
      ensures r.Ok? <==> ElemDecl?
      ensures r.Ok? ==> r.value == decl
    {
      if ElemDecl? then Ok(decl) else Err("Elem is not a Declaration")
    }

    /** Elem::attrRef */
    function GetAttrRef(): (r: Result<AttrRef>)
      ensures r.Ok? <==> ElemAttr?
      ensures r.Ok? ==> r.value == attrRef
    {
      if ElemAttr? then Ok(attrRef) else Err("Elem is not a AttrRef")
    }
  }

  /** What a query selects: BOOLEAN or a tuple. */
  datatype ResultCl = BoolResult | TupleResult(elems: seq<Elem>)
  {
    /** ResultCl::tuple */
    function GetTuple(): (r: Result<seq<Elem>>)
      ensures r.Ok? <==> TupleResult?
      ensures r.Ok? ==> r.value == elems
    {
      if TupleResult? then Ok(elems) else Err("Cannot get tuple from non-tuple type ResultCl.")
    }
  }

  /** One side of a `with` condition; a string and a number both keep their text. */
  datatype WithCondRef =
    | WithString(text: string)
    | WithNumber(text: string)
    | WithAttr(attrRef: AttrRef)
    | WithDecl(decl: Declaration)
  {
    /** WithCondRef::str */
    function GetStr(): (r: Result<string>)
      ensures r.Ok? <==> WithString?
      ensures r.Ok? ==> r.value == text
    {
      if WithString? then Ok(text) else Err("WithCondRef is not a string")
    }

    /** WithCondRef::number */
    function GetNumber(): (r: Result<string>)
      ensures r.Ok? <==> WithNumber?
      ensures r.Ok? ==> r.value == text
    {
      if WithNumber? then Ok(text) else Err("WithCondRef is not an integer")
    }

    /** WithCondRef::attrRef */
    function GetAttrRef(): (r: Result<AttrRef>)
      ensures r.Ok? <==> WithAttr?
      ensures r.Ok? ==> r.value == attrRef
    {
      if WithAttr? then Ok(attrRef) else Err("WithCondRef is not an AttrRef")
    }

    /** WithCondRef::declaration */
    function GetDecl(): (r: Result<Declaration>)
      ensures r.Ok? <==> WithDecl?
      ensures r.Ok? ==> r.value == decl
    {
      if WithDecl? then Ok(decl) else Err("WithCondRef is not a declaration")
    }
  }

  /** A `with` condition: lhs = rhs. */
  datatype WithCond = WithCond(lhs: WithCondRef, rhs: WithCondRef)

  /** The second argument of an assign pattern: '_', "e", or _"e"_. */
  datatype ExprSpec = ExprSpec(isSubexpr: bool, expr: Option<SimpleAst.Expr>)

  datatype PatternCond =
    | AssignPattern(assignDecl: Declaration, ent: EntRef, exprSpec: ExprSpec)
    | IfPattern(ifDecl: Declaration, ent: EntRef)
    | WhilePattern(whileDecl: Declaration, ent: EntRef)

  datatype RelCond =
    | ModifiesS(modifierS: StmtRef, ent: EntRef)
    | ModifiesP(modifierP: EntRef, ent: EntRef)
    | UsesS(userS: StmtRef, ent: EntRef)
    | UsesP(userP: EntRef, ent: EntRef)
    | Parent(parent: StmtRef, child: StmtRef)
    | ParentT(ancestor: StmtRef, descendant: StmtRef)
    | Follows(directlyBefore: StmtRef, directlyAfter: StmtRef)
    | FollowsT(before: StmtRef, after: StmtRef)
    | Calls(caller: EntRef, proc: EntRef)
    | CallsT(callerT: EntRef, procT: EntRef)

  datatype PatternCl = PatternCl(conds: seq<PatternCond>)
  datatype SuchThatCl = SuchThatCl(relConds: seq<RelCond>)

  /** Select with at most one such-that clause and at most one pattern clause. */
  datatype Select = Select(result: ResultCl, suchThat: Option<SuchThatCl>, pattern: Option<PatternCl>)

  datatype Query = Query(declarations: map<string, Declaration>, select: Select)
}
