/**
 * The debug printer of query trees (pql/parser/stringify.cpp). Each printer is a function of
 * the tree; the declaration list is printed in name order, which the source gets by copying
 * the entries into a vector and sorting it in place with the string order: that part is a
 * method over an array, proved against the function that lists the names in order.
 */
module PqlStringify {
  import opened Wrappers
  import opened PqlAst
  import SimpleAst
  import SimpleStringify
  import Decimal

  // ----------------------------------------------------------- the string order

  /** std::string's operator<: the first differing character decides, and a proper prefix
   *  comes first. */
  predicate Below(a: string, b: string)
  {
    if |a| == 0 then |b| > 0
    else |b| > 0 && (a[0] < b[0] || (a[0] == b[0] && Below(a[1..], b[1..])))
  }

  lemma {:induction false} BelowIrreflexive(a: string)
    ensures !Below(a, a)
  {
    if |a| > 0 {
      BelowIrreflexive(a[1..]);
    }
  }

  lemma {:induction false} BelowTransitive(a: string, b: string, c: string)
    requires Below(a, b) && Below(b, c)
    ensures Below(a, c)
  {
    if |a| > 0 && a[0] == b[0] && b[0] == c[0] {
      BelowTransitive(a[1..], b[1..], c[1..]);
    }
  }

  lemma {:induction false} BelowTotal(a: string, b: string)
    ensures a == b || Below(a, b) || Below(b, a)
  {
    if |a| > 0 && |b| > 0 && a[0] == b[0] {
      BelowTotal(a[1..], b[1..]);
      if a[1..] == b[1..] {
        assert a == [a[0]] + a[1..] && b == [b[0]] + b[1..];
      }
    }
  }

  lemma BelowAsymmetric(a: string, b: string)
    requires Below(a, b)
    ensures !Below(b, a)
  {
    if Below(b, a) {
      BelowTransitive(a, b, a);
      BelowIrreflexive(a);
    }
  }

  /** "not after" is transitive. */
  lemma NotAfterTransitive(x: string, y: string, z: string)
    requires !Below(y, x) && !Below(z, y)
    ensures !Below(z, x)
  {
    if Below(z, x) {
      BelowTotal(x, y);
      if x != y {
        BelowTransitive(z, x, y);
      }
    }
  }

  /** A sequence of names in order: no name comes before an earlier one. */
  predicate InOrder(s: seq<string>)
  {
    forall p, q :: 0 <= p < q < |s| ==> !Below(s[q], s[p])
  }

  /** The name that comes before every other name of ks. */
  predicate IsLeast(m: string, ks: set<string>)
  {
    m in ks && forall k :: k in ks && k != m ==> Below(m, k)
  }

  lemma {:induction false} LeastExists(ks: set<string>)
    requires ks != {}
    ensures exists m :: IsLeast(m, ks)
    decreases |ks|
  {
    var x :| x in ks;
    if ks != {x} {
      var rest := ks - {x};
      LeastExists(rest);
      var m :| IsLeast(m, rest);
      BelowTotal(x, m);
      if Below(x, m) {
        forall k | k in ks && k != x
          ensures Below(x, k)
        {
          if k != m {
            BelowTransitive(x, m, k);
          }
        }
        assert IsLeast(x, ks);
      } else {
        assert IsLeast(m, ks);
      }
    } else {
      assert IsLeast(x, ks);
    }
  }

  lemma LeastUnique(m1: string, m2: string, ks: set<string>)
    requires IsLeast(m1, ks) && IsLeast(m2, ks)
    ensures m1 == m2
  {
    if m1 != m2 {
      BelowAsymmetric(m1, m2);
    }
  }

  /** The names of ks in order. */
  ghost function SortedNames(ks: set<string>): seq<string>
    decreases |ks|
  {
    if ks == {} then []
    else
      LeastExists(ks);
      var m :| IsLeast(m, ks);
      [m] + SortedNames(ks - {m})
  }

  /** SortedNames starts with the least name of ks. */
  lemma SortedNamesCons(ks: set<string>) returns (m: string)
    requires ks != {}
    ensures IsLeast(m, ks) && SortedNames(ks) == [m] + SortedNames(ks - {m})
  {
    LeastExists(ks);
    var m' :| IsLeast(m', ks) && SortedNames(ks) == [m'] + SortedNames(ks - {m'});
    m := m';
  }

  /** The least name of ks before the other names in increasing order: the names of ks in
   *  increasing order. */
  lemma LeastThenSorted(m: string, t: seq<string>, ks: set<string>)
    requires IsLeast(m, ks) && multiset(t) == multiset(ks - {m}) && |t| == |ks - {m}|
    requires forall p, q :: 0 <= p < q < |t| ==> Below(t[p], t[q])
    ensures var s := [m] + t;
            multiset(s) == multiset(ks) && |s| == |ks|
            && forall p, q :: 0 <= p < q < |s| ==> Below(s[p], s[q])
  {
    var s := [m] + t;
    assert multiset(ks - {m}) == multiset(ks) - multiset{m};
    forall p, q | 0 <= p < q < |s|
      ensures Below(s[p], s[q])
    {
      if p > 0 {
        assert s[p] == t[p - 1] && s[q] == t[q - 1];
      } else {
        assert s[q] == t[q - 1] && s[q] in multiset(t);
      }
    }
  }

  /** Names in increasing order are in order. */
  lemma IncreasingInOrder(s: seq<string>)
    requires forall p, q :: 0 <= p < q < |s| ==> Below(s[p], s[q])
    ensures InOrder(s)
  {
    forall p, q | 0 <= p < q < |s|
      ensures !Below(s[q], s[p])
    {
      BelowAsymmetric(s[p], s[q]);
    }
  }

  /** SortedNames lists every name of ks exactly once, in order. */
  lemma {:induction false} SortedNamesSpec(ks: set<string>)
    ensures var s := SortedNames(ks);
            multiset(s) == multiset(ks) && |s| == |ks| && InOrder(s)
            && forall p, q :: 0 <= p < q < |s| ==> Below(s[p], s[q])
    decreases |ks|
  {
    if ks != {} {
      var m := SortedNamesCons(ks);
      SortedNamesSpec(ks - {m});
      LeastThenSorted(m, SortedNames(ks - {m}), ks);
      IncreasingInOrder(SortedNames(ks));
    }
  }

  /** A sequence in order holding each name of ks once is the one SortedNames gives. */
  lemma {:induction false} SortedUnique(s: seq<string>, ks: set<string>)
    requires InOrder(s) && multiset(s) == multiset(ks)
    ensures s == SortedNames(ks)
    decreases |ks|
  {
    if ks != {} {
      LeastExists(ks);
      var m :| IsLeast(m, ks) && SortedNames(ks) == [m] + SortedNames(ks - {m});
      HeadIsLeast(s, ks, m);
      TailInOrder(s);
      SortedUnique(s[1..], ks - {m});
      assert s == [s[0]] + s[1..];
    } else {
      assert |multiset(s)| == 0;
    }
  }

  lemma HeadIsLeast(s: seq<string>, ks: set<string>, m: string)
    requires InOrder(s) && multiset(s) == multiset(ks) && IsLeast(m, ks)
    ensures |s| > 0 && s[0] == m
    ensures multiset(s[1..]) == multiset(ks - {m})
  {
    assert m in multiset(s);
    var j :| 0 <= j < |s| && s[j] == m;
    assert s[0] in multiset(s);
    assert s == [s[0]] + s[1..];
    assert multiset(s[1..]) == multiset(s) - multiset{m};
    assert multiset(ks - {m}) == multiset(ks) - multiset{m};
  }

  lemma TailInOrder(s: seq<string>)
    requires InOrder(s) && |s| > 0
    ensures InOrder(s[1..])
  {
    forall p, q | 0 <= p < q < |s[1..]|
      ensures !Below(s[1..][q], s[1..][p])
    {
      assert s[1..][q] == s[q + 1] && s[1..][p] == s[p + 1];
    }
  }

  // ------------------------------------------------------------------ printers

  /** Declaration::toString. The entity table names every entity, so the "nullptr" form of
   *  the source is never printed. */
  function DeclarationText(d: Declaration): (r: string)
  {
    "Declaration(ent:" + DesignEntName(d.designEnt) + ", name:" + d.name + ")"
  }

  lemma EntityNamesHaveNoComma(e: DesignEnt)
    ensures forall i :: 0 <= i < |DesignEntName(e)| ==> DesignEntName(e)[i] != ','
  {
  }

  lemma DesignEntNameInjective(e1: DesignEnt, e2: DesignEnt)
    ensures DesignEntName(e1) == DesignEntName(e2) ==> e1 == e2
  {
  }

  /** The text before the first comma. */
  function UpToComma(t: string): (r: string)
    ensures |r| <= |t|
  {
    if t == [] || t[0] == ',' then [] else [t[0]] + UpToComma(t[1..])
  }

  lemma {:induction false} UpToCommaOf(x: string, y: string)
    requires forall i :: 0 <= i < |x| ==> x[i] != ','
    requires |y| > 0 && y[0] == ','
    ensures UpToComma(x + y) == x
  {
    if x == [] {
      assert x + y == y;
    } else {
      assert (x + y)[1..] == x[1..] + y;
      UpToCommaOf(x[1..], y);
      assert x == [x[0]] + x[1..];
    }
  }

  /** Different declarations print differently. */
  lemma DeclarationTextInjective(d1: Declaration, d2: Declaration)
    requires DeclarationText(d1) == DeclarationText(d2)
    ensures d1 == d2
  {
    var e1, e2 := DesignEntName(d1.designEnt), DesignEntName(d2.designEnt);
    var r1, r2 := NameSuffix(d1.name), NameSuffix(d2.name);
    DeclarationTextParts(d1);
    DeclarationTextParts(d2);
    PrefixCancel("Declaration(ent:", e1 + r1, e2 + r2);
    EntityNamesHaveNoComma(d1.designEnt);
    EntityNamesHaveNoComma(d2.designEnt);
    UpToCommaOf(e1, r1);
    UpToCommaOf(e2, r2);
    DesignEntNameInjective(d1.designEnt, d2.designEnt);
    PrefixCancel(e1, r1, r2);
    NameOfSuffix(d1.name);
    NameOfSuffix(d2.name);
  }

  /** What follows the entity name in a declaration's text. */
  function NameSuffix(name: string): string
  {
    ", name:" + name + ")"
  }

  lemma DeclarationTextParts(d: Declaration)
    ensures DeclarationText(d) == "Declaration(ent:" + (DesignEntName(d.designEnt) + NameSuffix(d.name))
    ensures |NameSuffix(d.name)| > 0 && NameSuffix(d.name)[0] == ','
  {
  }

  lemma NameOfSuffix(name: string)
    ensures NameSuffix(name)[7..|NameSuffix(name)| - 1] == name
  {
  }

  lemma PrefixCancel(p: string, x: string, y: string)
    requires p + x == p + y
    ensures x == y
  {
    assert x == (p + x)[|p|..];
    assert y == (p + y)[|p|..];
  }

  /** StmtRef::toString: by tag; an invalid reference fails. */
  function StmtRefText(r: StmtRef): (t: Result<string>)
    ensures t.Err? <==> r.StmtInvalid?
  {
    match r
    case StmtDecl(d) => Ok("DeclaredStmt(declaration: " + DeclarationText(d) + ")")
    case StmtId(id) => Ok("StmtId(id:" + Decimal.NatText(id) + ")")
    case StmtWildcard => Ok("AllStmt(name: _)")
    case StmtInvalid => Err("invalid StmtRef type")
  }

  /** EntRef::toString: by tag; an invalid reference fails. */
  function EntRefText(r: EntRef): (t: Result<string>)
    ensures t.Err? <==> r.EntInvalid?
  {
    match r
    case EntDecl(d) => Ok("DeclaredEnt(declaration:" + DeclarationText(d) + ")")
    case EntName(name) => Ok("EntName(name:" + name + ")")
    case EntWildcard => Ok("AllEnt(name: _)")
    case EntInvalid => Err("invalid EntRef type")
  }

  /** Different valid statement references print differently. */
  lemma StmtRefTextInjective(a: StmtRef, b: StmtRef)
    requires StmtRefText(a).Ok? && StmtRefText(a) == StmtRefText(b)
    ensures a == b
  {
    var t := StmtRefText(a).value;
    assert t[0] == StmtRefText(b).value[0];
    match a
    case StmtDecl(d) =>
      assert b.StmtDecl?;
      assert DeclarationText(d) == t[26..|t| - 1] == DeclarationText(b.decl);
      DeclarationTextInjective(d, b.decl);
    case StmtId(id) =>
      assert b.StmtId?;
      assert Decimal.NatText(id) == t[10..|t| - 1] == Decimal.NatText(b.id);
      Decimal.TextInjective(id, b.id);
    case StmtWildcard =>
  }

  /** Different valid entity references print differently. */
  lemma EntRefTextInjective(a: EntRef, b: EntRef)
    requires EntRefText(a).Ok? && EntRefText(a) == EntRefText(b)
    ensures a == b
  {
    var t := EntRefText(a).value;
    assert t[0] == EntRefText(b).value[0];
    assert t[1] == EntRefText(b).value[1];
    match a
    case EntDecl(d) =>
      assert b.EntDecl?;
      assert DeclarationText(d) == t[24..|t| - 1] == DeclarationText(b.decl);
      DeclarationTextInjective(d, b.decl);
    case EntName(n) =>
      assert b.EntName?;
      assert n == t[13..|t| - 1] == b.name;
    case EntWildcard =>
  }

  /** The printers agree with the unit tests of the query tree. */
  lemma DeclarationExample()
    ensures DeclarationText(Declaration("foo", AssignEnt)) == "Declaration(ent:assign, name:foo)"
  {
  }

  lemma StmtIdExample()
    ensures StmtRefText(StmtId(1)) == Ok("StmtId(id:1)")
  {
    assert StmtRefText(StmtId(1)) == Ok("StmtId(id:" + Decimal.NatText(1) + ")");
    assert Decimal.NatText(1) == "1";
    assert "StmtId(id:" + "1" + ")" == "StmtId(id:1)";
  }

  lemma EntExamples()
    ensures EntRefText(EntName("foo")) == Ok("EntName(name:foo)")
    ensures EntRefText(EntWildcard) == Ok("AllEnt(name: _)")
    ensures StmtRefText(StmtWildcard) == Ok("AllStmt(name: _)")
  {
    assert EntRefText(EntName("foo")) == Ok("EntName(name:" + "foo" + ")");
    assert "EntName(name:" + "foo" + ")" == "EntName(name:foo)";
  }

  /** The relation printers; Calls and Calls* have none. The labels differ from relation to
   *  relation: "user: " with a blank, and no colon after FollowsT's "after". */
  function RelCondText(rc: RelCond): (t: Result<string>)
  {
    match rc
    case ModifiesS(m, e) => Pair("ModifiesS", "modifier:", StmtRefText(m), "ent:", EntRefText(e))
    case ModifiesP(m, e) => Pair("ModifiesP", "modifier:", EntRefText(m), "ent:", EntRefText(e))
    case UsesS(u, e) => Pair("UsesS", "user: ", StmtRefText(u), "ent:", EntRefText(e))
    case UsesP(u, e) => Pair("UsesP", "user: ", EntRefText(u), "ent:", EntRefText(e))
    case Parent(p, c) => Pair("Parent", "parent:", StmtRefText(p), "child:", StmtRefText(c))
    case ParentT(p, c) => Pair("ParentT", "ancestor:", StmtRefText(p), "descendant:", StmtRefText(c))
    case Follows(x, y) => Pair("Follows", "directly_before:", StmtRefText(x), "directly_after:", StmtRefText(y))
    case FollowsT(x, y) => Pair("FollowsT", "before:", StmtRefText(x), "after", StmtRefText(y))
    case Calls(_, _) => Err("Calls has no printer")
    case CallsT(_, _) => Err("Calls* has no printer")
  }

  /** `Name(label1 a, label2 b)`, failing when either side does. */
  function Pair(name: string, label1: string, a: Result<string>, label2: string, b: Result<string>): (t: Result<string>)
    ensures t.Ok? <==> a.Ok? && b.Ok?
  {
    var x :- a;
    var y :- b;
    Ok(name + "(" + label1 + x + ", " + label2 + y + ")")
  }

  /** The second side of a pair is printed right after its label, at the end. */
  lemma PairEnds(name: string, label1: string, a: Result<string>, label2: string, b: Result<string>)
    requires a.Ok? && b.Ok?
    ensures var t := Pair(name, label1, a, label2, b).value;
            |t| >= |label2| + |b.value| + 1 && t[|t| - |label2| - |b.value| - 1..] == label2 + b.value + ")"
  {
    var p := name + "(" + label1 + a.value + ", ";
    var q := label2 + b.value + ")";
    assert Pair(name, label1, a, label2, b).value == p + q;
    assert (p + q)[|p|..] == q;
  }

  /** A relation prints exactly when it has a printer and its references are valid. */
  lemma RelCondPrints(rc: RelCond)
    ensures RelCondText(rc).Ok? <==> match rc
      case ModifiesS(m, e) => !m.StmtInvalid? && !e.EntInvalid?
      case ModifiesP(m, e) => !m.EntInvalid? && !e.EntInvalid?
      case UsesS(u, e) => !u.StmtInvalid? && !e.EntInvalid?
      case UsesP(u, e) => !u.EntInvalid? && !e.EntInvalid?
      case Parent(p, c) => !p.StmtInvalid? && !c.StmtInvalid?
      case ParentT(p, c) => !p.StmtInvalid? && !c.StmtInvalid?
      case Follows(x, y) => !x.StmtInvalid? && !y.StmtInvalid?
      case FollowsT(x, y) => !x.StmtInvalid? && !y.StmtInvalid?
      case Calls(_, _) => false
      case CallsT(_, _) => false
  {
  }

  /** FollowsT prints its second reference right after the word "after", with no colon in
   *  between. */
  lemma FollowsTAfter(x: StmtRef, y: StmtRef)
    requires !x.StmtInvalid? && !y.StmtInvalid?
    ensures var t := RelCondText(FollowsT(x, y)).value;
            var b := StmtRefText(y).value;
            |t| >= |b| + 6 && t[|t| - |b| - 6..] == "after" + b + ")"
  {
    PairEnds("FollowsT", "before:", StmtRefText(x), "after", StmtRefText(y));
  }

  /** Follows, unlike FollowsT, labels its second reference "directly_after:". */
  lemma FollowsDirectlyAfter(x: StmtRef, y: StmtRef)
    requires !x.StmtInvalid? && !y.StmtInvalid?
    ensures var t := RelCondText(Follows(x, y)).value;
            var b := StmtRefText(y).value;
            |t| >= |b| + 16 && t[|t| - |b| - 16..] == "directly_after:" + b + ")"
  {
    PairEnds("Follows", "directly_before:", StmtRefText(x), "directly_after:", StmtRefText(y));
  }

  /** zpr's text of a bool. */
  function BoolText(b: bool): string
  {
    if b then "true" else "false"
  }

  /** ExprSpec::toString, with the compact expression printer. */
  function ExprSpecText(spec: ExprSpec): (t: string)
  {
    "ExprSpec(is_subexpr:" + BoolText(spec.isSubexpr) + ", expr:"
      + (match spec.expr case Some(e) => SimpleStringify.ExprToString(e) case None => "nullptr") + ")"
  }

  /** AssignPatternCond::toString; if and while patterns have no printer. */
  function PatternCondText(c: PatternCond): (t: Result<string>)
    ensures t.Ok? <==> c.AssignPattern? && !c.ent.EntInvalid?
  {
    match c
    case AssignPattern(d, ent, spec) =>
      var e :- EntRefText(ent);
      Ok("PatternCl(ent:" + e + ", assignment_declaration:" + DeclarationText(d)
         + ", expr_spec:" + ExprSpecText(spec) + ")")
    case IfPattern(_, _) => Err("if patterns have no printer")
    case WhilePattern(_, _) => Err("while patterns have no printer")
  }

  /** One tab-indented line per printed item. */
  function ItemLines(items: seq<Result<string>>): (t: Result<string>)
    ensures t.Ok? <==> forall i :: 0 <= i < |items| ==> items[i].Ok?
  {
    if items == [] then Ok("")
    else
      var first :- items[0];
      var rest :- ItemLines(items[1..]);
      Ok("\t" + first + "\n" + rest)
  }

  function PatternTexts(conds: seq<PatternCond>): (r: seq<Result<string>>)
    ensures |r| == |conds| && forall i :: 0 <= i < |conds| ==> r[i] == PatternCondText(conds[i])
  {
    if conds == [] then [] else [PatternCondText(conds[0])] + PatternTexts(conds[1..])
  }

  function RelTexts(conds: seq<RelCond>): (r: seq<Result<string>>)
    ensures |r| == |conds| && forall i :: 0 <= i < |conds| ==> r[i] == RelCondText(conds[i])
  {
    if conds == [] then [] else [RelCondText(conds[0])] + RelTexts(conds[1..])
  }

  /** PatternCl::toString */
  function PatternClText(cl: PatternCl): (t: Result<string>)
  {
    var lines :- ItemLines(PatternTexts(cl.conds));
    Ok("PatternCl[\n" + lines + "]")
  }

  /** SuchThatCl::toString */
  function SuchThatClText(cl: SuchThatCl): (t: Result<string>)
  {
    var lines :- ItemLines(RelTexts(cl.relConds));
    Ok("SuchThatCl[\n" + lines + "]")
  }

  /** A clause prints as its header, one line per condition, and "]"; it fails exactly when
   *  one of its conditions does. */
  lemma {:induction false} ClauseLines(items: seq<Result<string>>)
    requires forall i :: 0 <= i < |items| ==> items[i].Ok?
    ensures ItemLines(items).Ok?
    ensures |items| > 0 ==>
              ItemLines(items).value == "\t" + items[0].value + "\n" + ItemLines(items[1..]).value
    ensures |items| == 0 ==> ItemLines(items).value == ""
  {
  }

  // -------------------------------------------------------- the declaration list

  /** One line of DeclarationList::toString. */
  function DeclarationLine(name: string, d: Declaration): string
  {
    "\tname:" + name + ", declaration:" + DeclarationText(d) + "\n"
  }

  /** The lines of the given names, in the given order. */
  function Lines(names: seq<string>, decls: map<string, Declaration>): string
    requires forall i :: 0 <= i < |names| ==> names[i] in decls
  {
    if names == [] then ""
    else Lines(names[..|names| - 1], decls) + DeclarationLine(names[|names| - 1], decls[names[|names| - 1]])
  }

  /** DeclarationList::toString: one line per declaration, ordered by name. */
  ghost function DeclarationListText(decls: map<string, Declaration>): string
  {
    SortedNamesSpec(decls.Keys);
    var names := SortedNames(decls.Keys);
    assert forall i :: 0 <= i < |names| ==> names[i] in multiset(names);
    "DeclarationList[\n" + Lines(names, decls) + "]"
  }

  /** DeclarationList::toString: the names are copied into an array, sorted in place, and
   *  printed in that order. */
  method DeclarationListString(decls: map<string, Declaration>) returns (r: string)
    ensures r == DeclarationListText(decls)
  {
    var names := CollectNames(decls);
    SortNames(names);
    SortedUnique(names[..], decls.Keys);
    forall p | 0 <= p < names.Length
      ensures names[p] in decls
    {
      assert names[p] in multiset(names[..]);
    }
    r := PrintLines(names, decls);
  }

  /** The loop copying the names of the map into a new array, in the map's order. */
  method CollectNames(decls: map<string, Declaration>) returns (names: array<string>)
    ensures fresh(names)
    ensures multiset(names[..]) == multiset(decls.Keys)
  {
    names := new string[|decls.Keys|];
    var left := decls.Keys;
    var i := 0;
    while i < names.Length
      invariant 0 <= i <= names.Length && |left| == names.Length - i
      invariant multiset(names[..i]) + multiset(left) == multiset(decls.Keys)
    {
      var k :| k in left;
      names[i] := k;
      assert names[..i + 1] == names[..i] + [k];
      assert multiset(left - {k}) == multiset(left) - multiset{k};
      left := left - {k};
      i := i + 1;
    }
    assert names[..] == names[..i];
    assert left == {} by {
      assert |left| == 0;
    }
  }

  lemma LinesSnoc(names: seq<string>, j: nat, decls: map<string, Declaration>)
    requires j < |names| && forall p :: 0 <= p < |names| ==> names[p] in decls
    ensures Lines(names[..j + 1], decls) == Lines(names[..j], decls) + DeclarationLine(names[j], decls[names[j]])
  {
    assert names[..j + 1][..j] == names[..j];
  }

  lemma Append3(a: string, b: string, c: string)
    ensures a + b + c == a + (b + c)
  {
  }

  /** The printing loop over the sorted names. */
  method PrintLines(names: array<string>, decls: map<string, Declaration>) returns (r: string)
    requires forall p :: 0 <= p < names.Length ==> names[p] in decls
    ensures r == "DeclarationList[\n" + Lines(names[..], decls) + "]"
  {
    r := "DeclarationList[\n";
    var j := 0;
    while j < names.Length
      invariant 0 <= j <= names.Length
      invariant r == "DeclarationList[\n" + Lines(names[..j], decls)
    {
      LinesSnoc(names[..], j, decls);
      Append3("DeclarationList[\n", Lines(names[..j], decls), DeclarationLine(names[j], decls[names[j]]));
      r := r + DeclarationLine(names[j], decls[names[j]]);
      j := j + 1;
    }
    assert names[..j] == names[..];
    r := r + "]";
  }

  /** std::sort with the string order, as an insertion sort. */
  method SortNames(a: array<string>)
    modifies a
    ensures InOrder(a[..])
    ensures multiset(a[..]) == multiset(old(a[..]))
  {
    var i := 0;
    while i < a.Length
      invariant 0 <= i <= a.Length
      invariant InOrderBelow(a[..], i)
      invariant multiset(a[..]) == multiset(old(a[..]))
    {
      var j := i;
      while j > 0 && Below(a[j], a[j - 1])
        invariant 0 <= j <= i
        invariant multiset(a[..]) == multiset(old(a[..]))
        invariant InOrderExcept(a[..], i, j) && Settled(a[..], i, j)
      {
        SwapStep(a[..], i, j);
        a[j - 1], a[j] := a[j], a[j - 1];
        j := j - 1;
      }
      Inserted(a[..], i, j);
      i := i + 1;
    }
    assert a[..] == a[..a.Length];
  }

  /** The first n names are in order. */
  predicate InOrderBelow(s: seq<string>, n: nat)
    requires n <= |s|
  {
    forall p, q :: 0 <= p < q < n ==> !Below(s[q], s[p])
  }

  /** The names up to i are in order, leaving out the one at j. */
  predicate InOrderExcept(s: seq<string>, i: nat, j: nat)
    requires j <= i < |s|
  {
    forall p, q :: 0 <= p < q <= i && q != j ==> !Below(s[q], s[p])
  }

  /** The name at j is in order with those after it up to i. */
  predicate Settled(s: seq<string>, i: nat, j: nat)
    requires j <= i < |s|
  {
    forall q :: j < q <= i ==> !Below(s[q], s[j])
  }

  /** Moving the name at j one place down keeps the insertion invariant. */
  lemma SwapStep(s: seq<string>, i: nat, j: nat)
    requires 0 < j <= i < |s| && Below(s[j], s[j - 1])
    requires InOrderExcept(s, i, j) && Settled(s, i, j)
    ensures var t := s[j - 1 := s[j]][j := s[j - 1]];
            InOrderExcept(t, i, j - 1) && Settled(t, i, j - 1)
  {
    BelowAsymmetric(s[j], s[j - 1]);
  }

  /** Once the name at j is not below its left neighbour, the first i + 1 names are in
   *  order. */
  lemma Inserted(s: seq<string>, i: nat, j: nat)
    requires j <= i < |s| && InOrderExcept(s, i, j) && Settled(s, i, j)
    requires j == 0 || !Below(s[j], s[j - 1])
    ensures InOrderBelow(s, i + 1)
  {
    forall p | 0 <= p < j
      ensures !Below(s[j], s[p])
    {
      if p < j - 1 {
        NotAfterTransitive(s[p], s[j - 1], s[j]);
      }
    }
  }

  /** The declaration list prints as its header, then, for the names in order, one line each
   *  naming the declaration and printing it, then "]". */
  lemma DeclarationListLines(decls: map<string, Declaration>)
    ensures var names := SortedNames(decls.Keys);
            |names| == |decls|
            && (forall p, q :: 0 <= p < q < |names| ==> Below(names[p], names[q]))
            && (forall k :: k in decls <==> k in names)
            && DeclarationListText(decls) == "DeclarationList[\n" + Lines(names, decls) + "]"
  {
    SortedNamesSpec(decls.Keys);
    var names := SortedNames(decls.Keys);
    forall k
      ensures k in decls <==> k in names
    {
      assert k in names <==> k in multiset(names);
    }
  }

  /** The unit test of DeclarationList::toString: "bar" is printed before "foo". */
  lemma DeclarationListExample()
    ensures var decls := map["foo" := Declaration("foo", AssignEnt), "bar" := Declaration("bar", ProcedureEnt)];
            DeclarationListText(decls)
            == "DeclarationList[\n"
               + DeclarationLine("bar", Declaration("bar", ProcedureEnt))
               + DeclarationLine("foo", Declaration("foo", AssignEnt))
               + "]"
  {
    var decls := map["foo" := Declaration("foo", AssignEnt), "bar" := Declaration("bar", ProcedureEnt)];
    BarBeforeFoo(decls);
    ExampleLines(decls);
  }

  lemma BarBeforeFoo(decls: map<string, Declaration>)
    requires decls.Keys == {"bar", "foo"}
    ensures SortedNames(decls.Keys) == ["bar", "foo"]
  {
    assert Below("bar", "foo");
    assert multiset(["bar", "foo"]) == multiset(decls.Keys);
    SortedUnique(["bar", "foo"], decls.Keys);
  }

  lemma ExampleLines(decls: map<string, Declaration>)
    requires decls == map["foo" := Declaration("foo", AssignEnt), "bar" := Declaration("bar", ProcedureEnt)]
    ensures Lines(["bar", "foo"], decls)
            == DeclarationLine("bar", Declaration("bar", ProcedureEnt))
               + DeclarationLine("foo", Declaration("foo", AssignEnt))
  {
    assert ["bar", "foo"][..1] == ["bar"];
    assert ["bar"][..0] == [];
    assert Lines(["bar"], decls) == DeclarationLine("bar", Declaration("bar", ProcedureEnt));
  }
}
