/**
 * The generic evaluation of a two-argument relation clause (pql/eval/common.h,
 * pql/eval/common.cpp). A relation is given by a configuration: the entity its declared
 * arguments must have, the relation and its inverse between two entities, the entities related
 * to one entity and inversely related to it, how an argument value is looked up in the
 * knowledge base, and whether the relation holds anywhere at all.
 *
 * Each argument is '_', a declaration, or a concrete value (a statement number or a name).
 * The shapes (decl, value), (_, value) and (_, decl) are turned round to use the inverse
 * relation, and the six shapes left each have a rule of their own.
 */
module RelationAbstractor {
  import opened Wrappers
  import opened PqlAst
  import opened EvalTable

  /** An argument, StmtRef and EntRef alike; the invalid tag is the default-constructed one. */
  datatype Ref<P> = RWildcard | RDecl(decl: Declaration) | RConcrete(value: P) | RInvalid

  function OfStmtRef(r: StmtRef): (g: Ref<nat>)
    ensures (g.RDecl? <==> r.StmtDecl?) && (g.RConcrete? <==> r.StmtId?) && (g.RWildcard? <==> r.StmtWildcard?)
    ensures r.StmtDecl? ==> g.decl == r.decl
    ensures r.StmtId? ==> g.value == r.id
  {
    match r
    case StmtWildcard => RWildcard
    case StmtDecl(d) => RDecl(d)
    case StmtId(n) => RConcrete(n)
    case StmtInvalid => RInvalid
  }

  function OfEntRef(r: EntRef): (g: Ref<string>)
    ensures (g.RDecl? <==> r.EntDecl?) && (g.RConcrete? <==> r.EntName?) && (g.RWildcard? <==> r.EntWildcard?)
    ensures r.EntDecl? ==> g.decl == r.decl
    ensures r.EntName? ==> g.value == r.name
  {
    match r
    case EntWildcard => RWildcard
    case EntDecl(d) => RDecl(d)
    case EntName(n) => RConcrete(n)
    case EntInvalid => RInvalid
  }

  /** RelationAbstractor: one relation's configuration. entryValue is getEntryValue<P> and
   *  makeEntry the Entry constructor for P; getEntity and relationExists are the knowledge-base
   *  lookups the configuration names. */
  datatype Abstractor<!E, !P(==)> = Abstractor(
    relationName: string,
    leftDeclEntity: Option<DesignEnt>,
    rightDeclEntity: Option<DesignEnt>,
    stmtLike: bool,
    relationHolds: (E, E) -> bool,
    inverseRelationHolds: (E, E) -> bool,
    getAllRelated: E -> set<P>,
    getAllInverselyRelated: E -> set<P>,
    getEntity: P -> Result<E>,
    relationExists: bool,
    entryValue: Entry -> Result<P>,
    makeEntry: (Declaration, P) -> Result<Entry>)

  /** A declared argument passes when it has the configured entity (if any) and, for statement
   *  references, a statement entity. */
  predicate DeclOk<E, P(==)>(a: Abstractor<E, P>, ref: Ref<P>, expected: Option<DesignEnt>)
  {
    ref.RDecl? ==>
      (expected.None? || ref.decl.designEnt == expected.value) && (!a.stmtLike || IsStmtEnt(ref.decl.designEnt))
  }

  /** The three shapes evaluated through the inverse relation. */
  predicate Swaps<P>(l: Ref<P>, r: Ref<P>)
  {
    (l.RDecl? && r.RConcrete?) || (l.RWildcard? && r.RConcrete?) || (l.RWildcard? && r.RDecl?)
  }

  /** After the swap, the nine shapes of two valid arguments are the six handled ones. */
  lemma NineShapesSixCases<P>(l: Ref<P>, r: Ref<P>)
    requires !l.RInvalid? && !r.RInvalid?
    ensures var (l2, r2) := if Swaps(l, r) then (r, l) else (l, r);
            (l2.RConcrete? && r2.RConcrete?) || (l2.RConcrete? && r2.RDecl?) || (l2.RDecl? && r2.RWildcard?)
            || (l2.RDecl? && r2.RDecl?) || (l2.RConcrete? && r2.RWildcard?) || (l2.RWildcard? && r2.RWildcard?)
    ensures Swaps(l, r) ==> !Swaps(r, l)
  {
  }

  /** The entity an entry of a domain stands for. */
  function EntityOf<E, P(==)>(a: Abstractor<E, P>, e: Entry): Result<E>
  {
    var v :- a.entryValue(e);
    a.getEntity(v)
  }

  /** The entries of dom whose entity passes keep. */
  ghost function Kept<E, P>(a: Abstractor<E, P>, dom: Domain, keep: E -> bool): Domain
  {
    set e | e in dom && EntityOf(a, e).Ok? && keep(EntityOf(a, e).value)
  }

  ghost predicate AllFound<E, P>(a: Abstractor<E, P>, dom: Domain)
  {
    forall e :: e in dom ==> EntityOf(a, e).Ok?
  }

  /** Kept is a subset of the domain, and an entry whose entity is found is kept exactly when
   *  it passes; so a filter only ever shrinks a domain. */
  lemma KeptIsFilter<E, P>(a: Abstractor<E, P>, dom: Domain, keep: E -> bool)
    ensures Kept(a, dom, keep) <= dom
    ensures forall e :: e in dom && EntityOf(a, e).Ok? ==> (e in Kept(a, dom, keep) <==> keep(EntityOf(a, e).value))
  {
  }

  /** The erase-while-iterating loop over a domain: an entry whose entity cannot be looked up
   *  aborts, the others stay exactly when keep holds. */
  method FilterDomain<E, P(==)>(a: Abstractor<E, P>, dom: Domain, keep: E -> bool) returns (r: Result<Domain>)
    ensures r.Ok? <==> AllFound(a, dom)
    ensures r.Ok? ==> r.value == Kept(a, dom, keep)
  {
    var kept: Domain := {};
    var rest := dom;
    while rest != {}
      invariant rest <= dom
      invariant AllFound(a, dom - rest)
      invariant kept == Kept(a, dom - rest, keep)
      decreases |rest|
    {
      var e :| e in rest;
      var ent := EntityOf(a, e);
      if ent.Err? {
        return Err(ent.msg);
      }
      if keep(ent.value) {
        kept := kept + {e};
      }
      rest := rest - {e};
      assert dom - rest == (dom - (rest + {e})) + {e};
    }
    assert dom - rest == dom;
    r := Ok(kept);
  }

  // ------------------------------------------------------------ evaluateTwoDeclRelations

  /** The inputs of evaluateTwoDeclRelations: the two declarations, how a left entry's value is
   *  read, the values related to it, and the entry constructors of the two sides. */
  datatype TwoDecl<!PL, !PR(==)> = TwoDecl(
    leftDecl: Declaration,
    rightDecl: Declaration,
    leftValue: Entry -> Result<PL>,
    related: PL -> Result<set<PR>>,
    makeLeft: (Declaration, PL) -> Result<Entry>,
    makeRight: (Declaration, PR) -> Result<Entry>)
  {
    function RelatedTo(e: Entry): Result<set<PR>>
    {
      var v :- leftValue(e);
      related(v)
    }

    /** The right values related to e, none when looking them up fails. */
    function Rel(e: Entry): set<PR>
    {
      if RelatedTo(e).Ok? then RelatedTo(e).value else {}
    }

    /** The left entry rebuilt from e's value. */
    function LeftEntry(e: Entry): Result<Entry>
    {
      var v :- leftValue(e);
      makeLeft(leftDecl, v)
    }

    /** Looking up e's related values works, and so do the entries built from them. */
    ghost predicate EntryOk(e: Entry)
    {
      RelatedTo(e).Ok?
      && (RelatedTo(e).value != {} ==>
            LeftEntry(e).Ok? && forall x :: x in RelatedTo(e).value ==> makeRight(rightDecl, x).Ok?)
    }

    ghost predicate AllOk(dom: Domain)
    {
      forall e :: e in dom ==> EntryOk(e)
    }

    /** The left entries with at least one related value. */
    ghost function KeptLeft(dom: Domain): Domain
    {
      set e | e in dom && RelatedTo(e).Ok? && RelatedTo(e).value != {}
    }

    /** The right entries related to some kept left entry. */
    ghost function NewRight(dom: Domain): Domain
    {
      set e, x | e in dom && x in Rel(e) && makeRight(rightDecl, x).Ok? :: makeRight(rightDecl, x).value
    }

    /** The join: every kept left entry paired with each entry related to it. */
    ghost function Pairs(dom: Domain): set<(Entry, Entry)>
    {
      set e, x | e in dom && x in Rel(e) && LeftEntry(e).Ok? && makeRight(rightDecl, x).Ok? ::
        (LeftEntry(e).value, makeRight(rightDecl, x).value)
    }
  }

  /** The loop over the values related to one kept left entry. */
  method AddRelated<PL, PR(==)>(t: TwoDecl<PL, PR>, e: Entry, le: Entry, rel: set<PR>,
                            pairs0: set<(Entry, Entry)>, right0: Domain)
    returns (r: Result<(set<(Entry, Entry)>, Domain)>)
    requires t.RelatedTo(e) == Ok(rel) && t.LeftEntry(e) == Ok(le)
    ensures r.Ok? <==> forall x :: x in rel ==> t.makeRight(t.rightDecl, x).Ok?
    ensures r.Ok? ==> r.value.0 == pairs0 + t.Pairs({e}) && r.value.1 == right0 + t.NewRight({e})
  {
    var pairs, right := pairs0, right0;
    var rest := rel;
    while rest != {}
      invariant rest <= rel
      invariant forall x :: x in rel - rest ==> t.makeRight(t.rightDecl, x).Ok?
      invariant pairs == pairs0 + set x | x in rel - rest :: (le, t.makeRight(t.rightDecl, x).value)
      invariant right == right0 + set x | x in rel - rest :: t.makeRight(t.rightDecl, x).value
      decreases |rest|
    {
      var x :| x in rest;
      var re := t.makeRight(t.rightDecl, x);
      if re.Err? {
        return Err(re.msg);
      }
      pairs, right := AddValue(t, le, rel, rest, x, pairs0, right0, pairs, right);
      rest := rest - {x};
    }
    assert rel - rest == rel;
    SingletonPairs(t, e, le, rel);
    r := Ok((pairs, right));
  }

  /** One related value: its pair and its right entry are added. */
  method AddValue<PL, PR(==)>(t: TwoDecl<PL, PR>, le: Entry, rel: set<PR>, rest: set<PR>, x: PR,
                              pairs0: set<(Entry, Entry)>, right0: Domain,
                              pairs: set<(Entry, Entry)>, right: Domain)
    returns (pairs': set<(Entry, Entry)>, right': Domain)
    requires rest <= rel && x in rest && t.makeRight(t.rightDecl, x).Ok?
    requires forall y :: y in rel - rest ==> t.makeRight(t.rightDecl, y).Ok?
    requires pairs == pairs0 + set y | y in rel - rest :: (le, t.makeRight(t.rightDecl, y).value)
    requires right == right0 + set y | y in rel - rest :: t.makeRight(t.rightDecl, y).value
    ensures forall y :: y in rel - (rest - {x}) ==> t.makeRight(t.rightDecl, y).Ok?
    ensures pairs' == pairs0 + set y | y in rel - (rest - {x}) :: (le, t.makeRight(t.rightDecl, y).value)
    ensures right' == right0 + set y | y in rel - (rest - {x}) :: t.makeRight(t.rightDecl, y).value
  {
    assert rel - (rest - {x}) == (rel - rest) + {x};
    var re := t.makeRight(t.rightDecl, x).value;
    pairs' := pairs + {(le, re)};
    right' := right + {re};
  }

  lemma SingletonPairs<PL, PR>(t: TwoDecl<PL, PR>, e: Entry, le: Entry, rel: set<PR>)
    requires t.RelatedTo(e) == Ok(rel) && t.LeftEntry(e) == Ok(le)
    requires forall x :: x in rel ==> t.makeRight(t.rightDecl, x).Ok?
    ensures t.Pairs({e}) == set x | x in rel :: (le, t.makeRight(t.rightDecl, x).value)
    ensures t.NewRight({e}) == set x | x in rel :: t.makeRight(t.rightDecl, x).value
  {
  }

  lemma UnionSteps<PL, PR>(t: TwoDecl<PL, PR>, s: Domain, e: Entry)
    ensures t.Pairs(s + {e}) == t.Pairs(s) + t.Pairs({e})
    ensures t.NewRight(s + {e}) == t.NewRight(s) + t.NewRight({e})
    ensures t.KeptLeft(s + {e}) == t.KeptLeft(s) + t.KeptLeft({e})
  {
  }

  /** One left entry of the loop: it is kept, with its pairs and related entries, when it has a
   *  related value. */
  method RelateOne<PL, PR(==)>(t: TwoDecl<PL, PR>, e: Entry, kept: Domain, right: Domain,
                               pairs: set<(Entry, Entry)>)
    returns (r: Result<(Domain, Domain, set<(Entry, Entry)>)>)
    ensures r.Ok? <==> t.EntryOk(e)
    ensures r.Ok? ==> r.value == (kept + t.KeptLeft({e}), right + t.NewRight({e}), pairs + t.Pairs({e}))
  {
    var rel := t.RelatedTo(e);
    if rel.Err? {
      return Err(rel.msg);
    }
    if rel.value == {} {
      assert t.Pairs({e}) == {} && t.NewRight({e}) == {} && t.KeptLeft({e}) == {};
      assert kept + t.KeptLeft({e}) == kept && right + t.NewRight({e}) == right && pairs + t.Pairs({e}) == pairs;
      return Ok((kept, right, pairs));
    }
    var le := t.LeftEntry(e);
    if le.Err? {
      return Err(le.msg);
    }
    var added := AddRelated(t, e, le.value, rel.value, pairs, right);
    if added.Err? {
      return Err(added.msg);
    }
    assert t.KeptLeft({e}) == {e};
    r := Ok((kept + {e}, added.value.1, added.value.0));
  }

  /** The loop of evaluateTwoDeclRelations over the left domain, before the table is touched. */
  method CollectTwoDecl<PL, PR(==)>(t: TwoDecl<PL, PR>, dom: Domain)
    returns (r: Result<(Domain, Domain, set<(Entry, Entry)>)>)
    ensures r.Ok? <==> t.AllOk(dom)
    ensures r.Ok? ==> r.value == (t.KeptLeft(dom), t.NewRight(dom), t.Pairs(dom))
  {
    var kept: Domain := {};
    var newRight: Domain := {};
    var pairs: set<(Entry, Entry)> := {};
    var rest := dom;
    assert dom - rest == {};
    assert t.KeptLeft({}) == {} && t.NewRight({}) == {} && t.Pairs({}) == {};
    while rest != {}
      invariant rest <= dom
      invariant t.AllOk(dom - rest)
      invariant (kept, newRight, pairs) == (t.KeptLeft(dom - rest), t.NewRight(dom - rest), t.Pairs(dom - rest))
      decreases |rest|
    {
      var e :| e in rest;
      ghost var done := dom - rest;
      assert dom - (rest - {e}) == done + {e};
      UnionSteps(t, done, e);
      var step := RelateOne(t, e, kept, newRight, pairs);
      if step.Err? {
        return Err(step.msg);
      }
      kept, newRight, pairs := step.value.0, step.value.1, step.value.2;
      rest := rest - {e};
    }
    assert dom - rest == dom;
    r := Ok((kept, newRight, pairs));
  }

  /** The outcome of evaluateTwoDeclRelations: it fails exactly when a lookup or an entry fails,
   *  and then changes nothing; otherwise the left domain keeps the entries with a related value,
   *  the right domain becomes the related entries that were already in it, and one join records
   *  the pairs. The right domain is read after the left one is written, which matters when both
   *  arguments are the same declaration. */
  twostate predicate TwoDeclOutcome<PL, PR>(t: TwoDecl<PL, PR>, table: Table, new res: Result<()>)
    reads table
  {
    var dom := DomainOf(old(table.domains), t.leftDecl);
    var afterLeft := old(table.domains)[t.leftDecl := t.KeptLeft(dom)];
    (res.Ok? <==> t.AllOk(dom))
    && (res.Err? ==> table.domains == old(table.domains) && table.joins == old(table.joins))
    && (res.Ok? ==>
          table.domains == afterLeft[t.rightDecl := t.NewRight(dom) * DomainOf(afterLeft, t.rightDecl)]
          && table.joins == old(table.joins) + [Join(t.leftDecl, t.rightDecl, t.Pairs(dom))])
  }

  /** evaluateTwoDeclRelations */
  method EvaluateTwoDeclRelations<PL, PR(==)>(t: TwoDecl<PL, PR>, table: Table) returns (r: Result<()>)
    modifies table
    ensures TwoDeclOutcome(t, table, r)
    ensures table.selectDecls == old(table.selectDecls)
  {
    var dom := table.GetDomain(t.leftDecl);
    var collected := CollectTwoDecl(t, dom);
    if collected.Err? {
      return Err(collected.msg);
    }
    var (kept, newRight, pairs) := collected.value;
    table.PutDomain(t.leftDecl, kept);
    var rightDom := table.GetDomain(t.rightDecl);
    table.PutDomain(t.rightDecl, newRight * rightDom);
    table.AddJoin(Join(t.leftDecl, t.rightDecl, pairs));
    r := Ok(());
  }

  /** What evaluateTwoDeclRelations computes: the kept left entries are the old ones that have a
   *  related value, and the join pairs kept left entries with entries related to them. */
  lemma TwoDeclProperties<PL, PR>(t: TwoDecl<PL, PR>, dom: Domain)
    requires t.AllOk(dom)
    ensures t.KeptLeft(dom) <= dom
    ensures forall e :: e in dom ==> (e in t.KeptLeft(dom) <==> t.RelatedTo(e).value != {})
    ensures forall p :: p in t.Pairs(dom) ==>
              exists e, x :: e in t.KeptLeft(dom) && x in t.RelatedTo(e).value
                && p == (t.LeftEntry(e).value, t.makeRight(t.rightDecl, x).value)
    ensures forall e, x :: e in dom && x in t.Rel(e) ==>
              (t.LeftEntry(e).value, t.makeRight(t.rightDecl, x).value) in t.Pairs(dom)
              && t.makeRight(t.rightDecl, x).value in t.NewRight(dom)
  {
    forall p | p in t.Pairs(dom)
      ensures exists e, x :: e in t.KeptLeft(dom) && x in t.RelatedTo(e).value
                && p == (t.LeftEntry(e).value, t.makeRight(t.rightDecl, x).value)
    {
      var e, x :| e in dom && x in t.Rel(e) && t.LeftEntry(e).Ok? && t.makeRight(t.rightDecl, x).Ok?
                  && p == (t.LeftEntry(e).value, t.makeRight(t.rightDecl, x).value);
      assert e in t.KeptLeft(dom);
    }
  }

  // ------------------------------------------------------------ RelationAbstractor::evaluate

  /** The lookups of a swapped relation: the inverse relation and the inversely related sets. */
  function Inverse<E, P(==)>(a: Abstractor<E, P>): Abstractor<E, P>
  {
    a.(relationHolds := a.inverseRelationHolds, getAllRelated := a.getAllInverselyRelated)
  }

  /** The two-declaration rule in the abstractor's terms: values are looked up as entities. */
  function AsTwoDecl<E, P(==)>(a: Abstractor<E, P>, l: Declaration, r: Declaration): TwoDecl<P, P>
  {
    TwoDecl(l, r, a.entryValue,
            (p: P) => (var ent :- a.getEntity(p); Ok(a.getAllRelated(ent))),
            a.makeEntry, a.makeEntry)
  }

  /** The outcome of the rule for the ordered arguments l and r: which shapes fail, and what the
   *  domains and joins become. A failing rule changes neither. */
  twostate predicate Outcome<E, P>(a: Abstractor<E, P>, table: Table, l: Ref<P>, r: Ref<P>, new res: Result<()>)
    reads table
  {
    (res.Err? ==> table.domains == old(table.domains) && table.joins == old(table.joins))
    && (!(l.RDecl? && r.RDecl?) ==> table.joins == old(table.joins))
    && (l.RConcrete? && r.RConcrete? ==>
         table.domains == old(table.domains)
         && (res.Ok? <==>
               a.getEntity(l.value).Ok? && a.getEntity(r.value).Ok?
               && a.relationHolds(a.getEntity(l.value).value, a.getEntity(r.value).value)))
    && (l.RConcrete? && r.RDecl? ==>
         (res.Ok? <==> a.getEntity(l.value).Ok? && AllFound(a, DomainOf(old(table.domains), r.decl)))
         && (res.Ok? ==> table.domains == old(table.domains)[r.decl :=
               Kept(a, DomainOf(old(table.domains), r.decl), x => a.relationHolds(a.getEntity(l.value).value, x))]))
    && (l.RDecl? && r.RWildcard? ==>
         (res.Ok? <==> AllFound(a, DomainOf(old(table.domains), l.decl)))
         && (res.Ok? ==> table.domains == old(table.domains)[l.decl :=
               Kept(a, DomainOf(old(table.domains), l.decl), x => a.getAllRelated(x) != {})]))
    && (l.RDecl? && r.RDecl? ==> TwoDeclOutcome(AsTwoDecl(a, l.decl, r.decl), table, res))
    && (l.RConcrete? && r.RWildcard? ==>
         table.domains == old(table.domains)
         && (res.Ok? <==> a.getEntity(l.value).Ok? && a.getAllRelated(a.getEntity(l.value).value) != {}))
    && (l.RWildcard? && r.RWildcard? ==> table.domains == old(table.domains) && (res.Ok? <==> a.relationExists))
    && (l.RInvalid? || r.RInvalid? || (l.RWildcard? && !r.RWildcard?) || (l.RDecl? && r.RConcrete?) ==> res.Err?)
  }

  /** The six rules once the arguments are in order. */
  method EvaluateOrdered<E, P(==)>(a: Abstractor<E, P>, table: Table, l: Ref<P>, r: Ref<P>) returns (res: Result<()>)
    modifies table
    ensures table.selectDecls == old(table.selectDecls)
    ensures Outcome(a, table, l, r, res)
  {
    if l.RConcrete? && r.RConcrete? {
      var left :- a.getEntity(l.value);
      var right :- a.getEntity(r.value);
      if !a.relationHolds(left, right) {
        return Err(a.relationName + " always evaluates to false");
      }
      res := Ok(());
    } else if l.RConcrete? && r.RDecl? {
      var left :- a.getEntity(l.value);
      var dom := table.GetDomain(r.decl);
      var kept :- FilterDomain(a, dom, x => a.relationHolds(left, x));
      table.PutDomain(r.decl, kept);
      res := Ok(());
    } else if l.RDecl? && r.RWildcard? {
      var dom := table.GetDomain(l.decl);
      var kept :- FilterDomain(a, dom, x => a.getAllRelated(x) != {});
      table.PutDomain(l.decl, kept);
      res := Ok(());
    } else if l.RDecl? && r.RDecl? {
      res := EvaluateTwoDeclRelations(AsTwoDecl(a, l.decl, r.decl), table);
    } else if l.RConcrete? && r.RWildcard? {
      var left :- a.getEntity(l.value);
      if a.getAllRelated(left) == {} {
        return Err(a.relationName + " always evaluates to false");
      }
      res := Ok(());
    } else if l.RWildcard? && r.RWildcard? {
      if !a.relationExists {
        return Err(a.relationName + " always evaluates to false");
      }
      res := Ok(());
    } else {
      res := Err("unreachable: invalid combination of argument types");
    }
  }

  /** RelationAbstractor::evaluate: both declared arguments become selected declarations and are
   *  checked before anything else; then the arguments are put in order and the rule for their
   *  shape is applied. */
  method Evaluate<E, P(==)>(a: Abstractor<E, P>, table: Table, left: Ref<P>, right: Ref<P>) returns (res: Result<()>)
    modifies table
    ensures table.selectDecls ==
              old(table.selectDecls) + (if left.RDecl? then {left.decl} else {})
              + (if right.RDecl? && DeclOk(a, left, a.leftDeclEntity) then {right.decl} else {})
    ensures !DeclOk(a, left, a.leftDeclEntity) || !DeclOk(a, right, a.rightDeclEntity) ==>
              res.Err? && table.domains == old(table.domains) && table.joins == old(table.joins)
    ensures res.Err? ==> table.domains == old(table.domains) && table.joins == old(table.joins)
    ensures DeclOk(a, left, a.leftDeclEntity) && DeclOk(a, right, a.rightDeclEntity) ==>
              if Swaps(left, right) then Outcome(Inverse(a), table, right, left, res)
              else Outcome(a, table, left, right, res)
  {
    if left.RDecl? {
      table.AddSelectDecl(left.decl);
    }
    if !DeclOk(a, left, a.leftDeclEntity) {
      return Err("entity for first argument of '" + a.relationName + "' is not allowed");
    }
    if right.RDecl? {
      table.AddSelectDecl(right.decl);
    }
    if !DeclOk(a, right, a.rightDeclEntity) {
      return Err("entity for second argument of '" + a.relationName + "' is not allowed");
    }
    if Swaps(left, right) {
      res := EvaluateOrdered(Inverse(a), table, right, left);
    } else {
      res := EvaluateOrdered(a, table, left, right);
    }
  }
}
