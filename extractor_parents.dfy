/**
 * What processAncestors and processDescendants (pkb/design_extractor.cpp) record: for each
 * statement, the containers around it and its direct parent; for each container, its direct
 * children and everything nested in it.
 */
module ExtractorParents {
  import opened Wrappers
  import opened ExtractorTree

  /** Where a statement sits: the numbers of the containers around it and of the innermost one. */
  datatype Placement = Placement(id: nat, above: set<nat>, parent: Option<nat>)

  /**
   * The placement of every statement of l, nested ones included, in pre-order, when l sits
   * inside the containers `above`, the innermost being `parent`.
   */
  function Placements(l: seq<NStmt>, above: set<nat>, parent: Option<nat>): seq<Placement>
    decreases l
  {
    if |l| == 0 then [] else SubPlacements(l[0], above, parent) + Placements(l[1..], above, parent)
  }

  function SubPlacements(n: NStmt, above: set<nat>, parent: Option<nat>): seq<Placement>
    decreases n
  {
    var inner := above + {n.id};
    match n
    case NIf(id, _, t, f) =>
      [Placement(id, above, parent)] + Placements(t, inner, Some(id)) + Placements(f, inner, Some(id))
    case NWhile(id, _, b) => [Placement(id, above, parent)] + Placements(b, inner, Some(id))
    case _ => [Placement(n.id, above, parent)]
  }

  /** The placements of a procedure body: its own statements have nothing around them. */
  function BodyPlacements(body: seq<NStmt>): seq<Placement>
  {
    Placements(body, {}, None)
  }

  /**
   * Every placement either sits directly in the list (parent `parent`, containers `above`) or
   * has its parent placed before it, and then its containers are the parent and the parent's
   * containers.
   */
  predicate Chained(p: seq<Placement>, above: set<nat>, parent: Option<nat>)
  {
    forall k :: 0 <= k < |p| ==> ChainedAt(p, k, above, parent)
  }

  predicate ChainedAt(p: seq<Placement>, k: nat, above: set<nat>, parent: Option<nat>)
    requires k < |p|
  {
    (p[k].parent == parent && p[k].above == above) ||
    exists j :: 0 <= j < k && p[k].parent == Some(p[j].id) && p[k].above == p[j].above + {p[j].id}
  }

  lemma ChainedAppend(p: seq<Placement>, q: seq<Placement>, above: set<nat>, parent: Option<nat>)
    requires Chained(p, above, parent) && Chained(q, above, parent)
    ensures Chained(p + q, above, parent)
  {
    forall k | 0 <= k < |p + q|
      ensures ChainedAt(p + q, k, above, parent)
    {
      if k < |p| {
        ChainedPrefixAt(p, q, k, above, parent);
      } else {
        ChainedSuffixAt(p, q, k - |p|, above, parent);
      }
    }
  }

  lemma ChainedPrefixAt(p: seq<Placement>, q: seq<Placement>, k: nat, above: set<nat>, parent: Option<nat>)
    requires k < |p| && ChainedAt(p, k, above, parent)
    ensures ChainedAt(p + q, k, above, parent)
  {
    var pq := p + q;
    assert pq[k] == p[k];
    if !(p[k].parent == parent && p[k].above == above) {
      var j :| 0 <= j < k && p[k].parent == Some(p[j].id) && p[k].above == p[j].above + {p[j].id};
      assert pq[j] == p[j];
    }
  }

  lemma ChainedSuffixAt(p: seq<Placement>, q: seq<Placement>, k: nat, above: set<nat>, parent: Option<nat>)
    requires k < |q| && ChainedAt(q, k, above, parent)
    ensures ChainedAt(p + q, |p| + k, above, parent)
  {
    var pq := p + q;
    assert pq[|p| + k] == q[k];
    if !(q[k].parent == parent && q[k].above == above) {
      var j :| 0 <= j < k && q[k].parent == Some(q[j].id) && q[k].above == q[j].above + {q[j].id};
      assert pq[|p| + j] == q[j];
    }
  }

  lemma ChainedUnder(head: Placement, q: seq<Placement>)
    requires Chained(q, head.above + {head.id}, Some(head.id))
    ensures Chained([head] + q, head.above, head.parent)
  {
    forall k | 0 <= k < |[head] + q|
      ensures ChainedAt([head] + q, k, head.above, head.parent)
    {
      if k > 0 {
        ChainedUnderAt(head, q, k - 1);
      }
    }
  }

  lemma ChainedUnderAt(head: Placement, q: seq<Placement>, k: nat)
    requires k < |q| && ChainedAt(q, k, head.above + {head.id}, Some(head.id))
    ensures ChainedAt([head] + q, k + 1, head.above, head.parent)
  {
    var hq := [head] + q;
    assert hq[k + 1] == q[k];
    if q[k].parent == Some(head.id) && q[k].above == head.above + {head.id} {
      assert hq[0] == head;
    } else {
      var j :| 0 <= j < k && q[k].parent == Some(q[j].id) && q[k].above == q[j].above + {q[j].id};
      assert hq[j + 1] == q[j];
    }
  }

  /**
   * A statement's ancestors are its direct parent plus the parent's ancestors, and the
   * statements a list holds directly have the containers of the list and no others.
   */
  lemma {:induction false} PlacementsChained(l: seq<NStmt>, above: set<nat>, parent: Option<nat>)
    ensures Chained(Placements(l, above, parent), above, parent)
    decreases l
  {
    if |l| > 0 {
      SubPlacementsChained(l[0], above, parent);
      PlacementsChained(l[1..], above, parent);
      ChainedAppend(SubPlacements(l[0], above, parent), Placements(l[1..], above, parent), above, parent);
    }
  }

  lemma {:induction false} SubPlacementsChained(n: NStmt, above: set<nat>, parent: Option<nat>)
    ensures Chained(SubPlacements(n, above, parent), above, parent)
    decreases n
  {
    var head := Placement(n.id, above, parent);
    var inner := above + {n.id};
    match n
    case NIf(id, _, t, f) =>
      PlacementsChained(t, inner, Some(id));
      PlacementsChained(f, inner, Some(id));
      ChainedAppend(Placements(t, inner, Some(id)), Placements(f, inner, Some(id)), inner, Some(id));
      ChainedUnder(head, Placements(t, inner, Some(id)) + Placements(f, inner, Some(id)));
      assert SubPlacements(n, above, parent) == [head] + (Placements(t, inner, Some(id)) + Placements(f, inner, Some(id)));
    case NWhile(id, _, b) =>
      PlacementsChained(b, inner, Some(id));
      ChainedUnder(head, Placements(b, inner, Some(id)));
    case _ =>
  }

  /** In a procedure body, a statement without a parent has no ancestors, and one with a parent
   *  has that parent and the parent's ancestors. */
  lemma BodyAncestors(body: seq<NStmt>, k: nat)
    requires k < |BodyPlacements(body)|
    ensures var p := BodyPlacements(body);
      p[k].parent.None? ==> p[k].above == {}
    ensures var p := BodyPlacements(body);
      p[k].parent.Some? ==>
        exists j :: 0 <= j < k && p[j].id == p[k].parent.value && p[k].above == p[j].above + {p[j].id}
  {
    PlacementsChained(body, {}, None);
    assert ChainedAt(BodyPlacements(body), k, {}, None);
  }

  /** The placements line up with the statements. */
  predicate Places(p: seq<Placement>, s: seq<NStmt>)
  {
    |p| == |s| && forall k :: 0 <= k < |p| ==> p[k].id == s[k].id
  }

  lemma PlacesAppend(p1: seq<Placement>, s1: seq<NStmt>, p2: seq<Placement>, s2: seq<NStmt>)
    requires Places(p1, s1) && Places(p2, s2)
    ensures Places(p1 + p2, s1 + s2)
  {
  }

  /** One placement per statement, in pre-order. */
  lemma {:induction false} PlacementsPlace(l: seq<NStmt>, above: set<nat>, parent: Option<nat>)
    ensures Places(Placements(l, above, parent), Preorder(l))
    decreases l
  {
    if |l| > 0 {
      SubPlacementsPlace(l[0], above, parent);
      PlacementsPlace(l[1..], above, parent);
      PlacesAppend(SubPlacements(l[0], above, parent), Subtree(l[0]), Placements(l[1..], above, parent), Preorder(l[1..]));
    }
  }

  lemma {:induction false} SubPlacementsPlace(n: NStmt, above: set<nat>, parent: Option<nat>)
    ensures Places(SubPlacements(n, above, parent), Subtree(n))
    decreases n
  {
    var head := Placement(n.id, above, parent);
    var inner := above + {n.id};
    match n
    case NIf(id, _, t, f) =>
      PlacementsPlace(t, inner, Some(id));
      PlacementsPlace(f, inner, Some(id));
      PlacesAppend([head], [n], Placements(t, inner, Some(id)), Preorder(t));
      PlacesAppend([head] + Placements(t, inner, Some(id)), [n] + Preorder(t), Placements(f, inner, Some(id)), Preorder(f));
    case NWhile(id, _, b) =>
      PlacementsPlace(b, inner, Some(id));
      PlacesAppend([head], [n], Placements(b, inner, Some(id)), Preorder(b));
    case _ =>
  }

  // Children and descendants.

  /** The statements n holds directly. */
  function Children(n: NStmt): seq<NStmt>
  {
    match n
    case NIf(_, _, t, f) => t + f
    case NWhile(_, _, b) => b
    case _ => []
  }

  /** The numbers of the statements n holds directly. */
  function ChildIds(n: NStmt): set<nat>
  {
    IdSet(Children(n))
  }

  /** The numbers of every statement nested in n, at any depth. */
  function DescendantIds(n: NStmt): set<nat>
  {
    match n
    case NIf(_, _, t, f) => AllIds(t) + AllIds(f)
    case NWhile(_, _, b) => AllIds(b)
    case _ => {}
  }

  /** The direct-children entries processDescendants makes for l: one per container. */
  function ChildMap(l: seq<NStmt>): map<nat, set<nat>>
    decreases l
  {
    if |l| == 0 then map[] else ChildMap(l[..|l| - 1]) + SubChildMap(l[|l| - 1])
  }

  function SubChildMap(n: NStmt): map<nat, set<nat>>
    decreases n
  {
    match n
    case NIf(id, _, t, f) => ChildMap(t) + ChildMap(f) + map[id := ChildIds(n)]
    case NWhile(id, _, b) => ChildMap(b) + map[id := ChildIds(n)]
    case _ => map[]
  }

  /** The descendant entries processDescendants makes for l: one per container. */
  function DescMap(l: seq<NStmt>): map<nat, set<nat>>
    decreases l
  {
    if |l| == 0 then map[] else DescMap(l[..|l| - 1]) + SubDescMap(l[|l| - 1])
  }

  function SubDescMap(n: NStmt): map<nat, set<nat>>
    decreases n
  {
    match n
    case NIf(id, _, t, f) => DescMap(t) + DescMap(f) + map[id := DescendantIds(n)]
    case NWhile(id, _, b) => DescMap(b) + map[id := DescendantIds(n)]
    case _ => map[]
  }

  lemma PreorderAppend(a: seq<NStmt>, b: seq<NStmt>)
    ensures Preorder(a + b) == Preorder(a) + Preorder(b)
    decreases |a|
  {
    if |a| > 0 {
      assert (a + b)[0] == a[0];
      assert (a + b)[1..] == a[1..] + b;
      PreorderAppend(a[1..], b);
    } else {
      assert a + b == b;
    }
  }

  lemma IdSetSingle(n: NStmt)
    ensures IdSet([n]) == {n.id}
  {
    assert [n][0].id in IdSet([n]);
  }

  lemma SubtreeIds(n: NStmt)
    ensures IdSet(Subtree(n)) == {n.id} + DescendantIds(n)
  {
    IdSetSingle(n);
    match n
    case NIf(_, _, t, f) =>
      IdSetAppend([n], Preorder(t));
      IdSetAppend([n] + Preorder(t), Preorder(f));
      assert IdSet(Subtree(n)) == IdSet([n]) + AllIds(t) + AllIds(f);
    case NWhile(_, _, b) =>
      IdSetAppend([n], Preorder(b));
      assert IdSet(Subtree(n)) == IdSet([n]) + AllIds(b);
    case _ =>
  }

  /** Adding one statement to a list adds its number and its descendants' numbers. */
  lemma AllIdsSnoc(l: seq<NStmt>, n: NStmt)
    ensures AllIds(l + [n]) == AllIds(l) + {n.id} + DescendantIds(n)
  {
    PreorderAppend(l, [n]);
    assert Preorder([n]) == Subtree(n) by {
      assert [n][1..] == [];
    }
    IdSetAppend(Preorder(l), Subtree(n));
    SubtreeIds(n);
  }

  /**
   * A container's descendants are its direct children plus all their descendants: the
   * recursion processDescendants follows gives the set of everything nested in it.
   */
  lemma DescendantsUnfold(n: NStmt)
    ensures forall x :: x in DescendantIds(n) <==>
      x in ChildIds(n) || exists c :: c in Children(n) && x in DescendantIds(c)
  {
    match n
    case NIf(_, _, t, f) =>
      PreorderAppend(t, f);
      IdSetAppend(Preorder(t), Preorder(f));
      assert DescendantIds(n) == AllIds(t + f);
      assert Children(n) == t + f;
      ListIdsUnfold(t + f);
    case NWhile(_, _, b) =>
      ListIdsUnfold(b);
    case _ =>
  }

  lemma {:induction false} ListIdsUnfold(l: seq<NStmt>)
    ensures forall x :: x in AllIds(l) <==>
      x in IdSet(l) || exists c :: c in l && x in DescendantIds(c)
    decreases |l|
  {
    if |l| > 0 {
      var init := l[..|l| - 1];
      var last := l[|l| - 1];
      assert l == init + [last];
      ListIdsUnfold(init);
      AllIdsSnoc(init, last);
      IdSetAppend(init, [last]);
      forall x | x in AllIds(l)
        ensures x in IdSet(l) || exists c :: c in l && x in DescendantIds(c)
      {
        if x in AllIds(init) && x !in IdSet(init) {
          var c :| c in init && x in DescendantIds(c);
          assert c in l;
        }
        if x in DescendantIds(last) {
          assert last in l;
        }
      }
      forall x | x in IdSet(l) || exists c :: c in l && x in DescendantIds(c)
        ensures x in AllIds(l)
      {
        if x !in IdSet(l) {
          var c :| c in l && x in DescendantIds(c);
          if c != last {
            assert c in init;
          }
        }
      }
    } else {
      assert Preorder(l) == [];
    }
  }
}
