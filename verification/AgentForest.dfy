/**
 * What the recursive totals count, stated without recursion: the participants whose chain of
 * participants leads up to an owner, each once.
 */
module AgentForest {
  import opened Wrappers
  import opened Collections
  import opened Counts
  import opened ParentLinks
  import opened AgentTree
  import opened AgentTally
  import opened AgentRequestCost
  import opened AgentDescendants

  /** `o` is `k` links above `p`, with every owner on the way taking part. */
  ghost predicate UnderAt(w: World, p: Owner, o: Owner, k: nat) {
    && Climb(w.Links(), p, k) == Some(o)
    && forall j: nat :: j <= k ==> Climb(w.Links(), p, j).Some? && Climb(w.Links(), p, j).value in w.allocations
  }

  ghost predicate Under(w: World, p: Owner, o: Owner) {
    exists k: nat :: UnderAt(w, p, o, k)
  }

  ghost function Below(w: World, o: Owner): set<Owner> {
    set p | p in w.allocations && Under(w, p, o)
  }

  lemma UnderItself(w: World, o: Owner)
    requires o in w.allocations
    ensures o in Below(w, o)
  {
    assert Climb(w.Links(), o, 0) == Some(o);
    assert UnderAt(w, o, o, 0);
  }

  lemma UnderParent(w: World, p: Owner, c: Owner, o: Owner)
    requires Under(w, p, c) && Above(w.Links(), c) == Some(o) && o in w.allocations
    ensures Under(w, p, o)
  {
    var k: nat :| UnderAt(w, p, c, k);
    assert Climb(w.Links(), p, k + 1) == Some(o);
    assert UnderAt(w, p, o, k + 1);
  }

  /** Whoever is strictly below an owner is below one of the owner's children. */
  lemma UnderSomeChild(w: World, p: Owner, o: Owner) returns (c: Owner)
    requires Under(w, p, o) && p != o
    ensures c in ChildOwners(w, o) && Under(w, p, c)
  {
    var k: nat :| UnderAt(w, p, o, k);
    assert Climb(w.Links(), p, 0) == Some(p);
    c := Climb(w.Links(), p, k - 1).value;
    assert UnderAt(w, p, c, k - 1);
  }

  /** Two owners above the same one: the nearer climbs to the other. */
  lemma SameChain(w: World, p: Owner, a: Owner, b: Owner, j: nat, k: nat)
    requires UnderAt(w, p, a, j) && UnderAt(w, p, b, k) && j <= k
    ensures Climb(w.Links(), a, k - j) == Some(b)
  {
    ClimbPlus(w.Links(), p, j, k - j);
  }

  /** Below two children of one owner there is nobody in common. */
  lemma ChildrenApart(w: World, o: Owner, a: Owner, b: Owner, p: Owner)
    requires !Loops(w.Links(), o)
    requires Above(w.Links(), a) == Some(o) && Above(w.Links(), b) == Some(o) && a != b
    requires Under(w, p, a)
    ensures !Under(w, p, b)
  {
    if Under(w, p, b) {
      var j: nat :| UnderAt(w, p, a, j);
      var k: nat :| UnderAt(w, p, b, k);
      if j <= k {
        ChainToSibling(w, o, a, b, p, j, k);
      } else {
        ChainToSibling(w, o, b, a, p, k, j);
      }
    }
  }

  lemma ChainToSibling(w: World, o: Owner, a: Owner, b: Owner, p: Owner, j: nat, k: nat)
    requires Above(w.Links(), a) == Some(o) && Above(w.Links(), b) == Some(o) && a != b
    requires UnderAt(w, p, a, j) && UnderAt(w, p, b, k) && j <= k
    ensures Loops(w.Links(), o)
  {
    SameChain(w, p, a, b, j, k);
    var links := w.Links();
    assert Climb(links, a, 0) == Some(a);
    assert Climb(links, a, 1) == Some(o);
    ClimbPlus(links, a, 1, k - j - 1);
    assert Climb(links, o, k - j - 1) == Some(b);
    NotAboveItself(links, o, b);
  }

  lemma NotUnderOwnChild(w: World, o: Owner, c: Owner)
    requires !Loops(w.Links(), o) && Above(w.Links(), c) == Some(o)
    ensures !Under(w, o, c)
  {
    if Under(w, o, c) {
      var k: nat :| UnderAt(w, o, c, k);
      NotAboveItself(w.Links(), o, c);
    }
  }

  ghost function MissingBelow(w: World, o: Owner): set<string> {
    set c | c in ChildrenOf(o, w.agents) && Agent(c.agentId) !in w.allocations :: UnavailableAgentReason(c.agentId)
  }

  ghost function OwnCount(w: World): Owner -> Count {
    (o: Owner) => if o in w.allocations then OwnTally(w.allocations[o]).Value() else ZERO
  }

  /** An owner's own count, with a reason for each child that has no tally. */
  ghost function LocalCount(w: World): Owner -> Count {
    (o: Owner) => OwnCount(w)(o).Plus(ReasonOnly(MissingBelow(w, o)))
  }

  ghost function BelowChildren(w: World, children: seq<SubAgent>): set<Owner> {
    set p | p in w.allocations && exists c :: c in children && Agent(c.agentId) in w.allocations && Under(w, p, Agent(c.agentId))
  }

  ghost function MissingIn(w: World, children: seq<SubAgent>): set<string> {
    set c | c in children && Agent(c.agentId) !in w.allocations :: UnavailableAgentReason(c.agentId)
  }

  lemma BelowSplits(w: World, o: Owner)
    requires w.Valid() && o in w.allocations && !Loops(w.Links(), o)
    ensures Below(w, o) == {o} + BelowChildren(w, ChildrenOf(o, w.agents))
    ensures o !in BelowChildren(w, ChildrenOf(o, w.agents))
  {
    var children := ChildrenOf(o, w.agents);
    UnderItself(w, o);
    forall p | p in Below(w, o) && p != o ensures p in BelowChildren(w, children) {
      var c := UnderSomeChild(w, p, o);
      var j := LinkedIsChild(w, o, c);
      assert children[j] in children;
    }
    forall c | c in children && Agent(c.agentId) in w.allocations
      ensures Below(w, Agent(c.agentId)) <= Below(w, o) && o !in Below(w, Agent(c.agentId))
    {
      ChildLinksUp(w, o, c);
      NotUnderOwnChild(w, o, Agent(c.agentId));
      forall p | p in Below(w, Agent(c.agentId)) ensures p in Below(w, o) {
        UnderParent(w, p, Agent(c.agentId), o);
      }
    }
  }

  lemma LastChildApart(w: World, o: Owner, i: nat)
    requires w.Valid() && !Loops(w.Links(), o)
    requires i < |ChildrenOf(o, w.agents)|
    ensures var children := ChildrenOf(o, w.agents);
      var c := Agent(children[i].agentId);
      && BelowChildren(w, children[..i]) !! Below(w, c)
      && BelowChildren(w, children[..i + 1])
         == if c in w.allocations then BelowChildren(w, children[..i]) + Below(w, c) else BelowChildren(w, children[..i])
  {
    var children := ChildrenOf(o, w.agents);
    var c := Agent(children[i].agentId);
    ChildrenListed(o, w.agents);
    assert children[..i + 1] == children[..i] + [children[i]];
    forall p | p in BelowChildren(w, children[..i]) ensures p !in Below(w, c) {
      var d :| d in children[..i] && Agent(d.agentId) in w.allocations && Under(w, p, Agent(d.agentId));
      var j :| 0 <= j < i && children[j] == d;
      ChildLinksUp(w, o, children[j]);
      ChildLinksUp(w, o, children[i]);
      ChildrenApart(w, o, Agent(d.agentId), c, p);
    }
  }

  /** What a run of children accounts for: the reasons of those without a tally and everyone below the others. */
  ghost function Covered(w: World, children: seq<SubAgent>): Count {
    ReasonOnly(MissingIn(w, children)).Plus(SumWhere(w.order, BelowChildren(w, children), LocalCount(w)))
  }

  ghost function ChildCovers(w: World, child: SubAgent): Count {
    if Agent(child.agentId) in w.allocations then SumWhere(w.order, Below(w, Agent(child.agentId)), LocalCount(w))
    else ReasonOnly({UnavailableAgentReason(child.agentId)})
  }

  lemma CoveredGrows(w: World, o: Owner, i: nat)
    requires w.Valid() && !Loops(w.Links(), o)
    requires i < |ChildrenOf(o, w.agents)|
    ensures var all := ChildrenOf(o, w.agents);
      Covered(w, all[..i + 1]) == Covered(w, all[..i]).Plus(ChildCovers(w, all[i]))
  {
    var all := ChildrenOf(o, w.agents);
    var front, last := all[..i], all[i];
    assert all[..i + 1] == front + [last];
    LastChildApart(w, o, i);
    MissingGrows(w, front, last);
    var m, s := ReasonOnly(MissingIn(w, front)), SumWhere(w.order, BelowChildren(w, front), LocalCount(w));
    if Agent(last.agentId) in w.allocations {
      SumWhereUnion(w.order, BelowChildren(w, front), Below(w, Agent(last.agentId)), LocalCount(w));
      PlusAssociates(m, s, ChildCovers(w, last));
    } else {
      var r := ChildCovers(w, last);
      PlusAssociates(m, s, r);
      PlusCommutes(s, r);
      PlusAssociates(m, r, s);
    }
  }

  lemma NobodyBelowNoChildren(w: World)
    ensures BelowChildren(w, []) == {} && MissingIn(w, []) == {}
  {
  }

  lemma NothingCovered(w: World)
    ensures Covered(w, []) == ZERO
  {
    NobodyBelowNoChildren(w);
    SumWhereNothing(w.order, BelowChildren(w, []), MissingIn(w, []), LocalCount(w));
  }

  lemma {:induction false} ChildrenCoverBelow(w: World, o: Owner, i: nat)
    requires w.Valid() && o in w.allocations && !Loops(w.Links(), o)
    requires i <= |ChildrenOf(o, w.agents)|
    ensures var children := ChildrenOf(o, w.agents)[..i];
      Sum(children, ChildCount(TotalsOf(w))) == Covered(w, children)
    decreases Free(w, o), i
  {
    var all := ChildrenOf(o, w.agents);
    if i == 0 {
      NothingCovered(w);
    } else {
      assert all[..i] == all[..i - 1] + [all[i - 1]];
      ChildrenCoverBelow(w, o, i - 1);
      hide Sum, Covered, ChildCount, TotalsOf, ChildCovers;
      SumSnoc(all[..i - 1], all[i - 1], ChildCount(TotalsOf(w)));
      ChildStep(w, o, i - 1);
      CoveredGrows(w, o, i - 1);
    }
  }

  lemma MissingGrows(w: World, front: seq<SubAgent>, last: SubAgent)
    ensures ReasonOnly(MissingIn(w, front + [last]))
      == if Agent(last.agentId) in w.allocations then ReasonOnly(MissingIn(w, front))
         else ReasonOnly(MissingIn(w, front)).Plus(ReasonOnly({UnavailableAgentReason(last.agentId)}))
  {
    var grown := MissingIn(w, front + [last]);
    if Agent(last.agentId) in w.allocations {
      assert grown == MissingIn(w, front);
    } else {
      assert last in front + [last];
      assert forall c :: c in front ==> c in front + [last];
      assert grown == MissingIn(w, front) + {UnavailableAgentReason(last.agentId)};
    }
  }

  lemma ChildStep(w: World, o: Owner, i: nat)
    requires w.Valid() && o in w.allocations && !Loops(w.Links(), o)
    requires i < |ChildrenOf(o, w.agents)|
    ensures ChildCount(TotalsOf(w))(ChildrenOf(o, w.agents)[i]) == ChildCovers(w, ChildrenOf(o, w.agents)[i])
    decreases Free(w, o), i
  {
    var c := ChildrenOf(o, w.agents)[i];
    var child := Agent(c.agentId);
    ChildLinksUp(w, o, c);
    if child in w.allocations {
      LoopsAbove(w.Links(), child, o);
      FreeShrinks(w, o, child);
      TotalCoversBelow(w, child);
      var j := LinkedIsChild(w, o, child);
      ChildrenListed(o, w.agents);
      assert j == i;
    }
  }

  /**
   * Outside a loop, an agent's total including descendants is the sum of the own counts of all
   * participants below it, each counted once, with a reason for every child without a tally.
   */
  lemma {:induction false} TotalCoversBelow(w: World, o: Owner)
    requires w.Valid() && o in w.allocations && !Loops(w.Links(), o)
    ensures Total(w, o).Value() == SumWhere(w.order, Below(w, o), LocalCount(w))
    decreases Free(w, o), |ChildrenOf(o, w.agents)| + 1
  {
    var children := ChildrenOf(o, w.agents);
    TotalIsOwnAndChildren(w, o);
    ChildrenCoverBelow(w, o, |children|);
    assert children[..|children|] == children;
    BelowSplits(w, o);
    assert o in Elements(w.order);
    SumWhereUnion(w.order, {o}, BelowChildren(w, children), LocalCount(w));
    SumSingleton(w.order, o, LocalCount(w));
    assert MissingIn(w, children) == MissingBelow(w, o);
    PlusAssociates(OwnCount(w)(o), ReasonOnly(MissingBelow(w, o)),
                   SumWhere(w.order, BelowChildren(w, children), LocalCount(w)));
  }

  lemma TotalIsOwnAndChildren(w: World, o: Owner)
    requires w.Valid() && o in w.allocations && !Loops(w.Links(), o)
    ensures Total(w, o).Value() == OwnCount(w)(o).Plus(Sum(ChildrenOf(o, w.agents), ChildCount(TotalsOf(w))))
  {
    TotalFromTotals(w, o, TotalsOf(w));
    DescendantTallyCounts(OwnTally(w.allocations[o]), ChildrenOf(o, w.agents), TotalsOf(w));
  }

  /** In a loop, an agent's total is its own count and the reason that its links loop. */
  lemma TotalInALoop(w: World, o: Owner)
    requires w.Valid() && o in w.allocations && Loops(w.Links(), o)
    ensures o.Agent? && Total(w, o).Value() == OwnCount(w)(o).Plus(ReasonOnly({LoopReason(o.id)}))
  {
    LoopingTotal(w, o);
    var own := OwnTally(w.allocations[o]);
    SummedAddsUp([own], [LoopReason(o.id)]);
    assert Sum([own], TallyValue()) == own.Value().Plus(Sum([], TallyValue()));
    PlusZero(own.Value());
    assert Elements([LoopReason(o.id)]) == {LoopReason(o.id)};
    PlusCommutes(own.Value(), ReasonOnly({LoopReason(o.id)}));
  }

  /** An owner no participant's total includes: the root, or one whose parent takes no part. */
  ghost predicate IsTop(w: World, o: Owner) {
    && !Loops(w.Links(), o)
    && var above := Above(w.Links(), o); above.None? || above.value !in w.allocations
  }

  ghost function TopSet(w: World): set<Owner> {
    set o | o in w.allocations && IsTop(w, o)
  }

  ghost function LoopSet(w: World): set<Owner> {
    set o | o in w.allocations && Loops(w.Links(), o)
  }

  ghost function Ancestors(w: World, o: Owner): set<Owner> {
    set p | p in AgentOwners(w) + {Root} && IsAncestor(w.Links(), p, o)
  }

  lemma AncestorsShrink(w: World, o: Owner, p: Owner)
    requires Above(w.Links(), p) == Some(o) && !Loops(w.Links(), o) && p in AgentOwners(w)
    ensures Ancestors(w, o) < Ancestors(w, p)
  {
    FreeShrinks(w, o, p);
    var links := w.Links();
    assert Climb(links, p, 0) == Some(p);
    assert Climb(links, p, 1) == Some(o);
    assert IsAncestor(links, p, p);
    forall a | a in Ancestors(w, o) ensures a in Ancestors(w, p) {
      var k: nat :| Climb(links, o, k) == Some(a);
      ClimbPlus(links, p, 1, k);
      assert Climb(links, p, 1 + k) == Some(a);
    }
    assert p !in Ancestors(w, o) by {
      if IsAncestor(links, p, o) {
        NotAboveItself(links, o, p);
      }
    }
    assert p in Ancestors(w, p);
  }

  /** Outside loops, every participant is below a top. */
  lemma {:induction false} UnderSomeTop(w: World, p: Owner) returns (top: Owner)
    requires w.Valid() && p in w.allocations && !Loops(w.Links(), p)
    ensures top in TopSet(w) && Under(w, p, top)
    decreases Ancestors(w, p)
  {
    if IsTop(w, p) {
      UnderItself(w, p);
      top := p;
    } else {
      var above := Above(w.Links(), p).value;
      LoopsAbove(w.Links(), p, above);
      var j := LinkedIsChild(w, above, p);
      ChildLinksUp(w, above, ChildrenOf(above, w.agents)[j]);
      AncestorsShrink(w, above, p);
      top := UnderSomeTop(w, above);
      var k: nat :| UnderAt(w, above, top, k);
      UnderFromAbove(w, p, above, top, k);
    }
  }

  lemma UnderFromAbove(w: World, p: Owner, above: Owner, top: Owner, k: nat)
    requires p in w.allocations && Above(w.Links(), p) == Some(above) && UnderAt(w, above, top, k)
    ensures Under(w, p, top)
  {
    var links := w.Links();
    assert Climb(links, p, 0) == Some(p);
    assert Climb(links, p, 1) == Some(above);
    forall j: nat | j <= k + 1 ensures Climb(links, p, j).Some? && Climb(links, p, j).value in w.allocations {
      if j > 0 {
        ClimbPlus(links, p, 1, j - 1);
      }
    }
    ClimbPlus(links, p, 1, k);
    assert UnderAt(w, p, top, k + 1);
  }

  /** Above a top the chain of participants stops. */
  lemma TopIsLast(w: World, a: Owner, b: Owner, p: Owner, j: nat, k: nat)
    requires IsTop(w, a) && UnderAt(w, p, a, j) && UnderAt(w, p, b, k)
    ensures k <= j
  {
    assert Climb(w.Links(), p, j + 1) == Above(w.Links(), a);
  }

  /** Nobody is below two tops. */
  lemma TopsApart(w: World, a: Owner, b: Owner, p: Owner)
    requires IsTop(w, a) && IsTop(w, b) && Under(w, p, a) && Under(w, p, b)
    ensures a == b
  {
    var j: nat :| UnderAt(w, p, a, j);
    var k: nat :| UnderAt(w, p, b, k);
    TopIsLast(w, a, b, p, j, k);
    TopIsLast(w, b, a, p, k, j);
  }

  /** A participant below a top is in no loop. */
  lemma BelowTopNoLoop(w: World, top: Owner, p: Owner)
    requires IsTop(w, top) && Under(w, p, top)
    ensures !Loops(w.Links(), p)
  {
    var k: nat :| UnderAt(w, p, top, k);
    var n: nat :| Climb(w.Links(), top, n).None?;
    ClimbPlus(w.Links(), p, k, n);
    assert Climb(w.Links(), p, k + n).None?;
  }

  ghost function BelowSets(w: World, tops: seq<Owner>): seq<set<Owner>> {
    seq(|tops|, i requires 0 <= i < |tops| => Below(w, tops[i]))
  }

  ghost function TotalCount(w: World): Owner -> Count
    requires w.Valid()
  {
    (o: Owner) => if o in w.allocations then Total(w, o).Value() else ZERO
  }

  lemma {:induction false} TotalsOfTops(w: World, tops: seq<Owner>)
    requires w.Valid() && forall o :: o in tops ==> o in TopSet(w)
    ensures Sum(tops, TotalCount(w)) == SumOfSets(w.order, BelowSets(w, tops), LocalCount(w))
  {
    if tops != [] {
      TotalsOfTops(w, tops[1..]);
      assert BelowSets(w, tops)[1..] == BelowSets(w, tops[1..]);
      assert tops[0] in tops;
      TotalCoversBelow(w, tops[0]);
    }
  }

  lemma TopsCoverTheForest(w: World, tops: seq<Owner>)
    requires w.Valid() && NoRepeats(tops) && Elements(tops) == TopSet(w)
    ensures Disjoint(BelowSets(w, tops))
    ensures UnionOf(BelowSets(w, tops)) + LoopSet(w) == w.allocations.Keys
    ensures UnionOf(BelowSets(w, tops)) !! LoopSet(w)
  {
    var sets := BelowSets(w, tops);
    forall i, j | 0 <= i < j < |sets| ensures sets[i] !! sets[j] {
      assert tops[i] in Elements(tops) && tops[j] in Elements(tops);
      forall p | p in sets[i] && p in sets[j] ensures false {
        TopsApart(w, tops[i], tops[j], p);
      }
    }
    forall p
      ensures p in UnionOf(sets) <==> p in w.allocations && !Loops(w.Links(), p)
    {
      UnionMember(sets, p);
      if p in UnionOf(sets) {
        var i :| 0 <= i < |sets| && p in sets[i];
        assert tops[i] in Elements(tops);
        BelowTopNoLoop(w, tops[i], p);
      }
      if p in w.allocations && !Loops(w.Links(), p) {
        var top := UnderSomeTop(w, p);
        assert top in Elements(tops);
        var i :| 0 <= i < |tops| && tops[i] == top;
        assert p in sets[i];
      }
    }
  }

  ghost function Tops(w: World): seq<Owner> {
    Where(w.order, TopSet(w))
  }

  ghost function Looping(w: World): seq<Owner> {
    Where(w.order, LoopSet(w))
  }

  lemma EveryoneUnderATopOrLooping(w: World)
    requires w.Valid()
    ensures Sum(w.order, LocalCount(w)) == Sum(Tops(w), TotalCount(w)).Plus(Sum(Looping(w), LocalCount(w)))
  {
    WhereElements(w.order, TopSet(w));
    TopsCoverTheForest(w, Tops(w));
    var sets := BelowSets(w, Tops(w));
    SumOfDisjointSets(w.order, sets, LocalCount(w));
    TotalsOfTops(w, Tops(w));
    SumWhereUnion(w.order, UnionOf(sets), LoopSet(w), LocalCount(w));
    WhereAll(w.order, w.allocations.Keys);
  }

  lemma RootIsATop(w: World)
    requires w.Valid()
    ensures Root in Tops(w)
  {
    RootEndsTheChain(w.Links());
    WhereElements(w.order, TopSet(w));
    assert Root in Elements(w.order) * TopSet(w);
  }

  /** The reasons of all children without a tally. */
  ghost function MissingAnywhere(w: World): set<string> {
    set o, c | o in w.allocations && c in ChildrenOf(o, w.agents) && Agent(c.agentId) !in w.allocations ::
      UnavailableAgentReason(c.agentId)
  }

  lemma AbsorbStep(own: Count, local: set<string>, all: set<string>, rest: Count, restLocal: Count)
    requires local <= all && restLocal.Plus(ReasonOnly(all)) == rest.Plus(ReasonOnly(all))
    ensures own.Plus(ReasonOnly(local)).Plus(restLocal).Plus(ReasonOnly(all)) == own.Plus(rest).Plus(ReasonOnly(all))
  {
    var left := (own.reasons + local) + restLocal.reasons + all;
    assert left == own.reasons + (restLocal.reasons + all);
    assert own.reasons + rest.reasons + all == own.reasons + (rest.reasons + all);
  }

  /** Beside all those reasons, counting a child's missing tally again changes nothing. */
  lemma {:induction false} LocalAbsorbed(w: World, owners: seq<Owner>, all: set<string>)
    requires forall o :: o in owners ==> MissingBelow(w, o) <= all
    ensures Sum(owners, LocalCount(w)).Plus(ReasonOnly(all)) == Sum(owners, OwnCount(w)).Plus(ReasonOnly(all))
  {
    if owners != [] {
      var o := owners[0];
      assert o in owners;
      LocalAbsorbed(w, owners[1..], all);
      AbsorbStep(
        OwnCount(w)(o), MissingBelow(w, o), all, Sum(owners[1..], OwnCount(w)), Sum(owners[1..], LocalCount(w)));
      assert LocalCount(w)(o) == OwnCount(w)(o).Plus(ReasonOnly(MissingBelow(w, o)));
      hide MissingBelow, OwnCount, LocalCount, ReasonOnly;
    }
  }

  lemma MissingBelowEach(w: World)
    ensures forall o :: o in w.allocations ==> MissingBelow(w, o) <= MissingAnywhere(w)
  {
    forall o | o in w.allocations ensures MissingBelow(w, o) <= MissingAnywhere(w) {
      forall reason | reason in MissingBelow(w, o) ensures reason in MissingAnywhere(w) {
        var c :| c in ChildrenOf(o, w.agents) && Agent(c.agentId) !in w.allocations && reason == UnavailableAgentReason(c.agentId);
      }
    }
  }

  /**
   * No request is lost or counted twice across the tree: all own counts together are the totals
   * of the tops and the own counts of the looping agents, and so are their reasons beside those
   * of the agents that have no tally.
   */
  lemma ForestConserved(w: World, all: set<string>)
    requires w.Valid() && MissingAnywhere(w) <= all
    ensures Sum(w.order, OwnCount(w)).Plus(ReasonOnly(all))
         == Sum(Tops(w), TotalCount(w)).Plus(Sum(Looping(w), OwnCount(w))).Plus(ReasonOnly(all))
  {
    EveryoneUnderATopOrLooping(w);
    MissingBelowEach(w);
    WhereElements(w.order, LoopSet(w));
    hide *;
    OrderMembers(w);
    LocalAbsorbed(w, w.order, all);
    LocalAbsorbed(w, Looping(w), all);
    PlusAssociates(Sum(Tops(w), TotalCount(w)), Sum(Looping(w), LocalCount(w)), ReasonOnly(all));
    PlusAssociates(Sum(Tops(w), TotalCount(w)), Sum(Looping(w), OwnCount(w)), ReasonOnly(all));
  }

  lemma OrderMembers(w: World)
    requires w.Valid()
    ensures forall o :: o in w.order <==> o in w.allocations
    ensures forall o :: o in Looping(w) ==> o in w.allocations
  {
    WhereElements(w.order, LoopSet(w));
    assert forall o :: o in w.order <==> o in Elements(w.order);
    assert forall o :: o in Looping(w) <==> o in Elements(Looping(w));
  }
}
