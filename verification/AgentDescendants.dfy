/** Each agent's total including its descendants, summed children before parents. */
module AgentDescendants {
  import opened Wrappers
  import opened Collections
  import opened Counts
  import opened ParentLinks
  import opened AgentTree
  import opened AgentTally
  import opened AgentRequestCost

  /** The tree's agents and the allocations of those that take part, in the order they were made. */
  datatype World = World(agents: seq<SubAgent>, order: seq<Owner>, allocations: map<Owner, Allocation>) {
    ghost predicate Valid() {
      && UniqueIds(agents)
      && NoRepeats(order) && Elements(order) == allocations.Keys
      && Root in allocations
      && forall id :: Agent(id) in allocations ==> exists i :: 0 <= i < |agents| && TakesPart(agents[i], id)
    }

    ghost function Links(): Parents {
      ParentsOf(agents)
    }
  }

  ghost predicate TakesPart(agent: SubAgent, id: string) {
    agent.agentId == id && agent.evidence.Available? && agent.context != Inherited
  }

  predicate IsChild(owner: Owner, agent: SubAgent) {
    agent.context != Inherited
    && match owner
       case Root => agent.parent.RootParent?
       case Agent(id) => agent.parent.AgentParent? && agent.parent.agentId == id
  }

  function ChildrenOf(owner: Owner, agents: seq<SubAgent>): seq<SubAgent> {
    if agents == [] then []
    else (if IsChild(owner, agents[0]) then [agents[0]] else []) + ChildrenOf(owner, agents[1..])
  }

  predicate Counted(child: SubAgent, totals: map<Owner, Tally>) {
    child.evidence.Available? && Agent(child.agentId) in totals
  }

  function Parts(children: seq<SubAgent>, totals: map<Owner, Tally>): seq<Tally> {
    if children == [] then []
    else
      var last := children[|children| - 1];
      Parts(children[..|children| - 1], totals) + (if Counted(last, totals) then [totals[Agent(last.agentId)]] else [])
  }

  function Missing(children: seq<SubAgent>, totals: map<Owner, Tally>): seq<string> {
    if children == [] then []
    else
      var last := children[|children| - 1];
      Missing(children[..|children| - 1], totals)
      + (if Counted(last, totals) then [] else [UnavailableAgentReason(last.agentId)])
  }

  function DescendantTally(own: Tally, children: seq<SubAgent>, totals: map<Owner, Tally>): Tally {
    Summed([own] + Parts(children, totals), Missing(children, totals))
  }

  method TallyDescendants(own: Tally, children: seq<SubAgent>, totals: map<Owner, Tally>) returns (t: Tally)
    ensures t == DescendantTally(own, children, totals)
  {
    var parts, missing := [own], [];
    for i := 0 to |children|
      invariant parts == [own] + Parts(children[..i], totals)
      invariant missing == Missing(children[..i], totals)
    {
      assert children[..i + 1][..i] == children[..i];
      if Counted(children[i], totals) {
        parts := parts + [totals[Agent(children[i].agentId)]];
      } else {
        missing := missing + [UnavailableAgentReason(children[i].agentId)];
      }
    }
    assert children[..|children|] == children;
    t := Summed(parts, missing);
  }

  /** What one child adds: its total, or the reason it has none. */
  ghost function ChildCount(totals: map<Owner, Tally>): SubAgent -> Count {
    (child: SubAgent) =>
      if Counted(child, totals) then totals[Agent(child.agentId)].Value()
      else ReasonOnly({UnavailableAgentReason(child.agentId)})
  }

  lemma {:induction false} ChildrenAddUp(children: seq<SubAgent>, totals: map<Owner, Tally>)
    ensures ReasonOnly(Elements(Missing(children, totals))).Plus(Sum(Parts(children, totals), TallyValue()))
         == Sum(children, ChildCount(totals))
  {
    if children == [] {
      PlusZero(ZERO);
    } else {
      var n := |children| - 1;
      var front, last := children[..n], children[n];
      ChildrenAddUp(front, totals);
      assert children == front + [last];
      SumSnoc(front, last, ChildCount(totals));
      var parts, missing := Sum(Parts(front, totals), TallyValue()), ReasonOnly(Elements(Missing(front, totals)));
      if Counted(last, totals) {
        var total := totals[Agent(last.agentId)];
        SumSnoc(Parts(front, totals), total, TallyValue());
        PlusAssociates(missing, parts, total.Value());
      } else {
        var reason := UnavailableAgentReason(last.agentId);
        assert Parts(children, totals) == Parts(front, totals);
        assert Elements(Missing(front, totals) + [reason]) == Elements(Missing(front, totals)) + {reason};
        PlusAssociates(missing, parts, ReasonOnly({reason}));
        PlusCommutes(parts, ReasonOnly({reason}));
        PlusAssociates(missing, ReasonOnly({reason}), parts);
      }
    }
  }

  lemma DescendantTallyCounts(own: Tally, children: seq<SubAgent>, totals: map<Owner, Tally>)
    ensures DescendantTally(own, children, totals).Value() == own.Value().Plus(Sum(children, ChildCount(totals)))
  {
    var parts, missing := Parts(children, totals), Missing(children, totals);
    SummedAddsUp([own] + parts, missing);
    assert ([own] + parts)[1..] == parts;
    assert Sum([own] + parts, TallyValue()) == own.Value().Plus(Sum(parts, TallyValue()));
    ChildrenAddUp(children, totals);
    var m, p := ReasonOnly(Elements(missing)), Sum(parts, TallyValue());
    PlusAssociates(m, own.Value(), p);
    PlusCommutes(m, own.Value());
    PlusAssociates(own.Value(), m, p);
  }

  /** The tally reads nothing of `totals` but its children's entries. */
  lemma {:induction false} SameChildrenSameTally(
    children: seq<SubAgent>, t1: map<Owner, Tally>, t2: map<Owner, Tally>)
    requires forall c :: c in children ==> (Agent(c.agentId) in t1 <==> Agent(c.agentId) in t2)
    requires forall c :: c in children && Agent(c.agentId) in t1 ==> t1[Agent(c.agentId)] == t2[Agent(c.agentId)]
    ensures Parts(children, t1) == Parts(children, t2) && Missing(children, t1) == Missing(children, t2)
  {
    if children != [] {
      SameChildrenSameTally(children[..|children| - 1], t1, t2);
      assert children[|children| - 1] in children;
    }
  }

  lemma {:induction false} ChildrenListed(owner: Owner, agents: seq<SubAgent>)
    ensures forall c :: c in ChildrenOf(owner, agents) <==> c in agents && IsChild(owner, c)
    ensures UniqueIds(agents) ==> UniqueIds(ChildrenOf(owner, agents))
  {
    if agents != [] {
      ChildrenListed(owner, agents[1..]);
      var rest := ChildrenOf(owner, agents[1..]);
      if UniqueIds(agents) {
        forall i | 0 <= i < |rest| ensures rest[i].agentId != agents[0].agentId {
          assert rest[i] in agents[1..];
          var j :| 0 <= j < |agents[1..]| && agents[1..][j] == rest[i];
          assert agents[j + 1] == rest[i];
        }
      }
    }
  }

  lemma ChildLinksUp(w: World, owner: Owner, c: SubAgent)
    requires w.Valid() && c in ChildrenOf(owner, w.agents)
    ensures Above(w.Links(), Agent(c.agentId)) == Some(owner)
    ensures Agent(c.agentId) in AgentOwners(w)
  {
    ChildrenListed(owner, w.agents);
    ParentsOfUnique(w.agents);
    var i :| 0 <= i < |w.agents| && w.agents[i] == c;
    assert w.agents[i].agentId in w.Links() && w.Links()[w.agents[i].agentId] == c.parent;
  }

  /** A participant linked to an owner is among that owner's children. */
  lemma LinkedIsChild(w: World, owner: Owner, p: Owner) returns (j: nat)
    requires w.Valid() && p in w.allocations && Above(w.Links(), p) == Some(owner)
    ensures j < |ChildrenOf(owner, w.agents)| && Agent(ChildrenOf(owner, w.agents)[j].agentId) == p
    ensures ChildrenOf(owner, w.agents)[j].evidence.Available?
  {
    var i :| 0 <= i < |w.agents| && TakesPart(w.agents[i], p.id);
    ParentsOfUnique(w.agents);
    ChildrenListed(owner, w.agents);
    assert w.agents[i] in ChildrenOf(owner, w.agents);
    j :| 0 <= j < |ChildrenOf(owner, w.agents)| && ChildrenOf(owner, w.agents)[j] == w.agents[i];
  }

  ghost function AgentOwners(w: World): set<Owner> {
    set agent | agent in w.agents :: Agent(agent.agentId)
  }

  ghost predicate IsAncestor(links: Parents, above: Owner, o: Owner) {
    exists k: nat :: Climb(links, o, k) == Some(above)
  }

  /** The agents not on the chain above an owner: fewer at every step down the tree. */
  ghost function Free(w: World, o: Owner): set<Owner> {
    set p | p in AgentOwners(w) && !IsAncestor(w.Links(), p, o)
  }

  lemma FreeShrinks(w: World, o: Owner, p: Owner)
    requires Above(w.Links(), p) == Some(o) && !Loops(w.Links(), o) && p in AgentOwners(w)
    ensures Free(w, p) < Free(w, o)
  {
    var links := w.Links();
    assert Climb(links, p, 0) == Some(p);
    assert Climb(links, p, 1) == Some(o);
    assert IsAncestor(links, p, p);
    forall a | IsAncestor(links, a, o) ensures IsAncestor(links, a, p) {
      var k: nat :| Climb(links, o, k) == Some(a);
      ClimbPlus(links, p, 1, k);
      assert Climb(links, p, 1 + k) == Some(a);
    }
    if IsAncestor(links, p, o) {
      NotAboveItself(links, o, p);
    }
    assert p in Free(w, o) && p !in Free(w, p);
    assert Free(w, p) <= Free(w, o);
  }

  /** Outside a loop no child of an owner is above it. */
  lemma NotAboveItself(links: Parents, o: Owner, p: Owner)
    requires Above(links, p) == Some(o) && IsAncestor(links, p, o)
    ensures Loops(links, o)
  {
    var k: nat :| Climb(links, o, k) == Some(p);
    assert Climb(links, o, 0) == Some(o);
    assert Climb(links, o, k + 1) == Some(o);
    forall n: nat ensures Climb(links, o, n).Some? {
      RepeatLoops(links, o, 0, k + 1, n);
    }
  }

  ghost function ChildOwners(w: World, o: Owner): set<Owner> {
    set p | p in w.allocations && Above(w.Links(), p) == Some(o)
  }

  lemma ChildOwnersFurther(w: World, o: Owner)
    requires w.Valid() && !Loops(w.Links(), o)
    ensures forall p :: p in ChildOwners(w, o) ==> Free(w, p) < Free(w, o)
  {
    forall p | p in ChildOwners(w, o) ensures Free(w, p) < Free(w, o) {
      var j := LinkedIsChild(w, o, p);
      ChildLinksUp(w, o, ChildrenOf(o, w.agents)[j]);
      FreeShrinks(w, o, p);
    }
  }

  function LoopReason(agentId: string): string {
    "the parent links of sub-agent " + agentId + " loop back to it"
  }

  /** The total each participant should read, by recursion down the tree. */
  ghost function Total(w: World, o: Owner): Tally
    requires w.Valid() && o in w.allocations
    decreases Free(w, o)
  {
    var own := OwnTally(w.allocations[o]);
    if Loops(w.Links(), o) then
      RootEndsTheChain(w.Links());
      Summed([own], [LoopReason(o.id)])
    else
      ChildOwnersFurther(w, o);
      DescendantTally(own, ChildrenOf(o, w.agents), map p | p in ChildOwners(w, o) :: Total(w, p))
  }

  ghost function TotalsOf(w: World): map<Owner, Tally>
    requires w.Valid()
  {
    map o | o in w.allocations :: Total(w, o)
  }

  ghost predicate Right(w: World, totals: map<Owner, Tally>) {
    w.Valid() && forall o :: o in totals ==> o in w.allocations && totals[o] == Total(w, o)
  }

  lemma StillRight(w: World, totals: map<Owner, Tally>, o: Owner, t: Tally)
    requires Right(w, totals) && o in w.allocations && t == Total(w, o)
    ensures Right(w, totals[o := t])
  {
  }

  lemma LoopingTotal(w: World, o: Owner)
    requires w.Valid() && o in w.allocations && Loops(w.Links(), o)
    ensures o.Agent? && Total(w, o) == Summed([OwnTally(w.allocations[o])], [LoopReason(o.id)])
  {
    RootEndsTheChain(w.Links());
  }

  /** The memoised visit: `totals` is shared by every recursive call. */
  class TotalsVisit {
    const world: World
    var totals: map<Owner, Tally>

    constructor (world: World)
      requires world.Valid()
      ensures Valid() && this.world == world && totals == map[]
    {
      this.world := world;
      totals := map[];
    }

    ghost predicate Valid()
      reads this
    {
      Right(world, totals)
    }

    method Visit(owner: Owner)
      requires Valid()
      modifies this`totals
      ensures Valid()
      ensures old(totals.Keys) <= totals.Keys
      ensures owner in world.allocations ==> owner in totals
      decreases Free(world, owner)
    {
      hide Total;
      if owner in totals || owner !in world.allocations {
        return;
      }
      var own := OwnTally(world.allocations[owner]);
      RootEndsTheChain(world.Links());
      var loops := false;
      if owner.Agent? {
        loops := LoopsBack(owner.id, ParentsOf(world.agents));
      }
      if loops {
        LoopingTotal(world, owner);
        StillRight(world, totals, owner, Summed([own], [LoopReason(owner.id)]));
        totals := totals[owner := Summed([own], [LoopReason(owner.id)])];
        return;
      }
      var children := ChildrenOf(owner, world.agents);
      for i := 0 to |children|
        invariant Valid() && old(totals.Keys) <= totals.Keys
        invariant forall j :: 0 <= j < i && Agent(children[j].agentId) in world.allocations ==>
          Agent(children[j].agentId) in totals
      {
        ChildLinksUp(world, owner, children[i]);
        FreeShrinks(world, owner, Agent(children[i].agentId));
        Visit(Agent(children[i].agentId));
      }
      var tally := TallyDescendants(own, children, totals);
      TotalFromTotals(world, owner, totals);
      StillRight(world, totals, owner, tally);
      totals := totals[owner := tally];
    }
  }

  lemma TotalFromTotals(w: World, o: Owner, totals: map<Owner, Tally>)
    requires w.Valid() && o in w.allocations && !Loops(w.Links(), o)
    requires Right(w, totals)
    requires forall c :: c in ChildrenOf(o, w.agents) && Agent(c.agentId) in w.allocations ==> Agent(c.agentId) in totals
    ensures Total(w, o) == DescendantTally(OwnTally(w.allocations[o]), ChildrenOf(o, w.agents), totals)
  {
    var children := ChildrenOf(o, w.agents);
    ChildOwnersFurther(w, o);
    var below := map p | p in ChildOwners(w, o) :: Total(w, p);
    forall c | c in children
      ensures Agent(c.agentId) in below <==> Agent(c.agentId) in totals
      ensures Agent(c.agentId) in below ==> below[Agent(c.agentId)] == totals[Agent(c.agentId)]
    {
      ChildLinksUp(w, o, c);
    }
    SameChildrenSameTally(children, below, totals);
  }

  method DescendantTotals(w: World) returns (totals: map<Owner, Tally>)
    requires w.Valid()
    ensures totals == TotalsOf(w)
  {
    hide Total;
    var visit := new TotalsVisit(w);
    for i := 0 to |w.order|
      invariant visit.Valid() && visit.world == w
      invariant forall j :: 0 <= j < i ==> w.order[j] in visit.totals
    {
      assert w.order[i] in Elements(w.order);
      visit.Visit(w.order[i]);
    }
    totals := visit.totals;
    forall o | o in w.allocations ensures o in totals {
      assert o in Elements(w.order);
    }
  }
}
