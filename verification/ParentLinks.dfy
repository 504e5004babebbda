/**
 * The chain of parents above an agent. Parent links come from files and from transcripts, so
 * they may dangle, name the agent itself, or run in a circle.
 */
module ParentLinks {
  import opened Wrappers

  datatype Owner = Root | Agent(id: string)

  datatype LinkBasis = LaunchCallBasis | ParentAgentIdBasis | AgentResultBasis | SkillResultBasis

  datatype Parent =
    | RootParent(basis: LinkBasis)
    | AgentParent(agentId: string, basis: LinkBasis)
    | Unlinked

  type Parents = map<string, Parent>

  /** The owner an owner's parent link names, in the tree or not. */
  function Above(parents: Parents, o: Owner): Option<Owner> {
    match o
    case Root => None
    case Agent(id) =>
      if id !in parents then None
      else
        match parents[id]
        case RootParent(_) => Some(Root)
        case AgentParent(p, _) => Some(Agent(p))
        case Unlinked => None
  }

  /** The owner `k` links above `o`, if the chain is that long. */
  ghost function Climb(parents: Parents, o: Owner, k: nat): Option<Owner> {
    if k == 0 then Some(o)
    else
      var below := Climb(parents, o, k - 1);
      if below.None? then None else Above(parents, below.value)
  }

  /** A chain that never ends, which a finite set of links gives only by running in a circle. */
  ghost predicate Loops(parents: Parents, o: Owner) {
    forall k: nat :: Climb(parents, o, k).Some?
  }

  lemma {:induction false} ClimbPlus(parents: Parents, o: Owner, j: nat, k: nat)
    requires Climb(parents, o, j).Some?
    ensures Climb(parents, o, j + k) == Climb(parents, Climb(parents, o, j).value, k)
  {
    if k > 0 {
      ClimbPlus(parents, o, j, k - 1);
    }
  }

  lemma {:induction false} ClimbPrefix(parents: Parents, o: Owner, j: nat, k: nat)
    requires j <= k && Climb(parents, o, k).Some?
    ensures Climb(parents, o, j).Some?
  {
    if j < k {
      ClimbPrefix(parents, o, j, k - 1);
    }
  }

  /** Meeting one owner twice makes the chain endless. */
  lemma {:induction false} RepeatLoops(parents: Parents, o: Owner, i: nat, j: nat, k: nat)
    requires i < j
    requires Climb(parents, o, j).Some? && Climb(parents, o, i) == Climb(parents, o, j)
    ensures Climb(parents, o, k).Some?
  {
    if k <= j {
      ClimbPrefix(parents, o, k, j);
    } else {
      RepeatLoops(parents, o, i, j, k - (j - i));
      ClimbPlus(parents, o, i, k - j);
      ClimbPlus(parents, o, j, k - j);
    }
  }

  /** An owner and the one its link names loop together, or not at all. */
  lemma LoopsAbove(parents: Parents, o: Owner, p: Owner)
    requires Above(parents, o) == Some(p)
    ensures Loops(parents, o) <==> Loops(parents, p)
  {
    assert Climb(parents, o, 1) == Some(p) by {
      assert Climb(parents, o, 0) == Some(o);
    }
    forall k: nat ensures Climb(parents, o, 1 + k) == Climb(parents, p, k) {
      ClimbPlus(parents, o, 1, k);
    }
    if Loops(parents, p) {
      forall k: nat ensures Climb(parents, o, k).Some? {
        if k > 0 {
          assert Climb(parents, o, 1 + (k - 1)) == Climb(parents, p, k - 1);
        }
      }
    }
    if Loops(parents, o) {
      forall k: nat ensures Climb(parents, p, k).Some? {
        assert Climb(parents, o, 1 + k).Some?;
      }
    }
  }

  lemma RootEndsTheChain(parents: Parents)
    ensures !Loops(parents, Root)
  {
    assert Climb(parents, Root, 0) == Some(Root);
    assert Climb(parents, Root, 1).None?;
  }

  function LinkOf(parents: Parents, id: string): Parent {
    if id in parents then parents[id] else Unlinked
  }

  /** `trail` is the chain's first owners, all agents, and `seen` holds all but the first. */
  ghost predicate Walked(parents: Parents, start: Owner, trail: seq<Owner>, seen: set<string>) {
    && trail != []
    && (forall j :: 0 <= j < |trail| ==> trail[j].Agent? && Climb(parents, start, j) == Some(trail[j]))
    && (forall id :: id in seen ==> Agent(id) in trail[1..])
  }

  lemma WalkedOneMore(parents: Parents, start: Owner, trail: seq<Owner>, seen: set<string>, next: string)
    requires Walked(parents, start, trail, seen)
    requires LinkOf(parents, trail[|trail| - 1].id).AgentParent?
    requires next == LinkOf(parents, trail[|trail| - 1].id).agentId
    ensures Walked(parents, start, trail + [Agent(next)], seen + {next})
    ensures next in seen ==> Loops(parents, start)
  {
    var k := |trail|;
    assert Climb(parents, start, k) == Above(parents, trail[k - 1]) == Some(Agent(next));
    assert (trail + [Agent(next)])[1..] == trail[1..] + [Agent(next)];
    if next in seen {
      var j :| 1 <= j < k && trail[j] == Agent(next);
      forall n: nat ensures Climb(parents, start, n).Some? {
        RepeatLoops(parents, start, j, k, n);
      }
    }
  }

  lemma WalkedToTheEnd(parents: Parents, start: Owner, trail: seq<Owner>, seen: set<string>)
    requires Walked(parents, start, trail, seen)
    requires !LinkOf(parents, trail[|trail| - 1].id).AgentParent?
    ensures !Loops(parents, start)
  {
    var k := |trail|;
    var last := trail[k - 1];
    assert Climb(parents, start, k) == Above(parents, last);
    if Climb(parents, start, k).Some? {
      assert Climb(parents, start, k) == Some(Root);
      assert Climb(parents, start, k + 1) == Above(parents, Root);
    }
  }

  /** Walks up until a link is missing or names an agent met before. */
  method LoopsBack(agentId: string, parents: Parents) returns (loops: bool)
    ensures loops <==> Loops(parents, Agent(agentId))
  {
    var seen: set<string> := {};
    var parent := LinkOf(parents, agentId);
    ghost var start := Agent(agentId);
    ghost var trail := [start];
    assert Climb(parents, start, 0) == Some(start);
    while parent.AgentParent?
      invariant Walked(parents, start, trail, seen)
      invariant parent == LinkOf(parents, trail[|trail| - 1].id)
      decreases parents.Keys - seen, if parent.AgentParent? then 1 else 0
    {
      WalkedOneMore(parents, start, trail, seen, parent.agentId);
      if parent.agentId in seen {
        return true;
      }
      ghost var before := parents.Keys - seen;
      seen := seen + {parent.agentId};
      trail := trail + [Agent(parent.agentId)];
      assert if parent.agentId in parents then parent.agentId in before else parents.Keys - seen == before;
      parent := LinkOf(parents, parent.agentId);
    }
    WalkedToTheEnd(parents, start, trail, seen);
    loops := false;
  }
}
