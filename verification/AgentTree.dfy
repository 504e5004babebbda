/** A session attempt's agents: every agent a file or a transcript names, once, with its place and context. */
module AgentTree {
  import opened Wrappers
  import opened Collections
  import opened Ordering
  import opened ParentLinks
  import opened LaunchLinks
  import opened Transcripts

  /**
   * A sub-agent's files. `attemptSeries` is its series read as an agent of the attempt and
   * `prefixSeries` read as one that ran wholly before it.
   */
  datatype SubagentFile = SubagentFile(
    agentId: string,
    transcript: seq<TranscriptLine>,
    meta: AgentMeta,
    startsFresh: bool,
    attemptSeries: Series,
    prefixSeries: Series)

  datatype TreeInput = TreeInput(
    transcript: seq<TranscriptLine>,
    prefixLinesExcluded: Option<int>,
    rootSeries: Series,
    subagents: seq<SubagentFile>)

  /** An agent's file of `rows` rows as it is read: of the attempt from its first row, or wholly before it. */
  ghost predicate FileOfRows(file: SubagentFile, rows: nat, prefixLinesExcluded: Option<int>) {
    && ReadFrom(file.attemptSeries, rows, if prefixLinesExcluded.None? then None else Some(0))
    && ReadFrom(file.prefixSeries, rows, if prefixLinesExcluded.None? then None else Some(rows))
  }

  /** What holds of every input that was read from files: its series are those of its transcripts. */
  ghost predicate AsRead(input: TreeInput) {
    && (exists rows: nat :: ReadFrom(input.rootSeries, rows, input.prefixLinesExcluded))
    && forall file :: file in input.subagents ==> exists rows: nat :: FileOfRows(file, rows, input.prefixLinesExcluded)
  }

  datatype Context = Fresh | Inherited | NotRecorded

  datatype Evidence = Available(series: Series) | Unavailable

  datatype SubAgent = SubAgent(
    agentId: string,
    parent: Parent,
    launchCallLine: Option<int>,
    context: Context,
    evidence: Evidence)

  datatype Tree = Tree(agents: seq<SubAgent>, unavailableAgentIds: seq<string>, rootSeries: Series)

  /** `new Map(subagents.map(each => [each.agentId, each]))`: the last file of an id wins. */
  function FilesOf(subagents: seq<SubagentFile>): map<string, SubagentFile> {
    if subagents == [] then map[]
    else
      var last := subagents[|subagents| - 1];
      FilesOf(subagents[..|subagents| - 1])[last.agentId := last]
  }

  function FileIds(subagents: seq<SubagentFile>): seq<string> {
    Distinct(seq(|subagents|, i requires 0 <= i < |subagents| => subagents[i].agentId))
  }

  lemma {:induction false} FilesOfKeys(subagents: seq<SubagentFile>)
    ensures FilesOf(subagents).Keys == Elements(FileIds(subagents))
    ensures forall id :: id in FilesOf(subagents) ==> FilesOf(subagents)[id].agentId == id
  {
    var ids := seq(|subagents|, i requires 0 <= i < |subagents| => subagents[i].agentId);
    DistinctElements(ids);
    if subagents == [] {
    } else {
      var n := |subagents| - 1;
      var front := subagents[..n];
      FilesOfKeys(front);
      var frontIds := seq(n, i requires 0 <= i < n => front[i].agentId);
      DistinctElements(frontIds);
      assert ids == frontIds + [subagents[n].agentId];
    }
  }

  ghost function TranscriptsOf(input: TreeInput): seq<Transcript> {
    FilesOfKeys(input.subagents);
    var files := FilesOf(input.subagents);
    var ids := FileIds(input.subagents);
    [Transcript(Root, input.transcript)]
    + seq(|ids|, i requires 0 <= i < |ids| => (assert ids[i] in Elements(ids); Transcript(Agent(ids[i]), files[ids[i]].transcript)))
  }

  /** Each transcript is read under an owner of its own. */
  lemma TranscriptOwnersDistinct(input: TreeInput)
    ensures OwnersDistinct(TranscriptsOf(input))
  {
    var ids, files := FileIds(input.subagents), input.subagents;
    var all := seq(|files|, i requires 0 <= i < |files| => files[i].agentId);
    DistinctElements(all);
    assert ids == Distinct(all);
    forall i, j | 0 <= i < j < |ids| + 1 ensures TranscriptsOf(input)[i].owner != TranscriptsOf(input)[j].owner {
      if i > 0 {
        assert ids[i - 1] != ids[j - 1];
      }
    }
  }

  ghost function NamedAgents(results: seq<Event<NamingResult>>): seq<string> {
    seq(|results|, i requires 0 <= i < |results| => results[i].key)
  }

  ghost function AgentIds(input: TreeInput): seq<string> {
    SortStrings(Distinct(FileIds(input.subagents) + NamedAgents(AllResults(TranscriptsOf(input)))))
  }

  ghost function MetaOf(input: TreeInput, agentId: string): AgentMeta {
    var files := FilesOf(input.subagents);
    if agentId in files then files[agentId].meta else NO_META
  }

  ghost function LinksOf(input: TreeInput): map<string, AgentLink> {
    map id | id in AgentIds(input) :: ParentFor(id, MetaOf(input, id), IndexOf(TranscriptsOf(input)))
  }

  function ProjectAgent(
    agentId: string, files: map<string, SubagentFile>, link: AgentLink, inherited: bool): SubAgent
  {
    if agentId !in files then
      SubAgent(agentId, link.parent, link.callLine, if inherited then Inherited else NotRecorded, Unavailable)
    else
      var file := files[agentId];
      SubAgent(
        file.agentId, link.parent, link.callLine,
        if inherited then Inherited else if file.startsFresh then Fresh else NotRecorded,
        Available(if inherited then file.prefixSeries else file.attemptSeries))
  }

  ghost function AgentAt(input: TreeInput, id: string): SubAgent
    requires id in AgentIds(input)
  {
    var links := LinksOf(input);
    ProjectAgent(id, FilesOf(input.subagents), links[id],
                 IsInherited(id, links, input.prefixLinesExcluded, {}))
  }

  ghost function AgentsOf(input: TreeInput): seq<SubAgent> {
    var ids := AgentIds(input);
    seq(|ids|, i requires 0 <= i < |ids| => AgentAt(input, ids[i]))
  }

  /** The agents that leave coverage incomplete. */
  ghost function UnavailableIds(agents: seq<SubAgent>): seq<string> {
    if agents == [] then []
    else
      (if agents[0].evidence.Unavailable? && agents[0].context != Inherited then [agents[0].agentId] else [])
      + UnavailableIds(agents[1..])
  }

  ghost function AgentTreeOf(input: TreeInput): Tree {
    var agents := AgentsOf(input);
    Tree(agents, UnavailableIds(agents), input.rootSeries)
  }

  ghost predicate UniqueIds(agents: seq<SubAgent>) {
    forall i, j :: 0 <= i < j < |agents| ==> agents[i].agentId != agents[j].agentId
  }

  lemma NamedAgentsListed(transcripts: seq<Transcript>, id: string)
    ensures id in NamedAgents(AllResults(transcripts)) <==> id in IndexOf(transcripts).results
  {
    var results := AllResults(transcripts);
    FirstWinsKeys(results, id);
    hide AllResults, FirstWins;
    assert forall j :: 0 <= j < |results| ==> NamedAgents(results)[j] == results[j].key;
  }

  lemma AgentIdsListed(input: TreeInput)
    ensures NoRepeats(AgentIds(input))
    ensures forall id :: id in AgentIds(input) <==>
      id in FilesOf(input.subagents) || id in IndexOf(TranscriptsOf(input)).results
  {
    var files, names := FileIds(input.subagents), NamedAgents(AllResults(TranscriptsOf(input)));
    DistinctElements(files + names);
    SortKeeps(Distinct(files + names));
    FilesOfKeys(input.subagents);
    forall id ensures id in AgentIds(input) <==>
      id in FilesOf(input.subagents) || id in IndexOf(TranscriptsOf(input)).results
    {
      NamedAgentsListed(TranscriptsOf(input), id);
      hide IndexOf, TranscriptsOf, NamedAgents, FileIds, FilesOf, SortStrings, Distinct;
      assert id in AgentIds(input) <==> id in Elements(AgentIds(input));
      assert id in Elements(files + names) <==> id in files || id in names;
      assert id in files <==> id in Elements(files);
    }
  }

  lemma AgentIdAt(input: TreeInput, i: nat)
    requires i < |AgentIds(input)|
    ensures |AgentsOf(input)| == |AgentIds(input)| && AgentsOf(input)[i].agentId == AgentIds(input)[i]
  {
    FilesOfKeys(input.subagents);
    assert AgentsOf(input)[i] == AgentAt(input, AgentIds(input)[i]);
    hide AgentIds, LinksOf, IsInherited, FilesOf;
  }

  /** The tree holds each agent a file or a naming result gives exactly once, and no other. */
  lemma TreeHoldsEveryAgentOnce(input: TreeInput)
    ensures UniqueIds(AgentsOf(input))
    ensures forall id :: (exists agent :: agent in AgentsOf(input) && agent.agentId == id) <==>
      id in FilesOf(input.subagents) || id in IndexOf(TranscriptsOf(input)).results
  {
    AgentIdsListed(input);
    var agents, ids := AgentsOf(input), AgentIds(input);
    assert |agents| == |ids|;
    hide AgentsOf, AgentIds, IndexOf, TranscriptsOf, FilesOf;
    forall i | 0 <= i < |ids| ensures agents[i].agentId == ids[i] {
      AgentIdAt(input, i);
    }
    forall id ensures (exists agent :: agent in agents && agent.agentId == id) <==> id in ids {
      if id in ids {
        var i :| 0 <= i < |ids| && ids[i] == id;
        assert agents[i] in agents;
      }
    }
  }

  /** `new Map(agents.map(({agentId, parent}) => [agentId, parent]))` */
  function ParentsOf(agents: seq<SubAgent>): Parents {
    if agents == [] then map[]
    else
      var last := agents[|agents| - 1];
      ParentsOf(agents[..|agents| - 1])[last.agentId := last.parent]
  }

  lemma {:induction false} ParentsOfUnique(agents: seq<SubAgent>)
    requires UniqueIds(agents)
    ensures forall id :: id in ParentsOf(agents) <==> exists i :: 0 <= i < |agents| && agents[i].agentId == id
    ensures forall i :: 0 <= i < |agents| ==>
      agents[i].agentId in ParentsOf(agents) && ParentsOf(agents)[agents[i].agentId] == agents[i].parent
  {
    if agents != [] {
      var n := |agents| - 1;
      var front := agents[..n];
      ParentsOfUnique(front);
      forall id ensures id in ParentsOf(agents) <==> exists i :: 0 <= i < |agents| && agents[i].agentId == id {
        if id in ParentsOf(front) {
          var i :| 0 <= i < n && front[i].agentId == id;
          assert agents[i].agentId == id;
        }
        if i :| 0 <= i < |agents| && agents[i].agentId == id {
          assert i == n || front[i].agentId == id;
        }
      }
      forall i | 0 <= i < |agents|
        ensures agents[i].agentId in ParentsOf(agents) && ParentsOf(agents)[agents[i].agentId] == agents[i].parent
      {
        assert i < n ==> front[i] == agents[i];
      }
    }
  }

  lemma AgentAtKeepsTheLink(input: TreeInput, i: nat)
    requires i < |AgentIds(input)|
    ensures AgentsOf(input)[i].agentId == AgentIds(input)[i]
    ensures AgentsOf(input)[i].parent == LinksOf(input)[AgentIds(input)[i]].parent
  {
    FilesOfKeys(input.subagents);
    assert AgentsOf(input)[i] == AgentAt(input, AgentIds(input)[i]);
  }

  lemma ParentsByIndex(agents: seq<SubAgent>, ids: seq<string>, parents: Parents)
    requires UniqueIds(agents) && |ids| == |agents|
    requires forall id :: id in parents <==> id in ids
    requires forall i :: 0 <= i < |ids| ==> agents[i].agentId == ids[i] && agents[i].parent == parents[ids[i]]
    ensures ParentsOf(agents) == parents
  {
    ParentsOfUnique(agents);
    forall id ensures id in ParentsOf(agents) <==> id in parents {
      if id in parents {
        var i :| 0 <= i < |ids| && ids[i] == id;
        assert agents[i].agentId == id;
      }
    }
  }

  lemma TreeParents(input: TreeInput)
    ensures ParentsOf(AgentsOf(input)) == ParentsIn(LinksOf(input))
  {
    TreeHoldsEveryAgentOnce(input);
    forall i | 0 <= i < |AgentIds(input)|
      ensures AgentsOf(input)[i].agentId == AgentIds(input)[i]
      ensures AgentsOf(input)[i].parent == ParentsIn(LinksOf(input))[AgentIds(input)[i]]
    {
      AgentAtKeepsTheLink(input, i);
    }
    ParentsByIndex(AgentsOf(input), AgentIds(input), ParentsIn(LinksOf(input)));
  }

  /** No agent that takes part in the attempt hangs below one that ran before it. */
  lemma NoInheritedAncestor(input: TreeInput, agent: SubAgent, above: SubAgent, k: nat)
    requires agent in AgentsOf(input) && above in AgentsOf(input)
    requires agent.context != Inherited
    requires Climb(ParentsOf(AgentsOf(input)), Agent(agent.agentId), k) == Some(Agent(above.agentId))
    ensures above.context != Inherited
  {
    TreeParents(input);
    FilesOfKeys(input.subagents);
    var agents, ids := AgentsOf(input), AgentIds(input);
    var i :| 0 <= i < |agents| && agents[i] == agent;
    var j :| 0 <= j < |agents| && agents[j] == above;
    assert agent == AgentAt(input, ids[i]) && above == AgentAt(input, ids[j]);
    if above.context == Inherited {
      InheritedClosedDownward(agent.agentId, LinksOf(input), input.prefixLinesExcluded, k, above.agentId);
    }
  }

  // ---- the tree, read off the input

  /** The file is the last one of its agent: the one that counts. */
  ghost predicate IsFileOf(input: TreeInput, id: string, file: SubagentFile) {
    exists k :: 0 <= k < |input.subagents| && input.subagents[k] == file && file.agentId == id
      && forall j :: k < j < |input.subagents| ==> input.subagents[j].agentId != id
  }

  lemma {:induction false} LastFileCounts(subagents: seq<SubagentFile>, k: nat)
    requires k < |subagents| && forall j :: k < j < |subagents| ==> subagents[j].agentId != subagents[k].agentId
    ensures subagents[k].agentId in FilesOf(subagents) && FilesOf(subagents)[subagents[k].agentId] == subagents[k]
  {
    var n := |subagents| - 1;
    if k < n {
      LastFileCounts(subagents[..n], k);
    }
  }

  lemma {:induction false} SomeFileCounts(subagents: seq<SubagentFile>, id: string) returns (k: nat)
    requires id in FilesOf(subagents)
    ensures k < |subagents| && subagents[k].agentId == id && FilesOf(subagents)[id] == subagents[k]
    ensures forall j :: k < j < |subagents| ==> subagents[j].agentId != id
  {
    var n := |subagents| - 1;
    if subagents[n].agentId == id {
      k := n;
    } else {
      k := SomeFileCounts(subagents[..n], id);
    }
  }

  /** An agent has files kept exactly when a file has its id, and the last such file counts. */
  lemma FilesMean(input: TreeInput, id: string)
    ensures id in FilesOf(input.subagents) <==> exists file :: IsFileOf(input, id, file)
    ensures forall file :: IsFileOf(input, id, file) <==>
      id in FilesOf(input.subagents) && FilesOf(input.subagents)[id] == file
  {
    var files := FilesOf(input.subagents);
    forall file | IsFileOf(input, id, file) ensures id in files && files[id] == file {
      var k :| 0 <= k < |input.subagents| && input.subagents[k] == file && file.agentId == id
        && forall j :: k < j < |input.subagents| ==> input.subagents[j].agentId != id;
      LastFileCounts(input.subagents, k);
    }
    if id in files {
      var k := SomeFileCounts(input.subagents, id);
      assert IsFileOf(input, id, files[id]);
    }
  }

  /** What is read as an owner's transcript: the root's own, or that of the file that counts. */
  ghost predicate IsTranscriptOf(input: TreeInput, o: Owner, lines: seq<TranscriptLine>) {
    match o
    case Root => lines == input.transcript
    case Agent(id) => exists file :: IsFileOf(input, id, file) && lines == file.transcript
  }

  /** The root's transcript is read first, and every owner's once. */
  lemma TranscriptsMean(input: TreeInput)
    ensures TranscriptsOf(input)[0] == Transcript(Root, input.transcript)
    ensures forall t :: t in TranscriptsOf(input) <==> IsTranscriptOf(input, t.owner, t.lines)
  {
    var transcripts, ids, files := TranscriptsOf(input), FileIds(input.subagents), FilesOf(input.subagents);
    FilesOfKeys(input.subagents);
    forall t ensures t in transcripts <==> IsTranscriptOf(input, t.owner, t.lines) {
      if t.owner.Agent? {
        FilesMean(input, t.owner.id);
        if t.owner.id in files {
          assert t.owner.id in Elements(ids);
          var i :| 0 <= i < |ids| && ids[i] == t.owner.id;
          assert transcripts[i + 1] == Transcript(t.owner, files[t.owner.id].transcript);
        }
      }
      if t in transcripts {
        var i :| 0 <= i < |transcripts| && transcripts[i] == t;
        if i > 0 {
          assert ids[i - 1] in Elements(ids);
          FilesMean(input, ids[i - 1]);
        }
      } else {
        assert transcripts[0] in transcripts;
      }
    }
  }

  /** What an agent's metadata says: that of the file that counts, or nothing without one. */
  lemma MetaMeans(input: TreeInput, id: string)
    ensures forall file :: IsFileOf(input, id, file) ==> MetaOf(input, id) == file.meta
    ensures (forall file :: !IsFileOf(input, id, file)) ==> MetaOf(input, id) == NO_META
  {
    FilesMean(input, id);
  }

  /** The agent was launched by a row of the root's transcript at or before the prefix. */
  ghost predicate LaunchedInThePrefix(input: TreeInput, id: string) {
    && input.prefixLinesExcluded.Some?
    && exists r :: 0 <= r < |input.transcript| && LaunchedAt(id, MetaOf(input, id), TranscriptsOf(input), 0, r)
         && input.transcript[r].line <= input.prefixLinesExcluded.value
  }

  /** Only the root's transcript is read under the root. */
  lemma RootIsFirst(input: TreeInput, t: nat)
    requires t < |TranscriptsOf(input)|
    ensures TranscriptsOf(input)[t].owner == Root <==> t == 0
  {
    TranscriptsMean(input);
    TranscriptOwnersDistinct(input);
    hide TranscriptsOf;
  }

  lemma LaunchRowInRange(input: TreeInput, id: string, t: int, r: int)
    requires LaunchedAt(id, MetaOf(input, id), TranscriptsOf(input), t, r)
    ensures 0 <= t < |TranscriptsOf(input)| && 0 <= r < |TranscriptsOf(input)[t].lines|
  {
    hide TranscriptsOf;
  }

  /** The launch recorded for an agent is in the prefix exactly when the row that launched it is. */
  lemma LaunchInPrefixMeans(input: TreeInput, id: string)
    ensures LaunchedInPrefix(ParentFor(id, MetaOf(input, id), IndexOf(TranscriptsOf(input))), input.prefixLinesExcluded)
      <==> LaunchedInThePrefix(input, id)
  {
    var meta, transcripts := MetaOf(input, id), TranscriptsOf(input);
    LaunchIsTheRow(id, meta, transcripts);
    TranscriptsMean(input);
    hide TranscriptsOf, MetaOf, ParentFor, IndexOf, LaunchedAt;
    if LaunchedInPrefix(ParentFor(id, meta, IndexOf(transcripts)), input.prefixLinesExcluded) {
      var t, r :| LaunchedAt(id, meta, transcripts, t, r);
      LaunchRowInRange(input, id, t, r);
      RootIsFirst(input, t);
      assert LaunchedAt(id, meta, transcripts, 0, r);
    }
    if LaunchedInThePrefix(input, id) {
      var r :| 0 <= r < |input.transcript| && LaunchedAt(id, meta, transcripts, 0, r)
        && input.transcript[r].line <= input.prefixLinesExcluded.value;
    }
  }

  /** An agent that no file and no row names was launched by none. */
  lemma LaunchedIsListed(input: TreeInput, id: string)
    requires LaunchedInThePrefix(input, id)
    ensures id in AgentIds(input)
  {
    var meta, transcripts := MetaOf(input, id), TranscriptsOf(input);
    var r :| 0 <= r < |input.transcript| && LaunchedAt(id, meta, transcripts, 0, r);
    NamedExactlyWhen(transcripts, id);
    TreeHoldsEveryAgentOnce(input);
    hide TranscriptsOf, IndexOf, FirstRow, FilesOf;
    if ByToolUse(meta, transcripts) {
      assert id in FilesOf(input.subagents);
    }
    var agent :| agent in AgentsOf(input) && agent.agentId == id;
    var i :| 0 <= i < |AgentsOf(input)| && AgentsOf(input)[i] == agent;
    AgentAtKeepsTheLink(input, i);
  }

  /**
   * An agent ran before the attempt exactly when an agent up its chain of parents, itself
   * included, was launched by a row of the root's transcript at or before the prefix.
   */
  lemma InheritedExactlyWhen(input: TreeInput, i: nat)
    requires i < |AgentsOf(input)|
    ensures AgentsOf(input)[i].context == Inherited <==>
      exists k: nat, above :: Climb(ParentsOf(AgentsOf(input)), Agent(AgentsOf(input)[i].agentId), k) == Some(Agent(above))
        && LaunchedInThePrefix(input, above)
  {
    var id, links := AgentIds(input)[i], LinksOf(input);
    AgentAtKeepsTheLink(input, i);
    TreeParents(input);
    InheritedMeans(id, links, input.prefixLinesExcluded);
    assert AgentsOf(input)[i] == AgentAt(input, id);
    assert AgentsOf(input)[i].context == Inherited <==> IsInherited(id, links, input.prefixLinesExcluded, {});
    hide AgentIds, IsInherited, Climb, IndexOf, TranscriptsOf, ParentFor, LaunchedInPrefix, LaunchedInThePrefix;
    hide AgentsOf, AgentAt, ParentsOf, LinksOf;
    forall k: nat, above | Climb(ParentsIn(links), Agent(id), k) == Some(Agent(above))
      ensures PrefixAt(links, input.prefixLinesExcluded, id, k) <==> LaunchedInThePrefix(input, above)
    {
      LaunchInPrefixMeans(input, above);
      if LaunchedInThePrefix(input, above) {
        LaunchedIsListed(input, above);
      }
    }
    if k: nat :| PrefixAt(links, input.prefixLinesExcluded, id, k) {
      var above := Climb(ParentsIn(links), Agent(id), k).value.id;
      assert Climb(ParentsIn(links), Agent(id), k) == Some(Agent(above));
      assert LaunchedInThePrefix(input, above);
    }
    if k: nat, above :| Climb(ParentsIn(links), Agent(id), k) == Some(Agent(above)) && LaunchedInThePrefix(input, above) {
      assert PrefixAt(links, input.prefixLinesExcluded, id, k);
    }
  }

  /** What an agent of the tree reads: the file that counts, as an agent of the attempt or one that ran before it. */
  lemma AgentMeans(input: TreeInput, i: nat)
    requires i < |AgentsOf(input)|
    ensures var agent := AgentsOf(input)[i];
      && (agent.evidence.Unavailable? <==> forall file :: !IsFileOf(input, agent.agentId, file))
      && (agent.context == Fresh <==>
            agent.context != Inherited && exists file :: IsFileOf(input, agent.agentId, file) && file.startsFresh)
      && forall file :: IsFileOf(input, agent.agentId, file) ==>
           agent.evidence == Available(if agent.context == Inherited then file.prefixSeries else file.attemptSeries)
  {
    var id := AgentIds(input)[i];
    AgentAtKeepsTheLink(input, i);
    FilesMean(input, id);
    FilesOfKeys(input.subagents);
    assert AgentsOf(input)[i] == AgentAt(input, id);
    hide AgentIds, IsInherited, LinksOf, IsFileOf, FilesOf;
  }

  /** An agent's parent and launch call line are those of its link, read off the transcripts. */
  lemma AgentLinked(input: TreeInput, i: nat)
    requires i < |AgentsOf(input)|
    ensures var agent := AgentsOf(input)[i];
      var link := ParentFor(agent.agentId, MetaOf(input, agent.agentId), IndexOf(TranscriptsOf(input)));
      agent.parent == link.parent && agent.launchCallLine == link.callLine
  {
    var id := AgentIds(input)[i];
    AgentAtKeepsTheLink(input, i);
    assert AgentsOf(input)[i] == AgentAt(input, id);
    hide AgentIds, IsInherited, IndexOf, TranscriptsOf, ParentFor, MetaOf;
  }
}
