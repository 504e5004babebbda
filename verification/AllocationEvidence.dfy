/** The allocations, read off the input: who takes part, with which rows, and what a child's launch falls under. */
module AllocationEvidence {
  import opened Wrappers
  import opened Collections
  import opened ParentLinks
  import opened Transcripts
  import opened SkillWindows
  import opened AgentTree
  import opened AgentRequestCost
  import opened AgentDescendants
  import opened AgentCost

  /** What an owner takes part in the attempt with: the root from the end of the prefix, an agent from its first row. */
  ghost predicate TakesPartWith(input: TreeInput, o: Owner, p: Participant) {
    match o
    case Root =>
      p == Participant(Root, input.rootSeries, input.transcript,
                       if input.prefixLinesExcluded.None? then 0 else input.prefixLinesExcluded.value)
    case Agent(id) =>
      exists agent, file :: agent in AgentsOf(input) && agent.agentId == id && agent.context != Inherited
        && IsFileOf(input, id, file) && p == Participant(o, file.attemptSeries, file.transcript, 0)
  }

  ghost predicate ParticipantOf(agent: SubAgent, files: map<string, SubagentFile>, p: Participant) {
    TakesPartIn(agent, files)
    && p == Participant(Agent(agent.agentId), agent.evidence.series, files[agent.agentId].transcript, 0)
  }

  lemma {:induction false} SubParticipantsMean(agents: seq<SubAgent>, files: map<string, SubagentFile>, p: Participant)
    ensures p in SubParticipants(agents, files) <==> exists agent :: agent in agents && ParticipantOf(agent, files, p)
  {
    if agents != [] {
      var n := |agents| - 1;
      SubParticipantsMean(agents[..n], files, p);
      assert agents[n] in agents;
      assert forall agent :: agent in agents <==> agent in agents[..n] || agent == agents[n];
    }
  }

  lemma LastIsNew(participants: seq<Participant>)
    requires participants != [] && NoRepeats(OwnersOf(participants))
    ensures NoRepeats(OwnersOf(participants[..|participants| - 1]))
    ensures forall p :: p in participants[..|participants| - 1] ==> p.owner != participants[|participants| - 1].owner
  {
    var n := |participants| - 1;
    var front, owners := participants[..n], OwnersOf(participants);
    assert OwnersOf(front) == owners[..n];
    forall p | p in front ensures p.owner != participants[n].owner {
      var i :| 0 <= i < n && front[i] == p;
      assert owners[i] != owners[n];
    }
  }

  lemma {:induction false} EachAllocated(participants: seq<Participant>, readers: Readers)
    requires NoRepeats(OwnersOf(participants))
    ensures forall p :: p in participants ==>
      p.owner in AllocationsOf(participants, readers) && AllocationsOf(participants, readers)[p.owner] == Allocate(p, readers)
  {
    if participants != [] {
      var n := |participants| - 1;
      LastIsNew(participants);
      EachAllocated(participants[..n], readers);
      hide Allocate, OwnersOf, NoRepeats;
      assert forall p :: p in participants <==> p in participants[..n] || p == participants[n];
    }
  }

  lemma SubParticipantOf(input: TreeInput, p: Participant)
    ensures (exists agent :: agent in AgentsOf(input) && ParticipantOf(agent, FilesOf(input.subagents), p)) <==>
      p.owner.Agent? && TakesPartWith(input, p.owner, p)
  {
    var agents, files := AgentsOf(input), FilesOf(input.subagents);
    FilesOfKeys(input.subagents);
    forall agent | agent in agents
      ensures ParticipantOf(agent, files, p) <==>
        p.owner == Agent(agent.agentId) && agent.context != Inherited && exists file ::
          IsFileOf(input, agent.agentId, file) && p == Participant(Agent(agent.agentId), file.attemptSeries, file.transcript, 0)
    {
      var i :| 0 <= i < |agents| && agents[i] == agent;
      AgentMeans(input, i);
      FilesMean(input, agent.agentId);
      hide AgentsOf, FilesOf, IsFileOf;
    }
    hide AgentsOf, FilesOf, IsFileOf, ParticipantOf;
  }

  lemma ParticipantsListed(input: TreeInput, p: Participant)
    ensures p in ParticipantsOf(input, AgentTreeOf(input)) <==> TakesPartWith(input, p.owner, p)
  {
    var files, participants := FilesOf(input.subagents), ParticipantsOf(input, AgentTreeOf(input));
    var subs := SubParticipants(AgentsOf(input), files);
    assert participants == [participants[0]] + subs;
    SubParticipantsMean(AgentsOf(input), files, p);
    SubParticipantOf(input, p);
    hide AgentsOf, SubParticipants, FilesOf, ParticipantOf;
    if TakesPartWith(input, p.owner, p) && p.owner == Root {
      assert p == participants[0];
    }
  }

  lemma RootAndOthers(subs: seq<Owner>)
    requires NoRepeats(subs) && forall o :: o in subs ==> o.Agent?
    ensures NoRepeats([Root] + subs)
  {
    assert forall k :: 0 <= k < |subs| ==> subs[k] in subs;
  }

  lemma ParticipantsDistinct(input: TreeInput, readers: Readers)
    ensures NoRepeats(OwnersOf(ParticipantsOf(input, AgentTreeOf(input))))
  {
    var subs := SubParticipants(AgentsOf(input), FilesOf(input.subagents));
    ParticipantOwners(input, readers);
    TreeHoldsEveryAgentOnce(input);
    SubParticipantsListed(AgentsOf(input), FilesOf(input.subagents));
    RootAndOthers(OwnersOf(subs));
    assert WorldOf(input, readers).order == OwnersOf(ParticipantsOf(input, AgentTreeOf(input)));
    hide *;
  }

  /** An owner is allocated exactly when it takes part in the attempt, and from what it takes part with. */
  lemma AllocationsMean(input: TreeInput, readers: Readers)
    ensures var allocations := WorldOf(input, readers).allocations;
      && (forall o :: o in allocations <==> exists p :: TakesPartWith(input, o, p))
      && forall o, p :: TakesPartWith(input, o, p) ==> o in allocations && allocations[o] == Allocate(p, readers)
  {
    var participants := ParticipantsOf(input, AgentTreeOf(input));
    var allocations := WorldOf(input, readers).allocations;
    assert allocations == AllocationsOf(participants, readers);
    ParticipantsDistinct(input, readers);
    EachAllocated(participants, readers);
    AllocationKeys(participants, readers);
    hide WorldOf, ParticipantsOf, AllocationsOf, Allocate;
    forall o, p | TakesPartWith(input, o, p) ensures p.owner == o && p in participants {
      ParticipantsListed(input, p);
    }
    forall o | o in allocations ensures exists p :: TakesPartWith(input, o, p) {
      var i :| 0 <= i < |participants| && OwnersOf(participants)[i] == o;
      ParticipantsListed(input, participants[i]);
    }
  }

  // ---- which request a row belongs to, and where a request falls

  lemma {:induction false} RequestIdsMean(lines: seq<TranscriptLine>, line: int)
    requires LinesAscend(lines)
    ensures line in RequestIds(lines) <==> exists row :: row in lines && row.line == line
    ensures forall row :: row in lines && row.line == line ==> RequestIds(lines)[line] == row.requestId
  {
    if lines != [] {
      var n := |lines| - 1;
      RequestIdsMean(lines[..n], line);
      assert lines[n] in lines;
      forall row ensures row in lines <==> row in lines[..n] || row == lines[n] {
      }
      forall row | row in lines[..n] ensures row.line < lines[n].line {
        var i :| 0 <= i < n && lines[i] == row;
      }
    }
  }

  lemma {:induction false} FirstLinesMean(entries: seq<RequestEntry>, id: string, line: int)
    ensures FirstLine(entries, id, line) <==> id in FirstLines(entries) && FirstLines(entries)[id] == line
    ensures id in FirstLines(entries) <==> exists i :: 0 <= i < |entries| && entries[i].requestId == Some(id)
  {
    if entries != [] {
      var n := |entries| - 1;
      var front := entries[..n];
      FirstLinesMean(front, id, line);
      assert forall i :: 0 <= i < n ==> front[i] == entries[i];
      if FirstLine(front, id, line) {
        var i :| 0 <= i < n && front[i].requestId == Some(id) && front[i].line == line
          && forall j :: 0 <= j < i ==> front[j].requestId != Some(id);
        assert entries[i].requestId == Some(id);
      }
      if FirstLine(entries, id, line) {
        var i :| 0 <= i < n + 1 && entries[i].requestId == Some(id) && entries[i].line == line
          && forall j :: 0 <= j < i ==> entries[j].requestId != Some(id);
        if i < n {
          assert front[i].requestId == Some(id);
        }
      }
    }
  }

  /** The line of the request the row at `at` belongs to: where its id is first met, or its own without one. */
  ghost predicate RequestLine(p: Participant, at: int, line: int) {
    (exists row :: row in p.lines && row.line == at && row.requestId.Some?
       && FirstLine(p.series.entries, row.requestId.value, line))
    || (line == at && forall row :: row in p.lines && row.line == at ==> row.requestId.None?)
  }

  lemma LocateMeans(p: Participant, at: int, line: int)
    requires LinesAscend(p.lines)
    ensures LocatorOf(p.series, p.lines).Locate(at) == Some(line) <==> RequestLine(p, at, line)
  {
    RequestIdsMean(p.lines, at);
    if row :| row in p.lines && row.line == at && row.requestId.Some? {
      FirstLinesMean(p.series.entries, row.requestId.value, line);
    }
    hide FirstLine, FirstLines, RequestIds;
  }

  /** The line is that of a request of the attempt. */
  ghost predicate IsRequestLine(p: Participant, line: int) {
    exists e :: e in p.series.entries && e.region == Attempt && e.line == line
  }

  lemma {:induction false} AttemptEntriesListed(entries: seq<RequestEntry>)
    ensures forall e :: e in AttemptEntries(entries) <==> e in entries && e.region == Attempt
  {
    if entries != [] {
      AttemptEntriesListed(entries[1..]);
      assert entries == [entries[0]] + entries[1..];
    }
  }

  lemma RequestLinesMean(p: Participant, readers: Readers, line: int)
    ensures line in Allocate(p, readers).windowByRequest <==> IsRequestLine(p, line)
    ensures line in Allocate(p, readers).requestLines <==> IsRequestLine(p, line)
  {
    var entries := AttemptEntries(p.series.entries);
    AttemptEntriesListed(p.series.entries);
    CostsByLine(entries, readers.price);
    DistinctElements(EntryLines(entries));
    hide AttemptEntries, CostsOf, Distinct, WindowFrom, WindowsOf, UnreadableLines, SpentModels;
    var lines := EntryLines(entries);
    assert line in Distinct(lines) <==> line in Elements(Distinct(lines));
    if line in lines {
      var k :| 0 <= k < |lines| && lines[k] == line;
      assert entries[k] in entries;
    }
    if IsRequestLine(p, line) {
      var e :| e in p.series.entries && e.region == Attempt && e.line == line;
      var k :| 0 <= k < |entries| && entries[k] == e;
      assert lines[k] == line;
    }
  }

  /** A request is under the window its line lies in, the one window that covers it, or under none. */
  lemma PlacedByLine(p: Participant, readers: Readers, line: int)
    requires LinesAscend(p.lines) && IsRequestLine(p, line)
    ensures var a := Allocate(p, readers);
      && line in a.windowByRequest
      && (forall i: nat :: a.windowByRequest[line] == Inside(i) <==> i < |a.windows| && Covers(a.windows[i], line))
      && (a.windowByRequest[line] == Outside <==>
            !UnderASkill(p.lines, p.attemptStart, readers.skillCalls(p.lines, a.requestOf), line))
  {
    var a := Allocate(p, readers);
    var calls := readers.skillCalls(p.lines, a.requestOf);
    RequestLinesMean(p, readers, line);
    WindowsInOrder(p.lines, p.attemptStart, calls);
    InAWindowMeans(p.lines, p.attemptStart, calls, line);
    hide WindowsOf, UnderASkill, LocatorOf, CostsOf, AttemptEntries, UnreadableLines, SpentModels, Distinct, EntryLines;
    WindowAtFindsFirst(a.windows, line, 0);
    forall i: nat | i < |a.windows| && Covers(a.windows[i], line) ensures WindowAt(a.windows, line) == Inside(i) {
      AtMostOneWindow(a.windows, line, i);
    }
  }

  /** A child was launched under a window exactly when the request its launch call belongs to is one of the attempt's and lies in it. */
  lemma LaunchedUnderMeans(p: Participant, readers: Readers, children: seq<SubAgent>, child: SubAgent, i: nat)
    requires LinesAscend(p.lines)
    ensures var a := Allocate(p, readers);
      child in LaunchedIn(a, children, i) <==>
        && child in children && child.launchCallLine.Some? && i < |a.windows|
        && exists line :: RequestLine(p, child.launchCallLine.value, line) && IsRequestLine(p, line) && Covers(a.windows[i], line)
  {
    var a := Allocate(p, readers);
    assert a.requestOf == LocatorOf(p.series, p.lines);
    hide Allocate, RequestLine, IsRequestLine, LocatorOf, RequestLocator.Locate, Covers, LinesAscend;
    if child.launchCallLine.Some? {
      var at := child.launchCallLine.value;
      forall line
        ensures a.requestOf.Locate(at) == Some(line) <==> RequestLine(p, at, line)
        ensures line in a.windowByRequest <==> IsRequestLine(p, line)
        ensures IsRequestLine(p, line) ==> (a.windowByRequest[line] == Inside(i) <==> i < |a.windows| && Covers(a.windows[i], line))
      {
        LocateMeans(p, at, line);
        RequestLinesMean(p, readers, line);
        if IsRequestLine(p, line) {
          PlacedByLine(p, readers, line);
        }
      }
    }
  }

  /** Every unreadable line of the attempt is kept with its reason, under the window it lies in. */
  lemma {:induction false} UnreadableMeans(
    rows: seq<UnreadableRow>, owner: Owner, windows: seq<SkillWindow>, readers: Readers, each: UnreadableLine)
    ensures each in UnreadableLines(rows, owner, windows, readers) <==>
      exists row :: row in rows && row.region == Attempt
        && each == UnreadableLine(readers.unreadableReason(owner, row.line), WindowAt(windows, row.line))
  {
    if rows != [] {
      UnreadableMeans(rows[1..], owner, windows, readers, each);
      assert rows == [rows[0]] + rows[1..];
      assert forall row :: row in rows <==> row == rows[0] || row in rows[1..];
    }
  }

  // ---- what an owner's attempt spent

  const NO_TOKENS := CompleteUsage(0, 0)

  /** An entry of the owner's attempt that spent, or may have. */
  ghost predicate SpentIn(input: TreeInput, o: Owner, e: RequestEntry) {
    exists p :: TakesPartWith(input, o, p) && e in p.series.entries && e.region == Attempt && e.usage != NO_TOKENS
  }

  lemma AllocatedModels(p: Participant, readers: Readers, model: Option<string>)
    ensures model in Allocate(p, readers).models <==>
      exists e :: e in p.series.entries && e.region == Attempt && e.usage != NO_TOKENS && e.model == model
  {
    var a := Allocate(p, readers);
    AttemptEntriesListed(p.series.entries);
    assert a.models == SpentModels(AttemptEntries(p.series.entries));
    hide Allocate, AttemptEntries;
  }

  /** The models of an allocation are those its spending attempt entries name, `undefined` among them. */
  lemma ModelsMean(input: TreeInput, readers: Readers, o: Owner, model: Option<string>)
    requires o in WorldOf(input, readers).allocations
    ensures model in WorldOf(input, readers).allocations[o].models <==> exists e :: SpentIn(input, o, e) && e.model == model
  {
    AllocationsMean(input, readers);
    var p :| TakesPartWith(input, o, p);
    OneParticipant(input, o, p);
    AllocatedModels(p, readers, model);
    hide WorldOf, TakesPartWith, Allocate;
    if e :| e in p.series.entries && e.region == Attempt && e.usage != NO_TOKENS && e.model == model {
      assert SpentIn(input, o, e);
    }
  }

  /** What an owner takes part with is settled by the input. */
  lemma OneParticipant(input: TreeInput, o: Owner, p: Participant)
    requires TakesPartWith(input, o, p)
    ensures forall q :: TakesPartWith(input, o, q) ==> q == p
  {
    if o.Agent? {
      FilesMean(input, o.id);
    }
    hide AgentsOf, FilesOf, IsFileOf;
  }
}
