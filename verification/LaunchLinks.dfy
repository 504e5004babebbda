/** Which agent launched which, read from every transcript, and which agents ran before the attempt. */
module LaunchLinks {
  import opened Wrappers
  import opened ParentLinks
  import opened Transcripts

  datatype LaunchCall = LaunchCall(owner: Owner, line: int, name: string)

  datatype NamingResult = NamingResult(owner: Owner, line: int, toolUseId: Option<string>)

  datatype Launch = Launch(owner: Owner, line: int)

  datatype AgentLink = AgentLink(parent: Parent, launch: Option<Launch>, callLine: Option<int>)

  datatype LaunchIndex = LaunchIndex(calls: map<string, LaunchCall>, results: map<string, NamingResult>)

  datatype Transcript = Transcript(owner: Owner, lines: seq<TranscriptLine>)

  datatype Event<V> = Event(key: string, value: V)

  /** `m` with each event's value added unless its key is already there. */
  ghost function FirstWins<V>(m: map<string, V>, events: seq<Event<V>>): map<string, V> {
    if events == [] then m
    else
      var before := FirstWins(m, events[..|events| - 1]);
      var last := events[|events| - 1];
      if last.key in before then before else before[last.key := last.value]
  }

  lemma {:induction false} FirstWinsConcat<V>(m: map<string, V>, a: seq<Event<V>>, b: seq<Event<V>>)
    ensures FirstWins(m, a + b) == FirstWins(FirstWins(m, a), b)
  {
    if b == [] {
      assert a + b == a;
    } else {
      assert (a + b)[..|a + b| - 1] == a + b[..|b| - 1];
      FirstWinsConcat(m, a, b[..|b| - 1]);
    }
  }

  /** Every key of the events is kept, with the value of its first event. */
  lemma {:induction false} FirstWinsKeepsTheFirst<V>(events: seq<Event<V>>, i: nat)
    requires i < |events|
    requires forall j :: 0 <= j < i ==> events[j].key != events[i].key
    ensures var m := FirstWins(map[], events);
      events[i].key in m && m[events[i].key] == events[i].value
    decreases |events|
  {
    var n := |events| - 1;
    var front := events[..n];
    if i < n {
      FirstWinsKeepsTheFirst(front, i);
    } else {
      FirstWinsKeys<V>(front, events[n].key);
    }
  }

  lemma {:induction false} FirstWinsKeys<V>(events: seq<Event<V>>, key: string)
    ensures key in FirstWins(map[], events) <==> exists j :: 0 <= j < |events| && events[j].key == key
  {
    if events != [] {
      var n := |events| - 1;
      FirstWinsKeys<V>(events[..n], key);
      if j :| 0 <= j < n && events[j].key == key {
        assert events[..n][j].key == key;
      }
    }
  }

  ghost function CallsOf(owner: Owner, line: int, uses: seq<ToolUse>): seq<Event<LaunchCall>> {
    if uses == [] then []
    else
      var last := uses[|uses| - 1];
      CallsOf(owner, line, uses[..|uses| - 1])
      + (if last.toolUseId.Some? then [Event(last.toolUseId.value, LaunchCall(owner, line, last.name))] else [])
  }

  ghost function ResultOf(owner: Owner, parsed: TranscriptLine): seq<Event<NamingResult>> {
    if parsed.namedAgent.None? then []
    else
      [Event(parsed.namedAgent.value,
             NamingResult(owner, parsed.line, if parsed.toolResultIds == [] then None else parsed.toolResultIds[0]))]
  }

  ghost function LineCalls(owner: Owner, lines: seq<TranscriptLine>): seq<Event<LaunchCall>> {
    if lines == [] then []
    else
      var last := lines[|lines| - 1];
      LineCalls(owner, lines[..|lines| - 1]) + CallsOf(owner, last.line, last.toolUses)
  }

  ghost function LineResults(owner: Owner, lines: seq<TranscriptLine>): seq<Event<NamingResult>> {
    if lines == [] then []
    else LineResults(owner, lines[..|lines| - 1]) + ResultOf(owner, lines[|lines| - 1])
  }

  /** Every located tool use of every transcript, in reading order. */
  ghost function AllCalls(transcripts: seq<Transcript>): seq<Event<LaunchCall>> {
    if transcripts == [] then []
    else
      var last := transcripts[|transcripts| - 1];
      AllCalls(transcripts[..|transcripts| - 1]) + LineCalls(last.owner, last.lines)
  }

  /** Every result that names an agent, in reading order. */
  ghost function AllResults(transcripts: seq<Transcript>): seq<Event<NamingResult>> {
    if transcripts == [] then []
    else
      var last := transcripts[|transcripts| - 1];
      AllResults(transcripts[..|transcripts| - 1]) + LineResults(last.owner, last.lines)
  }

  ghost function IndexOf(transcripts: seq<Transcript>): LaunchIndex {
    LaunchIndex(FirstWins(map[], AllCalls(transcripts)), FirstWins(map[], AllResults(transcripts)))
  }

  lemma LineAdds(
    calls: map<string, LaunchCall>, results: map<string, NamingResult>,
    owner: Owner, lines: seq<TranscriptLine>, i: nat)
    requires i < |lines|
    ensures FirstWins(calls, LineCalls(owner, lines[..i + 1]))
         == FirstWins(FirstWins(calls, LineCalls(owner, lines[..i])), CallsOf(owner, lines[i].line, lines[i].toolUses))
    ensures FirstWins(results, LineResults(owner, lines[..i + 1]))
         == FirstWins(FirstWins(results, LineResults(owner, lines[..i])), ResultOf(owner, lines[i]))
  {
    assert lines[..i + 1][..i] == lines[..i];
    FirstWinsConcat(calls, LineCalls(owner, lines[..i]), CallsOf(owner, lines[i].line, lines[i].toolUses));
    FirstWinsConcat(results, LineResults(owner, lines[..i]), ResultOf(owner, lines[i]));
  }

  lemma UseAdds(calls: map<string, LaunchCall>, owner: Owner, line: int, uses: seq<ToolUse>, i: nat)
    requires i < |uses|
    ensures var before := FirstWins(calls, CallsOf(owner, line, uses[..i]));
      FirstWins(calls, CallsOf(owner, line, uses[..i + 1]))
        == if uses[i].toolUseId.Some? && uses[i].toolUseId.value !in before
           then before[uses[i].toolUseId.value := LaunchCall(owner, line, uses[i].name)] else before
  {
    assert uses[..i + 1][..i] == uses[..i];
    var before := CallsOf(owner, line, uses[..i]);
    if uses[i].toolUseId.Some? {
      var event := Event(uses[i].toolUseId.value, LaunchCall(owner, line, uses[i].name));
      assert (before + [event])[..|before|] == before;
    } else {
      assert before + [] == before;
    }
  }

  class LaunchIndexBuilder {
    var calls: map<string, LaunchCall>
    var results: map<string, NamingResult>

    constructor ()
      ensures calls == map[] && results == map[]
    {
      calls, results := map[], map[];
    }

    method AddTranscript(owner: Owner, lines: seq<TranscriptLine>)
      modifies this
      ensures calls == FirstWins(old(calls), LineCalls(owner, lines))
      ensures results == FirstWins(old(results), LineResults(owner, lines))
    {
      for i := 0 to |lines|
        invariant calls == FirstWins(old(calls), LineCalls(owner, lines[..i]))
        invariant results == FirstWins(old(results), LineResults(owner, lines[..i]))
      {
        LineAdds(old(calls), old(results), owner, lines, i);
        AddCalls(owner, lines[i]);
        AddResult(owner, lines[i]);
      }
      assert lines[..|lines|] == lines;
    }

    method AddCalls(owner: Owner, parsed: TranscriptLine)
      modifies this`calls
      ensures calls == FirstWins(old(calls), CallsOf(owner, parsed.line, parsed.toolUses))
    {
      var uses := parsed.toolUses;
      for i := 0 to |uses|
        invariant calls == FirstWins(old(calls), CallsOf(owner, parsed.line, uses[..i]))
      {
        UseAdds(old(calls), owner, parsed.line, uses, i);
        if uses[i].toolUseId.Some? && uses[i].toolUseId.value !in calls {
          calls := calls[uses[i].toolUseId.value := LaunchCall(owner, parsed.line, uses[i].name)];
        }
      }
      assert uses[..|uses|] == uses;
    }

    method AddResult(owner: Owner, parsed: TranscriptLine)
      modifies this`results
      ensures results == FirstWins(old(results), ResultOf(owner, parsed))
    {
      if parsed.namedAgent.Some? && parsed.namedAgent.value !in results {
        results := results[parsed.namedAgent.value :=
            NamingResult(owner, parsed.line, if parsed.toolResultIds == [] then None else parsed.toolResultIds[0])];
      }
    }
  }

  method BuildLaunchIndex(transcripts: seq<Transcript>) returns (index: LaunchIndex)
    ensures index == IndexOf(transcripts)
  {
    var builder := new LaunchIndexBuilder();
    for i := 0 to |transcripts|
      invariant builder.calls == FirstWins(map[], AllCalls(transcripts[..i]))
      invariant builder.results == FirstWins(map[], AllResults(transcripts[..i]))
    {
      var each := transcripts[i];
      FirstWinsConcat(map[], AllCalls(transcripts[..i]), LineCalls(each.owner, each.lines));
      FirstWinsConcat(map[], AllResults(transcripts[..i]), LineResults(each.owner, each.lines));
      assert transcripts[..i + 1][..i] == transcripts[..i];
      builder.AddTranscript(each.owner, each.lines);
    }
    assert transcripts[..|transcripts|] == transcripts;
    index := LaunchIndex(builder.calls, builder.results);
  }

  /** The call the agent's naming result answers, if its own call was located. */
  function AnsweredCall(agentId: string, index: LaunchIndex): Option<LaunchCall> {
    if agentId !in index.results then None
    else
      var id := index.results[agentId].toolUseId;
      if id.None? || id.value !in index.calls then None else Some(index.calls[id.value])
  }

  function LinkTo(owner: Owner, basis: LinkBasis): Parent {
    if owner.Root? then RootParent(basis) else AgentParent(owner.id, basis)
  }

  function ParentFor(agentId: string, meta: AgentMeta, index: LaunchIndex): AgentLink {
    var result := if agentId in index.results then Some(index.results[agentId]) else None;
    var launch := if result.None? then None else Some(Launch(result.value.owner, result.value.line));
    var answered := AnsweredCall(agentId, index);
    if meta.parentAgentId.Some? then
      AgentLink(
        AgentParent(meta.parentAgentId.value, ParentAgentIdBasis),
        launch,
        if answered.Some? && answered.value.owner == Agent(meta.parentAgentId.value)
        then Some(answered.value.line) else None)
    else if meta.toolUseId.Some? && meta.toolUseId.value in index.calls then
      var call := index.calls[meta.toolUseId.value];
      AgentLink(LinkTo(call.owner, LaunchCallBasis), Some(Launch(call.owner, call.line)), Some(call.line))
    else if result.None? then
      AgentLink(Unlinked, None, None)
    else
      AgentLink(
        LinkTo(result.value.owner,
               if answered.Some? && answered.value.name == "Skill" then SkillResultBasis else AgentResultBasis),
        launch,
        if answered.Some? then Some(answered.value.line) else None)
  }

  ghost function ParentOwner(parent: Parent): Option<Owner> {
    match parent
    case RootParent(_) => Some(Root)
    case AgentParent(id, _) => Some(Agent(id))
    case Unlinked => None
  }

  /** The call line, when there is one, is the line of this call, made by the agent's parent. */
  ghost predicate CallLineFrom(link: AgentLink, call: LaunchCall) {
    link.callLine == Some(call.line) && ParentOwner(link.parent) == Some(call.owner)
  }

  // ---- whose transcript the call line is from

  /** A row of the transcript holds the tool use. */
  predicate Locates(t: Transcript, useId: string) {
    exists row :: row in t.lines && exists use :: use in row.toolUses && use.toolUseId == Some(useId)
  }

  /** A row of the transcript holds a result that names the agent. */
  predicate Names(t: Transcript, agentId: string) {
    exists row :: row in t.lines && row.namedAgent == Some(agentId)
  }

  /** The place of the first transcript that locates the tool use, in reading order. */
  function FirstLocating(transcripts: seq<Transcript>, useId: string): Option<nat> {
    if transcripts == [] then None
    else
      var before := FirstLocating(transcripts[..|transcripts| - 1], useId);
      if before.Some? then before
      else if Locates(transcripts[|transcripts| - 1], useId) then Some(|transcripts| - 1)
      else None
  }

  /** The place of the first transcript that names the agent, in reading order. */
  function FirstNaming(transcripts: seq<Transcript>, agentId: string): Option<nat> {
    if transcripts == [] then None
    else
      var before := FirstNaming(transcripts[..|transcripts| - 1], agentId);
      if before.Some? then before
      else if Names(transcripts[|transcripts| - 1], agentId) then Some(|transcripts| - 1)
      else None
  }

  ghost predicate OwnersDistinct(transcripts: seq<Transcript>) {
    forall i, j :: 0 <= i < j < |transcripts| ==> transcripts[i].owner != transcripts[j].owner
  }

  ghost predicate HasKey<V>(events: seq<Event<V>>, key: string) {
    exists i :: 0 <= i < |events| && events[i].key == key
  }

  lemma HasKeyConcat<V>(a: seq<Event<V>>, b: seq<Event<V>>, key: string)
    ensures HasKey(a + b, key) <==> HasKey(a, key) || HasKey(b, key)
  {
    if i :| 0 <= i < |a| && a[i].key == key {
      assert (a + b)[i].key == key;
    }
    if i :| 0 <= i < |b| && b[i].key == key {
      assert (a + b)[|a| + i].key == key;
    }
    if i :| 0 <= i < |a + b| && (a + b)[i].key == key {
      assert if i < |a| then a[i].key == key else b[i - |a|].key == key;
    }
  }

  /** What later events add does not touch a key, and a new key gets its first value there. */
  lemma {:induction false} FirstWinsFrom<V>(m: map<string, V>, events: seq<Event<V>>, key: string)
    ensures key in FirstWins(m, events) <==> key in m || HasKey(events, key)
    ensures key in m ==> FirstWins(m, events)[key] == m[key]
    ensures key !in m && HasKey(events, key) ==> exists e :: e in events && e.key == key && FirstWins(m, events)[key] == e.value
  {
    if events != [] {
      var n := |events| - 1;
      FirstWinsFrom(m, events[..n], key);
      HasKeyConcat(events[..n], [events[n]], key);
      assert events == events[..n] + [events[n]];
      assert HasKey([events[n]], key) <==> events[n].key == key by {
        if events[n].key == key {
          assert [events[n]][0].key == key;
        }
      }
    }
  }

  lemma {:induction false} CallsOfUses(owner: Owner, line: int, uses: seq<ToolUse>, useId: string)
    ensures HasKey(CallsOf(owner, line, uses), useId) <==> exists use :: use in uses && use.toolUseId == Some(useId)
    ensures forall e :: e in CallsOf(owner, line, uses) ==> e.value.owner == owner
  {
    if uses != [] {
      var n := |uses| - 1;
      var last := if uses[n].toolUseId.Some?
        then [Event(uses[n].toolUseId.value, LaunchCall(owner, line, uses[n].name))] else [];
      CallsOfUses(owner, line, uses[..n], useId);
      HasKeyConcat(CallsOf(owner, line, uses[..n]), last, useId);
      assert uses == uses[..n] + [uses[n]];
      assert HasKey(last, useId) <==> uses[n].toolUseId == Some(useId) by {
        if uses[n].toolUseId == Some(useId) {
          assert last[0].key == useId;
        }
      }
    }
  }

  lemma {:induction false} LineCallsLocate(owner: Owner, lines: seq<TranscriptLine>, useId: string)
    ensures HasKey(LineCalls(owner, lines), useId) <==> Locates(Transcript(owner, lines), useId)
    ensures forall e :: e in LineCalls(owner, lines) ==> e.value.owner == owner
  {
    if lines != [] {
      var n := |lines| - 1;
      LineCallsLocate(owner, lines[..n], useId);
      CallsOfUses(owner, lines[n].line, lines[n].toolUses, useId);
      HasKeyConcat(LineCalls(owner, lines[..n]), CallsOf(owner, lines[n].line, lines[n].toolUses), useId);
      assert lines == lines[..n] + [lines[n]];
      assert forall row :: row in lines <==> row in lines[..n] || row == lines[n];
    }
  }

  lemma {:induction false} LineResultsName(owner: Owner, lines: seq<TranscriptLine>, agentId: string)
    ensures HasKey(LineResults(owner, lines), agentId) <==> Names(Transcript(owner, lines), agentId)
    ensures forall e :: e in LineResults(owner, lines) ==> e.value.owner == owner
  {
    if lines != [] {
      var n := |lines| - 1;
      LineResultsName(owner, lines[..n], agentId);
      HasKeyConcat(LineResults(owner, lines[..n]), ResultOf(owner, lines[n]), agentId);
      assert lines == lines[..n] + [lines[n]];
      assert forall row :: row in lines <==> row in lines[..n] || row == lines[n];
      assert HasKey(ResultOf(owner, lines[n]), agentId) <==> lines[n].namedAgent == Some(agentId) by {
        if lines[n].namedAgent == Some(agentId) {
          assert ResultOf(owner, lines[n])[0].key == agentId;
        }
      }
    }
  }

  /** A located call is from the first transcript that locates its tool use. */
  lemma {:induction false} CallFromFirst(transcripts: seq<Transcript>, useId: string)
    ensures var first := FirstLocating(transcripts, useId);
      && (useId in IndexOf(transcripts).calls <==> first.Some?)
      && (first.Some? ==>
            && first.value < |transcripts|
            && IndexOf(transcripts).calls[useId].owner == transcripts[first.value].owner)
  {
    if transcripts != [] {
      var n := |transcripts| - 1;
      var last := transcripts[n];
      CallFromFirst(transcripts[..n], useId);
      FirstWinsConcat(map[], AllCalls(transcripts[..n]), LineCalls(last.owner, last.lines));
      FirstWinsFrom(FirstWins(map[], AllCalls(transcripts[..n])), LineCalls(last.owner, last.lines), useId);
      LineCallsLocate(last.owner, last.lines, useId);
    }
  }

  /** A naming result is from the first transcript that names its agent. */
  lemma {:induction false} ResultFromFirst(transcripts: seq<Transcript>, agentId: string)
    ensures var first := FirstNaming(transcripts, agentId);
      && (agentId in IndexOf(transcripts).results <==> first.Some?)
      && (first.Some? ==>
            && first.value < |transcripts|
            && IndexOf(transcripts).results[agentId].owner == transcripts[first.value].owner)
  {
    if transcripts != [] {
      var n := |transcripts| - 1;
      var last := transcripts[n];
      ResultFromFirst(transcripts[..n], agentId);
      FirstWinsConcat(map[], AllResults(transcripts[..n]), LineResults(last.owner, last.lines));
      FirstWinsFrom(FirstWins(map[], AllResults(transcripts[..n])), LineResults(last.owner, last.lines), agentId);
      LineResultsName(last.owner, last.lines, agentId);
    }
  }

  lemma LinkByTheResult(agentId: string, meta: AgentMeta, index: LaunchIndex)
    requires meta.parentAgentId.None? && (meta.toolUseId.Some? ==> meta.toolUseId.value !in index.calls)
    requires ParentFor(agentId, meta, index).callLine.Some?
    ensures AnsweredCall(agentId, index).Some? && agentId in index.results
    ensures CallLineFrom(ParentFor(agentId, meta, index), AnsweredCall(agentId, index).value) <==>
      index.results[agentId].owner == AnsweredCall(agentId, index).value.owner
  {
  }

  /** The call a recorded call line is the line of: the one its metadata names, or the one its result answers. */
  function RecordedCall(agentId: string, meta: AgentMeta, index: LaunchIndex): Option<LaunchCall> {
    if meta.parentAgentId.None? && meta.toolUseId.Some? && meta.toolUseId.value in index.calls
    then Some(index.calls[meta.toolUseId.value]) else AnsweredCall(agentId, index)
  }

  /**
   * A recorded call line is the line of a call the parent made when the metadata decides the
   * parent. When it does not, it is exactly when the first transcript to locate the answered tool
   * use is the first to name the agent.
   */
  lemma CallLineIsTheParents(agentId: string, meta: AgentMeta, transcripts: seq<Transcript>)
    requires OwnersDistinct(transcripts)
    requires ParentFor(agentId, meta, IndexOf(transcripts)).callLine.Some?
    ensures var index := IndexOf(transcripts);
      var link, call := ParentFor(agentId, meta, index), RecordedCall(agentId, meta, index);
      && call.Some?
      && if meta.parentAgentId.Some? || (meta.toolUseId.Some? && FirstLocating(transcripts, meta.toolUseId.value).Some?)
         then CallLineFrom(link, call.value)
         else
           && agentId in index.results && index.results[agentId].toolUseId.Some?
           && (CallLineFrom(link, call.value) <==>
                 FirstLocating(transcripts, index.results[agentId].toolUseId.value) == FirstNaming(transcripts, agentId))
  {
    hide IndexOf, FirstLocating, FirstNaming;
    var index := IndexOf(transcripts);
    if meta.toolUseId.Some? {
      CallFromFirst(transcripts, meta.toolUseId.value);
    }
    if meta.parentAgentId.None? && (meta.toolUseId.Some? ==> meta.toolUseId.value !in index.calls) {
      LinkByTheResult(agentId, meta, index);
      ResultFromFirst(transcripts, agentId);
      CallFromFirst(transcripts, index.results[agentId].toolUseId.value);
    }
  }

  // ---- links, read off the rows

  function HoldsUse(useId: string): TranscriptLine -> bool {
    (row: TranscriptLine) => exists use :: use in row.toolUses && use.toolUseId == Some(useId)
  }

  function NamesAgent(agentId: string): TranscriptLine -> bool {
    (row: TranscriptLine) => row.namedAgent == Some(agentId)
  }

  ghost predicate FirstIn(lines: seq<TranscriptLine>, holds: TranscriptLine -> bool, r: int) {
    0 <= r < |lines| && holds(lines[r]) && forall s :: 0 <= s < r ==> !holds(lines[s])
  }

  /** Row `r` of transcript `t` is the first of its kind, in reading order. */
  ghost predicate FirstRow(transcripts: seq<Transcript>, holds: TranscriptLine -> bool, t: int, r: int) {
    && 0 <= t < |transcripts| && FirstIn(transcripts[t].lines, holds, r)
    && forall u, s :: 0 <= u < t && 0 <= s < |transcripts[u].lines| ==> !holds(transcripts[u].lines[s])
  }

  ghost predicate IsFirstUse(uses: seq<ToolUse>, useId: string, k: int) {
    0 <= k < |uses| && uses[k].toolUseId == Some(useId) && forall j :: 0 <= j < k ==> uses[j].toolUseId != Some(useId)
  }

  /** The call the row makes under the id: its first use that has it. */
  ghost predicate CallOfRow(call: LaunchCall, owner: Owner, row: TranscriptLine, useId: string) {
    call.owner == owner && call.line == row.line
    && exists k :: IsFirstUse(row.toolUses, useId, k) && row.toolUses[k].name == call.name
  }

  lemma FirstWinsKept<V>(m: map<string, V>, a: seq<Event<V>>, b: seq<Event<V>>, key: string)
    requires key in FirstWins(m, a)
    ensures key in FirstWins(m, a + b) && FirstWins(m, a + b)[key] == FirstWins(m, a)[key]
  {
    FirstWinsConcat(m, a, b);
    FirstWinsFrom(FirstWins(m, a), b, key);
  }

  lemma FirstWinsLater<V>(m: map<string, V>, a: seq<Event<V>>, b: seq<Event<V>>, key: string)
    requires key !in m && !HasKey(a, key)
    ensures key !in FirstWins(m, a) && FirstWins(m, a + b) == FirstWins(FirstWins(m, a), b)
  {
    FirstWinsConcat(m, a, b);
    FirstWinsFrom(m, a, key);
  }

  lemma {:induction false} UsesGive(
    m: map<string, LaunchCall>, owner: Owner, line: int, uses: seq<ToolUse>, useId: string, k: int)
    requires useId !in m && IsFirstUse(uses, useId, k)
    ensures var calls := FirstWins(m, CallsOf(owner, line, uses));
      useId in calls && calls[useId] == LaunchCall(owner, line, uses[k].name)
  {
    var n := |uses| - 1;
    var front := CallsOf(owner, line, uses[..n]);
    var last := if uses[n].toolUseId.Some? then [Event(uses[n].toolUseId.value, LaunchCall(owner, line, uses[n].name))] else [];
    if k < n {
      UsesGive(m, owner, line, uses[..n], useId, k);
      FirstWinsKept(m, front, last, useId);
    } else {
      CallsOfUses(owner, line, uses[..n], useId);
      assert !HasKey(front, useId);
      FirstWinsLater(m, front, last, useId);
      assert last[..0] == [];
    }
  }

  lemma NoneBefore(lines: seq<TranscriptLine>, holds: TranscriptLine -> bool, n: int)
    requires 0 <= n <= |lines| && forall s :: 0 <= s < n ==> !holds(lines[s])
    ensures forall row :: row in lines[..n] ==> !holds(row)
  {
  }

  lemma {:induction false} LinesGiveCall(
    m: map<string, LaunchCall>, owner: Owner, lines: seq<TranscriptLine>, useId: string, r: int)
    requires useId !in m && FirstIn(lines, HoldsUse(useId), r)
    ensures var calls := FirstWins(m, LineCalls(owner, lines));
      useId in calls && CallOfRow(calls[useId], owner, lines[r], useId)
  {
    var n := |lines| - 1;
    var front, last := LineCalls(owner, lines[..n]), CallsOf(owner, lines[n].line, lines[n].toolUses);
    if r < n {
      LinesGiveCall(m, owner, lines[..n], useId, r);
      FirstWinsKept(m, front, last, useId);
    } else {
      NoneBefore(lines, HoldsUse(useId), n);
      LineCallsLocate(owner, lines[..n], useId);
      FirstWinsLater(m, front, last, useId);
      var k := FirstUseOf(lines[n].toolUses, useId);
      UsesGive(FirstWins(m, front), owner, lines[n].line, lines[n].toolUses, useId, k);
    }
  }

  lemma {:induction false} FirstUseOf(uses: seq<ToolUse>, useId: string) returns (k: int)
    requires exists use :: use in uses && use.toolUseId == Some(useId)
    ensures IsFirstUse(uses, useId, k)
  {
    if uses[0].toolUseId == Some(useId) {
      k := 0;
    } else {
      k := FirstUseOf(uses[1..], useId);
      k := k + 1;
    }
  }

  ghost predicate ResultOfRow(result: NamingResult, owner: Owner, row: TranscriptLine) {
    && result.owner == owner && result.line == row.line
    && (row.toolResultIds == [] ==> result.toolUseId == None)
    && (row.toolResultIds != [] ==> result.toolUseId == row.toolResultIds[0])
  }

  lemma {:induction false} LinesGiveResult(
    m: map<string, NamingResult>, owner: Owner, lines: seq<TranscriptLine>, agentId: string, r: int)
    requires agentId !in m && FirstIn(lines, NamesAgent(agentId), r)
    ensures var results := FirstWins(m, LineResults(owner, lines));
      agentId in results && ResultOfRow(results[agentId], owner, lines[r])
  {
    var n := |lines| - 1;
    var front, last := LineResults(owner, lines[..n]), ResultOf(owner, lines[n]);
    if r < n {
      LinesGiveResult(m, owner, lines[..n], agentId, r);
      FirstWinsKept(m, front, last, agentId);
    } else {
      NoneBefore(lines, NamesAgent(agentId), n);
      LineResultsName(owner, lines[..n], agentId);
      FirstWinsLater(m, front, last, agentId);
      assert last[..0] == [];
    }
  }

  /** A located call is that of the first row that holds its tool use. */
  lemma {:induction false} CallOfFirstRow(transcripts: seq<Transcript>, useId: string, t: int, r: int)
    requires FirstRow(transcripts, HoldsUse(useId), t, r)
    ensures useId in IndexOf(transcripts).calls
    ensures CallOfRow(IndexOf(transcripts).calls[useId], transcripts[t].owner, transcripts[t].lines[r], useId)
  {
    var n := |transcripts| - 1;
    var front, last := transcripts[..n], transcripts[n];
    var before, own := AllCalls(front), LineCalls(last.owner, last.lines);
    if t < n {
      assert FirstRow(front, HoldsUse(useId), t, r);
      CallOfFirstRow(front, useId, t, r);
      FirstWinsKept(map[], before, own, useId);
    } else {
      AbsentBefore(transcripts, useId, n);
      FirstWinsLater(map[], before, own, useId);
      LinesGiveCall(FirstWins(map[], before), last.owner, last.lines, useId, r);
    }
  }

  lemma {:induction false} AbsentBefore(transcripts: seq<Transcript>, useId: string, n: nat)
    requires n <= |transcripts|
    requires forall u, s :: 0 <= u < n && 0 <= s < |transcripts[u].lines| ==> !HoldsUse(useId)(transcripts[u].lines[s])
    ensures !HasKey(AllCalls(transcripts[..n]), useId)
  {
    if n > 0 {
      var last := transcripts[n - 1];
      AbsentBefore(transcripts, useId, n - 1);
      assert transcripts[..n][..n - 1] == transcripts[..n - 1];
      NoneBefore(last.lines, HoldsUse(useId), |last.lines|);
      assert last.lines[..|last.lines|] == last.lines;
      LineCallsLocate(last.owner, last.lines, useId);
      HasKeyConcat(AllCalls(transcripts[..n - 1]), LineCalls(last.owner, last.lines), useId);
    }
  }

  /** A naming result is that of the first row that names its agent. */
  lemma {:induction false} ResultOfFirstRow(transcripts: seq<Transcript>, agentId: string, t: int, r: int)
    requires FirstRow(transcripts, NamesAgent(agentId), t, r)
    ensures agentId in IndexOf(transcripts).results
    ensures ResultOfRow(IndexOf(transcripts).results[agentId], transcripts[t].owner, transcripts[t].lines[r])
  {
    var n := |transcripts| - 1;
    var front, last := transcripts[..n], transcripts[n];
    var before, own := AllResults(front), LineResults(last.owner, last.lines);
    if t < n {
      assert FirstRow(front, NamesAgent(agentId), t, r);
      ResultOfFirstRow(front, agentId, t, r);
      FirstWinsKept(map[], before, own, agentId);
    } else {
      UnnamedBefore(transcripts, agentId, n);
      FirstWinsLater(map[], before, own, agentId);
      LinesGiveResult(FirstWins(map[], before), last.owner, last.lines, agentId, r);
    }
  }

  lemma {:induction false} UnnamedBefore(transcripts: seq<Transcript>, agentId: string, n: nat)
    requires n <= |transcripts|
    requires forall u, s :: 0 <= u < n && 0 <= s < |transcripts[u].lines| ==> !NamesAgent(agentId)(transcripts[u].lines[s])
    ensures !HasKey(AllResults(transcripts[..n]), agentId)
  {
    if n > 0 {
      var last := transcripts[n - 1];
      UnnamedBefore(transcripts, agentId, n - 1);
      assert transcripts[..n][..n - 1] == transcripts[..n - 1];
      NoneBefore(last.lines, NamesAgent(agentId), |last.lines|);
      assert last.lines[..|last.lines|] == last.lines;
      LineResultsName(last.owner, last.lines, agentId);
      HasKeyConcat(AllResults(transcripts[..n - 1]), LineResults(last.owner, last.lines), agentId);
    }
  }

  lemma {:induction false} FirstInExists(lines: seq<TranscriptLine>, holds: TranscriptLine -> bool, s: int) returns (r: int)
    requires 0 <= s < |lines| && holds(lines[s])
    ensures FirstIn(lines, holds, r)
  {
    r := 0;
    while !holds(lines[r])
      invariant 0 <= r <= s && forall j :: 0 <= j < r ==> !holds(lines[j])
      decreases s - r
    {
      r := r + 1;
    }
  }

  /** What some row holds, a first row holds. */
  lemma {:induction false} FirstRowExists(transcripts: seq<Transcript>, holds: TranscriptLine -> bool, u: int, s: int)
    returns (t: int, r: int)
    requires 0 <= u < |transcripts| && 0 <= s < |transcripts[u].lines| && holds(transcripts[u].lines[s])
    ensures FirstRow(transcripts, holds, t, r)
  {
    t := 0;
    while forall j :: 0 <= j < |transcripts[t].lines| ==> !holds(transcripts[t].lines[j])
      invariant 0 <= t <= u
      invariant forall v, j :: 0 <= v < t && 0 <= j < |transcripts[v].lines| ==> !holds(transcripts[v].lines[j])
      decreases u - t
    {
      t := t + 1;
    }
    var j :| 0 <= j < |transcripts[t].lines| && holds(transcripts[t].lines[j]);
    r := FirstInExists(transcripts[t].lines, holds, j);
  }

  /** A tool use is located exactly when a first row holds it. */
  lemma LocatedExactlyWhen(transcripts: seq<Transcript>, useId: string)
    ensures useId in IndexOf(transcripts).calls <==> exists t, r :: FirstRow(transcripts, HoldsUse(useId), t, r)
  {
    if useId in IndexOf(transcripts).calls {
      FirstWinsFrom(map[], AllCalls(transcripts), useId);
      assert transcripts[..|transcripts|] == transcripts;
      if forall u, s :: 0 <= u < |transcripts| && 0 <= s < |transcripts[u].lines| ==> !HoldsUse(useId)(transcripts[u].lines[s]) {
        AbsentBefore(transcripts, useId, |transcripts|);
      }
      var u, s :| 0 <= u < |transcripts| && 0 <= s < |transcripts[u].lines| && HoldsUse(useId)(transcripts[u].lines[s]);
      var t, r := FirstRowExists(transcripts, HoldsUse(useId), u, s);
    }
    if t, r :| FirstRow(transcripts, HoldsUse(useId), t, r) {
      CallOfFirstRow(transcripts, useId, t, r);
    }
  }

  /** An agent has a naming result exactly when a first row names it. */
  lemma NamedExactlyWhen(transcripts: seq<Transcript>, agentId: string)
    ensures agentId in IndexOf(transcripts).results <==> exists t, r :: FirstRow(transcripts, NamesAgent(agentId), t, r)
  {
    if agentId in IndexOf(transcripts).results {
      FirstWinsFrom(map[], AllResults(transcripts), agentId);
      assert transcripts[..|transcripts|] == transcripts;
      if forall u, s :: 0 <= u < |transcripts| && 0 <= s < |transcripts[u].lines| ==> !NamesAgent(agentId)(transcripts[u].lines[s]) {
        UnnamedBefore(transcripts, agentId, |transcripts|);
      }
      var u, s :| 0 <= u < |transcripts| && 0 <= s < |transcripts[u].lines| && NamesAgent(agentId)(transcripts[u].lines[s]);
      var t, r := FirstRowExists(transcripts, NamesAgent(agentId), u, s);
    }
    if t, r :| FirstRow(transcripts, NamesAgent(agentId), t, r) {
      ResultOfFirstRow(transcripts, agentId, t, r);
    }
  }

  /** The agent's metadata names a tool use that is located, and no parent. */
  ghost predicate ByToolUse(meta: AgentMeta, transcripts: seq<Transcript>) {
    && meta.parentAgentId.None? && meta.toolUseId.Some?
    && exists t, r :: FirstRow(transcripts, HoldsUse(meta.toolUseId.value), t, r)
  }

  /**
   * Row `r` of transcript `t` launched the agent: it is the first to hold the tool use its
   * metadata names, where that decides, and otherwise the first to name the agent.
   */
  ghost predicate LaunchedAt(agentId: string, meta: AgentMeta, transcripts: seq<Transcript>, t: int, r: int) {
    if ByToolUse(meta, transcripts) then FirstRow(transcripts, HoldsUse(meta.toolUseId.value), t, r)
    else FirstRow(transcripts, NamesAgent(agentId), t, r)
  }

  /** The launch recorded for an agent is the row that launched it, if there is one. */
  lemma LaunchIsTheRow(agentId: string, meta: AgentMeta, transcripts: seq<Transcript>)
    ensures var launch := ParentFor(agentId, meta, IndexOf(transcripts)).launch;
      && (launch.Some? <==> exists t, r :: LaunchedAt(agentId, meta, transcripts, t, r))
      && forall t, r :: LaunchedAt(agentId, meta, transcripts, t, r) ==>
           launch == Some(Launch(transcripts[t].owner, transcripts[t].lines[r].line))
  {
    hide IndexOf, FirstRow, AnsweredCall;
    NamedExactlyWhen(transcripts, agentId);
    if meta.toolUseId.Some? {
      LocatedExactlyWhen(transcripts, meta.toolUseId.value);
    }
    if ByToolUse(meta, transcripts) {
      var t, r :| FirstRow(transcripts, HoldsUse(meta.toolUseId.value), t, r);
      assert LaunchedAt(agentId, meta, transcripts, t, r);
    } else if t, r :| FirstRow(transcripts, NamesAgent(agentId), t, r) {
      assert LaunchedAt(agentId, meta, transcripts, t, r);
    }
    forall t, r | LaunchedAt(agentId, meta, transcripts, t, r)
      ensures 0 <= t < |transcripts| && 0 <= r < |transcripts[t].lines|
      ensures ParentFor(agentId, meta, IndexOf(transcripts)).launch
           == Some(Launch(transcripts[t].owner, transcripts[t].lines[r].line))
    {
      if ByToolUse(meta, transcripts) {
        InRange(transcripts, HoldsUse(meta.toolUseId.value), t, r);
        CallOfFirstRow(transcripts, meta.toolUseId.value, t, r);
      } else {
        InRange(transcripts, NamesAgent(agentId), t, r);
        ResultOfFirstRow(transcripts, agentId, t, r);
      }
    }
  }

  lemma InRange(transcripts: seq<Transcript>, holds: TranscriptLine -> bool, t: int, r: int)
    requires FirstRow(transcripts, holds, t, r)
    ensures 0 <= t < |transcripts| && 0 <= r < |transcripts[t].lines|
  {
  }

  /** The tool use that the first row naming the agent answers. */
  ghost predicate Answers(agentId: string, transcripts: seq<Transcript>, useId: string) {
    exists u, s :: FirstRow(transcripts, NamesAgent(agentId), u, s)
      && transcripts[u].lines[s].toolResultIds != [] && transcripts[u].lines[s].toolResultIds[0] == Some(useId)
  }

  /** Row `r` of transcript `t` is the first to hold that tool use. */
  ghost predicate AnsweredAt(agentId: string, transcripts: seq<Transcript>, useId: string, t: int, r: int) {
    Answers(agentId, transcripts, useId) && FirstRow(transcripts, HoldsUse(useId), t, r)
  }

  lemma AnswersMeans(agentId: string, transcripts: seq<Transcript>, useId: string)
    ensures Answers(agentId, transcripts, useId) <==>
      agentId in IndexOf(transcripts).results && IndexOf(transcripts).results[agentId].toolUseId == Some(useId)
  {
    hide IndexOf, FirstRow;
    NamedExactlyWhen(transcripts, agentId);
    forall u, s | FirstRow(transcripts, NamesAgent(agentId), u, s)
      ensures 0 <= u < |transcripts| && 0 <= s < |transcripts[u].lines|
      ensures ResultOfRow(IndexOf(transcripts).results[agentId], transcripts[u].owner, transcripts[u].lines[s])
    {
      InRange(transcripts, NamesAgent(agentId), u, s);
      ResultOfFirstRow(transcripts, agentId, u, s);
    }
  }

  /** The answered call is the call its first row makes. */
  lemma AnsweredCallMeans(agentId: string, transcripts: seq<Transcript>)
    ensures var answered := AnsweredCall(agentId, IndexOf(transcripts));
      && (answered.Some? <==> exists useId, t, r :: AnsweredAt(agentId, transcripts, useId, t, r))
      && forall useId, t, r :: AnsweredAt(agentId, transcripts, useId, t, r) ==>
           answered.Some? && CallOfRow(answered.value, transcripts[t].owner, transcripts[t].lines[r], useId)
  {
    hide IndexOf, FirstRow, Answers, CallOfRow;
    var index := IndexOf(transcripts);
    forall useId, t, r | AnsweredAt(agentId, transcripts, useId, t, r)
      ensures 0 <= t < |transcripts| && 0 <= r < |transcripts[t].lines|
      ensures AnsweredCall(agentId, index).Some?
        && CallOfRow(AnsweredCall(agentId, index).value, transcripts[t].owner, transcripts[t].lines[r], useId)
    {
      InRange(transcripts, HoldsUse(useId), t, r);
      AnswersMeans(agentId, transcripts, useId);
      CallOfFirstRow(transcripts, useId, t, r);
    }
    if AnsweredCall(agentId, index).Some? {
      var useId := index.results[agentId].toolUseId.value;
      AnswersMeans(agentId, transcripts, useId);
      LocatedExactlyWhen(transcripts, useId);
      var t, r :| FirstRow(transcripts, HoldsUse(useId), t, r);
      assert AnsweredAt(agentId, transcripts, useId, t, r);
    }
  }

  /** Without a recorded parent, the parent is the owner of the recorded launch. */
  lemma ParentOwnsTheLaunch(agentId: string, meta: AgentMeta, index: LaunchIndex)
    requires meta.parentAgentId.None?
    ensures var link := ParentFor(agentId, meta, index);
      && (link.parent.Unlinked? <==> link.launch.None?)
      && (link.launch.Some? ==> ParentOwner(link.parent) == Some(link.launch.value.owner))
  {
    hide AnsweredCall;
  }

  /** How the parent is known. */
  ghost function BasisOf(agentId: string, meta: AgentMeta, transcripts: seq<Transcript>): LinkBasis {
    var answered := AnsweredCall(agentId, IndexOf(transcripts));
    if ByToolUse(meta, transcripts) then LaunchCallBasis
    else if answered.Some? && answered.value.name == "Skill" then SkillResultBasis
    else AgentResultBasis
  }

  lemma BasisTells(agentId: string, meta: AgentMeta, transcripts: seq<Transcript>)
    requires meta.parentAgentId.None?
    ensures var parent := ParentFor(agentId, meta, IndexOf(transcripts)).parent;
      !parent.Unlinked? ==> parent.basis == BasisOf(agentId, meta, transcripts)
  {
    if meta.toolUseId.Some? {
      LocatedExactlyWhen(transcripts, meta.toolUseId.value);
    }
    hide IndexOf, FirstRow, AnsweredCall;
  }

  /**
   * An agent's parent is the one its metadata names, or the owner of the row that launched it;
   * the basis says which it was, and whether a Skill call was answered.
   */
  lemma ParentIsTheLauncher(agentId: string, meta: AgentMeta, transcripts: seq<Transcript>)
    ensures var parent := ParentFor(agentId, meta, IndexOf(transcripts)).parent;
      && (meta.parentAgentId.Some? ==> parent == AgentParent(meta.parentAgentId.value, ParentAgentIdBasis))
      && (meta.parentAgentId.None? ==>
            && (parent.Unlinked? <==> !exists t, r :: LaunchedAt(agentId, meta, transcripts, t, r))
            && (forall t, r :: LaunchedAt(agentId, meta, transcripts, t, r) ==> ParentOwner(parent) == Some(transcripts[t].owner))
            && (!parent.Unlinked? ==> parent.basis == BasisOf(agentId, meta, transcripts)))
  {
    LaunchIsTheRow(agentId, meta, transcripts);
    if meta.parentAgentId.None? {
      ParentOwnsTheLaunch(agentId, meta, IndexOf(transcripts));
      BasisTells(agentId, meta, transcripts);
      hide ParentFor;
    }
    hide IndexOf, FirstRow, BasisOf, LaunchedAt;
  }

  /**
   * The call line is the line of the row that launched the agent by a tool use, or else of the
   * call its naming result answers, unless the metadata names a parent that did not make that call.
   */
  lemma CallLineIsTheRow(agentId: string, meta: AgentMeta, transcripts: seq<Transcript>)
    ensures var callLine := ParentFor(agentId, meta, IndexOf(transcripts)).callLine;
      if ByToolUse(meta, transcripts) then
        forall t, r :: LaunchedAt(agentId, meta, transcripts, t, r) ==> callLine == Some(transcripts[t].lines[r].line)
      else
        && ((forall useId, t, r :: !AnsweredAt(agentId, transcripts, useId, t, r)) ==> callLine == None)
        && forall useId, t, r :: AnsweredAt(agentId, transcripts, useId, t, r) ==>
             callLine
             == if meta.parentAgentId.None? || transcripts[t].owner == Agent(meta.parentAgentId.value)
                then Some(transcripts[t].lines[r].line) else None
  {
    LaunchIsTheRow(agentId, meta, transcripts);
    AnsweredCallMeans(agentId, transcripts);
    NamedExactlyWhen(transcripts, agentId);
    if meta.toolUseId.Some? {
      LocatedExactlyWhen(transcripts, meta.toolUseId.value);
    }
    hide IndexOf, FirstRow, LaunchedAt, AnsweredAt;
  }

  lemma OneUse(owner: Owner, line: int, name: string, useId: string)
    ensures CallsOf(owner, line, [ToolUse(name, Some(useId))]) == [Event(useId, LaunchCall(owner, line, name))]
    ensures CallsOf(owner, line, []) == []
  {
    assert [ToolUse(name, Some(useId))][..0] == [];
  }

  lemma RowsSnoc(owner: Owner, front: seq<TranscriptLine>, row: TranscriptLine)
    ensures LineCalls(owner, front + [row]) == LineCalls(owner, front) + CallsOf(owner, row.line, row.toolUses)
    ensures LineResults(owner, front + [row]) == LineResults(owner, front) + ResultOf(owner, row)
  {
    assert (front + [row])[..|front|] == front;
  }

  lemma TranscriptsSnoc(front: seq<Transcript>, last: Transcript)
    ensures AllCalls(front + [last]) == AllCalls(front) + LineCalls(last.owner, last.lines)
    ensures AllResults(front + [last]) == AllResults(front) + LineResults(last.owner, last.lines)
  {
    assert (front + [last])[..|front|] == front;
  }

  lemma OneEvent<V>(event: Event<V>)
    ensures FirstWins(map[], [event]) == map[event.key := event.value]
  {
    assert [event][..0] == [];
  }

  /** The root's fourth row makes the call "t"; agent b's ninth row answers it and names agent a. */
  ghost function AnsweredElsewhere(): seq<Transcript> {
    [Transcript(Root, [TranscriptLine(4, None, [ToolUse("Agent", Some("t"))], [], None, None, [], None)]),
     Transcript(Agent("b"), [TranscriptLine(9, None, [], [Some("t")], Some("a"), None, [], None)])]
  }

  lemma OneRowTranscript(owner: Owner, row: TranscriptLine)
    ensures LineCalls(owner, [row]) == CallsOf(owner, row.line, row.toolUses)
    ensures LineResults(owner, [row]) == ResultOf(owner, row)
  {
    assert [row][..0] == [];
  }

  lemma OneTranscript(a: Transcript)
    ensures AllCalls([a]) == LineCalls(a.owner, a.lines)
    ensures AllResults([a]) == LineResults(a.owner, a.lines)
  {
    assert [a][..0] == [];
    hide LineCalls, LineResults;
  }

  lemma TwoTranscripts(a: Transcript, b: Transcript)
    ensures AllCalls([a, b]) == LineCalls(a.owner, a.lines) + LineCalls(b.owner, b.lines)
    ensures AllResults([a, b]) == LineResults(a.owner, a.lines) + LineResults(b.owner, b.lines)
  {
    hide *;
    OneTranscript(a);
    TranscriptsSnoc([a], b);
    assert [a] + [b] == [a, b];
  }

  lemma IndexOfAnsweredElsewhere()
    ensures IndexOf(AnsweredElsewhere()) == LaunchIndex(
      map["t" := LaunchCall(Root, 4, "Agent")], map["a" := NamingResult(Agent("b"), 9, Some("t"))])
  {
    var call := TranscriptLine(4, None, [ToolUse("Agent", Some("t"))], [], None, None, [], None);
    var result := TranscriptLine(9, None, [], [Some("t")], Some("a"), None, [], None);
    OneUse(Root, 4, "Agent", "t");
    OneUse(Agent("b"), 9, "", "");
    OneRowTranscript(Root, call);
    OneRowTranscript(Agent("b"), result);
    TwoTranscripts(Transcript(Root, [call]), Transcript(Agent("b"), [result]));
    OneEvent(Event("t", LaunchCall(Root, 4, "Agent")));
    OneEvent(Event("a", NamingResult(Agent("b"), 9, Some("t"))));
    assert ResultOf(Root, call) == [] && ResultOf(Agent("b"), result) == [Event("a", NamingResult(Agent("b"), 9, Some("t")))];
    hide CallsOf, LineCalls, LineResults, AllCalls, AllResults, FirstWins, ResultOf;
  }

  /** Agent b becomes the parent, and the call line is a line of the root's transcript. */
  lemma CallLineOfAnotherTranscript()
    ensures var index := IndexOf(AnsweredElsewhere());
      var link := ParentFor("a", NO_META, index);
      && OwnersDistinct(AnsweredElsewhere())
      && link.parent == AgentParent("b", AgentResultBasis) && link.callLine == Some(4)
      && RecordedCall("a", NO_META, index) == Some(LaunchCall(Root, 4, "Agent"))
      && !CallLineFrom(link, LaunchCall(Root, 4, "Agent"))
  {
    IndexOfAnsweredElsewhere();
    hide IndexOf;
  }

  ghost function ParentsIn(links: map<string, AgentLink>): Parents {
    map id | id in links :: links[id].parent
  }

  /** The root launched it inside the inherited prefix. */
  predicate LaunchedInPrefix(link: AgentLink, prefixLinesExcluded: Option<int>) {
    link.launch.Some? && link.launch.value.owner == Root
    && prefixLinesExcluded.Some? && link.launch.value.line <= prefixLinesExcluded.value
  }

  predicate IsInherited(
    agentId: string, links: map<string, AgentLink>, prefixLinesExcluded: Option<int>, seen: set<string>)
    decreases links.Keys - seen
  {
    if agentId !in links || agentId in seen then false
    else if LaunchedInPrefix(links[agentId], prefixLinesExcluded) then true
    else
      && links[agentId].parent.AgentParent?
      && IsInherited(links[agentId].parent.agentId, links, prefixLinesExcluded, seen + {agentId})
  }

  ghost predicate PrefixAt(links: map<string, AgentLink>, prefix: Option<int>, agentId: string, k: nat) {
    var at := Climb(ParentsIn(links), Agent(agentId), k);
    at.Some? && at.value.Agent? && at.value.id in links && LaunchedInPrefix(links[at.value.id], prefix)
  }

  lemma ClimbFromParent(links: map<string, AgentLink>, agentId: string, k: nat)
    requires agentId in links && links[agentId].parent.AgentParent?
    ensures Climb(ParentsIn(links), Agent(agentId), k + 1)
         == Climb(ParentsIn(links), Agent(links[agentId].parent.agentId), k)
  {
    var parents := ParentsIn(links);
    assert Climb(parents, Agent(agentId), 0) == Some(Agent(agentId));
    assert Climb(parents, Agent(agentId), 1) == Some(Agent(links[agentId].parent.agentId));
    ClimbPlus(parents, Agent(agentId), 1, k);
  }

  lemma {:induction false} InheritedFindsPrefix(
    agentId: string, links: map<string, AgentLink>, prefix: Option<int>, seen: set<string>) returns (k: nat)
    requires IsInherited(agentId, links, prefix, seen)
    ensures PrefixAt(links, prefix, agentId, k)
    decreases links.Keys - seen
  {
    if LaunchedInPrefix(links[agentId], prefix) {
      k := 0;
    } else {
      var parent := links[agentId].parent.agentId;
      var j := InheritedFindsPrefix(parent, links, prefix, seen + {agentId});
      ClimbFromParent(links, agentId, j);
      k := j + 1;
    }
  }

  lemma PrefixMetEarlier(agentId: string, links: map<string, AgentLink>, prefix: Option<int>, j: nat, k: nat)
    requires j <= k && Climb(ParentsIn(links), Agent(agentId), j) == Some(Agent(agentId))
    requires PrefixAt(links, prefix, agentId, k)
    ensures PrefixAt(links, prefix, agentId, k - j)
  {
    ClimbPlus(ParentsIn(links), Agent(agentId), j, k - j);
  }

  lemma {:induction false} PrefixMakesInherited(
    agentId: string, links: map<string, AgentLink>, prefix: Option<int>, seen: set<string>, k: nat)
    requires PrefixAt(links, prefix, agentId, k)
    requires forall j: nat :: j < k ==> !PrefixAt(links, prefix, agentId, j)
    requires forall j: nat :: j <= k ==>
      Climb(ParentsIn(links), Agent(agentId), j) !in (set id | id in seen :: Some(Agent(id)))
    ensures IsInherited(agentId, links, prefix, seen)
    decreases k
  {
    var parents := ParentsIn(links);
    assert Climb(parents, Agent(agentId), 0) == Some(Agent(agentId));
    if k > 0 {
      ClimbPrefix(parents, Agent(agentId), 1, k);
      assert Climb(parents, Agent(agentId), 1) == Above(parents, Agent(agentId));
      if links[agentId].parent.RootParent? {
        ClimbPlus(parents, Agent(agentId), 1, k - 1);
        RootChain(parents, k - 1);
        assert false;
      }
      assert !PrefixAt(links, prefix, agentId, 0);
      var parent := links[agentId].parent.agentId;
      forall j: nat | j < k
        ensures PrefixAt(links, prefix, parent, j) <==> PrefixAt(links, prefix, agentId, j + 1)
        ensures Climb(parents, Agent(parent), j) !in (set id | id in seen + {agentId} :: Some(Agent(id)))
      {
        ClimbFromParent(links, agentId, j);
        assert Climb(parents, Agent(agentId), j + 1) !in (set id | id in seen :: Some(Agent(id)));
        if Climb(parents, Agent(agentId), j + 1) == Some(Agent(agentId)) {
          PrefixMetEarlier(agentId, links, prefix, j + 1, k);
          assert false;
        }
      }
      PrefixMakesInherited(parent, links, prefix, seen + {agentId}, k - 1);
    }
  }

  lemma {:induction false} RootChain(parents: Parents, k: nat)
    ensures Climb(parents, Root, k).Some? ==> k == 0 && Climb(parents, Root, k) == Some(Root)
  {
    if k > 0 {
      RootChain(parents, k - 1);
      assert Climb(parents, Root, 0) == Some(Root);
    }
  }

  lemma {:induction false} LeastPrefix(
    links: map<string, AgentLink>, prefix: Option<int>, agentId: string, k: nat) returns (least: nat)
    requires PrefixAt(links, prefix, agentId, k)
    ensures least <= k && PrefixAt(links, prefix, agentId, least)
    ensures forall j: nat :: j < least ==> !PrefixAt(links, prefix, agentId, j)
  {
    least := 0;
    while !PrefixAt(links, prefix, agentId, least)
      invariant least <= k
      invariant forall j: nat :: j < least ==> !PrefixAt(links, prefix, agentId, j)
      decreases k - least
    {
      least := least + 1;
    }
  }

  /** Inherited means: some agent up the chain, itself included, was launched by the root within the prefix. */
  lemma InheritedMeans(agentId: string, links: map<string, AgentLink>, prefix: Option<int>)
    ensures IsInherited(agentId, links, prefix, {}) <==> exists k: nat :: PrefixAt(links, prefix, agentId, k)
  {
    if IsInherited(agentId, links, prefix, {}) {
      var k := InheritedFindsPrefix(agentId, links, prefix, {});
    }
    if k: nat :| PrefixAt(links, prefix, agentId, k) {
      var least := LeastPrefix(links, prefix, agentId, k);
      PrefixMakesInherited(agentId, links, prefix, {}, least);
    }
  }

  /** Whatever an inherited agent launched, directly or through others, is inherited. */
  lemma InheritedClosedDownward(agentId: string, links: map<string, AgentLink>, prefix: Option<int>, k: nat, above: string)
    requires Climb(ParentsIn(links), Agent(agentId), k) == Some(Agent(above))
    requires IsInherited(above, links, prefix, {})
    ensures IsInherited(agentId, links, prefix, {})
  {
    InheritedMeans(above, links, prefix);
    var j: nat :| PrefixAt(links, prefix, above, j);
    ClimbPlus(ParentsIn(links), Agent(agentId), k, j);
    assert PrefixAt(links, prefix, agentId, k + j);
    InheritedMeans(agentId, links, prefix);
  }
}
