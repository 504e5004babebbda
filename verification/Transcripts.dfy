/** The readings of transcripts, metadata and request series the allocation starts from. */
module Transcripts {
  import opened Wrappers

  datatype ToolUse = ToolUse(name: string, toolUseId: Option<string>)

  datatype UserTurn = Prompt | Interruption | OtherTurn

  /**
   * One parsed transcript row. `slashSkills` are the names of the skill directories a
   * slash command's body opens with.
   */
  datatype TranscriptLine = TranscriptLine(
    line: int,
    requestId: Option<string>,
    toolUses: seq<ToolUse>,
    toolResultIds: seq<Option<string>>,
    namedAgent: Option<string>,
    sourceToolUseId: Option<string>,
    slashSkills: seq<string>,
    userTurn: Option<UserTurn>)

  datatype AgentMeta = AgentMeta(toolUseId: Option<string>, parentAgentId: Option<string>)

  const NO_META: AgentMeta := AgentMeta(None, None)

  datatype Region = Attempt | StartingContext | BoundaryUnknown

  /** Where a line stands to the attempt's boundary, the last line of the prefix. */
  function RegionFor(line: int, prefixLinesExcluded: Option<int>): Region {
    if prefixLinesExcluded.None? then BoundaryUnknown
    else if line <= prefixLinesExcluded.value then StartingContext
    else Attempt
  }

  datatype Usage = CompleteUsage(totalInputTokens: nat, outputTokens: nat) | ConflictingUsage | IncompleteUsage

  datatype RequestEntry = RequestEntry(
    requestId: Option<string>,
    line: int,
    region: Region,
    model: Option<string>,
    usage: Usage)

  datatype UnreadableRow = UnreadableRow(line: int, region: Region)

  datatype Series = Series(boundaryKnown: bool, entries: seq<RequestEntry>, unreadableLines: seq<UnreadableRow>)

  /**
   * A request series as it is read from a transcript of `rows` rows: it knows its boundary exactly
   * when there is one, which places every line, and each entry is opened by a row of its own.
   */
  ghost predicate ReadFrom(series: Series, rows: nat, prefixLinesExcluded: Option<int>) {
    && (series.boundaryKnown <==> prefixLinesExcluded.Some?)
    && (forall e :: e in series.entries ==>
          1 <= e.line <= rows && e.region == RegionFor(e.line, prefixLinesExcluded))
    && (forall u :: u in series.unreadableLines ==>
          1 <= u.line <= rows && u.region == RegionFor(u.line, prefixLinesExcluded))
    && forall i, j :: 0 <= i < j < |series.entries| ==> series.entries[i].line < series.entries[j].line
  }

  /** An entry is of the attempt exactly when it lies after the boundary. */
  lemma AttemptEntriesFollow(series: Series, rows: nat, prefixLinesExcluded: Option<int>, e: RequestEntry)
    requires ReadFrom(series, rows, prefixLinesExcluded) && e in series.entries
    ensures e.region == Attempt <==> prefixLinesExcluded.Some? && e.line > prefixLinesExcluded.value
  {
  }

  /** What a request cost, or why it has no price. */
  datatype RequestCost = Priced(costUsd: real) | Unpriced(reason: string)
}
