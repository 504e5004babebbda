/**
 * Any number of processes add their patterns to one exclude file: each reads a snapshot, works
 * out which of its lines the snapshot lacks, and later appends those, whatever was appended in
 * between.
 */
module ExcludeProtocol {
  import opened Wrappers
  import opened Collections
  import opened Lines
  import opened WorkflowExcludes

  function StripCarriageReturn(line: string): string {
    if line != "" && line[|line| - 1] == '\r' then line[..|line| - 1] else line
  }

  function LinesRead(existing: string): set<string> {
    set line | line in SplitLines(existing) :: StripCarriageReturn(line)
  }

  function MissingPatterns(patterns: seq<string>, existing: string): seq<string> {
    if patterns == [] then []
    else (if patterns[0] in LinesRead(existing) then [] else [patterns[0]]) + MissingPatterns(patterns[1..], existing)
  }

  function AppendedBytes(existing: string, missing: seq<string>): string {
    (if AtLineStart(existing) then "" else "\n") + JoinLines(missing) + "\n"
  }

  function AfterAppend(file: string, snapshot: string, patterns: seq<string>): string {
    var missing := MissingPatterns(patterns, snapshot);
    if missing == [] then file else file + AppendedBytes(snapshot, missing)
  }

  datatype AppendOutcome = NothingMissing | Appended | ShortAppend(bytesWritten: nat, expectedBytes: nat)

  /** The file as one process handles it; `accepted` is how many bytes the write takes. */
  class ExcludeFile {
    var bytes: string

    constructor (bytes: string)
      ensures this.bytes == bytes
    {
      this.bytes := bytes;
    }

    method Append(existing: string, missing: seq<string>, accepted: nat) returns (outcome: AppendOutcome)
      requires accepted <= |AppendedBytes(existing, missing)|
      modifies this
      ensures bytes == old(bytes) + AppendedBytes(existing, missing)[..accepted]
      ensures outcome == if accepted == |AppendedBytes(existing, missing)| then Appended
        else ShortAppend(accepted, |AppendedBytes(existing, missing)|)
    {
      var written := AppendedBytes(existing, missing);
      bytes := bytes + written[..accepted];
      outcome := if accepted == |written| then Appended else ShortAppend(accepted, |written|);
    }

    /** One run alone: read, then append what is missing, with a write that takes everything. */
    method ExcludeWorkflowState(patterns: seq<string>) returns (outcome: AppendOutcome)
      modifies this
      ensures bytes == AfterAppend(old(bytes), old(bytes), Distinct(patterns))
      ensures outcome == if MissingPatterns(Distinct(patterns), old(bytes)) == [] then NothingMissing else Appended
    {
      var existing := bytes;
      var missing := MissingPatterns(Distinct(patterns), existing);
      if missing == [] {
        return NothingMissing;
      }
      var written := AppendedBytes(existing, missing);
      assert written[..|written|] == written;
      outcome := Append(existing, missing, |written|);
    }
  }

  datatype Process = Idle(patterns: seq<string>) | Holding(patterns: seq<string>, snapshot: string) | Finished(patterns: seq<string>)

  datatype State = State(file: string, processes: seq<Process>)

  datatype Event = Read(i: nat) | Append(i: nat)

  /** One atomic step; an event its process is not ready for changes nothing. */
  function Step(s: State, e: Event): State {
    if e.i >= |s.processes| then s
    else
      match (e, s.processes[e.i])
      case (Read(i), Idle(patterns)) => s.(processes := s.processes[i := Holding(patterns, s.file)])
      case (Append(i), Holding(patterns, snapshot)) =>
        State(AfterAppend(s.file, snapshot, patterns), s.processes[i := Finished(patterns)])
      case _ => s
  }

  function Run(s: State, events: seq<Event>): State {
    if events == [] then s else Step(Run(s, events[..|events| - 1]), events[|events| - 1])
  }

  /** The patterns an event writes. */
  function Written(s: State, e: Event): seq<string> {
    if e.Append? && e.i < |s.processes| && s.processes[e.i].Holding?
    then MissingPatterns(s.processes[e.i].patterns, s.processes[e.i].snapshot) else []
  }

  function Log(s: State, events: seq<Event>): seq<string> {
    if events == [] then []
    else Log(s, events[..|events| - 1]) + Written(Run(s, events[..|events| - 1]), events[|events| - 1])
  }

  /** A pattern is one line that does not end in a carriage return, and is not empty. */
  ghost predicate GoodPattern(pattern: string) {
    pattern != "" && '\n' !in pattern && '\r' !in pattern
  }

  /** The patterns of a run are good, whatever paths the board keeps. */
  lemma WorkflowPatternsAreGood(normalized: seq<string>)
    requires forall path :: path in normalized ==> '\n' !in path && '\r' !in path
    ensures forall p :: p in Distinct(Map(normalized, PatternOf)) ==> GoodPattern(p)
  {
    DistinctElements(Map(normalized, PatternOf));
    forall p | p in Distinct(Map(normalized, PatternOf)) ensures GoodPattern(p) {
      assert p in Elements(Map(normalized, PatternOf));
      var k :| 0 <= k < |normalized| && Map(normalized, PatternOf)[k] == p;
      PatternsDistinct(normalized[k], normalized[k]);
    }
  }

  ghost predicate Start(s: State) {
    forall i :: 0 <= i < |s.processes| ==>
      s.processes[i].Idle? && forall p :: p in s.processes[i].patterns ==> GoodPattern(p)
  }

  function NonBlank(lines: seq<string>): seq<string> {
    if lines == [] then []
    else NonBlank(lines[..|lines| - 1]) + if lines[|lines| - 1] == "" then [] else [lines[|lines| - 1]]
  }

  lemma {:induction false} NonBlankConcat(a: seq<string>, b: seq<string>)
    ensures NonBlank(a + b) == NonBlank(a) + NonBlank(b)
  {
    if b == [] {
      assert a + b == a;
    } else {
      assert (a + b)[..|a + b| - 1] == a + b[..|b| - 1];
      NonBlankConcat(a, b[..|b| - 1]);
    }
  }

  lemma {:induction false} NonBlankMember(lines: seq<string>, line: string)
    ensures line in NonBlank(lines) <==> line in lines && line != ""
  {
    if lines != [] {
      NonBlankMember(lines[..|lines| - 1], line);
      assert lines == lines[..|lines| - 1] + [lines[|lines| - 1]];
    }
  }

  lemma {:induction false} NonBlankOfPatterns(patterns: seq<string>)
    requires forall p :: p in patterns ==> GoodPattern(p)
    ensures NonBlank(patterns) == patterns
  {
    if patterns != [] {
      forall p | p in patterns[..|patterns| - 1] ensures GoodPattern(p) {
        assert p in patterns;
      }
      NonBlankOfPatterns(patterns[..|patterns| - 1]);
      assert patterns[|patterns| - 1] in patterns;
    }
  }

  lemma {:induction false} MissingMember(patterns: seq<string>, existing: string, p: string)
    ensures p in MissingPatterns(patterns, existing) <==> p in patterns && p !in LinesRead(existing)
  {
    if patterns != [] {
      MissingMember(patterns[1..], existing, p);
    }
  }

  /** A pattern is missing exactly when no line of the snapshot is it, with or without a carriage return at its end. */
  lemma MissingExactlyWhen(patterns: seq<string>, existing: string, p: string)
    requires GoodPattern(p)
    ensures p in MissingPatterns(patterns, existing) <==>
      p in patterns && p !in SplitLines(existing) && p + "\r" !in SplitLines(existing)
  {
    MissingMember(patterns, existing, p);
    forall line ensures StripCarriageReturn(line) == p <==> line == p || line == p + "\r" {
      if line != "" && line[|line| - 1] == '\r' {
        assert line == line[..|line| - 1] + "\r";
        assert line[|line| - 1] in line;
      }
    }
    hide SplitLines, StripCarriageReturn;
    assert StripCarriageReturn(p) == p && StripCarriageReturn(p + "\r") == p;
  }

  /** `later` continues `earlier` on whole lines. */
  ghost predicate Grew(earlier: string, later: string) {
    || earlier == later
    || (later != "" && AtLineStart(later) && (if AtLineStart(earlier) then earlier else earlier + "\n") <= later)
  }

  lemma GrewItself(file: string)
    ensures Grew(file, file)
  {
  }

  lemma GrewTransitive(a: string, b: string, c: string)
    requires Grew(a, b) && Grew(b, c)
    ensures Grew(a, c)
  {
  }

  lemma SplitBlock(missing: seq<string>)
    requires missing != [] && OneLineEach(missing)
    ensures SplitLines(JoinLines(missing) + "\n") == missing + [""]
  {
    SplitAfterNewline(JoinLines(missing), "");
    SplitOfJoin(missing);
    assert JoinLines(missing) + "\n" + "" == JoinLines(missing) + "\n";
  }

  /** Text that starts a line keeps the earlier lines and adds its own, perhaps after a blank one. */
  lemma SplitAtLineStart(file: string, block: string)
    requires AtLineStart(file)
    ensures NonBlank(SplitLines(file + block)) == NonBlank(SplitLines(file)) + NonBlank(SplitLines(block))
  {
    if file == "" {
      assert file + block == block;
      SplitOneLine("");
      assert NonBlank([""]) == NonBlank([] + [""]);
      BlankLineIgnored([]);
    } else {
      var front := file[..|file| - 1];
      assert file == front + "\n" && file + block == front + "\n" + block;
      SplitAfterNewline(front, block);
      SplitOneMore(front, '\n');
      hide SplitLines, NonBlank;
      NonBlankConcat(SplitLines(front), SplitLines(block));
      BlankLineIgnored(SplitLines(front));
    }
  }

  lemma BlankLineIgnored(lines: seq<string>)
    ensures NonBlank(lines + [""]) == NonBlank(lines)
  {
    assert (lines + [""])[..|lines|] == lines;
  }

  /** A block of patterns is those lines. */
  lemma BlockLines(missing: seq<string>)
    requires missing != [] && forall p :: p in missing ==> GoodPattern(p)
    ensures NonBlank(SplitLines(JoinLines(missing) + "\n")) == missing
  {
    forall i | 0 <= i < |missing| ensures '\n' !in missing[i] {
      assert missing[i] in missing;
    }
    SplitBlock(missing);
    BlankLineIgnored(missing);
    NonBlankOfPatterns(missing);
  }

  /** A file that grew from a snapshot starts a line, unless it is still that snapshot. */
  lemma StaleSnapshot(snapshot: string, file: string)
    requires Grew(snapshot, file)
    ensures AtLineStart(snapshot) ==> AtLineStart(file)
  {
  }

  lemma AppendedIs(snapshot: string, missing: seq<string>)
    ensures AppendedBytes(snapshot, missing)
         == if AtLineStart(snapshot) then JoinLines(missing) + "\n" else "\n" + (JoinLines(missing) + "\n")
  {
    hide JoinLines, AtLineStart;
    assert "" + JoinLines(missing) == JoinLines(missing);
  }

  lemma AppendGrows(file: string, snapshot: string, missing: seq<string>)
    requires Grew(snapshot, file)
    ensures Grew(file, file + AppendedBytes(snapshot, missing))
  {
    hide JoinLines;
    var later := file + AppendedBytes(snapshot, missing);
    assert later[|later| - 1] == '\n';
    if !AtLineStart(file) {
      assert snapshot == file;
      assert later == (file + "\n") + (JoinLines(missing) + "\n");
    }
  }

  /** A block written at a line start, or after a newline, adds its lines to the file's. */
  lemma BlockAddsItsLines(file: string, block: string)
    ensures AtLineStart(file) ==>
      NonBlank(SplitLines(file + block)) == NonBlank(SplitLines(file)) + NonBlank(SplitLines(block))
    ensures NonBlank(SplitLines(file + ("\n" + block))) == NonBlank(SplitLines(file)) + NonBlank(SplitLines(block))
  {
    hide *;
    if AtLineStart(file) {
      SplitAtLineStart(file, block);
    }
    SplitAfterNewline(file, block);
    assert file + "\n" + block == file + ("\n" + block);
    NonBlankConcat(SplitLines(file), SplitLines(block));
  }

  /** An append adds exactly the missing patterns as lines of their own, however stale the snapshot. */
  lemma AppendAddsLines(file: string, snapshot: string, missing: seq<string>)
    requires Grew(snapshot, file)
    requires missing != [] && forall p :: p in missing ==> GoodPattern(p)
    ensures var later := file + AppendedBytes(snapshot, missing);
      && Grew(file, later)
      && NonBlank(SplitLines(later)) == NonBlank(SplitLines(file)) + missing
  {
    hide *;
    BlockLines(missing);
    AppendGrows(file, snapshot, missing);
    StaleSnapshot(snapshot, file);
    AppendedIs(snapshot, missing);
    BlockAddsItsLines(file, JoinLines(missing) + "\n");
  }

  lemma {:induction false} LinesKept(earlier: string, later: string, pattern: string)
    requires Grew(earlier, later) && GoodPattern(pattern) && pattern in LinesRead(earlier)
    ensures pattern in LinesRead(later)
  {
    if earlier != later {
      var start := if AtLineStart(earlier) then earlier else earlier + "\n";
      var line :| line in SplitLines(earlier) && StripCarriageReturn(line) == pattern;
      assert line != "";
      NonBlankMember(SplitLines(earlier), line);
      if !AtLineStart(earlier) {
        SplitOneMore(earlier, '\n');
        NonBlankConcat(SplitLines(earlier), [""]);
      }
      assert later == start + later[|start|..];
      SplitAtLineStart(start, later[|start|..]);
      NonBlankMember(SplitLines(later), line);
      NonBlankMember(SplitLines(start), line);
    }
  }

  ghost predicate ProcessSafe(start: State, s: State, i: nat)
    requires i < |s.processes| && |s.processes| == |start.processes|
  {
    && s.processes[i].patterns == start.processes[i].patterns
    && (s.processes[i].Holding? ==>
          Grew(start.file, s.processes[i].snapshot) && Grew(s.processes[i].snapshot, s.file))
    && (s.processes[i].Finished? ==> forall p :: p in s.processes[i].patterns ==> p in LinesRead(s.file))
  }

  ghost predicate Safe(start: State, s: State, log: seq<string>) {
    && Grew(start.file, s.file)
    && NonBlank(SplitLines(s.file)) == NonBlank(SplitLines(start.file)) + log
    && |s.processes| == |start.processes|
    && forall i :: 0 <= i < |s.processes| ==> ProcessSafe(start, s, i)
  }

  lemma SafeGrows(start: State, s: State, i: nat, later: string)
    requires Start(start) && |s.processes| == |start.processes| && i < |s.processes|
    requires ProcessSafe(start, s, i) && Grew(s.file, later)
    ensures ProcessSafe(start, s.(file := later), i)
  {
    if s.processes[i].Holding? {
      GrewTransitive(s.processes[i].snapshot, s.file, later);
    }
    if s.processes[i].Finished? {
      forall p | p in s.processes[i].patterns ensures p in LinesRead(later) {
        LinesKept(s.file, later, p);
      }
    }
  }

  lemma AppendKeeps(start: string, file: string, snapshot: string, missing: seq<string>, log: seq<string>)
    requires Grew(start, file) && Grew(snapshot, file)
    requires forall p :: p in missing ==> GoodPattern(p)
    requires NonBlank(SplitLines(file)) == NonBlank(SplitLines(start)) + log
    ensures var later := if missing == [] then file else file + AppendedBytes(snapshot, missing);
      && Grew(start, later) && Grew(file, later)
      && NonBlank(SplitLines(later)) == NonBlank(SplitLines(start)) + (log + missing)
      && (missing == [] || NonBlank(SplitLines(later)) == NonBlank(SplitLines(file)) + missing)
  {
    hide NonBlank, SplitLines, AppendedBytes, Grew;
    GrewItself(file);
    if missing == [] {
      assert log + missing == log;
    } else {
      AppendAddsLines(file, snapshot, missing);
      GrewTransitive(start, file, file + AppendedBytes(snapshot, missing));
      assert NonBlank(SplitLines(start)) + log + missing == NonBlank(SplitLines(start)) + (log + missing);
    }
  }

  lemma AppendStepSafe(start: State, s: State, log: seq<string>, i: nat)
    requires Start(start) && Safe(start, s, log)
    requires i < |s.processes| && s.processes[i].Holding?
    ensures Safe(start, Step(s, Append(i)), log + Written(s, Append(i)))
  {
    var process := s.processes[i];
    var missing := MissingPatterns(process.patterns, process.snapshot);
    var next := Step(s, Append(i));
    assert ProcessSafe(start, s, i);
    forall p | p in process.patterns ensures p in missing <==> p !in LinesRead(process.snapshot) {
      MissingMember(process.patterns, process.snapshot, p);
    }
    forall p | p in missing ensures GoodPattern(p) {
      MissingMember(process.patterns, process.snapshot, p);
    }
    AppendKeeps(start.file, s.file, process.snapshot, missing, log);
    hide NonBlank, SplitLines, AppendedBytes, MissingPatterns, LinesRead, Grew;
    assert next.file == if missing == [] then s.file else s.file + AppendedBytes(process.snapshot, missing);
    GrewTransitive(process.snapshot, s.file, next.file);
    PatternsNowThere(process.patterns, process.snapshot, s.file, next.file, missing);
    OthersStaySafe(start, s, i, next);
  }

  lemma OthersStaySafe(start: State, s: State, i: nat, next: State)
    requires Start(start) && |s.processes| == |start.processes| && i < |s.processes|
    requires forall j :: 0 <= j < |s.processes| ==> ProcessSafe(start, s, j)
    requires Grew(s.file, next.file)
    requires next.processes == s.processes[i := Finished(s.processes[i].patterns)]
    requires forall p :: p in s.processes[i].patterns ==> p in LinesRead(next.file)
    ensures forall j :: 0 <= j < |s.processes| ==> ProcessSafe(start, next, j)
  {
    hide Grew, LinesRead;
    forall j | 0 <= j < |s.processes| ensures ProcessSafe(start, next, j) {
      assert ProcessSafe(start, s, j);
      if j != i {
        SafeGrows(start, s, j, next.file);
      }
    }
  }

  lemma PatternsNowThere(patterns: seq<string>, snapshot: string, file: string, later: string, missing: seq<string>)
    requires forall p :: p in patterns ==> GoodPattern(p)
    requires forall p :: p in patterns ==> (p in missing <==> p !in LinesRead(snapshot))
    requires Grew(snapshot, later)
    requires missing == [] || NonBlank(SplitLines(later)) == NonBlank(SplitLines(file)) + missing
    ensures forall p :: p in patterns ==> p in LinesRead(later)
  {
    forall p | p in patterns ensures p in LinesRead(later) {
      if p in missing {
        assert p in NonBlank(SplitLines(later));
        NonBlankMember(SplitLines(later), p);
        assert StripCarriageReturn(p) == p;
      } else {
        LinesKept(snapshot, later, p);
      }
    }
  }

  lemma ReadStepSafe(start: State, s: State, log: seq<string>, e: Event)
    requires Safe(start, s, log)
    requires !(e.Append? && e.i < |s.processes| && s.processes[e.i].Holding?)
    ensures Safe(start, Step(s, e), log) && Written(s, e) == []
  {
    hide Grew, LinesRead, NonBlank, AfterAppend;
    GrewItself(s.file);
    var next := Step(s, e);
    assert next.file == s.file;
    forall j | 0 <= j < |s.processes| ensures ProcessSafe(start, next, j) {
      assert ProcessSafe(start, s, j);
    }
  }

  /** Every step keeps the file's lines whole and the finished processes' patterns in it. */
  lemma StepSafe(start: State, s: State, log: seq<string>, e: Event)
    requires Start(start) && Safe(start, s, log)
    ensures Safe(start, Step(s, e), log + Written(s, e))
  {
    if e.Append? && e.i < |s.processes| && s.processes[e.i].Holding? {
      AppendStepSafe(start, s, log, e.i);
    } else {
      ReadStepSafe(start, s, log, e);
      assert log + [] == log;
    }
  }

  /**
   * Over every interleaving: the initial bytes stay, and the lines of the file are the initial
   * ones followed by each append's patterns, in order, none glued to another.
   */
  lemma {:induction false} RunSafe(start: State, events: seq<Event>)
    requires Start(start)
    ensures Safe(start, Run(start, events), Log(start, events))
    ensures start.file <= Run(start, events).file
  {
    if events == [] {
      assert NonBlank(SplitLines(start.file)) + [] == NonBlank(SplitLines(start.file));
    } else {
      var n := |events| - 1;
      RunSafe(start, events[..n]);
      StepSafe(start, Run(start, events[..n]), Log(start, events[..n]), events[n]);
    }
  }

  /** A finished process's patterns are lines of the file from then on, so a later run with them writes nothing. */
  lemma FinishedStaysFinished(start: State, events: seq<Event>, i: nat)
    requires Start(start) && i < |start.processes| && i < |Run(start, events).processes|
    requires Run(start, events).processes[i].Finished?
    ensures var file := Run(start, events).file;
      && (forall p :: p in start.processes[i].patterns ==> p in LinesRead(file))
      && MissingPatterns(start.processes[i].patterns, file) == []
      && AfterAppend(file, file, start.processes[i].patterns) == file
  {
    RunSafe(start, events);
    var s := Run(start, events);
    assert ProcessSafe(start, s, i);
    var missing := MissingPatterns(start.processes[i].patterns, s.file);
    if missing != [] {
      MissingMember(start.processes[i].patterns, s.file, missing[0]);
    }
  }
}
