/**
 * Skill windows: which stretch of an agent's transcript runs under which skill. A window is
 * named by its position, as the program names it by the object.
 */
module SkillWindows {
  import opened Wrappers
  import opened Transcripts

  datatype Invocation = Invocation(skill: string, toolUseId: Option<string>, deliveryLine: int)

  datatype Delivery = Delivery(invocations: seq<Invocation>, request: Option<int>)

  datatype SkillWindow = SkillWindow(open: int, close: Option<int>, request: Option<int>, invocations: seq<Invocation>)

  datatype SkillCall = SkillCall(skill: string, request: Option<int>)

  function DeliveryAt(row: TranscriptLine, calls: map<string, SkillCall>): (d: Option<Delivery>)
    ensures d.Some? ==> d.value.invocations != []
    ensures d.Some? ==> forall each :: each in d.value.invocations ==> each.deliveryLine == row.line
  {
    if row.sourceToolUseId.Some? then
      if row.sourceToolUseId.value !in calls then None
      else
        var call := calls[row.sourceToolUseId.value];
        Some(Delivery([Invocation(call.skill, row.sourceToolUseId, row.line)], call.request))
    else if row.slashSkills == [] then None
    else
      Some(Delivery(
        seq(|row.slashSkills|, i requires 0 <= i < |row.slashSkills| => Invocation(row.slashSkills[i], None, row.line)),
        None))
  }

  predicate Covers(window: SkillWindow, line: int) {
    window.open <= line && (window.close.None? || line < window.close.value)
  }

  /** Where a line falls: in a window, by position, or in none. */
  datatype Place = Outside | Inside(index: nat)

  /** The first window, in order, that covers the line. */
  function WindowFrom(windows: seq<SkillWindow>, line: int, from: nat): Place
    requires from <= |windows|
    decreases |windows| - from
  {
    if from == |windows| then Outside
    else if Covers(windows[from], line) then Inside(from)
    else WindowFrom(windows, line, from + 1)
  }

  function WindowAt(windows: seq<SkillWindow>, line: int): Place {
    WindowFrom(windows, line, 0)
  }

  lemma {:induction false} WindowAtFindsFirst(windows: seq<SkillWindow>, line: int, from: nat)
    requires from <= |windows|
    ensures var w := WindowFrom(windows, line, from);
      && (w.Inside? ==> from <= w.index < |windows| && Covers(windows[w.index], line))
      && (w.Outside? ==> forall i :: from <= i < |windows| ==> !Covers(windows[i], line))
    decreases |windows| - from
  {
    if from < |windows| {
      WindowAtFindsFirst(windows, line, from + 1);
    }
  }

  /** Windows follow each other without overlapping, each holds an invocation, and only the last may be open. */
  ghost predicate InOrder(windows: seq<SkillWindow>) {
    && (forall i :: 0 <= i < |windows| ==> windows[i].invocations != [])
    && (forall i :: 0 <= i < |windows| && windows[i].close.Some? ==> windows[i].open < windows[i].close.value)
    && (forall i, j :: 0 <= i < j < |windows| ==> windows[i].close.Some? && windows[i].close.value <= windows[j].open)
  }

  /** A line lies in at most one window, so which one is found first does not matter. */
  lemma AtMostOneWindow(windows: seq<SkillWindow>, line: int, i: nat)
    requires InOrder(windows)
    requires i < |windows| && Covers(windows[i], line)
    ensures WindowAt(windows, line) == Inside(i)
  {
    WindowAtFindsFirst(windows, line, 0);
  }

  ghost predicate LinesAscend(rows: seq<TranscriptLine>) {
    forall i, j :: 0 <= i < j < |rows| ==> rows[i].line < rows[j].line
  }

  predicate EndsWindow(turn: Option<UserTurn>) {
    turn == Some(Prompt) || turn == Some(Interruption)
  }

  /** One row's step: the windows closed so far and the window still open. */
  function Advance(
    row: TranscriptLine, attemptStart: int, calls: map<string, SkillCall>,
    closed: seq<SkillWindow>, current: Option<SkillWindow>): (seq<SkillWindow>, Option<SkillWindow>)
  {
    if row.line <= attemptStart then (closed, current)
    else
      var delivery := DeliveryAt(row, calls);
      if delivery.Some? && current.Some? && current.value.request.Some?
         && current.value.request == delivery.value.request then
        (closed, Some(current.value.(invocations := current.value.invocations + delivery.value.invocations)))
      else if delivery.Some? || EndsWindow(row.userTurn) then
        (if current.None? then closed else closed + [current.value.(close := Some(row.line))],
         if delivery.None? then None
         else Some(SkillWindow(row.line, None, delivery.value.request, delivery.value.invocations)))
      else (closed, current)
  }

  ghost function StateAfter(
    rows: seq<TranscriptLine>, attemptStart: int, calls: map<string, SkillCall>): (seq<SkillWindow>, Option<SkillWindow>)
  {
    if rows == [] then ([], None)
    else
      var (closed, current) := StateAfter(rows[..|rows| - 1], attemptStart, calls);
      Advance(rows[|rows| - 1], attemptStart, calls, closed, current)
  }

  ghost function WindowsOf(rows: seq<TranscriptLine>, attemptStart: int, calls: map<string, SkillCall>): seq<SkillWindow> {
    var (closed, current) := StateAfter(rows, attemptStart, calls);
    if current.None? then closed else closed + [current.value]
  }

  method OpenAndCloseWindows(rows: seq<TranscriptLine>, attemptStart: int, calls: map<string, SkillCall>)
    returns (windows: seq<SkillWindow>)
    ensures windows == WindowsOf(rows, attemptStart, calls)
  {
    var current: Option<SkillWindow> := None;
    windows := [];
    for i := 0 to |rows|
      invariant (windows, current) == StateAfter(rows[..i], attemptStart, calls)
    {
      var row := rows[i];
      assert rows[..i + 1][..i] == rows[..i];
      if row.line > attemptStart {
        var delivery := DeliveryAt(row, calls);
        if delivery.Some? && current.Some? && current.value.request.Some?
           && current.value.request == delivery.value.request {
          current := Some(current.value.(invocations := current.value.invocations + delivery.value.invocations));
        } else if delivery.Some? || EndsWindow(row.userTurn) {
          if current.Some? {
            windows := windows + [current.value.(close := Some(row.line))];
          }
          current := if delivery.None? then None
            else Some(SkillWindow(row.line, None, delivery.value.request, delivery.value.invocations));
        }
      }
    }
    assert rows[..|rows|] == rows;
    if current.Some? {
      windows := windows + [current.value];
    }
  }

  lemma {:induction false} StateInOrder(rows: seq<TranscriptLine>, attemptStart: int, calls: map<string, SkillCall>)
    requires LinesAscend(rows)
    ensures var (closed, current) := StateAfter(rows, attemptStart, calls);
      && InOrder(closed)
      && (forall i :: 0 <= i < |closed| ==>
            closed[i].close.Some? && rows != [] && closed[i].close.value <= rows[|rows| - 1].line)
      && (current.Some? ==>
            && current.value.invocations != [] && current.value.close.None?
            && rows != [] && current.value.open <= rows[|rows| - 1].line
            && (forall i :: 0 <= i < |closed| ==> closed[i].close.value <= current.value.open))
  {
    if rows != [] {
      StateInOrder(rows[..|rows| - 1], attemptStart, calls);
    }
  }

  /** The windows of any transcript follow each other, none empty. */
  lemma WindowsInOrder(rows: seq<TranscriptLine>, attemptStart: int, calls: map<string, SkillCall>)
    requires LinesAscend(rows)
    ensures InOrder(WindowsOf(rows, attemptStart, calls))
  {
    StateInOrder(rows, attemptStart, calls);
  }

  // ---- the same windows, read off the rows

  /** The row delivers a skill: it answers a call that was located, or a slash command's body opens with one. */
  predicate Delivers(row: TranscriptLine, calls: map<string, SkillCall>) {
    if row.sourceToolUseId.Some? then row.sourceToolUseId.value in calls else row.slashSkills != []
  }

  /** The request whose call the row answers. */
  function RequestAnswered(row: TranscriptLine, calls: map<string, SkillCall>): Option<int> {
    if row.sourceToolUseId.Some? && row.sourceToolUseId.value in calls then calls[row.sourceToolUseId.value].request else None
  }

  /** A delivery is of the skill the answered call named, or of every skill the slash command's body opens with. */
  lemma DeliveryMeans(row: TranscriptLine, calls: map<string, SkillCall>)
    ensures var d := DeliveryAt(row, calls);
      && (d.Some? <==> Delivers(row, calls))
      && (d.Some? ==> d.value.request == RequestAnswered(row, calls))
      && (d.Some? && row.sourceToolUseId.Some? ==>
            d.value.invocations == [Invocation(calls[row.sourceToolUseId.value].skill, row.sourceToolUseId, row.line)])
      && (d.Some? && row.sourceToolUseId.None? ==>
            && |d.value.invocations| == |row.slashSkills|
            && forall k :: 0 <= k < |row.slashSkills| ==>
                 d.value.invocations[k] == Invocation(row.slashSkills[k], None, row.line))
  {
  }

  /** A row of the attempt where a window may open or close. */
  predicate Bounds(row: TranscriptLine, attemptStart: int, calls: map<string, SkillCall>) {
    row.line > attemptStart
    && (Delivers(row, calls) || row.userTurn == Some(Prompt) || row.userTurn == Some(Interruption))
  }

  /** Row `i` is the last at or before the line where a window may open or close. */
  ghost predicate LastBound(rows: seq<TranscriptLine>, attemptStart: int, calls: map<string, SkillCall>, line: int, i: int) {
    && 0 <= i < |rows| && rows[i].line <= line && Bounds(rows[i], attemptStart, calls)
    && forall j :: i < j < |rows| && rows[j].line <= line ==> !Bounds(rows[j], attemptStart, calls)
  }

  ghost predicate UnderASkill(rows: seq<TranscriptLine>, attemptStart: int, calls: map<string, SkillCall>, line: int) {
    exists i :: LastBound(rows, attemptStart, calls, line, i) && Delivers(rows[i], calls)
  }

  ghost predicate Covered(closed: seq<SkillWindow>, current: Option<SkillWindow>, line: int) {
    (exists k :: 0 <= k < |closed| && Covers(closed[k], line)) || (current.Some? && Covers(current.value, line))
  }

  lemma UnderASkillSnoc(rows: seq<TranscriptLine>, attemptStart: int, calls: map<string, SkillCall>, line: int)
    requires rows != [] && LinesAscend(rows)
    ensures var last := rows[|rows| - 1];
      UnderASkill(rows, attemptStart, calls, line)
      == if last.line <= line && Bounds(last, attemptStart, calls) then Delivers(last, calls)
         else UnderASkill(rows[..|rows| - 1], attemptStart, calls, line)
  {
    var n := |rows| - 1;
    var front := rows[..n];
    hide Delivers, Bounds;
    forall i | 0 <= i < n && !(rows[n].line <= line && Bounds(rows[n], attemptStart, calls))
      ensures LastBound(rows, attemptStart, calls, line, i) <==> LastBound(front, attemptStart, calls, line, i)
    {
      assert forall j :: 0 <= j < n ==> front[j] == rows[j];
    }
    if rows[n].line <= line && Bounds(rows[n], attemptStart, calls) {
      assert LastBound(rows, attemptStart, calls, line, n);
    }
  }

  /** The windows closed so far are over by `end`, and the one still open began before it. */
  ghost predicate Before(closed: seq<SkillWindow>, current: Option<SkillWindow>, end: int) {
    && (forall k :: 0 <= k < |closed| ==> closed[k].close.Some? && closed[k].close.value < end)
    && (current.Some? ==> current.value.close.None? && current.value.open < end)
  }

  lemma CoveredSnoc(closed: seq<SkillWindow>, last: SkillWindow, current: Option<SkillWindow>, line: int)
    ensures Covered(closed + [last], current, line) <==> Covers(last, line) || Covered(closed, current, line)
  {
    var all := closed + [last];
    hide Covers;
    assert all[|closed|] == last;
    if k :| 0 <= k < |closed| && Covers(closed[k], line) {
      assert all[k] == closed[k];
    }
    if k :| 0 <= k < |all| && Covers(all[k], line) {
      assert k == |closed| || all[k] == closed[k];
    }
  }

  lemma NoneCovers(closed: seq<SkillWindow>, line: int)
    requires forall k :: 0 <= k < |closed| ==> closed[k].close.Some? && closed[k].close.value <= line
    ensures !Covered(closed, None, line)
  {
  }

  lemma AdvanceCovers(
    row: TranscriptLine, attemptStart: int, calls: map<string, SkillCall>,
    closed: seq<SkillWindow>, current: Option<SkillWindow>, line: int)
    requires Before(closed, current, row.line)
    ensures var (after, open) := Advance(row, attemptStart, calls, closed, current);
      Covered(after, open, line)
      == if row.line <= line && Bounds(row, attemptStart, calls) then Delivers(row, calls) else Covered(closed, current, line)
  {
    DeliveryMeans(row, calls);
    var (after, open) := Advance(row, attemptStart, calls, closed, current);
    hide DeliveryAt, Delivers;
    if Bounds(row, attemptStart, calls) && current.Some? {
      CoveredSnoc(closed, current.value.(close := Some(row.line)), open, line);
    }
    if row.line <= line {
      NoneCovers(closed, line);
    }
  }

  lemma {:induction false} StateCovers(rows: seq<TranscriptLine>, attemptStart: int, calls: map<string, SkillCall>, line: int)
    requires LinesAscend(rows)
    ensures var (closed, current) := StateAfter(rows, attemptStart, calls);
      Covered(closed, current, line) <==> UnderASkill(rows, attemptStart, calls, line)
  {
    if rows != [] {
      var n := |rows| - 1;
      StateCovers(rows[..n], attemptStart, calls, line);
      StateInOrder(rows[..n], attemptStart, calls);
      UnderASkillSnoc(rows, attemptStart, calls, line);
      var (closed, current) := StateAfter(rows[..n], attemptStart, calls);
      assert Before(closed, current, rows[n].line);
      AdvanceCovers(rows[n], attemptStart, calls, closed, current, line);
      hide Advance, UnderASkill, Delivers, Bounds, Covers, Before;
    }
  }

  /**
   * A line is in a window exactly when the last row at or before it, in the attempt, that delivers
   * a skill or is a prompt or an interruption delivers a skill.
   */
  lemma InAWindowMeans(rows: seq<TranscriptLine>, attemptStart: int, calls: map<string, SkillCall>, line: int)
    requires LinesAscend(rows)
    ensures WindowAt(WindowsOf(rows, attemptStart, calls), line).Inside? <==> UnderASkill(rows, attemptStart, calls, line)
  {
    StateCovers(rows, attemptStart, calls, line);
    var (closed, current) := StateAfter(rows, attemptStart, calls);
    var windows := WindowsOf(rows, attemptStart, calls);
    WindowAtFindsFirst(windows, line, 0);
    hide Covers, WindowFrom;
    if current.Some? {
      CoveredSnoc(closed, current.value, None, line);
    }
    assert Covered(windows, None, line) <==> UnderASkill(rows, attemptStart, calls, line);
  }

  /** The row is a delivery answering the same request as the first one. */
  predicate Joins(first: TranscriptLine, row: TranscriptLine, calls: map<string, SkillCall>) {
    && Delivers(row, calls) && RequestAnswered(first, calls).Some?
    && RequestAnswered(first, calls) == RequestAnswered(row, calls)
  }

  /** Row `h` is the last before row `i` where a window may open or close. */
  ghost predicate Previous(rows: seq<TranscriptLine>, attemptStart: int, calls: map<string, SkillCall>, h: int, i: int) {
    && 0 <= h < i <= |rows| && Bounds(rows[h], attemptStart, calls)
    && forall j :: h < j < i ==> !Bounds(rows[j], attemptStart, calls)
  }

  /** Row `i` delivers a skill, and not for the request the row before it answered. */
  ghost predicate Opens(rows: seq<TranscriptLine>, attemptStart: int, calls: map<string, SkillCall>, i: int) {
    && 0 <= i < |rows| && Bounds(rows[i], attemptStart, calls) && Delivers(rows[i], calls)
    && forall h :: Previous(rows, attemptStart, calls, h, i) ==> !Joins(rows[h], rows[i], calls)
  }

  /**
   * Row `i` opens a window and row `j`, or the end of the transcript, ends it: every row between
   * them where a window may open or close is a delivery that answers the request `i` answers.
   */
  ghost predicate Run(rows: seq<TranscriptLine>, attemptStart: int, calls: map<string, SkillCall>, i: int, j: int) {
    && i < j <= |rows| && Opens(rows, attemptStart, calls, i)
    && (forall k :: i < k < j && Bounds(rows[k], attemptStart, calls) ==> Joins(rows[i], rows[k], calls))
    && (j < |rows| ==> Bounds(rows[j], attemptStart, calls) && !Joins(rows[i], rows[j], calls))
  }

  /** What the deliveries among these rows invoke, in order. */
  ghost function Invoked(rows: seq<TranscriptLine>, attemptStart: int, calls: map<string, SkillCall>): seq<Invocation> {
    if rows == [] then []
    else
      var last := rows[|rows| - 1];
      Invoked(rows[..|rows| - 1], attemptStart, calls)
      + if Bounds(last, attemptStart, calls) && Delivers(last, calls) then
          DeliveryMeans(last, calls);
          DeliveryAt(last, calls).value.invocations
        else []
  }

  ghost function RunWindow(rows: seq<TranscriptLine>, attemptStart: int, calls: map<string, SkillCall>, i: int, j: int): SkillWindow
    requires 0 <= i < j <= |rows|
  {
    SkillWindow(
      rows[i].line, if j < |rows| then Some(rows[j].line) else None,
      RequestAnswered(rows[i], calls), Invoked(rows[i..j], attemptStart, calls))
  }

  ghost predicate FromRun(rows: seq<TranscriptLine>, attemptStart: int, calls: map<string, SkillCall>, w: SkillWindow) {
    exists i, j :: Run(rows, attemptStart, calls, i, j) && w == RunWindow(rows, attemptStart, calls, i, j)
  }

  ghost predicate Opened(
    rows: seq<TranscriptLine>, attemptStart: int, calls: map<string, SkillCall>,
    closed: seq<SkillWindow>, current: Option<SkillWindow>)
  {
    forall i :: 0 <= i < |rows| && Opens(rows, attemptStart, calls, i) ==>
      (current.Some? && current.value.open == rows[i].line) || exists k :: 0 <= k < |closed| && closed[k].open == rows[i].line
  }

  /** What is known of the open window after `rows`: it is a run to their end, or their last bound delivers nothing. */
  ghost predicate OpenRun(
    rows: seq<TranscriptLine>, attemptStart: int, calls: map<string, SkillCall>, current: Option<SkillWindow>)
  {
    if current.Some? then
      exists i :: Run(rows, attemptStart, calls, i, |rows|) && current.value == RunWindow(rows, attemptStart, calls, i, |rows|)
    else forall h :: Previous(rows, attemptStart, calls, h, |rows|) ==> !Delivers(rows[h], calls)
  }

  lemma OpensInFront(rows: seq<TranscriptLine>, attemptStart: int, calls: map<string, SkillCall>, i: int)
    requires rows != [] && i < |rows| - 1
    ensures Opens(rows, attemptStart, calls, i) <==> Opens(rows[..|rows| - 1], attemptStart, calls, i)
  {
    var front := rows[..|rows| - 1];
    hide Bounds, Delivers, Joins;
    assert forall k :: 0 <= k < |front| ==> front[k] == rows[k];
    forall h | h < i ensures Previous(rows, attemptStart, calls, h, i) <==> Previous(front, attemptStart, calls, h, i) {
    }
  }

  lemma RunInFront(rows: seq<TranscriptLine>, attemptStart: int, calls: map<string, SkillCall>, i: int, j: int)
    requires rows != [] && j < |rows| - 1 && Run(rows[..|rows| - 1], attemptStart, calls, i, j)
    ensures Run(rows, attemptStart, calls, i, j)
    ensures RunWindow(rows, attemptStart, calls, i, j) == RunWindow(rows[..|rows| - 1], attemptStart, calls, i, j)
  {
    var front := rows[..|rows| - 1];
    OpensInFront(rows, attemptStart, calls, i);
    hide Bounds, Delivers, Joins, Opens, Invoked, RequestAnswered;
    assert forall k :: 0 <= k < |front| ==> front[k] == rows[k];
    assert rows[i..j] == front[i..j];
  }

  /** A run to the end of the rows before the last one goes on past it or ends there. */
  lemma RunGoesOn(rows: seq<TranscriptLine>, attemptStart: int, calls: map<string, SkillCall>, i: int)
    requires rows != [] && Run(rows[..|rows| - 1], attemptStart, calls, i, |rows| - 1)
    ensures var n := |rows| - 1;
      var was := RunWindow(rows[..n], attemptStart, calls, i, n);
      if !Bounds(rows[n], attemptStart, calls) then
        Run(rows, attemptStart, calls, i, n + 1) && RunWindow(rows, attemptStart, calls, i, n + 1) == was
      else if Joins(rows[i], rows[n], calls) then
        && Run(rows, attemptStart, calls, i, n + 1)
        && DeliveryAt(rows[n], calls).Some?
        && RunWindow(rows, attemptStart, calls, i, n + 1)
             == was.(invocations := was.invocations + DeliveryAt(rows[n], calls).value.invocations)
      else
        Run(rows, attemptStart, calls, i, n) && RunWindow(rows, attemptStart, calls, i, n) == was.(close := Some(rows[n].line))
  {
    var n := |rows| - 1;
    var front := rows[..n];
    OpensInFront(rows, attemptStart, calls, i);
    DeliveryMeans(rows[n], calls);
    assert forall k :: 0 <= k < |front| ==> front[k] == rows[k];
    assert rows[i..n] == front[i..n];
    assert rows[i..n + 1][..n - i] == rows[i..n];
    hide Bounds, Delivers, Opens, RequestAnswered, DeliveryAt;
  }

  /** What the last row answers, its run's first row answers too. */
  lemma PreviousInRun(rows: seq<TranscriptLine>, attemptStart: int, calls: map<string, SkillCall>, i: int, h: int, row: TranscriptLine)
    requires Run(rows, attemptStart, calls, i, |rows|) && Previous(rows, attemptStart, calls, h, |rows|)
    ensures Joins(rows[h], row, calls) <==> Joins(rows[i], row, calls)
  {
    hide Bounds, Delivers;
    assert h >= i;
  }

  lemma PreviousSnoc(rows: seq<TranscriptLine>, attemptStart: int, calls: map<string, SkillCall>)
    requires rows != []
    ensures var n := |rows| - 1;
      forall h :: Previous(rows, attemptStart, calls, h, |rows|) <==>
        if Bounds(rows[n], attemptStart, calls) then h == n else Previous(rows[..n], attemptStart, calls, h, n)
    ensures var n := |rows| - 1;
      forall h :: Previous(rows, attemptStart, calls, h, n) <==> Previous(rows[..n], attemptStart, calls, h, n)
  {
    var n := |rows| - 1;
    var front := rows[..n];
    hide Bounds;
    assert forall k :: 0 <= k < |front| ==> front[k] == rows[k];
  }

  /** Whether the next row opens a window, where one is open and where none is. */
  lemma NextOpens(rows: seq<TranscriptLine>, attemptStart: int, calls: map<string, SkillCall>, current: Option<SkillWindow>)
    requires rows != [] && OpenRun(rows[..|rows| - 1], attemptStart, calls, current)
    ensures var row := rows[|rows| - 1];
      Opens(rows, attemptStart, calls, |rows| - 1) <==>
        && Bounds(row, attemptStart, calls) && Delivers(row, calls)
        && (current.Some? && current.value.request.Some? ==> current.value.request != RequestAnswered(row, calls))
  {
    var n := |rows| - 1;
    var front, row := rows[..n], rows[n];
    PreviousSnoc(rows, attemptStart, calls);
    hide Bounds, Invoked;
    assert forall k :: 0 <= k < |front| ==> front[k] == rows[k];
    if current.Some? {
      var i :| Run(front, attemptStart, calls, i, n) && current.value == RunWindow(front, attemptStart, calls, i, n);
      LastOfRun(front, attemptStart, calls, i);
      forall h | Previous(front, attemptStart, calls, h, n) ensures Joins(front[h], row, calls) <==> Joins(front[i], row, calls) {
        PreviousInRun(front, attemptStart, calls, i, h, row);
      }
    }
  }

  /** A run that reaches the end of the rows has a last bound. */
  lemma {:induction false} LastOfRun(rows: seq<TranscriptLine>, attemptStart: int, calls: map<string, SkillCall>, i: int)
    requires 0 <= i < |rows| && Bounds(rows[i], attemptStart, calls)
    ensures exists h :: Previous(rows, attemptStart, calls, h, |rows|)
  {
    hide Bounds;
    var n := |rows| - 1;
    PreviousSnoc(rows, attemptStart, calls);
    if !Bounds(rows[n], attemptStart, calls) {
      LastOfRun(rows[..n], attemptStart, calls, i);
    } else {
      assert Previous(rows, attemptStart, calls, n, |rows|);
    }
  }

  /** The row that opens a window is a run of its own as long as it is the last row. */
  lemma NewRun(rows: seq<TranscriptLine>, attemptStart: int, calls: map<string, SkillCall>)
    requires rows != [] && Opens(rows, attemptStart, calls, |rows| - 1)
    ensures var n := |rows| - 1;
      && DeliveryAt(rows[n], calls).Some?
      && Run(rows, attemptStart, calls, n, n + 1)
      && RunWindow(rows, attemptStart, calls, n, n + 1)
           == SkillWindow(rows[n].line, None, DeliveryAt(rows[n], calls).value.request, DeliveryAt(rows[n], calls).value.invocations)
  {
    var n := |rows| - 1;
    DeliveryMeans(rows[n], calls);
    assert rows[n..n + 1] == [rows[n]];
    assert [rows[n]][..0] == [];
    hide DeliveryAt, Bounds, Delivers, RequestAnswered;
    assert Invoked([rows[n]], attemptStart, calls) == [] + DeliveryAt(rows[n], calls).value.invocations;
  }

  /** At most one window more is closed, and it is a run. */
  ghost predicate Grown(
    rows: seq<TranscriptLine>, attemptStart: int, calls: map<string, SkillCall>, closed: seq<SkillWindow>, after: seq<SkillWindow>)
  {
    after == closed
    || (|after| == |closed| + 1 && after[..|closed|] == closed && after[|closed|].close.Some?
        && FromRun(rows, attemptStart, calls, after[|closed|]))
  }

  /** The three things one row may do to the open window. */
  lemma AdvanceMeans(
    row: TranscriptLine, attemptStart: int, calls: map<string, SkillCall>,
    closed: seq<SkillWindow>, current: Option<SkillWindow>)
    ensures var after := Advance(row, attemptStart, calls, closed, current);
      if !Bounds(row, attemptStart, calls) then after == (closed, current)
      else if Delivers(row, calls) && current.Some? && current.value.request.Some?
              && current.value.request == RequestAnswered(row, calls) then
        && DeliveryAt(row, calls).Some?
        && after == (closed, Some(current.value.(
             invocations := current.value.invocations + DeliveryAt(row, calls).value.invocations)))
      else
        && (Delivers(row, calls) ==> DeliveryAt(row, calls).Some?)
        && after == (
             if current.None? then closed else closed + [current.value.(close := Some(row.line))],
             if !Delivers(row, calls) then None
             else Some(SkillWindow(
               row.line, None, DeliveryAt(row, calls).value.request, DeliveryAt(row, calls).value.invocations)))
  {
    DeliveryMeans(row, calls);
    hide DeliveryAt;
  }

  lemma AdvanceRuns(
    rows: seq<TranscriptLine>, attemptStart: int, calls: map<string, SkillCall>,
    closed: seq<SkillWindow>, current: Option<SkillWindow>)
    requires rows != [] && OpenRun(rows[..|rows| - 1], attemptStart, calls, current)
    ensures var n := |rows| - 1;
      var (after, open) := Advance(rows[n], attemptStart, calls, closed, current);
      && OpenRun(rows, attemptStart, calls, open)
      && Grown(rows, attemptStart, calls, closed, after)
      && (current.Some? ==>
            (open.Some? && open.value.open == current.value.open)
            || (|after| > |closed| && after[|closed|].open == current.value.open))
      && (Opens(rows, attemptStart, calls, n) ==> open.Some? && open.value.open == rows[n].line)
  {
    var n := |rows| - 1;
    AdvanceMeans(rows[n], attemptStart, calls, closed, current);
    PreviousSnoc(rows, attemptStart, calls);
    NextOpens(rows, attemptStart, calls, current);
    if Opens(rows, attemptStart, calls, n) {
      NewRun(rows, attemptStart, calls);
    }
    if current.Some? {
      var i :| Run(rows[..n], attemptStart, calls, i, n) && current.value == RunWindow(rows[..n], attemptStart, calls, i, n);
      RunGoesOn(rows, attemptStart, calls, i);
    }
    hide Advance, DeliveryAt, Delivers, Bounds, Previous, Invoked, Run, Opens, RequestAnswered;
  }

  lemma RunStays(rows: seq<TranscriptLine>, attemptStart: int, calls: map<string, SkillCall>, w: SkillWindow)
    requires rows != [] && w.close.Some? && FromRun(rows[..|rows| - 1], attemptStart, calls, w)
    ensures FromRun(rows, attemptStart, calls, w)
  {
    var front := rows[..|rows| - 1];
    var i, j :| Run(front, attemptStart, calls, i, j) && w == RunWindow(front, attemptStart, calls, i, j);
    hide Run;
    RunInFront(rows, attemptStart, calls, i, j);
  }

  ghost predicate ClosedRuns(rows: seq<TranscriptLine>, attemptStart: int, calls: map<string, SkillCall>, closed: seq<SkillWindow>) {
    forall k :: 0 <= k < |closed| ==> closed[k].close.Some? && FromRun(rows, attemptStart, calls, closed[k])
  }

  lemma ClosedStay(rows: seq<TranscriptLine>, attemptStart: int, calls: map<string, SkillCall>, closed: seq<SkillWindow>)
    requires rows != [] && ClosedRuns(rows[..|rows| - 1], attemptStart, calls, closed)
    ensures ClosedRuns(rows, attemptStart, calls, closed)
  {
    hide FromRun;
    forall k | 0 <= k < |closed| ensures FromRun(rows, attemptStart, calls, closed[k]) {
      RunStays(rows, attemptStart, calls, closed[k]);
    }
  }

  lemma ClosedGrow(
    rows: seq<TranscriptLine>, attemptStart: int, calls: map<string, SkillCall>, closed: seq<SkillWindow>, after: seq<SkillWindow>)
    requires ClosedRuns(rows, attemptStart, calls, closed) && Grown(rows, attemptStart, calls, closed, after)
    ensures ClosedRuns(rows, attemptStart, calls, after)
  {
    hide FromRun;
    assert forall k :: 0 <= k < |closed| && after != closed ==> after[..|closed|][k] == after[k];
  }

  lemma OpenedStay(
    rows: seq<TranscriptLine>, attemptStart: int, calls: map<string, SkillCall>,
    closed: seq<SkillWindow>, current: Option<SkillWindow>, after: seq<SkillWindow>, open: Option<SkillWindow>)
    requires rows != [] && Opened(rows[..|rows| - 1], attemptStart, calls, closed, current)
    requires Grown(rows, attemptStart, calls, closed, after)
    requires current.Some? ==>
      (open.Some? && open.value.open == current.value.open)
      || (|after| > |closed| && after[|closed|].open == current.value.open)
    requires Opens(rows, attemptStart, calls, |rows| - 1) ==> open.Some? && open.value.open == rows[|rows| - 1].line
    ensures Opened(rows, attemptStart, calls, after, open)
  {
    var n := |rows| - 1;
    hide Opens, FromRun;
    forall i | 0 <= i < |rows| && Opens(rows, attemptStart, calls, i)
      ensures (open.Some? && open.value.open == rows[i].line) || exists k :: 0 <= k < |after| && after[k].open == rows[i].line
    {
      if i < n {
        OpensInFront(rows, attemptStart, calls, i);
        if k :| 0 <= k < |closed| && closed[k].open == rows[i].line {
          assert after[k] == closed[k];
        }
      }
    }
  }

  lemma StepRuns(
    rows: seq<TranscriptLine>, attemptStart: int, calls: map<string, SkillCall>,
    closed: seq<SkillWindow>, current: Option<SkillWindow>)
    requires rows != [] && OpenRun(rows[..|rows| - 1], attemptStart, calls, current)
    requires ClosedRuns(rows[..|rows| - 1], attemptStart, calls, closed)
    requires Opened(rows[..|rows| - 1], attemptStart, calls, closed, current)
    ensures var (after, open) := Advance(rows[|rows| - 1], attemptStart, calls, closed, current);
      && OpenRun(rows, attemptStart, calls, open)
      && ClosedRuns(rows, attemptStart, calls, after) && Opened(rows, attemptStart, calls, after, open)
  {
    AdvanceRuns(rows, attemptStart, calls, closed, current);
    ClosedStay(rows, attemptStart, calls, closed);
    hide *;
    var (after, open) := Advance(rows[|rows| - 1], attemptStart, calls, closed, current);
    ClosedGrow(rows, attemptStart, calls, closed, after);
    OpenedStay(rows, attemptStart, calls, closed, current, after, open);
  }

  lemma {:induction false} StateRuns(rows: seq<TranscriptLine>, attemptStart: int, calls: map<string, SkillCall>)
    ensures var (closed, current) := StateAfter(rows, attemptStart, calls);
      && OpenRun(rows, attemptStart, calls, current)
      && ClosedRuns(rows, attemptStart, calls, closed) && Opened(rows, attemptStart, calls, closed, current)
  {
    if rows != [] {
      var front := rows[..|rows| - 1];
      StateRuns(front, attemptStart, calls);
      var (closed, current) := StateAfter(front, attemptStart, calls);
      StepRuns(rows, attemptStart, calls, closed, current);
      hide Advance, OpenRun, ClosedRuns, Opened;
    }
  }

  /**
   * The windows are the runs of the transcript. Each window opens with a row that delivers a
   * skill, invokes what that row and the deliveries joining it invoke, in order, and closes at the
   * first row that neither joins it nor leaves it open; and each row that opens a window has its own.
   */
  lemma WindowsAreRuns(rows: seq<TranscriptLine>, attemptStart: int, calls: map<string, SkillCall>)
    ensures var windows := WindowsOf(rows, attemptStart, calls);
      && (forall k :: 0 <= k < |windows| ==> FromRun(rows, attemptStart, calls, windows[k]))
      && (forall i :: 0 <= i < |rows| && Opens(rows, attemptStart, calls, i) ==>
            exists k :: 0 <= k < |windows| && windows[k].open == rows[i].line)
  {
    StateRuns(rows, attemptStart, calls);
    var (closed, current) := StateAfter(rows, attemptStart, calls);
    var windows := WindowsOf(rows, attemptStart, calls);
    hide StateAfter, Opens, Run, RunWindow;
    assert current.Some? ==> windows[|closed|] == current.value;
    assert forall k :: 0 <= k < |closed| ==> windows[k] == closed[k];
    forall i | 0 <= i < |rows| && Opens(rows, attemptStart, calls, i) ensures exists k :: 0 <= k < |windows| && windows[k].open == rows[i].line {
      if k :| 0 <= k < |closed| && closed[k].open == rows[i].line {
        assert windows[k].open == rows[i].line;
      } else {
        assert windows[|closed|].open == rows[i].line;
      }
    }
  }
}
