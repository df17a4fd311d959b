/** The line stream of a PerfSpect process: header skipped, one line held, restarts. */
module PerfspectStream {
  import opened Text

  /** A complete line, by the process that wrote it and its position in that process's output. */
  datatype Line = Line(process: nat, index: nat, text: string)

  /** Index 0 is the header. */
  predicate IsData(l: Line) {
    l.index > 0 && l.text != ""
  }

  /** What one call of GatherMetrics meets. `lines` are the lines the process has completed since the last
      call, in order; when `readFails`, the read after them completes with an error and the process has
      completed the lines `unread` beyond it. */
  datatype Env = Env(running: bool, lines: seq<string>, readFails: bool, unread: seq<string>,
                     cleanupOk: bool, spawnOk: bool)

  /** `armed`: an asynchronous read is outstanding. `emitted` counts the lines the current process has
      completed, `emission` is all lines of all processes, `returned` those handed out. */
  datatype StreamState = StreamState(
    alive: bool, process: nat, armed: bool, firstIteration: bool, failed: bool,
    pending: Option<Line>, emitted: nat, emission: seq<Line>, returned: seq<Line>)

  const INITIAL := StreamState(false, 0, false, true, false, None, 0, [], [])

  // ---------- the handlers ----------

  /** ExtractLine on success, then AsyncRead. An empty line leaves nothing pending. */
  function Extract(s: StreamState, text: string): StreamState {
    var l := Line(s.process, s.emitted, text);
    var t := s.(failed := false, emitted := s.emitted + 1, emission := s.emission + [l]);
    if s.firstIteration then t.(firstIteration := false)
    else t.(pending := if text == "" then None else Some(l))
  }

  function ExtractAll(s: StreamState, lines: seq<string>, n: nat): StreamState
    requires n <= |lines|
  {
    if n == 0 then s else Extract(ExtractAll(s, lines, n - 1), lines[n - 1])
  }

  /** The line at position j of those completed since s. */
  function LineAt(s: StreamState, lines: seq<string>, j: nat): Line
    requires j < |lines|
  {
    Line(s.process, s.emitted + j, lines[j])
  }

  function LinesOf(s: StreamState, lines: seq<string>): seq<Line> {
    seq(|lines|, j requires 0 <= j < |lines| => LineAt(s, lines, j))
  }

  /** Lines that are completed but reach no handler. */
  function Skip(s: StreamState, lines: seq<string>): StreamState {
    s.(emitted := s.emitted + |lines|, emission := s.emission + LinesOf(s, lines))
  }

  /** ioContext->poll(): every ready handler, one after the other. An error is not followed by another read. */
  function Poll(s: StreamState, e: Env): StreamState {
    if !s.armed then Skip(s, e.lines)
    else
      var t := ExtractAll(s, e.lines, |e.lines|);
      if e.readFails then Skip(t.(failed := true, armed := false), e.unread) else t
  }

  function Cleaned(s: StreamState): StreamState {
    s.(alive := false, armed := false, pending := None, firstIteration := true, emitted := 0)
  }

  /** CleanupProcess, then a new process. lastAsyncError keeps its value. */
  function Start(s: StreamState, e: Env): StreamState {
    if s.alive && e.running && !e.cleanupOk then s
    else if !e.spawnOk then Cleaned(s)
    else Cleaned(s).(alive := true, armed := true, process := s.process + 1)
  }

  function Gather(s: StreamState, e: Env): StreamState {
    if !s.alive then Start(s, e)
    else if !e.running then Start(Skip(s, e.lines), e)  // never polled again
    else
      var t := Poll(s, e);
      if t.failed then Start(t, e)
      else if t.pending.None? then t
      else t.(pending := None, returned := t.returned + [t.pending.value])
  }

  // ---------- the collector ----------

  class Perfspect {
    var scriptProcess: Option<nat>
    var armed: bool
    var firstIteration: bool
    var lastAsyncError: bool
    var pendingLine: string
    ghost var processes: nat
    ghost var pendingIndex: nat
    ghost var emitted: nat
    ghost var emission: seq<Line>
    ghost var returned: seq<Line>

    ghost function State(): StreamState
      reads this
    {
      StreamState(scriptProcess.Some?, processes, armed, firstIteration, lastAsyncError,
                  if pendingLine == "" then None else Some(Line(processes, pendingIndex, pendingLine)),
                  emitted, emission, returned)
    }

    constructor ()
      ensures State() == INITIAL
    {
      scriptProcess, armed, firstIteration, lastAsyncError, pendingLine := None, false, true, false, "";
      processes, pendingIndex, emitted, emission, returned := 0, 0, 0, [], [];
    }

    method ExtractLine(line: string)
      modifies this
      ensures State() == Extract(old(State()), line) && scriptProcess == old(scriptProcess)
    {
      lastAsyncError := false;
      emission := emission + [Line(processes, emitted, line)];
      emitted := emitted + 1;
      if firstIteration {
        firstIteration := false;
        return;
      }
      pendingIndex := emitted - 1;
      pendingLine := line;
    }

    ghost method Completed(lines: seq<string>)
      modifies this`emitted, this`emission
      ensures State() == Skip(old(State()), lines)
    {
      emission := emission + LinesOf(State(), lines);
      emitted := emitted + |lines|;
    }

    /** Runs the ready handlers, then hands out the pending line unless the last read failed. */
    method ReadOutput(e: Env) returns (data: Option<string>, error: bool)
      modifies this
      ensures var t := Poll(old(State()), e);
              && error == t.failed
              && data == (if t.failed || t.pending.None? then None else Some(t.pending.value.text))
              && State() == if data.None? then t else t.(pending := None, returned := t.returned + [t.pending.value])
      ensures scriptProcess == old(scriptProcess)
    {
      if armed {
        for i := 0 to |e.lines|
          invariant State() == ExtractAll(old(State()), e.lines, i) && armed && scriptProcess == old(scriptProcess)
        {
          ExtractLine(e.lines[i]);
        }
        if e.readFails {
          lastAsyncError, armed := true, false;
          Completed(e.unread);
        }
      } else {
        Completed(e.lines);
      }
      error := lastAsyncError;
      if lastAsyncError || pendingLine == "" {
        return None, error;
      }
      data := Some(pendingLine);
      returned := returned + [Line(processes, pendingIndex, pendingLine)];
      pendingLine := "";
    }

    method CleanupProcess(e: Env) returns (ok: bool)
      modifies this
      ensures ok == !(old(scriptProcess).Some? && e.running && !e.cleanupOk)
      ensures State() == if ok then Cleaned(old(State())) else old(State())
    {
      if scriptProcess.Some? && e.running && !e.cleanupOk {
        return false;
      }
      scriptProcess, armed, pendingLine, firstIteration := None, false, "", true;
      emitted := 0;
      ok := true;
    }

    method StartScript(e: Env, pid: nat) returns (ok: bool)
      modifies this
      ensures State() == Start(old(State()), e)
    {
      ok := CleanupProcess(e);
      if !ok || !e.spawnOk {
        return false;
      }
      scriptProcess, armed := Some(pid), true;
      processes := processes + 1;
    }

    /** The line to report, if any. */
    method GatherMetrics(e: Env, pid: nat) returns (data: Option<string>)
      modifies this
      ensures State() == Gather(old(State()), e)
      ensures if data.None? then returned == old(returned)
              else exists l :: returned == old(returned) + [l] && l.text == data.value
    {
      PollReturnsNothing(State(), e);
      if scriptProcess.None? || !e.running {
        if scriptProcess.Some? {
          Completed(e.lines);
        }
        var started := StartScript(e, pid);
        return None;
      }
      var error;
      data, error := ReadOutput(e);
      if error {
        var restarted := StartScript(e, pid);
        return None;
      }
    }
  }

  lemma {:induction false} ExtractAllReturnsNothing(s: StreamState, lines: seq<string>, n: nat)
    requires n <= |lines|
    ensures var t := ExtractAll(s, lines, n);
            t.returned == s.returned && t.alive == s.alive && t.process == s.process && t.armed == s.armed
  {
    if n > 0 {
      ExtractAllReturnsNothing(s, lines, n - 1);
    }
  }

  lemma PollReturnsNothing(s: StreamState, e: Env)
    ensures Poll(s, e).returned == s.returned && Poll(s, e).alive == s.alive && Poll(s, e).process == s.process
  {
    ExtractAllReturnsNothing(s, e.lines, |e.lines|);
  }

  // ---------- whole runs ----------

  function After(es: seq<Env>, n: nat): StreamState
    requires n <= |es|
  {
    if n == 0 then INITIAL else Gather(After(es, n - 1), es[n - 1])
  }

  /** Emitted earlier: by an earlier process, or earlier by the same one. */
  predicate Precedes(a: Line, b: Line) {
    a.process < b.process || (a.process == b.process && a.index < b.index)
  }

  ghost predicate InOrder(ls: seq<Line>) {
    forall i, j :: 0 <= i < j < |ls| ==> Precedes(ls[i], ls[j])
  }

  /** The next line of the current process comes after everything emitted so far. */
  function Next(s: StreamState): Line {
    Line(s.process, s.emitted, "")
  }

  ghost predicate Sound(s: StreamState) {
    && (s.armed ==> s.alive) && (s.pending.Some? ==> s.alive)
    && (s.armed ==> (s.firstIteration <==> s.emitted == 0))
    && InOrder(s.emission) && InOrder(s.returned)
    && (forall i :: 0 <= i < |s.emission| ==>
        s.emission[i].process <= s.process && (s.alive ==> Precedes(s.emission[i], Next(s))))
    && (forall i :: 0 <= i < |s.returned| ==> s.returned[i] in s.emission && IsData(s.returned[i]))
    && (s.pending.Some? ==>
        && s.pending.value in s.emission && IsData(s.pending.value) && s.pending.value.process == s.process
        && forall i :: 0 <= i < |s.returned| ==> Precedes(s.returned[i], s.pending.value))
  }

  lemma ExtractIsSound(s: StreamState, text: string)
    requires Sound(s) && s.armed
    ensures Sound(Extract(s, text))
  {
  }

  lemma {:induction false} ExtractAllIsSound(s: StreamState, lines: seq<string>, n: nat)
    requires Sound(s) && s.armed && n <= |lines|
    ensures Sound(ExtractAll(s, lines, n)) && ExtractAll(s, lines, n).armed
  {
    if n > 0 {
      ExtractAllIsSound(s, lines, n - 1);
      ExtractIsSound(ExtractAll(s, lines, n - 1), lines[n - 1]);
    }
  }

  lemma SkipIsSound(s: StreamState, lines: seq<string>)
    requires Sound(s) && s.alive && !s.armed
    ensures Sound(Skip(s, lines))
  {
    var more := LinesOf(s, lines);
    assert forall l :: l in s.emission ==> l in s.emission + more;
  }

  lemma StartIsSound(s: StreamState, e: Env)
    requires Sound(s)
    ensures Sound(Start(s, e)) && Start(s, e).returned == s.returned
  {
  }

  lemma HandOutIsSound(s: StreamState)
    requires Sound(s) && s.pending.Some?
    ensures Sound(s.(pending := None, returned := s.returned + [s.pending.value]))
  {
  }

  /** One call keeps the stream sound and returns at most one line: a data line, never the header, and a
      line of the process now running. */
  lemma GatherIsSound(s: StreamState, e: Env)
    requires Sound(s)
    ensures Sound(Gather(s, e))
    ensures Gather(s, e).returned == s.returned
            || exists l :: Gather(s, e).returned == s.returned + [l] && IsData(l)
                           && l.process == Gather(s, e).process == s.process
  {
    hide Extract, Sound;
    if !s.alive {
      StartIsSound(s, e);
    } else if !e.running {
      ExitIsSound(s, e);
    } else {
      PollIsSound(s, e);
      PollReturnsNothing(s, e);
      var t := Poll(s, e);
      if t.failed {
        StartIsSound(t, e);
      } else if t.pending.Some? {
        HandOutIsSound(t);
        PendingIsCurrent(t);
      }
    }
  }

  /** A process found exited: no read of it is ever handled, so it can be taken as unarmed. */
  lemma ExitIsSound(s: StreamState, e: Env)
    requires Sound(s) && s.alive && !e.running
    ensures Sound(Start(Skip(s, e.lines), e)) && Start(Skip(s, e.lines), e).returned == s.returned
  {
    var t := s.(armed := false);
    SkipIsSound(t, e.lines);
    StartIsSound(Skip(t, e.lines), e);
    assert Start(Skip(t, e.lines), e) == Start(Skip(s, e.lines), e);
  }

  lemma PendingIsCurrent(s: StreamState)
    requires Sound(s) && s.pending.Some?
    ensures IsData(s.pending.value) && s.pending.value.process == s.process
  {
  }

  lemma PollIsSound(s: StreamState, e: Env)
    requires Sound(s) && s.alive
    ensures Sound(Poll(s, e))
  {
    if s.armed {
      ExtractAllIsSound(s, e.lines, |e.lines|);
      if e.readFails {
        var t := ExtractAll(s, e.lines, |e.lines|);
        FailureIsSound(t);
        SkipIsSound(t.(failed := true, armed := false), e.unread);
      }
    } else {
      SkipIsSound(s, e.lines);
    }
  }

  lemma FailureIsSound(s: StreamState)
    requires Sound(s)
    ensures Sound(s.(failed := true, armed := false))
  {
  }

  /** Over any run, restarts and read errors included: what was returned are data lines that were completed,
      in that order, each at most once. */
  lemma {:induction false} ReturnedInOrder(es: seq<Env>, n: nat)
    requires n <= |es|
    ensures Sound(After(es, n))
    ensures var s := After(es, n);
            && InOrder(s.emission) && InOrder(s.returned)
            && forall i :: 0 <= i < |s.returned| ==> s.returned[i] in s.emission && s.returned[i].index > 0
  {
    if n > 0 {
      hide Gather;
      ReturnedInOrder(es, n - 1);
      GatherIsSound(After(es, n - 1), es[n - 1]);
    }
  }

  // ---------- what is lost ----------

  function DataOf(ls: seq<Line>): seq<Line> {
    if ls == [] then []
    else DataOf(ls[..|ls| - 1]) + if IsData(ls[|ls| - 1]) then [ls[|ls| - 1]] else []
  }

  lemma {:induction false} DataOfConcat(a: seq<Line>, b: seq<Line>)
    ensures DataOf(a + b) == DataOf(a) + DataOf(b)
  {
    if b == [] {
      assert a + b == a;
    } else {
      DataOfConcat(a, b[..|b| - 1]);
      assert (a + b)[..|a + b| - 1] == a + b[..|b| - 1];
    }
  }

  lemma {:induction false} NoDataIff(ls: seq<Line>)
    ensures DataOf(ls) == [] <==> forall j :: 0 <= j < |ls| ==> !IsData(ls[j])
  {
    if ls != [] {
      NoDataIff(ls[..|ls| - 1]);
    }
  }

  /** Nothing is held back between calls, save where a failed read has ended the reading of a process. */
  predicate Settled(s: StreamState) {
    && (s.armed ==> s.alive && s.pending.None? && (s.firstIteration <==> s.emitted == 0))
    && (s.alive && !s.armed ==> s.failed)
  }

  /** Each line of a poll replaces the one before it as pending. */
  lemma {:induction false} BurstPending(s: StreamState, lines: seq<string>, n: nat)
    requires Settled(s) && s.armed && n <= |lines|
    ensures var t := ExtractAll(s, lines, n);
            && t.alive && t.armed && t.emitted == s.emitted + n && (t.firstIteration <==> t.emitted == 0)
            && t.failed == (n == 0 && s.failed) && t.process == s.process && t.returned == s.returned
            && t.emission == s.emission + LinesOf(s, lines[..n])
            && t.pending == if n > 0 && IsData(LineAt(s, lines, n - 1)) then Some(LineAt(s, lines, n - 1)) else None
  {
    if n > 0 {
      BurstPending(s, lines, n - 1);
      assert LinesOf(s, lines[..n]) == LinesOf(s, lines[..n - 1]) + [LineAt(s, lines, n - 1)];
    } else {
      assert s.emission + LinesOf(s, lines[..0]) == s.emission;
    }
  }

  /** The call polls the process and no read fails. */
  predicate Polls(s: StreamState, e: Env) {
    s.alive && e.running && s.armed && !e.readFails
  }

  /** Everything the process has completed since the last call. */
  function CompletedBy(s: StreamState, e: Env): seq<string> {
    if !s.alive then [] else if e.running && s.armed && e.readFails then e.lines + e.unread else e.lines
  }

  /** Of a burst only the last line is returned, and nothing when that one is empty or the header. */
  lemma BurstKeepsLast(s: StreamState, e: Env)
    requires Settled(s) && Polls(s, e) && |e.lines| >= 1
    ensures Settled(Gather(s, e)) && !Gather(s, e).failed
    ensures Gather(s, e).emission == s.emission + LinesOf(s, e.lines)
    ensures var last := LineAt(s, e.lines, |e.lines| - 1);
            Gather(s, e).returned == s.returned + if IsData(last) then [last] else []
  {
    hide Extract, IsData;
    BurstPending(s, e.lines, |e.lines|);
    assert s.returned + [] == s.returned && e.lines[..|e.lines|] == e.lines;
  }

  lemma SkipTwice(s: StreamState, a: seq<string>, b: seq<string>)
    ensures LinesOf(s, a) + LinesOf(Skip(s, a), b) == LinesOf(s, a + b)
  {
  }

  /** A call that does not poll, or polls in vain, returns nothing. */
  lemma NothingReturned(s: StreamState, e: Env)
    requires Settled(s) && !(Polls(s, e) && |e.lines| >= 1)
    ensures Settled(Gather(s, e)) && Gather(s, e).returned == s.returned
    ensures Gather(s, e).emission == s.emission + LinesOf(s, CompletedBy(s, e))
  {
    hide Extract, IsData;
    assert s.emission + [] == s.emission;
    if s.alive && e.running && s.armed {
      BurstPending(s, e.lines, |e.lines|);
      assert e.lines[..|e.lines|] == e.lines;
      if e.readFails {
        SkipTwice(s, e.lines, e.unread);
      }
    }
  }

  /** How many data lines have been completed but not returned. */
  function Missing(s: StreamState): int {
    |DataOf(s.emission)| - |s.returned|
  }

  /** Nothing the process has completed since the last call is data, save the last line of a poll without
      a read error. In particular a process that has exited, or can no longer be read, completed no data. */
  predicate OnlyLastIsData(s: StreamState, e: Env) {
    var lines := CompletedBy(s, e);
    forall j :: 0 <= j < |lines| - (if Polls(s, e) then 1 else 0) ==> !IsData(LineAt(s, lines, j))
  }

  lemma LinesOfPrefix(s: StreamState, lines: seq<string>, n: nat)
    requires n <= |lines|
    ensures DataOf(LinesOf(s, lines[..n])) == [] <==> forall j :: 0 <= j < n ==> !IsData(LineAt(s, lines, j))
  {
    hide IsData;
    var ls := LinesOf(s, lines[..n]);
    assert forall j :: 0 <= j < n ==> ls[j] == LineAt(s, lines, j);
    NoDataIff(ls);
  }

  lemma DataOfBurst(s: StreamState, lines: seq<string>)
    requires lines != []
    ensures var last := LineAt(s, lines, |lines| - 1);
            DataOf(LinesOf(s, lines))
            == DataOf(LinesOf(s, lines[..|lines| - 1])) + if IsData(last) then [last] else []
  {
    assert LinesOf(s, lines)[..|lines| - 1] == LinesOf(s, lines[..|lines| - 1]);
  }

  /** One call never makes up for a lost line, and it loses none exactly when only the last line of its
      poll is data. */
  lemma LossOfOneCall(s: StreamState, e: Env)
    requires Settled(s)
    ensures Settled(Gather(s, e))
    ensures Missing(Gather(s, e)) >= Missing(s)
    ensures Missing(Gather(s, e)) == Missing(s) <==> OnlyLastIsData(s, e)
    ensures s.returned == DataOf(s.emission) && OnlyLastIsData(s, e)
            ==> Gather(s, e).returned == DataOf(Gather(s, e).emission)
  {
    hide Gather, DataOf, IsData, LinesOf, Settled;
    var lines := CompletedBy(s, e);
    DataOfConcat(s.emission, LinesOf(s, lines));
    if Polls(s, e) && |e.lines| >= 1 {
      BurstKeepsLast(s, e);
      DataOfBurst(s, lines);
      LinesOfPrefix(s, lines, |lines| - 1);
    } else {
      NothingReturned(s, e);
      LinesOfPrefix(s, lines, |lines|);
      assert lines[..|lines|] == lines;
    }
  }

  ghost predicate OnlyLastLinesAreData(es: seq<Env>, n: nat)
    requires n <= |es|
  {
    forall i :: 0 <= i < n ==> OnlyLastIsData(After(es, i), es[i])
  }

  lemma OneCallMore(es: seq<Env>, n: nat)
    requires 0 < n <= |es|
    ensures OnlyLastLinesAreData(es, n)
            <==> OnlyLastLinesAreData(es, n - 1) && OnlyLastIsData(After(es, n - 1), es[n - 1])
  {
    hide After, OnlyLastIsData;
  }

  lemma NothingLostAtFirst(es: seq<Env>)
    ensures Settled(INITIAL) && Missing(INITIAL) == 0 && INITIAL.returned == DataOf(INITIAL.emission)
    ensures OnlyLastLinesAreData(es, 0)
  {
  }

  lemma NoneMissing(s: StreamState)
    ensures s.returned == DataOf(s.emission) ==> Missing(s) == 0
  {
  }

  /** Over any run, with exits, restarts and read errors: every data line that any process completed was
      returned if and only if at every call only the last line of a healthy poll was data. */
  lemma {:induction false} NothingLostIff(es: seq<Env>, n: nat)
    requires n <= |es|
    ensures Settled(After(es, n)) && Missing(After(es, n)) >= 0
    ensures After(es, n).returned == DataOf(After(es, n).emission) <==> Missing(After(es, n)) == 0
    ensures After(es, n).returned == DataOf(After(es, n).emission) <==> OnlyLastLinesAreData(es, n)
  {
    hide Gather, OnlyLastIsData, OnlyLastLinesAreData, DataOf, Settled, Missing;
    if n == 0 {
      NothingLostAtFirst(es);
    } else {
      OneCallMore(es, n);
      NothingLostIff(es, n - 1);
      LossOfOneCall(After(es, n - 1), es[n - 1]);
      NoneMissing(After(es, n));
    }
  }

  /** At most one data line completes between two calls (with the header before it at first), and none
      beside the header when the process has exited or is no longer read. */
  predicate Unhurried(s: StreamState, e: Env) {
    |CompletedBy(s, e)| <= (if s.emitted == 0 then 1 else 0) + (if Polls(s, e) then 1 else 0)
  }

  /** So at that pace every data line is returned. */
  lemma NothingLost(es: seq<Env>, n: nat)
    requires n <= |es| && forall i :: 0 <= i < n ==> Unhurried(After(es, i), es[i])
    ensures After(es, n).returned == DataOf(After(es, n).emission)
  {
    hide After, DataOf, Settled;
    NothingLostIff(es, n);
  }

  /** One data line between two calls is lost when the process exits after it: a header, a line, an exit. */
  lemma ExitLosesALine(line: string)
    requires line != ""
    ensures var es := [Env(false, [], false, [], true, true), Env(true, ["header"], false, [], true, true),
                       Env(false, [line], false, [], true, true)];
            After(es, 3).emission == [Line(1, 0, "header"), Line(1, 1, line)] && After(es, 3).returned == []
  {
    var es := [Env(false, [], false, [], true, true), Env(true, ["header"], false, [], true, true),
               Env(false, [line], false, [], true, true)];
    assert After(es, 1) == Start(INITIAL, es[0]);
    assert After(es, 2) == Gather(After(es, 1), es[1]);
    assert ExtractAll(After(es, 1), es[1].lines, 1) == Extract(After(es, 1), "header");
  }

  // ---------- read errors ----------

  /** The poll cannot clear an old read error: no read is outstanding, or none of its reads completes, or
      the last one fails again. */
  predicate StillFailing(s: StreamState, e: Env) {
    !s.armed || e.lines == [] || e.readFails
  }

  lemma ALineClearsTheError(s: StreamState, lines: seq<string>, n: nat)
    requires 0 < n <= |lines|
    ensures !ExtractAll(s, lines, n).failed
  {
  }

  /** After a read error a poll replaces the running process, provided that works, unless a line completes
      and no further read fails. */
  lemma ReplacedIff(s: StreamState, e: Env)
    requires s.alive && s.failed && e.running
    ensures var t := Gather(s, e);
            && (t.process != s.process <==> StillFailing(s, e) && e.cleanupOk && e.spawnOk)
            && (t.process != s.process ==>
                t.process == s.process + 1 && t.alive && t.failed && t.armed && t.returned == s.returned)
            && (!StillFailing(s, e) ==> t.alive && !t.failed && t.armed)
  {
    hide Extract;
    ExtractAllReturnsNothing(s, e.lines, |e.lines|);
    if e.lines != [] {
      assert !ExtractAll(s, e.lines, |e.lines|).failed by { ALineClearsTheError(s, e.lines, |e.lines|); }
    } else {
      assert ExtractAll(s, e.lines, 0) == s;
    }
  }

  ghost predicate AllStillFailing(es: seq<Env>, m: nat, n: nat)
    requires m <= n <= |es|
  {
    forall i :: m <= i < n ==> StillFailing(After(es, i), es[i])
  }

  lemma NoneYet(es: seq<Env>, m: nat)
    requires m <= |es|
    ensures AllStillFailing(es, m, m)
  {
  }

  lemma OneFailureMore(es: seq<Env>, m: nat, n: nat)
    requires m < n <= |es|
    ensures AllStillFailing(es, m, n) <==> AllStillFailing(es, m, n - 1) && StillFailing(After(es, n - 1), es[n - 1])
  {
    hide After, StillFailing;
  }

  /** A read error outlives the restart it causes. Over any number of later polls, each one kills the
      process it finds if and only if each one is still failing: the first completed line ends it. */
  lemma {:induction false} ErrorRestartsUntilALine(es: seq<Env>, m: nat, n: nat)
    requires m <= n <= |es| && After(es, m).alive && After(es, m).failed
    requires forall i :: m <= i < n ==> es[i].running && es[i].cleanupOk && es[i].spawnOk
    ensures var a, b := After(es, m), After(es, n);
            && b.process <= a.process + (n - m)
            && (b.process == a.process + (n - m) <==> AllStillFailing(es, m, n))
            && (b.process == a.process + (n - m) ==> b.alive && b.failed && b.returned == a.returned)
  {
    hide Gather, StillFailing, AllStillFailing;
    if m == n {
      assert AllStillFailing(es, m, n) by { NoneYet(es, m); }
    } else {
      OneFailureMore(es, m, n);
      ErrorRestartsUntilALine(es, m, n - 1);
      var s, e := After(es, n - 1), es[n - 1];
      GatherStartsAtMostOne(s, e);
      if s.process == After(es, m).process + (n - 1 - m) {
        ReplacedIff(s, e);
      }
    }
  }

  /** For any state: a new process is started exactly when it can be and there is none, the present one has
      exited, or the poll ends in an error and it can be stopped. */
  lemma StartsIff(s: StreamState, e: Env)
    ensures Gather(s, e).process != s.process
            <==> e.spawnOk && (!s.alive || !e.running || (Poll(s, e).failed && e.cleanupOk))
    ensures Gather(s, e).process != s.process ==>
        var t := Gather(s, e);
        t.process == s.process + 1 && t.alive && t.armed && t.firstIteration && t.emitted == 0 && t.pending == None
  {
    PollReturnsNothing(s, e);
  }

  lemma GatherStartsAtMostOne(s: StreamState, e: Env)
    ensures s.process <= Gather(s, e).process <= s.process + 1
  {
    PollReturnsNothing(s, e);
  }
}
