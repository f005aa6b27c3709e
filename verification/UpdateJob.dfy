/** The self-update job: a record on disk that outlives the process, a worker
    thread that does not, and a log kept to its last characters. */
module UpdateJob {
  import opened Basics

  datatype Status = Idle | Running | Restarting | Done | Failed

  /** The persisted record. */
  datatype File = File(status: Status, log: string, code: Option<int>)

  /** Where a worker thread stands: created; inside update_now; update_now
      returned but nothing saved; final state saved. */
  datatype Phase = Created | Working | Returned(code: int) | Leaving

  /** threads: the worker threads alive in this process. job: the one created
      last, if any. */
  datatype State = State(up: bool, file: File, threads: map<nat, Phase>, job: Option<nat>, next: nat)

  /** returned: what update_now of the latest job gave. saved: whether that
      outcome was saved. full: the log as it would be without the cap. stranded:
      the latest worker ended before its first save, in this or a dead process. */
  datatype Trace = Trace(returned: Option<int>, saved: bool, full: string, stranded: bool)

  const INITIAL := State(false, File(Status.Idle, "", None), map[], None, 0)
  const NO_TRACE := Trace(None, false, "", false)

  datatype Op =
    | Boot(version: string)               // the process starts and reconciles
    | Die                                 // the process ends, at any moment
    | Start                               // a start request
    | Abandon(t: nat)                     // worker: an exception outside the try block
    | Begin(t: nat, version: string)      // worker: first save
    | Line(t: nat, text: string)          // worker: one line of output
    | Return(t: nat, code: int)           // worker: update_now returned
    | Finish(t: nat, dev: bool)           // worker: outcome saved
    | Raise(t: nat, text: string)         // worker: an exception, saved
    | Exit(t: nat)                        // worker: the thread ends

  predicate Enabled(s: State, op: Op) {
    match op
    case Boot(_) => !s.up
    case Die => s.up
    case Start => s.up
    case Abandon(t) => t in s.threads && s.threads[t] == Created
    case Begin(t, _) => t in s.threads && s.threads[t] == Created
    case Line(t, _) => t in s.threads && s.threads[t] == Working
    case Return(t, _) => t in s.threads && s.threads[t] == Working
    case Finish(t, _) => t in s.threads && s.threads[t].Returned?
    case Raise(t, _) => t in s.threads && s.threads[t] != Leaving
    case Exit(t) => t in s.threads && s.threads[t] == Leaving
  }

  /** The last n characters. */
  function Last(n: nat, s: string): string {
    if |s| > n then s[|s| - n..] else s
  }

  function Terminated(line: string): string {
    if line != "" && line[|line| - 1] == '\n' then line else line + "\n"
  }

  /** _append_log before the cap: a line of its own. */
  function Appended(log: string, line: string): string {
    (if log != "" && log[|log| - 1] != '\n' then log + "\n" else log) + Terminated(line)
  }

  predicate Busy(f: File) { f.status == Running || f.status == Restarting }

  predicate WillStart(s: State) {
    !(s.job.Some? && s.job.value in s.threads) && !Busy(s.file)
  }

  const STARTING := "Starting update…\n"
  const INTERRUPTED := "\nUpdate interrupted (service restarted or crashed).\n"
  const WAITING := "Waiting for console to come back…\n"
  const DEV_FINISHED := "\n[dev] restart skipped — update finished.\n"

  function BackText(version: string): string { "\nConsole is back. Version " + version + ".\n" }

  function FromText(version: string): string { "Starting update from " + version + "…\n" }

  function RaiseText(text: string): string { "\n" + text + "\n" }

  /** What an operation does to the log: nothing, a new text, more text, or one
      more line. */
  datatype Edit = Keep | Replace(text: string) | Append(text: string) | AppendLine(text: string)

  function Edited(log: string, e: Edit): string {
    match e
    case Keep => log
    case Replace(text) => text
    case Append(text) => log + text
    case AppendLine(text) => Appended(log, text)
  }

  function EditOf(s: State, op: Op): Edit {
    match op
    case Boot(version) =>
      if s.file.status == Restarting then Append(BackText(version))
      else if s.file.status == Running then Append(INTERRUPTED)
      else Keep
    case Start => if WillStart(s) then Replace(STARTING) else Keep
    case Begin(_, version) => Replace(FromText(version))
    case Line(_, text) => AppendLine(text)
    case Finish(t, dev) =>
      if t in s.threads && s.threads[t].Returned? && s.threads[t].code == 0 then
        Append(if dev then DEV_FINISHED else WAITING)
      else Append("")
    case Raise(_, text) => Append(RaiseText(text))
    case _ => Keep
  }

  /** Status, code and threads after an operation; the log is left alone. */
  function Move(s: State, op: Op): State
    requires Enabled(s, op)
  {
    match op
    case Boot(_) =>
      var file :=
        if s.file.status == Restarting then s.file.(status := Done, code := Some(0))
        else if s.file.status == Running then s.file.(status := Failed, code := Some(1))
        else s.file;
      s.(up := true, file := file, job := None)
    case Die => s.(up := false, threads := map[])
    case Start =>
      if WillStart(s) then
        s.(file := s.file.(status := Running, code := None), threads := s.threads[s.next := Created],
           job := Some(s.next), next := s.next + 1)
      else s
    case Abandon(t) => s.(threads := s.threads - {t})
    case Begin(t, _) => s.(file := s.file.(status := Running, code := None), threads := s.threads[t := Working])
    case Line(_, _) => s
    case Return(t, code) => s.(threads := s.threads[t := Returned(code)])
    case Finish(t, dev) =>
      var code := s.threads[t].code;
      var file :=
        if code != 0 then s.file.(status := Failed, code := Some(code))
        else if dev then s.file.(status := Done, code := Some(0))
        else s.file.(status := Restarting);
      s.(file := file, threads := s.threads[t := Leaving])
    case Raise(t, _) =>
      s.(file := s.file.(status := Failed, code := Some(1)), threads := s.threads[t := Leaving])
    case Exit(t) => s.(threads := s.threads - {t})
  }

  /** The stored log: capped whenever it is written. */
  function Stored(cap: nat, log: string, e: Edit): string {
    if e == Keep then log else Last(cap, Edited(log, e))
  }

  function Step(cap: nat, s: State, op: Op): State {
    if !Enabled(s, op) then s
    else
      var s' := Move(s, op);
      s'.(file := s'.file.(log := Stored(cap, s.file.log, EditOf(s, op))))
  }

  function Note(s: State, t: Trace, op: Op): Trace {
    if !Enabled(s, op) then t
    else
      Trace(
        if op.Start? && WillStart(s) then None else if op.Return? then Some(op.code) else t.returned,
        if op.Start? && WillStart(s) then false else if op.Finish? then true else t.saved,
        Edited(t.full, EditOf(s, op)),
        op.Abandon? || (t.stranded && !op.Boot?))
  }

  function Run(cap: nat, ops: seq<Op>): (State, Trace) {
    if ops == [] then (INITIAL, NO_TRACE)
    else
      var before := Run(cap, ops[..|ops| - 1]);
      var op := ops[|ops| - 1];
      (Step(cap, before.0, op), Note(before.0, before.1, op))
  }

  // ----- The capped log is a suffix of the whole log -----

  lemma LastOfConcat(cap: nat, log: string, more: string)
    ensures Last(cap, Last(cap, log) + more) == Last(cap, log + more)
  {
  }

  /** What appending a line adds to a log. */
  function Addition(log: string, line: string): string {
    if log != "" && log[|log| - 1] != '\n' then "\n" + Terminated(line) else Terminated(line)
  }

  lemma AppendedIs(log: string, line: string)
    ensures Appended(log, line) == log + Addition(log, line)
  {
  }

  lemma AdditionOfLast(cap: nat, log: string, line: string)
    requires cap > 0
    ensures Addition(Last(cap, log), line) == Addition(log, line)
  {
    var kept := Last(cap, log);
    assert log != "" ==> kept != "" && kept[|kept| - 1] == log[|log| - 1];
  }

  lemma LastOfAppended(cap: nat, log: string, line: string)
    requires cap > 0
    ensures Last(cap, Appended(Last(cap, log), line)) == Last(cap, Appended(log, line))
  {
    AppendedIs(Last(cap, log), line);
    AppendedIs(log, line);
    AdditionOfLast(cap, log, line);
    LastOfConcat(cap, log, Addition(log, line));
  }

  lemma LastAgain(cap: nat, s: string)
    ensures Last(cap, Last(cap, s)) == Last(cap, s)
  {
  }

  /** Capping at every save loses nothing that capping once would keep. */
  lemma CapCommutes(cap: nat, full: string, e: Edit)
    requires cap > 0
    ensures Last(cap, Edited(Last(cap, full), e)) == Last(cap, Edited(full, e))
  {
    match e
    case Keep => LastAgain(cap, full);
    case Replace(_) =>
    case Append(text) => LastOfConcat(cap, full, text);
    case AppendLine(text) => LastOfAppended(cap, full, text);
  }

  lemma StoredIsLast(cap: nat, full: string, e: Edit)
    requires cap > 0
    ensures Stored(cap, Last(cap, full), e) == Last(cap, Edited(full, e))
  {
    CapCommutes(cap, full, e);
  }

  // ----- Invariants over any interleaving -----

  /** At most the latest worker is alive, and none when the process is down. */
  ghost predicate OneWorker(s: State) {
    && (forall t :: t in s.threads ==> s.job == Some(t) && s.up)
    && (s.job.Some? ==> s.job.value < s.next)
  }

  /** A worker that is not done with its job. */
  ghost predicate Unfinished(s: State) {
    exists w :: w in s.threads && s.threads[w] != Leaving
  }

  /** How the persisted state, the worker and the job's outcome agree. */
  ghost predicate Honest(s: State, t: Trace) {
    && (s.file.status in {Done, Restarting} <==> t.saved && t.returned == Some(0))
    && (s.up && s.file.status == Running ==> Unfinished(s) || t.stranded)
    && (t.stranded ==> s.file.status == Running && s.threads == map[])
    && (forall w :: w in s.threads ==>
         && (s.threads[w] != Leaving ==> s.file.status == Running && !t.saved)
         && (s.threads[w].Returned? ==> t.returned == Some(s.threads[w].code)))
  }

  ghost predicate Inv(cap: nat, s: State, t: Trace) {
    && OneWorker(s)
    && Honest(s, t)
    && s.file.log == Last(cap, t.full)
  }

  lemma StatusKeeps(cap: nat, s: State, t: Trace, op: Op)
    requires OneWorker(s) && Honest(s, t)
    ensures OneWorker(Step(cap, s, op)) && Honest(Step(cap, s, op), Note(s, t, op))
  {
    if Enabled(s, op) {
      match op
      case Start => StartKeeps(cap, s, t);
      case Begin(w, _) => assert w in Step(cap, s, op).threads;
      case Line(w, _) => assert w in Step(cap, s, op).threads;
      case Return(w, _) => assert w in Step(cap, s, op).threads;
      case _ =>
    }
  }

  lemma StartKeeps(cap: nat, s: State, t: Trace)
    requires OneWorker(s) && Honest(s, t) && s.up
    ensures OneWorker(Step(cap, s, Start)) && Honest(Step(cap, s, Start), Note(s, t, Start))
  {
    var s' := Step(cap, s, Start);
    if WillStart(s) {
      assert s.threads == map[] by {
        assert forall w :: w !in s.threads;
      }
      assert s.next in s'.threads && s'.threads[s.next] == Created;
    }
  }

  lemma {:induction false} RunKeeps(cap: nat, ops: seq<Op>)
    requires cap > 0
    ensures Inv(cap, Run(cap, ops).0, Run(cap, ops).1)
  {
    if ops != [] {
      var s, t := Run(cap, ops[..|ops| - 1]).0, Run(cap, ops[..|ops| - 1]).1;
      var op := ops[|ops| - 1];
      RunKeeps(cap, ops[..|ops| - 1]);
      StatusKeeps(cap, s, t, op);
      StoredIsLast(cap, t.full, EditOf(s, op));
    }
  }

  /** Over any interleaving of requests, worker steps, deaths and boots: no two
      workers are alive; "done" (or "restarting") means exactly that the latest
      job's update_now returned 0 and that this was saved; a live process shows
      "running" exactly while a worker is on it or the latest one ended before its
      first save; and the stored log is the last characters of the log that would
      exist without the cap. */
  lemma JobIsHonest(cap: nat, ops: seq<Op>)
    requires cap > 0
    ensures var (s, t) := Run(cap, ops);
            && (forall a, b :: a in s.threads && b in s.threads ==> a == b)
            && (s.file.status in {Done, Restarting} <==> t.saved && t.returned == Some(0))
            && (s.up ==> (s.file.status == Running <==> Unfinished(s) || t.stranded))
            && s.file.log == Last(cap, t.full)
  {
    RunKeeps(cap, ops);
  }

  /** Right after a boot the state is settled, and "done" still means exactly that
      the latest job's update_now returned 0 and that this was saved. */
  lemma BootSettles(cap: nat, ops: seq<Op>, version: string)
    requires cap > 0 && !Run(cap, ops).0.up
    ensures var (s, t) := Run(cap, ops + [Boot(version)]);
            && s.up && s.threads == map[] && !Busy(s.file)
            && (s.file.status == Done <==> t.saved && t.returned == Some(0))
            && (Run(cap, ops).0.file.status == Running ==> s.file.status == Failed && s.file.code == Some(1))
  {
    var all := ops + [Boot(version)];
    assert all[..|all| - 1] == ops;
    RunKeeps(cap, ops);
    RunKeeps(cap, all);
    assert Run(cap, ops).0.threads == map[] by {
      assert forall w :: w !in Run(cap, ops).0.threads;
    }
  }

  /** Over any run: when the process dies and the next one boots, the job is newly
      reported as failed exactly if its worker had not saved an outcome, whether
      update_now was still at work, or had returned, with 0 or not, or the worker
      was gone before its first save. */
  lemma DeathBeforeSaveFails(cap: nat, ops: seq<Op>, version: string)
    requires cap > 0 && Run(cap, ops).0.up
    ensures var (s, t) := Run(cap, ops);
            var s' := Run(cap, ops + [Die] + [Boot(version)]).0;
            && (s.file.status != Failed && s'.file.status == Failed <==> Unfinished(s) || t.stranded)
            && (Unfinished(s) ==> s'.file.status == Failed && s'.file.code == Some(1))
  {
    RunKeeps(cap, ops);
    RunNext(cap, ops, Die);
    RunNext(cap, ops + [Die], Boot(version));
  }

  lemma RunNext(cap: nat, ops: seq<Op>, op: Op)
    ensures Run(cap, ops + [op]).0 == Step(cap, Run(cap, ops).0, op)
    ensures Run(cap, ops + [op]).1 == Note(Run(cap, ops).0, Run(cap, ops).1, op)
  {
    assert (ops + [op])[..|ops|] == ops;
  }

  // ----- What a request and an outcome do -----

  /** Over any run: a request to a live process starts a worker exactly if none is
      alive and no job is under way or restarting, so also after a failure; else it
      changes nothing. */
  lemma StartsIffFree(cap: nat, ops: seq<Op>)
    requires cap > 0 && Run(cap, ops).0.up
    ensures var s, s' := Run(cap, ops).0, Run(cap, ops + [Start]).0;
            if s.threads == map[] && s.file.status in {Status.Idle, Done, Failed}
            then s'.threads == map[s.next := Created] && s'.file == File(Running, Last(cap, STARTING), None)
            else s' == s
  {
    RunKeeps(cap, ops);
    RunNext(cap, ops, Start);
    var s := Run(cap, ops).0;
    if s.threads != map[] {
      var t :| t in s.threads;
    }
  }

  /** Over any run, when a worker saves the outcome of its job: a failure is shown
      with its code; a success is shown at once in development, and otherwise as a
      restart that the next boot turns into a success. */
  lemma OutcomeShown(cap: nat, ops: seq<Op>, t: nat, dev: bool, version: string)
    requires cap > 0 && Enabled(Run(cap, ops).0, Finish(t, dev))
    ensures var code := Run(cap, ops).0.threads[t].code;
            var s' := Run(cap, ops + [Finish(t, dev)]).0;
            var s'' := Run(cap, ops + [Finish(t, dev)] + [Die] + [Boot(version)]).0;
            && (code != 0 ==> s'.file.status == Failed && s'.file.code == Some(code) && s''.file.status == Failed)
            && (code == 0 && dev ==> s'.file.status == Done && s'.file.code == Some(0) && s''.file.status == Done)
            && (code == 0 && !dev ==>
                  s'.file.status == Restarting && s''.file.status == Done && s''.file.code == Some(0))
  {
    RunKeeps(cap, ops);
    RunNext(cap, ops, Finish(t, dev));
    RunNext(cap, ops + [Finish(t, dev)], Die);
    RunNext(cap, ops + [Finish(t, dev)] + [Die], Boot(version));
  }

  // ----- The log of a job -----

  function LineOps(t: nat, lines: seq<string>): seq<Op> {
    if lines == [] then [] else LineOps(t, lines[..|lines| - 1]) + [Line(t, lines[|lines| - 1])]
  }

  /** Every line on a line of its own. */
  function Text(lines: seq<string>): string {
    if lines == [] then "" else Text(lines[..|lines| - 1]) + Terminated(lines[|lines| - 1])
  }

  predicate EndsLine(log: string) { log != "" && log[|log| - 1] == '\n' }

  /** A worker at work, its log so far this text, which ends a line. */
  ghost predicate Logs(cap: nat, ops: seq<Op>, t: nat, text: string) {
    var (s, tr) := Run(cap, ops);
    s.up && t in s.threads && s.threads[t] == Working && tr.full == text && EndsLine(text)
  }

  lemma OneLine(cap: nat, ops: seq<Op>, t: nat, text: string, line: string)
    requires Logs(cap, ops, t, text)
    ensures Logs(cap, ops + [Line(t, line)], t, text + Terminated(line))
  {
    RunNext(cap, ops, Line(t, line));
  }

  lemma Rejoin<T>(a: seq<T>, b: seq<T>, c: seq<T>)
    ensures a + b + c == a + (b + c) && a + [] == a
  {
  }

  lemma {:induction false} AllLines(cap: nat, ops: seq<Op>, t: nat, text: string, lines: seq<string>)
    requires Logs(cap, ops, t, text)
    ensures Logs(cap, ops + LineOps(t, lines), t, text + Text(lines))
    decreases lines
  {
    if lines == [] {
      Rejoin(ops, [], []);
      Rejoin(text, [], []);
    } else {
      var front, line := lines[..|lines| - 1], lines[|lines| - 1];
      AllLines(cap, ops, t, text, front);
      OneLine(cap, ops + LineOps(t, front), t, text + Text(front), line);
      Rejoin(ops, LineOps(t, front), [Line(t, line)]);
      Rejoin(text, Text(front), Terminated(line));
    }
  }

  lemma JobBegins(cap: nat, ops: seq<Op>, version: string)
    requires cap > 0 && Run(cap, ops).0.up && Run(cap, ops).0.threads == map[] && !Busy(Run(cap, ops).0.file)
    ensures var t := Run(cap, ops).0.next;
            Logs(cap, ops + [Start] + [Begin(t, version)], t, FromText(version))
  {
    var t := Run(cap, ops).0.next;
    RunKeeps(cap, ops);
    RunNext(cap, ops, Start);
    RunNext(cap, ops + [Start], Begin(t, version));
  }

  lemma JobEnds(cap: nat, ops: seq<Op>, t: nat, text: string, code: int, dev: bool)
    requires Logs(cap, ops, t, text)
    ensures Run(cap, ops + [Return(t, code)] + [Finish(t, dev)]).1.full ==
            text + (if code != 0 then "" else if dev then DEV_FINISHED else WAITING)
  {
    RunNext(cap, ops, Return(t, code));
    RunNext(cap, ops + [Return(t, code)], Finish(t, dev));
  }

  /** From any state in which a job can start: the log of a job that runs through is
      the version it started from, its lines of output, each on a line of its own,
      and how it ended, as far as the last characters go. */
  lemma LogOfAJob(cap: nat, ops: seq<Op>, version: string, lines: seq<string>, code: int, dev: bool)
    requires cap > 0 && Run(cap, ops).0.up && Run(cap, ops).0.threads == map[] && !Busy(Run(cap, ops).0.file)
    ensures var t := Run(cap, ops).0.next;
            var job := ops + [Start] + [Begin(t, version)] + LineOps(t, lines) + [Return(t, code)] + [Finish(t, dev)];
            Run(cap, job).0.file.log ==
            Last(cap, FromText(version) + Text(lines)
               + (if code != 0 then "" else if dev then DEV_FINISHED else WAITING))
  {
    var t := Run(cap, ops).0.next;
    var begun := ops + [Start] + [Begin(t, version)];
    JobBegins(cap, ops, version);
    AllLines(cap, begun, t, FromText(version), lines);
    JobEnds(cap, begun + LineOps(t, lines), t, FromText(version) + Text(lines), code, dev);
    RunKeeps(cap, begun + LineOps(t, lines) + [Return(t, code)] + [Finish(t, dev)]);
  }

  // ----- The object -----

  const LOG_CAP: nat := 80_000

  /** The job module of one process, with the file it shares with its successors. */
  class UpdateService {
    var up: bool
    var file: File
    var threads: map<nat, Phase>
    var job: Option<nat>
    var next: nat

    ghost function View(): State
      reads this
    {
      State(up, file, threads, job, next)
    }

    method Save(data: File)
      modifies this`file
      ensures file == data.(log := Last(LOG_CAP, data.log))
    {
      var log := data.log;
      if |log| > LOG_CAP {
        log := log[|log| - LOG_CAP..];
      }
      file := data.(log := log);
    }

    method ReconcileOnStartup(version: string)
      requires !up
      modifies this
      ensures View() == Step(LOG_CAP, old(View()), Boot(version))
    {
      up, job := true, None;
      if file.status == Restarting {
        Save(File(Done, file.log + BackText(version), Some(0)));
      } else if file.status == Running {
        Save(File(Failed, file.log + INTERRUPTED, Some(1)));
      }
    }

    method StartUpdateJob()
      requires up
      modifies this
      ensures View() == Step(LOG_CAP, old(View()), Start)
    {
      if job.Some? && job.value in threads {
        return;
      }
      if file.status == Running || file.status == Restarting {
        return;
      }
      Save(File(Running, STARTING, None));
      threads := threads[next := Created];
      job := Some(next);
      next := next + 1;
    }

    /** The version cannot be read: the thread ends, and nothing is saved. */
    method JobAbandoned(t: nat)
      requires Enabled(View(), Abandon(t))
      modifies this
      ensures View() == Step(LOG_CAP, old(View()), Abandon(t))
    {
      threads := threads - {t};
    }

    method BeginJob(t: nat, version: string)
      requires Enabled(View(), Begin(t, version))
      modifies this
      ensures View() == Step(LOG_CAP, old(View()), Begin(t, version))
    {
      Save(File(Running, FromText(version), None));
      threads := threads[t := Working];
    }

    method JobRaised(t: nat, text: string)
      requires Enabled(View(), Raise(t, text))
      modifies this
      ensures View() == Step(LOG_CAP, old(View()), Raise(t, text))
    {
      Save(File(Failed, file.log + RaiseText(text), Some(1)));
      threads := threads[t := Leaving];
    }

    method AppendLog(t: nat, line: string)
      requires Enabled(View(), Line(t, line))
      modifies this`file
      ensures View() == Step(LOG_CAP, old(View()), Line(t, line))
    {
      var log := file.log;
      if log != "" && log[|log| - 1] != '\n' {
        log := log + "\n";
      }
      log := log + (if line != "" && line[|line| - 1] == '\n' then line else line + "\n");
      Save(file.(log := log));
    }

    method FinishJob(t: nat, dev: bool)
      requires Enabled(View(), Finish(t, dev))
      modifies this
      ensures View() == Step(LOG_CAP, old(View()), Finish(t, dev))
    {
      var code := threads[t].code;
      if code == 0 {
        if dev {
          Save(File(Done, file.log + DEV_FINISHED, Some(0)));
        } else {
          Save(file.(status := Restarting, log := file.log + WAITING));
        }
      } else {
        assert file.log + "" == file.log;
        Save(File(Failed, file.log, Some(code)));
      }
      threads := threads[t := Leaving];
    }
  }
}
