/** A task's status as clients of the task stream see it, against the task manager's own. */
module TaskView {
  import opened Common
  import opened TaskSpec
  import opened TaskInvariant
  import opened TaskTheorems
  import opened TaskOutcomes

  /** The text of a status in the manager's records. */
  function StatusText(s: Status): string {
    match s
    case Queued => "queued"
    case Running => "running"
    case Succeeded => "succeeded"
    case Failed => "failed"
    case TimedOut => "timed_out"
    case Cancelling => "cancelling"
    case Cancelled => "cancelled"
    case Interrupted => "interrupted"
  }

  /** extensionTaskStatus. */
  function ExtensionStatus(status: string): Option<string> {
    match status
    case "queued" => Some("working")
    case "running" => Some("working")
    case "cancelling" => Some("working")
    case "working" => Some("working")
    case "succeeded" => Some("completed")
    case "completed" => Some("completed")
    case "cancelled" => Some("cancelled")
    case "failed" => Some("completed")
    case "timed_out" => Some("completed")
    case "interrupted" => Some("failed")
    case "input_required" => Some("input_required")
    case _ => None
  }

  /** taskResult's status: a failure without a result is reported as one. */
  function ViewedStatus(t: Task): Option<string> {
    var text := StatusText(t.status);
    match ExtensionStatus(text)
    case None => None
    case Some(status) =>
      if (text == "failed" || text == "timed_out") && t.result.None? then Some("failed") else Some(status)
  }

  /** taskTerminal. */
  predicate StreamTerminal(status: string) {
    status == "succeeded" || status == "failed" || status == "timed_out" || status == "cancelled" || status == "completed"
  }

  /** Every record has a reported status, and it ends the stream exactly when the manager calls the
      task finished, or the record is an interrupted one that was not resumed yet. */
  lemma ViewEndsExactly(t: Task)
    ensures ViewedStatus(t).Some?
    ensures StreamTerminal(ViewedStatus(t).value) <==> t.Terminal() || t.status == Interrupted
  {
    match t.status {
      case Queued => assert ExtensionStatus("queued") == Some("working");
      case Running => assert ExtensionStatus("running") == Some("working");
      case Succeeded => assert ExtensionStatus("succeeded") == Some("completed");
      case Failed => assert ExtensionStatus("failed") == Some("completed");
      case TimedOut => assert ExtensionStatus("timed_out") == Some("completed");
      case Cancelling => assert ExtensionStatus("cancelling") == Some("working");
      case Cancelled => assert ExtensionStatus("cancelled") == Some("cancelled");
      case Interrupted => assert ExtensionStatus("interrupted") == Some("failed");
    }
  }

  /** What clients are told: working until the end; completed whatever the runner's outcome was, as long as
      there is one; cancelled; and failed for an interrupted task or a failure without an outcome. */
  lemma ViewsAre(t: Task)
    ensures ViewedStatus(t) == Some("working") <==> t.Active()
    ensures ViewedStatus(t) == Some("cancelled") <==> t.status == Cancelled
    ensures ViewedStatus(t) == Some("completed")
            <==> t.status == Succeeded || ((t.status == Failed || t.status == TimedOut) && t.result.Some?)
    ensures ViewedStatus(t) == Some("failed")
            <==> t.status == Interrupted || ((t.status == Failed || t.status == TimedOut) && t.result.None?)
  {
    hide ExtensionStatus;
    ExtensionStatuses();
  }

  lemma ExtensionStatuses()
    ensures ExtensionStatus("queued") == ExtensionStatus("running") == ExtensionStatus("cancelling") == Some("working")
    ensures ExtensionStatus("succeeded") == ExtensionStatus("failed") == ExtensionStatus("timed_out") == Some("completed")
    ensures ExtensionStatus("cancelled") == Some("cancelled") && ExtensionStatus("interrupted") == Some("failed")
  {}

  /** A task whose runner returned is shown as completed, or as cancelled, once it is finished. */
  lemma ReturnedIsCompleted(s: State, w: WorkerId, outcome: Outcome, es: seq<Event>)
    requires Inv(s) && Enabled(s, EReturn(w, outcome))
    requires Legal(Next(s, EReturn(w, outcome)), es) && SameProcess(es)
    requires w !in s.ctxDone && s.tasks[s.workers[w].id].status != Cancelling && !Asked(es, s.workers[w].id)
    ensures var id, t := s.workers[w].id, Exec(Next(s, EReturn(w, outcome)), es);
            id in t.tasks && (t.tasks[id].Terminal() ==> ViewedStatus(t.tasks[id]) == Some("completed"))
  {
    hide Inv, Next, Legal, ViewedStatus;
    OutcomeArrives(s, w, outcome, es);
    var id, t := s.workers[w].id, Exec(Next(s, EReturn(w, outcome)), es);
    if t.tasks[id].Terminal() { ViewsAre(t.tasks[id]); }
  }

  /** On every run of the manager, a stream that looks at a task ends exactly when the task is finished,
      and what it saw then is what the task stays for the life of the process. */
  lemma StreamEndIsFinal(totalLimit: nat, heavyLimit: nat, es: seq<Event>, later: seq<Event>, id: TaskId)
    requires GoodLimits(totalLimit, heavyLimit) && Legal(Blank(totalLimit, heavyLimit), es)
    requires var s := Exec(Blank(totalLimit, heavyLimit), es);
             Legal(s, later) && SameProcess(later) && id in s.tasks
    ensures var s := Exec(Blank(totalLimit, heavyLimit), es);
            && ViewedStatus(s.tasks[id]).Some?
            && (StreamTerminal(ViewedStatus(s.tasks[id]).value) <==> s.tasks[id].Terminal())
            && (StreamTerminal(ViewedStatus(s.tasks[id]).value) ==>
                  id in Exec(s, later).tasks && Exec(s, later).tasks[id] == s.tasks[id])
  {
    hide Inv, Next, Enabled, ViewedStatus, StreamTerminal, Legal;
    BlankInv(totalLimit, heavyLimit);
    RunKeepsInv(Blank(totalLimit, heavyLimit), es);
    var s := Exec(Blank(totalLimit, heavyLimit), es);
    NeverInterrupted(s, id);
    ViewEndsExactly(s.tasks[id]);
    if s.tasks[id].Terminal() { FinishedForever(s, later, id); }
  }

  lemma NeverInterrupted(s: State, id: TaskId)
    requires Inv(s) && id in s.tasks
    ensures s.tasks[id].status != Interrupted
  {
    hide Placed, Unique, Served, Numbered, Registry, Slots, Channels, Disk, Down;
  }
}
