/** `useReceiptUploader`: the queue of receipt images waiting for analysis, the analysis
    of each task, and the review cursor that walks through the receipts of one task,
    saving or skipping each. The analysis and save endpoints, `crypto.randomUUID` and
    `URL.createObjectURL` are oracles given to the handlers as parameters. */
module ReceiptUpload {
  import opened Wrappers
  import opened Receipts
  import ApiConfig
  import Seqs

  /** A selected image file; only its identity matters here. */
  datatype FileRef = FileRef(name: string)

  datatype Status = Idle | Analyzing | Success | Error

  /** `UploadTask` in the shape the hook builds it. */
  datatype Task = Task(id: string, files: seq<FileRef>, previewUrls: seq<string>,
                       status: Status, results: seq<AnalyzedReceipt>)

  /** `editingState`: the task under review and the position of the receipt shown. */
  datatype Cursor = Cursor(taskId: string, resultIndex: nat)

  /** How `analyzeReceipt` ended: a response body (with or without a `receipts` list), or
      a failure with the HTTP status of its response, if it had one. */
  datatype AnalysisOutcome = Receipts(receipts: seq<AnalyzedReceipt>) | NoReceipts | Failed(status: Option<int>)

  datatype UploaderState = UploaderState(tasks: seq<Task>, editingState: Option<Cursor>, isCombineMode: bool)

  /** The list and the cursor, the part of the state a review step changes. */
  datatype Review = Review(tasks: seq<Task>, cursor: Option<Cursor>)

  // ---------------------------------------------------------------------------
  // Specification functions

  /** Task ids are distinct (each comes from `crypto.randomUUID`). */
  predicate UniqueIds(tasks: seq<Task>) {
    forall i, j :: 0 <= i < j < |tasks| ==> tasks[i].id != tasks[j].id
  }

  predicate IsAuthFailure(status: Option<int>) {
    status == Some(401) || status == Some(403)
  }

  /** The task after its analysis ended with `outcome`: one receipt or more is a success
      holding them; a missing or empty list, or any failure but 401/403, is an error; a
      401/403 leaves it analyzing while the page reloads. */
  function Analyzed(t: Task, outcome: AnalysisOutcome): (r: Task)
    ensures r.id == t.id && r.files == t.files && r.previewUrls == t.previewUrls
    ensures r.status == Success <==> outcome.Receipts? && |outcome.receipts| > 0
    ensures r.status == Analyzing <==> outcome.Failed? && IsAuthFailure(outcome.status)
    ensures r.status != Idle
    ensures r.results == if r.status == Success then outcome.receipts else t.results
  {
    match outcome
    case Receipts(rs) => if |rs| > 0 then t.(status := Success, results := rs) else t.(status := Error)
    case NoReceipts => t.(status := Error)
    case Failed(status) => if IsAuthFailure(status) then t.(status := Analyzing) else t.(status := Error)
  }

  /** `prev.map((t) => (t.id === id ? f(t) : t))` with `f` the end of the analysis. */
  function AnalyzeById(tasks: seq<Task>, id: string, outcome: AnalysisOutcome): seq<Task> {
    seq(|tasks|, i requires 0 <= i < |tasks| => if tasks[i].id == id then Analyzed(tasks[i], outcome) else tasks[i])
  }

  /** `prev.map((t) => (t.id === id ? { ...t, status: 'analyzing' } : t))`. */
  function MarkAnalyzing(tasks: seq<Task>, id: string): seq<Task> {
    seq(|tasks|, i requires 0 <= i < |tasks| => if tasks[i].id == id then tasks[i].(status := Analyzing) else tasks[i])
  }

  /** `handleStartAll` on a list: every idle task is analysed with its outcome; the other
      tasks stay exactly as they were. */
  function StartAll(tasks: seq<Task>, outcomes: seq<AnalysisOutcome>): (r: seq<Task>)
    requires |outcomes| == |tasks|
    ensures |r| == |tasks|
    ensures forall i :: 0 <= i < |tasks| ==> r[i].id == tasks[i].id
    ensures forall i :: 0 <= i < |tasks| && tasks[i].status != Idle ==> r[i] == tasks[i]
    ensures forall i :: 0 <= i < |tasks| ==> r[i].status != Idle
  {
    seq(|tasks|, i requires 0 <= i < |tasks| =>
      if tasks[i].status == Idle then Analyzed(tasks[i], outcomes[i]) else tasks[i])
  }

  /** The tasks a file selection appends: one task holding every file in combine mode,
      otherwise one task per file. */
  function NewTasks(files: seq<FileRef>, urls: seq<string>, ids: seq<string>, combine: bool): (r: seq<Task>)
    requires |urls| == |files|
    requires |ids| == if combine then 1 else |files|
    ensures combine ==> r == [Task(ids[0], files, urls, Idle, [])]
    ensures !combine ==> |r| == |files| && forall i :: 0 <= i < |files| ==>
      r[i] == Task(ids[i], [files[i]], [urls[i]], Idle, [])
  {
    if combine then [Task(ids[0], files, urls, Idle, [])]
    else seq(|files|, i requires 0 <= i < |files| => Task(ids[i], [files[i]], [urls[i]], Idle, []))
  }

  function FindTask(tasks: seq<Task>, id: string): Option<Task> {
    if tasks == [] then None
    else if tasks[0].id == id then Some(tasks[0])
    else FindTask(tasks[1..], id)
  }

  function KeepsOtherIds(id: string): Task -> bool {
    (t: Task) => t.id != id
  }

  /** `prev.filter((t) => t.id !== id)`. */
  function RemoveTask(tasks: seq<Task>, id: string): seq<Task> {
    Seqs.Filter(tasks, KeepsOtherIds(id))
  }

  /** One save or skip at `cursor`: the cursor moves to the next receipt of the task when
      there is one; otherwise the task leaves the list and the review ends. */
  function Advance(tasks: seq<Task>, cursor: Cursor): Review {
    var current := FindTask(tasks, cursor.taskId);
    if current.Some? && cursor.resultIndex < |current.value.results| - 1 then
      Review(tasks, Some(Cursor(cursor.taskId, cursor.resultIndex + 1)))
    else
      Review(RemoveTask(tasks, cursor.taskId), None)
  }

  /** `n` save or skip steps from `review` (a step with no review in progress does nothing). */
  function AfterSteps(review: Review, n: nat): Review {
    if n == 0 then review
    else
      var before := AfterSteps(review, n - 1);
      if before.cursor.None? then before else Advance(before.tasks, before.cursor.value)
  }

  // ---------------------------------------------------------------------------
  // Properties

  /** Only the task with that id changes, and it changes as `Analyzed` says. */
  lemma {:induction false} AnalyzeChangesOnlyThatTask(tasks: seq<Task>, id: string, outcome: AnalysisOutcome)
    ensures var r := AnalyzeById(tasks, id, outcome);
      && |r| == |tasks|
      && (forall i :: 0 <= i < |tasks| && tasks[i].id != id ==> r[i] == tasks[i])
      && (forall i :: 0 <= i < |tasks| && tasks[i].id == id ==> r[i] == Analyzed(tasks[i], outcome))
  {
  }

  /** A task with a unique id is found at its position. */
  lemma {:induction false} FindTaskAt(tasks: seq<Task>, i: int)
    requires 0 <= i < |tasks|
    requires UniqueIds(tasks)
    ensures FindTask(tasks, tasks[i].id) == Some(tasks[i])
  {
    if i > 0 {
      assert tasks[1..][i - 1] == tasks[i];
      FindTaskAt(tasks[1..], i - 1);
    }
  }

  /** `find` returns a task with the id, and nothing only when no task has it. */
  lemma {:induction false} FindTaskFound(tasks: seq<Task>, id: string)
    ensures FindTask(tasks, id).Some? ==> FindTask(tasks, id).value in tasks && FindTask(tasks, id).value.id == id
    ensures FindTask(tasks, id).None? <==> forall i :: 0 <= i < |tasks| ==> tasks[i].id != id
  {
    if tasks != [] && tasks[0].id != id {
      FindTaskFound(tasks[1..], id);
      assert forall i :: 1 <= i < |tasks| ==> tasks[i] == tasks[1..][i - 1];
    }
  }

  /** Deleting a task removes every task with that id and keeps every other one. */
  lemma {:induction false} RemoveTaskExactly(tasks: seq<Task>, id: string)
    ensures forall t :: t in RemoveTask(tasks, id) <==> t in tasks && t.id != id
  {
    Seqs.FilterMembers(tasks, KeepsOtherIds(id));
  }

  /** Deleting the only task with an id removes exactly that position. */
  lemma {:induction false} RemoveUniqueTask(tasks: seq<Task>, i: int)
    requires 0 <= i < |tasks|
    requires UniqueIds(tasks)
    ensures RemoveTask(tasks, tasks[i].id) == tasks[..i] + tasks[i + 1..]
  {
    Seqs.FilterRemovesOne(tasks, i, KeepsOtherIds(tasks[i].id));
  }

  /** Removing tasks keeps the ids distinct. */
  lemma {:induction false} RemoveKeepsUnique(tasks: seq<Task>, id: string)
    requires UniqueIds(tasks)
    ensures UniqueIds(RemoveTask(tasks, id))
    decreases |tasks|
  {
    if tasks != [] {
      var p := tasks[..|tasks| - 1];
      assert forall i, j :: 0 <= i < j < |p| ==> p[i].id != p[j].id by {
        forall i, j | 0 <= i < j < |p| ensures p[i].id != p[j].id {
          assert p[i] == tasks[i] && p[j] == tasks[j];
        }
      }
      RemoveKeepsUnique(p, id);
      Seqs.FilterMembers(p, KeepsOtherIds(id));
      var last := tasks[|tasks| - 1];
      assert forall t :: t in p ==> t.id != last.id by {
        forall t | t in p ensures t.id != last.id {
          var i :| 0 <= i < |p| && p[i] == t;
          assert tasks[i] == t;
        }
      }
    }
  }

  /** Before the last receipt, a step moves the cursor on and keeps the list. */
  lemma {:induction false} ReviewStepsThroughTask(tasks: seq<Task>, id: string, k: nat)
    requires FindTask(tasks, id).Some?
    requires k < |FindTask(tasks, id).value.results|
    ensures AfterSteps(Review(tasks, Some(Cursor(id, 0))), k) == Review(tasks, Some(Cursor(id, k)))
  {
    if k > 0 {
      ReviewStepsThroughTask(tasks, id, k - 1);
    }
  }

  /** Reviewing an N-receipt task (N ≥ 1) from its first receipt: after fewer than N saves
      or skips the task is still listed and the cursor is on receipt k; after N steps the
      task is gone and the review is over. */
  lemma {:induction false} ReviewRemovesTaskAfterAllResults(tasks: seq<Task>, id: string)
    requires FindTask(tasks, id).Some?
    requires |FindTask(tasks, id).value.results| >= 1
    ensures forall k: nat :: k < |FindTask(tasks, id).value.results| ==>
      AfterSteps(Review(tasks, Some(Cursor(id, 0))), k) == Review(tasks, Some(Cursor(id, k)))
    ensures var n := |FindTask(tasks, id).value.results|;
      AfterSteps(Review(tasks, Some(Cursor(id, 0))), n) == Review(RemoveTask(tasks, id), None)
    ensures forall t :: t in RemoveTask(tasks, id) ==> t.id != id
  {
    var n := |FindTask(tasks, id).value.results|;
    forall k: nat | k < n
      ensures AfterSteps(Review(tasks, Some(Cursor(id, 0))), k) == Review(tasks, Some(Cursor(id, k)))
    {
      ReviewStepsThroughTask(tasks, id, k);
    }
    ReviewStepsThroughTask(tasks, id, n - 1);
    RemoveTaskExactly(tasks, id);
  }

  class ReceiptUploader {
    var tasks: seq<Task>
    var editingState: Option<Cursor>
    var isCombineMode: bool

    ghost function Snapshot(): UploaderState
      reads this
    {
      UploaderState(tasks, editingState, isCombineMode)
    }

    ghost predicate Valid()
      reads this
    {
      UniqueIds(tasks)
    }

    constructor()
      ensures Valid()
      ensures Snapshot() == UploaderState([], None, false)
    {
      tasks := [];
      editingState := None;
      isCombineMode := false;
    }

    /** `setIsCombineMode`. */
    method SetCombineMode(on: bool)
      modifies this
      ensures Snapshot() == old(Snapshot()).(isCombineMode := on)
    {
      isCombineMode := on;
    }

    /** `handleFileChange`: a selection of files appends `NewTasks` after the existing
        tasks; an empty selection changes nothing. `urls` are the preview URLs created for
        the files and `ids` the fresh ids drawn for the new tasks. */
    method HandleFileChange(files: seq<FileRef>, urls: seq<string>, ids: seq<string>)
      requires Valid()
      requires |urls| == |files|
      requires |files| > 0 ==> |ids| == if isCombineMode then 1 else |files|
      requires forall i, j :: 0 <= i < j < |ids| ==> ids[i] != ids[j]
      requires forall i, k :: 0 <= i < |ids| && 0 <= k < |tasks| ==> ids[i] != tasks[k].id
      modifies this
      ensures Valid()
      ensures |files| == 0 ==> Snapshot() == old(Snapshot())
      ensures |files| > 0 ==>
        Snapshot() == old(Snapshot()).(tasks := old(tasks) + NewTasks(files, urls, ids, old(isCombineMode)))
    {
      if |files| == 0 {
        return;
      }
      var newTasks := NewTasks(files, urls, ids, isCombineMode);
      assert forall i :: 0 <= i < |newTasks| ==> newTasks[i].id == ids[i];
      tasks := tasks + newTasks;
    }

    /** `processTask(id)` with the outcome of its analysis: a task with that id goes to
        `Analyzed`; without one nothing changes. */
    method ProcessTask(id: string, outcome: AnalysisOutcome)
      requires Valid()
      modifies this
      ensures Valid()
      ensures Snapshot() == old(Snapshot()).(tasks := AnalyzeById(old(tasks), id, outcome))
    {
      var listed := tasks;
      tasks := MarkAnalyzing(tasks, id);
      var t := FindTask(listed, id);
      if t.None? {
        FindTaskFound(listed, id);
        assert tasks == AnalyzeById(listed, id, outcome);
        return;
      }
      tasks := AnalyzeById(tasks, id, outcome);
      assert tasks == AnalyzeById(listed, id, outcome);
    }

    /** `handleStartAll`: runs the analysis of every idle task, in list order, the task at
        position i ending with `outcomes[i]`; tasks in any other status are untouched. */
    method HandleStartAll(outcomes: seq<AnalysisOutcome>)
      requires Valid()
      requires |outcomes| == |tasks|
      modifies this
      ensures Valid()
      ensures Snapshot() == old(Snapshot()).(tasks := StartAll(old(tasks), outcomes))
    {
      var started := tasks;
      for i := 0 to |started|
        invariant Valid()
        invariant |tasks| == |started|
        invariant forall k :: 0 <= k < |started| ==> tasks[k].id == started[k].id
        invariant forall k :: 0 <= k < |started| ==>
          tasks[k] == if k < i && started[k].status == Idle then Analyzed(started[k], outcomes[k]) else started[k]
        invariant Snapshot() == old(Snapshot()).(tasks := tasks)
      {
        if started[i].status == Idle {
          ProcessTask(started[i].id, outcomes[i]);
        }
      }
    }

    /** `handleStartEdit`: the review starts at the first receipt of the task. */
    method HandleStartEdit(id: string)
      modifies this
      ensures Snapshot() == old(Snapshot()).(editingState := Some(Cursor(id, 0)))
    {
      editingState := Some(Cursor(id, 0));
    }

    /** `handleSaveCurrent(data)`: with headers and a review in progress the receipt is
        sent (`sent`); when the save succeeds the review takes one `Advance` step. Without
        headers, without a review, or when the save fails, nothing changes. */
    method HandleSaveCurrent(data: Receipt, headers: ApiConfig.HeaderCheck, saveOk: bool)
      returns (sent: Option<Receipt>)
      requires Valid()
      modifies this
      ensures Valid()
      ensures sent.Some? <==> headers.Headers? && old(editingState).Some?
      ensures sent.Some? ==> sent.value == data
      ensures Snapshot() ==
        if sent.Some? && saveOk then
          var next := Advance(old(tasks), old(editingState).value);
          old(Snapshot()).(tasks := next.tasks, editingState := next.cursor)
        else old(Snapshot())
    {
      if !headers.Headers? {
        return None;
      }
      if editingState.None? {
        return None;
      }
      sent := Some(data);
      if !saveOk {
        return;
      }
      Step();
    }

    /** `handleSkipCurrent`: with a review in progress, one `Advance` step without saving. */
    method HandleSkipCurrent()
      requires Valid()
      modifies this
      ensures Valid()
      ensures old(editingState).None? ==> Snapshot() == old(Snapshot())
      ensures old(editingState).Some? ==>
        var next := Advance(old(tasks), old(editingState).value);
        Snapshot() == old(Snapshot()).(tasks := next.tasks, editingState := next.cursor)
    {
      if editingState.None? {
        return;
      }
      Step();
    }

    /** The advance-or-remove step shared by save and skip. */
    method Step()
      requires Valid() && editingState.Some?
      modifies this
      ensures Valid()
      ensures var next := Advance(old(tasks), old(editingState).value);
        Snapshot() == old(Snapshot()).(tasks := next.tasks, editingState := next.cursor)
    {
      var cursor := editingState.value;
      var currentTask := FindTask(tasks, cursor.taskId);
      if currentTask.Some? && cursor.resultIndex < |currentTask.value.results| - 1 {
        editingState := Some(Cursor(cursor.taskId, cursor.resultIndex + 1));
      } else {
        RemoveKeepsUnique(tasks, cursor.taskId);
        tasks := RemoveTask(tasks, cursor.taskId);
        editingState := None;
      }
    }

    /** `handleDeleteTask`: removes every task with the id; the review cursor is left as
        it is. */
    method HandleDeleteTask(id: string)
      requires Valid()
      modifies this
      ensures Valid()
      ensures Snapshot() == old(Snapshot()).(tasks := RemoveTask(old(tasks), id))
    {
      RemoveKeepsUnique(tasks, id);
      tasks := RemoveTask(tasks, id);
    }
  }
}
