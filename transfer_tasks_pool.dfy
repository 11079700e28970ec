/**
 * The registry of running shard transfers of one collection
 * (lib/collection/src/shards/transfer/transfer_tasks_pool.rs).
 *
 * The cancellable asynchronous task handle is an external collaborator; it
 * is abstracted here as a value recording what the pool can observe of it:
 * whether it has finished, its result if it has one, and what awaiting its
 * cancellation would yield.  The progress shared behind a mutex is a plain
 * value read whole.
 */
module TransferTasks {
  import opened Wrappers

  /** The registry key: the shard being moved, its source peer and its destination peer. */
  datatype ShardTransferKey = ShardTransferKey(shardId: nat, from: nat, to: nat)

  /** The transfer descriptor passed to `add_task`; only its key is used by the pool. */
  datatype ShardTransfer = ShardTransfer(shardId: nat, from: nat, to: nat, sync: bool)
  {
    /** `ShardTransfer::key`: the shard and the two peers, without the other settings. */
    function Key(): (k: ShardTransferKey)
      ensures k.shardId == shardId && k.from == from && k.to == to
    {
      ShardTransferKey(shardId, from, to)
    }
  }

  /** What awaiting `cancel()` yields: `Ok(finished)` or an execution error. */
  datatype CancelOutcome = Cancelled(finished: bool) | CancelError(message: string)

  datatype RawTaskHandle = RawTaskHandle(finished: bool, result: Option<bool>, cancel: CancelOutcome)

  /** A task handle reports a result only once the task has finished. */
  type TaskHandle = h: RawTaskHandle | h.result.Some? ==> h.finished
    witness RawTaskHandle(false, None, Cancelled(false))

  /** `TransferTaskProgress`: records copied so far and records to copy. */
  datatype TransferTaskProgress = TransferTaskProgress(recordsDone: nat, recordsTotal: nat)

  /** `TransferTaskProgress::default()`. */
  function DefaultProgress(): (p: TransferTaskProgress)
    ensures p.recordsDone == 0 && p.recordsTotal == 0
  {
    TransferTaskProgress(0, 0)
  }

  datatype TransferTaskItem = TransferTaskItem(task: TaskHandle, progress: TransferTaskProgress)

  /** The outcome of `stop_if_exists`. */
  datatype TaskResult = Finished | NotFound | Stopped | Failed
  {
    /** `is_finished`: true for `Finished` and for no other outcome. */
    predicate IsFinished()
      ensures IsFinished() <==> this == Finished
    {
      match this
      case Finished => true
      case _ => false
    }
  }

  /**
   * The result mapping of `stop_if_exists` for a task that was present:
   * `Ok(true)` is `Finished`, `Ok(false)` is `Stopped`, an error is `Failed`.
   * A present task never yields `NotFound`.
   */
  function CancelToTaskResult(outcome: CancelOutcome): (r: TaskResult)
    ensures r != NotFound
    ensures r == Finished <==> outcome == Cancelled(true)
    ensures r == Stopped <==> outcome == Cancelled(false)
    ensures r == Failed <==> outcome.CancelError?
  {
    match outcome
    case Cancelled(finished) => if finished then Finished else Stopped
    case CancelError(_) => Failed
  }

  /** A stop reports "finished" exactly when cancelling found the task completed successfully. */
  lemma StopIsFinishedOnlyForSuccess(outcome: CancelOutcome)
    ensures CancelToTaskResult(outcome).IsFinished() <==> outcome == Cancelled(true)
    ensures !NotFound.IsFinished() && !Stopped.IsFinished() && !Failed.IsFinished()
  {
  }

  class TransferTasksPool {
    /** Only used in log lines. */
    const collectionId: string
    var tasks: map<ShardTransferKey, TransferTaskItem>

    /** `TransferTasksPool::new`: an empty registry. */
    constructor (collectionId: string)
      ensures this.collectionId == collectionId
      ensures tasks == map[]
    {
      this.collectionId := collectionId;
      tasks := map[];
    }

    /** `self.tasks.get(key)`. */
    function Lookup(key: ShardTransferKey): (r: Option<TransferTaskItem>)
      reads this
      ensures r.Some? <==> key in tasks
      ensures r.Some? ==> r.value == tasks[key]
    {
      if key in tasks then Some(tasks[key]) else None
    }

    /** `check_if_still_running`: false for an unknown key, otherwise whether its task has not finished. */
    function CheckIfStillRunning(key: ShardTransferKey): (r: bool)
      reads this
      ensures r <==> key in tasks && !tasks[key].task.finished
    {
      match Lookup(key)
      case None => false
      case Some(item) => !item.task.finished
    }

    /**
     * `get_task_result`: `None` for an unknown key, otherwise the task's own
     * result, which is `None` as long as the task is still running.
     */
    function GetTaskResult(key: ShardTransferKey): (r: Option<bool>)
      reads this
      ensures key !in tasks ==> r == None
      ensures key in tasks ==> r == tasks[key].task.result
      ensures CheckIfStillRunning(key) ==> r == None
    {
      match Lookup(key)
      case None => None
      case Some(item) => item.task.result
    }

    /** `get_task_progress`: a copy of the stored progress for a known key, `None` otherwise. */
    function GetTaskProgress(key: ShardTransferKey): (r: Option<TransferTaskProgress>)
      reads this
      ensures r.Some? <==> key in tasks
      ensures r.Some? ==> r.value == tasks[key].progress
    {
      match Lookup(key)
      case None => None
      case Some(item) => Some(item.progress)
    }

    /**
     * `stop_if_exists`: remove the entry first, then await the cancellation
     * of its task and map the outcome; an unknown key is `NotFound` and the
     * registry is unchanged.  Afterwards the key is unknown to every query.
     */
    method StopIfExists(key: ShardTransferKey) returns (r: TaskResult)
      modifies this
      ensures tasks == old(tasks) - {key}
      ensures key !in old(tasks) ==> r == NotFound
      ensures key in old(tasks) ==> r == CancelToTaskResult(old(tasks)[key].task.cancel)
      ensures !CheckIfStillRunning(key) && GetTaskResult(key) == None && GetTaskProgress(key) == None
    {
      var removed := Lookup(key);
      tasks := tasks - {key};
      match removed
      case Some(item) =>
        r := CancelToTaskResult(item.task.cancel);
      case None =>
        r := NotFound;
    }

    /** `add_task`: store `item` under the transfer's key, replacing any entry already there. */
    method AddTask(transfer: ShardTransfer, item: TransferTaskItem)
      modifies this
      ensures tasks == old(tasks)[transfer.Key() := item]
      ensures GetTaskProgress(transfer.Key()) == Some(item.progress)
      ensures CheckIfStillRunning(transfer.Key()) == !item.task.finished
    {
      tasks := tasks[transfer.Key() := item];
    }
  }

  /**
   * A transfer seen by an orchestrator: one that is still copying reports
   * running and its progress; one that completed reports its result; the
   * running one, stopped, reports `Stopped` and then disappears, so a second
   * stop finds nothing.
   */
  method TransferLifecycle()
  {
    var pool := new TransferTasksPool("collection");
    var moving := ShardTransfer(1, 5, 7, false);
    var done := ShardTransfer(2, 5, 7, false);
    var key := moving.Key();
    assert pool.GetTaskResult(key) == None;

    var running := RawTaskHandle(false, None, Cancelled(false));
    pool.AddTask(moving, TransferTaskItem(running, TransferTaskProgress(0, 100)));
    assert pool.CheckIfStillRunning(key);
    assert pool.GetTaskProgress(key) == Some(TransferTaskProgress(0, 100));
    assert pool.GetTaskResult(key) == None;

    var completed := RawTaskHandle(true, Some(true), Cancelled(true));
    pool.AddTask(done, TransferTaskItem(completed, TransferTaskProgress(100, 100)));
    assert !pool.CheckIfStillRunning(done.Key());
    assert pool.GetTaskResult(done.Key()) == Some(true);

    var r := pool.StopIfExists(key);
    assert r == Stopped;
    assert pool.GetTaskProgress(key) == None;
    assert done.Key() in pool.tasks;
    r := pool.StopIfExists(key);
    assert r == NotFound;
  }
}
