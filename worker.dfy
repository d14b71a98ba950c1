/** The workforce (pkg/worker/worker.go): a fetcher that claims pending
    tasks into a bounded buffer and workers that take tasks from its head
    and record how they ended. Each pass of a goroutine's loop is one
    atomic method call; the goroutines, the wait group and the sleeps are
    not modelled. */
module Workers {
  import opened Wrappers
  import opened Schema
  import Pid
  import Text
  import Store
  import Queue
  import ScaleImage

  /** `make(chan *ent.Task, 20)`. */
  const Capacity: nat := 20

  /** The fetcher skips a pass while more than this many are buffered. */
  const SkipAbove: nat := 10

  /** `Workforce.SetDefault`. */
  const DefaultMaxWorkers: int := 5

  // ------------------------------------------------- the buffer invariant

  function TableIds(table: seq<Task>): set<Pid.ID>
  {
    set i | 0 <= i < |table| :: table[i].id
  }

  /** What the buffer holds relative to the table: distinct tasks, each of
      which is a row of the table in `working`. So no task is handed to two
      workers, and nothing `pending` sits in the buffer. */
  predicate Buffered(table: seq<Task>, items: seq<Task>)
  {
    Queue.UniqueIds(table) && Queue.UniqueIds(items)
    && (forall k :: 0 <= k < |items| ==> items[k].id in TableIds(table))
    && (forall k, i :: 0 <= k < |items| && 0 <= i < |table| && items[k].id == table[i].id ==>
          table[i].status == Working)
  }

  /** Tasks of two buffers whose ids never meet can be concatenated
      without repeating an id. */
  lemma {:induction false} AppendUnique(a: seq<Task>, b: seq<Task>)
    requires Queue.UniqueIds(a) && Queue.UniqueIds(b)
    requires forall k, m :: 0 <= k < |a| && 0 <= m < |b| ==> a[k].id != b[m].id
    ensures Queue.UniqueIds(a + b)
  {
    var out := a + b;
    forall x, y | 0 <= x < |out| && 0 <= y < |out| && out[x].id == out[y].id
      ensures x == y
    {
      if x < |a| && y < |a| {
        assert a[x].id == a[y].id;
      } else if x >= |a| && y >= |a| {
        assert b[x - |a|].id == b[y - |a|].id;
      }
    }
  }

  /** The rows a claim selects are `pending`, so none of them is in a
      buffer of `working` rows. */
  lemma ClaimedAreNotBuffered(table: seq<Task>, items: seq<Task>, sel: seq<Task>)
    requires Buffered(table, items)
    requires forall t :: t in sel ==> t in table && t.status == Pending
    ensures forall k, m :: 0 <= k < |items| && 0 <= m < |sel| ==> items[k].id != sel[m].id
  {
    forall k, m | 0 <= k < |items| && 0 <= m < |sel|
      ensures items[k].id != sel[m].id
    {
      assert sel[m] in sel;
      var i :| 0 <= i < |table| && table[i] == sel[m];
      assert table[i].status == Pending;
    }
  }

  /** Marking keeps the ids of the table, and every row whose id is
      marked, or was already `working`, is `working` afterwards. */
  lemma MarkedAreWorking(table: seq<Task>, items: seq<Task>, sel: seq<Task>, now: int)
    requires Buffered(table, items)
    requires forall t :: t in sel ==> t in table
    ensures var r := Queue.MarkWorking(table, Queue.IdSet(sel), now);
      TableIds(r) == TableIds(table)
      && (forall k :: 0 <= k < |sel| ==> sel[k].id in TableIds(r))
      && (forall k, i :: 0 <= k < |items + sel| && 0 <= i < |r| && (items + sel)[k].id == r[i].id ==>
            r[i].status == Working)
  {
    var r := Queue.MarkWorking(table, Queue.IdSet(sel), now);
    assert TableIds(r) == TableIds(table) by {
      assert forall i :: 0 <= i < |table| ==> r[i].id == table[i].id;
    }
    forall k | 0 <= k < |sel|
      ensures sel[k].id in TableIds(r)
    {
      assert sel[k] in sel;
      var i :| 0 <= i < |table| && table[i] == sel[k];
      assert r[i].id == sel[k].id;
    }
    var out := items + sel;
    forall k, i | 0 <= k < |out| && 0 <= i < |r| && out[k].id == r[i].id
      ensures r[i].status == Working
    {
      if k >= |items| {
        assert sel[k - |items|] in sel;
        assert table[i].id in Queue.IdSet(sel);
      } else {
        assert items[k].id == table[i].id;
      }
    }
  }

  /** A claim keeps the invariant: the claimed rows were `pending`, so they
      are not already buffered, and they become `working`. */
  lemma ClaimKeepsBuffered(table: seq<Task>, items: seq<Task>, now: int)
    requires Buffered(table, items)
    ensures var sel := Queue.OldestPending(table);
      Buffered(Queue.MarkWorking(table, Queue.IdSet(sel), now), items + sel)
  {
    var sel := Queue.OldestPending(table);
    var r := Queue.MarkWorking(table, Queue.IdSet(sel), now);
    Queue.OldestPendingSelects(table);
    Queue.UpdatesKeepUniqueIds(table, Queue.IdSet(sel), 0, Pending, None, now);
    ClaimedAreNotBuffered(table, items, sel);
    AppendUnique(items, sel);
    MarkedAreWorking(table, items, sel, now);
    var out := items + sel;
    assert forall k :: 0 <= k < |out| ==> out[k].id in TableIds(r) by {
      forall k | 0 <= k < |out|
        ensures out[k].id in TableIds(r)
      {
        if k < |items| {
          assert out[k] == items[k];
        } else {
          assert out[k] == sel[k - |items|];
        }
      }
    }
  }

  /** Finishing the head keeps the invariant for the rest of the buffer,
      whatever the head's row is set to, and moves that row along a
      status transition. */
  lemma FinishKeepsBuffered(table: seq<Task>, items: seq<Task>, s: Status, msg: Option<string>, now: int)
    requires Buffered(table, items) && items != []
    requires s == Status.Done || s == Error
    ensures Buffered(table, items[1..])
    ensures var u := Queue.UpdateOne(table, items[0].id, s, msg, now);
      u.Ok? && Buffered(u.value, items[1..])
      && forall i :: 0 <= i < |table| ==> Queue.Transition(table[i].status, u.value[i].status)
  {
    var u := Queue.UpdateOne(table, items[0].id, s, msg, now);
    assert items[0].id in TableIds(table);
    assert u.Ok?;
    var r := u.value;
    assert TableIds(r) == TableIds(table) by {
      assert forall i :: 0 <= i < |table| ==> r[i].id == table[i].id;
    }
    var rest := items[1..];
    forall k, i | 0 <= k < |rest| && 0 <= i < |r| && rest[k].id == r[i].id
      ensures r[i].status == Working
    {
      assert rest[k] == items[k + 1];
    }
    assert Queue.UniqueIds(rest) by {
      forall a, b | 0 <= a < |rest| && 0 <= b < |rest| && rest[a].id == rest[b].id
        ensures a == b
      {
        assert items[a + 1].id == items[b + 1].id;
      }
    }
  }

  // -------------------------------------------------------------- objects

  /** A cancellable `context.Context`. */
  class Context {
    var cancelled: bool

    constructor ()
      ensures !cancelled
    {
      cancelled := false;
    }
  }

  /** The buffered channel of tasks: a FIFO with a fixed capacity. */
  class Channel {
    var items: seq<Task>
    const capacity: nat

    constructor (capacity: nat)
      ensures items == [] && this.capacity == capacity
    {
      items := [];
      this.capacity := capacity;
    }

    /** A send; with room in the buffer it does not block. */
    method Push(t: Task)
      requires |items| < capacity
      modifies this
      ensures items == old(items) + [t]
    {
      items := items + [t];
    }

    /** The fetcher's send loop: the tasks in order; with room for all of
        them no send blocks. */
    method PushAll(ts: seq<Task>)
      requires |items| + |ts| <= capacity
      modifies this
      ensures items == old(items) + ts
    {
      var k := 0;
      while k < |ts|
        invariant 0 <= k <= |ts|
        invariant items == old(items) + ts[..k]
      {
        Push(ts[k]);
        k := k + 1;
        assert ts[..k] == ts[..k - 1] + [ts[k - 1]];
      }
      assert ts[..|ts|] == ts;
    }

    /** A receive, after the length check: the head, or nothing. */
    method Pop() returns (t: Option<Task>)
      modifies this
      ensures old(items) == [] ==> t == None && items == []
      ensures old(items) != [] ==> t == Some(old(items)[0]) && items == old(items)[1..]
    {
      if items == [] {
        return None;
      }
      t := Some(items[0]);
      items := items[1..];
    }
  }

  /** How one pass of a worker's loop ended. */
  datatype StepResult =
    | Stopped
    | Idle
    | Finished(id: Pid.ID)
    | Failed(id: Pid.ID, msg: string)
    | Halted(id: Pid.ID, msg: string)

  class Worker {
    const db: Store.Database
    const id: string
    const ctx: Context
    const parent: Context

    constructor (db: Store.Database, id: string, parent: Context)
      ensures this.db == db && this.id == id && this.parent == parent
      ensures fresh(ctx) && !ctx.cancelled
    {
      this.db := db;
      this.id := id;
      this.parent := parent;
      ctx := new Context();
    }

    /** `<-w.ctx.Done()`: the worker's own context or the workforce's is
        cancelled. */
    predicate Done()
      reads ctx, parent
    {
      ctx.cancelled || parent.cancelled
    }

    method Stop()
      modifies ctx
      ensures ctx.cancelled
    {
      ctx.cancelled := true;
    }

    /** `proccesTask`: run the handler for the task's type, then mark the
        task `done`. An unknown type is an error; so is a failed handler or
        a failed done-update, and then the task table is left as it was. */
    method ProcessTask(t: Task, alloc: Pid.Allocator, now: int, c: ScaleImage.Call, doneDriver: Outcome)
      returns (err: Outcome)
      requires ScaleImage.CallFits(c)
      modifies db, alloc
      ensures db.images == old(db.images) && db.artists == old(db.artists)
      ensures old(db.imgDir) <= db.imgDir
      ensures db.processed == ProcessedAfterTask(t, old(db.images), old(db.processed), old(alloc.State()), c)
      ensures alloc.State() == WindowAfterTask(t, old(db.images), old(alloc.State()), c)
      ensures t.typ != TypeScaleImg ==>
        err == Fail(t.typ + " is not a valid task type") && db.Snapshot() == old(db.Snapshot())
      ensures err.Pass? ==>
        t.typ == TypeScaleImg
        && Queue.UpdateOne(old(db.tasks), t.id, Status.Done, None, now).Ok?
        && db.tasks == Queue.UpdateOne(old(db.tasks), t.id, Status.Done, None, now).value
      ensures err.Fail? ==> db.tasks == old(db.tasks)
      ensures t.typ == TypeScaleImg ==>
        var rows := ScaleImage.Recorded(t, old(db.images), old(alloc.State()), c);
        err.Pass? ==> rows.Some? && ScaleImage.Saved(old(db.processed), rows.value, c.env)
    {
      if t.typ != TypeScaleImg {
        return Fail(t.typ + " is not a valid task type");
      }
      var handled := ScaleImage.ScaleImg(t, db, alloc, c);
      if handled.Fail? {
        return handled;
      }
      var updated := Queue.UpdateOne(db.tasks, t.id, Status.Done, None, now);
      if updated.Err? {
        return Fail(updated.msg);
      }
      if doneDriver.Fail? {
        return doneDriver;
      }
      db.tasks := updated.value;
      err := Pass;
    }

    /** The body of a pass once a task `t` has been taken: process it and,
        when that fails, write the failure to the task as `error` with its
        message through the task entity's own driver (`binding`); when that
        write fails too the worker stops itself and the task stays as it
        was. */
    method Run(t: Task, alloc: Pid.Allocator, now: int, c: ScaleImage.Call,
               doneDriver: Outcome, binding: Binding, errorDriver: Outcome)
      returns (res: StepResult)
      requires ScaleImage.CallFits(c)
      modifies db, alloc, ctx
      ensures db.images == old(db.images) && db.artists == old(db.artists)
      ensures old(db.imgDir) <= db.imgDir
      ensures db.processed == ProcessedAfterTask(t, old(db.images), old(db.processed), old(alloc.State()), c)
      ensures alloc.State() == WindowAfterTask(t, old(db.images), old(alloc.State()), c)
      ensures (res.Finished? || res.Failed? || res.Halted?) && res.id == t.id
      ensures res.Finished? ==>
        Queue.UpdateOne(old(db.tasks), t.id, Status.Done, None, now).Ok? && db.tasks == Queue.UpdateOne(old(db.tasks), t.id, Status.Done, None, now).value
      ensures res.Failed? ==>
        binding == Client
        && Queue.UpdateOne(old(db.tasks), t.id, Error, Some(res.msg), now).Ok? && db.tasks == Queue.UpdateOne(old(db.tasks), t.id, Error, Some(res.msg), now).value
      ensures res.Halted? ==> db.tasks == old(db.tasks) && ctx.cancelled
      ensures binding == CommittedTx ==> !res.Failed?
      ensures (res.Failed? || res.Halted?) && t.typ != TypeScaleImg ==> res.msg == t.typ + " is not a valid task type"
    {
      var err := ProcessTask(t, alloc, now, c, doneDriver);
      if err.Pass? {
        return Finished(t.id);
      }
      var written := WriteError(binding, db.tasks, t.id, err.msg, now, errorDriver);
      if written.Err? {
        Stop();
        return Halted(t.id, err.msg);
      }
      db.tasks := written.value;
      res := Failed(t.id, err.msg);
    }

    /** One pass of the worker's loop: stop when cancelled, wait when the
        buffer is empty, otherwise take the head and run it. */
    method Step(tasks: Channel, alloc: Pid.Allocator, now: int, c: ScaleImage.Call,
                doneDriver: Outcome, binding: Binding, errorDriver: Outcome)
      returns (res: StepResult)
      requires ScaleImage.CallFits(c)
      modifies tasks, db, alloc, ctx
      ensures db.images == old(db.images) && db.artists == old(db.artists)
      ensures old(db.imgDir) <= db.imgDir
      ensures old(Done()) ==> res == Stopped
      ensures res.Stopped? || res.Idle? ==>
        tasks.items == old(tasks.items) && db.Snapshot() == old(db.Snapshot())
        && alloc.State() == old(alloc.State())
      ensures !old(Done()) && old(tasks.items) == [] ==> res == Idle
      ensures !old(Done()) && old(tasks.items) != [] ==>
        var t := old(tasks.items)[0];
        tasks.items == old(tasks.items)[1..]
        && (res.Finished? || res.Failed? || res.Halted?) && res.id == t.id
        && db.processed == ProcessedAfterTask(t, old(db.images), old(db.processed), old(alloc.State()), c)
        && alloc.State() == WindowAfterTask(t, old(db.images), old(alloc.State()), c)
      ensures res.Finished? ==>
        Queue.UpdateOne(old(db.tasks), res.id, Status.Done, None, now).Ok? && db.tasks == Queue.UpdateOne(old(db.tasks), res.id, Status.Done, None, now).value
      ensures res.Failed? ==>
        binding == Client
        && Queue.UpdateOne(old(db.tasks), res.id, Error, Some(res.msg), now).Ok? && db.tasks == Queue.UpdateOne(old(db.tasks), res.id, Error, Some(res.msg), now).value
      ensures res.Halted? ==> db.tasks == old(db.tasks) && ctx.cancelled
      ensures binding == CommittedTx ==> !res.Failed?
      ensures (res.Failed? || res.Halted?) && old(tasks.items)[0].typ != TypeScaleImg ==>
        res.msg == old(tasks.items)[0].typ + " is not a valid task type"
      ensures Buffered(old(db.tasks), old(tasks.items)) ==> Buffered(db.tasks, tasks.items)
    {
      if ctx.cancelled || parent.cancelled {
        return Stopped;
      }
      ghost var table := db.tasks;
      ghost var items := tasks.items;
      var next := tasks.Pop();
      if next.None? {
        return Idle;
      }
      var t := next.value;
      res := Run(t, alloc, now, c, doneDriver, binding, errorDriver);
      if Buffered(table, items) {
        FinishKeepsBuffered(table, items, Status.Done, None, now);
        if !res.Finished? {
          FinishKeepsBuffered(table, items, Error, Some(res.msg), now);
        }
      }
    }
  }

  /** The processed-image table after a task has been run. */
  function ProcessedAfterTask(t: Task, images: seq<Image>, processed: seq<ProcessedImage>, w: Pid.Window,
                              c: ScaleImage.Call): seq<ProcessedImage>
    requires ScaleImage.CallFits(c)
  {
    if t.typ == TypeScaleImg then ScaleImage.ProcessedAfter(t, images, processed, w, c) else processed
  }

  /** The allocator state after a task has been run. */
  function WindowAfterTask(t: Task, images: seq<Image>, w: Pid.Window, c: ScaleImage.Call): Pid.Window
    requires ScaleImage.CallFits(c)
  {
    if t.typ == TypeScaleImg then ScaleImage.WindowAfter(t, images, w, c) else w
  }

  // ------------------------------------------------------ the error write

  /** The error `database/sql` reports for a statement on a transaction
      that has been committed or rolled back. */
  const TxDoneMessage: string := "sql: transaction has already been committed or rolled back"

  /** The driver a task entity's own `Update()` runs on. A task the fetcher
      sends was read inside its transaction and is still bound to it when
      that transaction has been committed (`CommittedTx`); only `Unwrap()`
      would rebind it to the client (`Client`). */
  datatype Binding = CommittedTx | Client

  /** `t.Update().SetError(msg).SetStatus(error).Exec`: on a finished
      transaction the statement fails and the table is untouched; on the
      client it is the update of the row with `t`'s id, then whatever the
      driver reports. */
  function WriteError(b: Binding, table: seq<Task>, id: Pid.ID, msg: string, now: int, driver: Outcome)
    : (r: Result<seq<Task>>)
    ensures b == CommittedTx ==> r == Err(TxDoneMessage)
    ensures r.Ok? <==> b == Client && driver.Pass? && exists i :: 0 <= i < |table| && table[i].id == id
    ensures r.Ok? ==> r == Queue.UpdateOne(table, id, Error, Some(msg), now)
  {
    match b
    case CommittedTx => Err(TxDoneMessage)
    case Client =>
      var u := Queue.UpdateOne(table, id, Error, Some(msg), now);
      if u.Err? then u
      else if driver.Fail? then Err(driver.msg)
      else u
  }

  /** As written: the head of a buffer the fetcher filled is `working`, and
      the write of its error fails, so after a failure the task is still
      `working`; it never reaches `error`. */
  lemma CommittedWriteLeavesWorking(table: seq<Task>, items: seq<Task>, msg: string, now: int, driver: Outcome)
    requires Buffered(table, items) && items != []
    ensures WriteError(CommittedTx, table, items[0].id, msg, now, driver) == Err(TxDoneMessage)
    ensures exists i :: 0 <= i < |table| && table[i].id == items[0].id && table[i].status == Working
  {
    assert items[0].id in TableIds(table);
    var i :| 0 <= i < |table| && table[i].id == items[0].id;
    assert table[i].status == Working;
  }

  /** With the entity unwrapped and a driver that succeeds, the failed task
      is recorded: its row becomes `error` with the message, every other
      row is kept, and the rest of the buffer is still valid. */
  lemma UnwrappedWriteRecordsError(table: seq<Task>, items: seq<Task>, msg: string, now: int)
    requires Buffered(table, items) && items != []
    ensures var r := WriteError(Client, table, items[0].id, msg, now, Pass);
      r.Ok? && |r.value| == |table| && Buffered(r.value, items[1..])
      && (forall i :: 0 <= i < |table| && table[i].id == items[0].id ==>
            r.value[i].status == Error && r.value[i].error == Some(msg))
      && (forall i :: 0 <= i < |table| && table[i].id != items[0].id ==> r.value[i] == table[i])
  {
    FinishKeepsBuffered(table, items, Error, Some(msg), now);
  }

  /** How one pass of the fetcher's loop ended. */
  datatype FetchResult = FetchStopped | Skipped | Retry(msg: string) | Claimed(count: nat)

  /** The outcomes of the fetcher's storage calls. */
  datatype FetchEnv = FetchEnv(begin: Outcome, query: Outcome, update: Outcome, commit: Outcome)

  class Workforce {
    const db: Store.Database
    const workers: seq<Worker>
    const tasks: Channel
    const ctx: Context
    var running: bool

    /** The wiring `NewWorkforce` sets up. */
    predicate Valid()
    {
      tasks.capacity == Capacity
      && forall i :: 0 <= i < |workers| ==> workers[i].db == db && workers[i].parent == ctx
    }

    /** `NewWorkforce`: `maxWorkers` workers named "0", "1", ..., each with
        its own context under the workforce's, and an empty buffer. */
    constructor (maxWorkers: int, db: Store.Database)
      ensures this.db == db && Valid() && !running
      ensures |workers| == if maxWorkers < 0 then 0 else maxWorkers
      ensures forall i :: 0 <= i < |workers| ==> workers[i].id == Text.Decimal(i) && !workers[i].ctx.cancelled
      ensures forall i :: 0 <= i < |workers| ==> fresh(workers[i]) && fresh(workers[i].ctx) && workers[i].ctx != ctx
      ensures fresh(tasks) && tasks.items == [] && fresh(ctx) && !ctx.cancelled
    {
      var top := new Context();
      var ws: seq<Worker> := [];
      var i := 0;
      while i < maxWorkers
        invariant 0 <= i && (maxWorkers < 0 ==> i == 0) && (0 <= maxWorkers ==> i <= maxWorkers)
        invariant |ws| == i && !top.cancelled
        invariant forall j :: 0 <= j < i ==>
          ws[j].db == db && ws[j].parent == top && ws[j].id == Text.Decimal(j) && !ws[j].ctx.cancelled
          && fresh(ws[j]) && fresh(ws[j].ctx) && ws[j].ctx != top
      {
        var w := new Worker(db, Text.Decimal(i), top);
        ws := ws + [w];
        i := i + 1;
      }
      this.db := db;
      workers := ws;
      tasks := new Channel(Capacity);
      ctx := top;
      running := false;
    }

    /** `Start`: every `working` task goes back to `pending` before the
        workers and the fetcher run; if that update fails nothing starts. */
    method Start(now: int, recovery: Outcome) returns (r: Outcome)
      modifies this, db
      ensures r == recovery
      ensures r.Fail? ==> db.tasks == old(db.tasks) && running == old(running)
      ensures r.Pass? ==> db.tasks == Queue.Recover(old(db.tasks), now) && running
      ensures db.images == old(db.images) && db.processed == old(db.processed)
      ensures db.artists == old(db.artists) && db.imgDir == old(db.imgDir)
    {
      if recovery.Fail? {
        return recovery;
      }
      db.tasks := Queue.Recover(db.tasks, now);
      running := true;
      r := Pass;
    }

    /** `Stop`: cancelling the workforce's context stops every worker and
        the fetcher at their next pass. */
    method Stop()
      requires Valid()
      modifies ctx
      ensures ctx.cancelled
      ensures forall i :: 0 <= i < |workers| ==> workers[i].Done()
    {
      ctx.cancelled := true;
    }

    /** One pass of the fetcher's loop. A claim selects the oldest pending
        tasks, marks exactly those `working` and appends them to the buffer
        in query order; any failed storage call leaves table and buffer as
        they were. Because a pass is skipped above ten buffered tasks, the
        buffer never holds more than twenty. */
    method FetchStep(now: int, env: FetchEnv) returns (res: FetchResult)
      requires Valid()
      modifies db, tasks
      ensures db.images == old(db.images) && db.processed == old(db.processed)
      ensures db.artists == old(db.artists) && db.imgDir == old(db.imgDir)
      ensures ctx.cancelled ==> res == FetchStopped
      ensures !ctx.cancelled && |old(tasks.items)| > SkipAbove ==> res == Skipped
      ensures !res.Claimed? ==> db.tasks == old(db.tasks) && tasks.items == old(tasks.items)
      ensures res.Claimed? <==>
        !ctx.cancelled && |old(tasks.items)| <= SkipAbove
        && env.begin.Pass? && env.query.Pass? && env.update.Pass? && env.commit.Pass?
      ensures res.Claimed? ==>
        var sel := Queue.OldestPending(old(db.tasks));
        db.tasks == Queue.MarkWorking(old(db.tasks), Queue.IdSet(sel), now)
        && tasks.items == old(tasks.items) + sel
        && res.count == |sel|
        && |tasks.items| <= Capacity
      ensures Buffered(old(db.tasks), old(tasks.items)) ==> Buffered(db.tasks, tasks.items)
    {
      if ctx.cancelled {
        return FetchStopped;
      }
      if |tasks.items| > SkipAbove {
        return Skipped;
      }
      if env.begin.Fail? {
        return Retry(env.begin.msg);
      }
      if env.query.Fail? {
        return Retry(env.query.msg);
      }
      var claimed := Queue.OldestPending(db.tasks);
      var ids := Queue.IdSet(claimed);
      if env.update.Fail? {
        return Retry(env.update.msg);
      }
      if env.commit.Fail? {
        return Retry(env.commit.msg);
      }
      ghost var table := db.tasks;
      db.tasks := Queue.MarkWorking(db.tasks, ids, now);
      ghost var before := tasks.items;
      tasks.PushAll(claimed);
      if Buffered(table, before) {
        ClaimKeepsBuffered(table, before, now);
      }
      res := Claimed(|claimed|);
    }
  }
}
