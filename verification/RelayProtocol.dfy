/** The outbox protocol: API calls commit and notify while the relay fetches, publishes, marks and parks. */
module RelayProtocol {
  import opened Domain
  import opened OutboxRelay
  import Engine

  /** Where the relay's loop stands. `kept` are the ids of the published events of the batch so far. */
  datatype Pc =
    | Fetching(again: bool)
    | Sleeping
    | Publishing(batch: seq<Row>, done: nat, kept: seq<Uuid>)
    | Parked

  /** `calls` are the events whose PlaceOrder or Deposit call has committed but not notified yet. */
  datatype Relaying = Relaying(rows: seq<Row>, published: seq<Row>, slot: bool, calls: set<Uuid>, pc: Pc)

  const START := Relaying([], [], false, {}, Fetching(false))

  /**
   An API call commits its event, which takes a place by its time of creation, and then notifies;
   a cancel notifies inside its transaction, before it commits. The relay's steps may fail.
   */
  datatype Step =
    | Commit(row: Row, at: nat)
    | Notify(id: Uuid)
    | NotifyCancel
    | CommitCancel(row: Row, at: nat)
    | Fetch(fails: bool)
    | Retry
    | Publish(fails: bool)
    | Finish(fails: bool)
    | Notified
    | Timeout

  function Insert(rows: seq<Row>, row: Row, at: nat): (more: seq<Row>)
    requires at <= |rows|
    ensures |more| == |rows| + 1
  {
    rows[..at] + [row] + rows[at..]
  }

  predicate HasId(rows: seq<Row>, id: Uuid) {
    exists i :: 0 <= i < |rows| && rows[i].id == id
  }

  predicate CanCommit(s: Relaying, row: Row, at: nat) {
    at <= |s.rows| && !row.processed && !HasId(s.rows, row.id)
  }

  /** The state after a step; none if the step is not possible. */
  function Next(s: Relaying, step: Step): Option<Relaying> {
    match step
    case Commit(row, at) =>
      if CanCommit(s, row, at) && !row.event.CancelRequested?
      then Some(s.(rows := Insert(s.rows, row, at), calls := s.calls + {row.id})) else None
    case Notify(id) => if id in s.calls then Some(s.(calls := s.calls - {id}, slot := true)) else None
    case NotifyCancel => Some(s.(slot := true))
    case CommitCancel(row, at) =>
      if CanCommit(s, row, at) && row.event.CancelRequested? then Some(s.(rows := Insert(s.rows, row, at))) else None
    case Fetch(fails) =>
      if !s.pc.Fetching? then None
      else if fails then Some(s.(pc := Parked))
      else if Batch(s.rows) != [] then Some(s.(pc := Publishing(Batch(s.rows), 0, [])))
      else Some(s.(pc := if s.pc.again then Parked else Sleeping))
    case Retry => if s.pc.Sleeping? then Some(s.(pc := Fetching(true))) else None
    case Publish(fails) =>
      if !s.pc.Publishing? || s.pc.done >= |s.pc.batch| then None
      else if fails then Some(s.(pc := s.pc.(done := s.pc.done + 1)))
      else
        var row := s.pc.batch[s.pc.done];
        Some(s.(published := s.published + [row], pc := s.pc.(done := s.pc.done + 1, kept := s.pc.kept + [row.id])))
    case Finish(fails) =>
      if !s.pc.Publishing? || s.pc.done < |s.pc.batch| then None
      else if fails || s.pc.kept == [] then Some(s.(pc := Parked))
      else Some(s.(rows := Mark(s.rows, s.pc.kept), pc := Fetching(false)))
    case Notified => if s.pc.Parked? && s.slot then Some(s.(slot := false, pc := Fetching(false))) else None
    case Timeout => if s.pc.Parked? then Some(s.(pc := Fetching(false))) else None
  }

  function Exec(s: Relaying, steps: seq<Step>): Option<Relaying>
    decreases |steps|
  {
    if steps == [] then Some(s)
    else
      match Next(s, steps[0])
      case None => None
      case Some(next) => Exec(next, steps[1..])
  }

  predicate Fails(step: Step) {
    (step.Fetch? || step.Publish? || step.Finish?) && step.fails
  }

  predicate FailureFree(steps: seq<Step>) {
    forall i | 0 <= i < |steps| :: !Fails(steps[i])
  }

  // ---------- Safety, whatever fails ----------

  /** Every marked event has been published, and only committed events are. */
  ghost predicate Safe(s: Relaying) {
    && DistinctIds(s.rows)
    && (forall i | 0 <= i < |s.rows| && s.rows[i].processed :: HasId(s.published, s.rows[i].id))
    && (forall id | HasId(s.published, id) :: HasId(s.rows, id))
    && (s.pc.Publishing? ==>
          && s.pc.done <= |s.pc.batch| && (forall id | id in s.pc.kept :: HasId(s.published, id))
          && (forall id | HasId(s.pc.batch, id) :: HasId(s.rows, id)))
  }

  lemma HasAppend(rows: seq<Row>, row: Row, id: Uuid)
    ensures HasId(rows + [row], id) <==> HasId(rows, id) || id == row.id
  {
    var more := rows + [row];
    if HasId(rows, id) {
      var i :| 0 <= i < |rows| && rows[i].id == id;
      assert more[i].id == id;
    }
    assert more[|rows|] == row;
  }

  lemma HasAt(rows: seq<Row>, i: nat)
    requires i < |rows|
    ensures HasId(rows, rows[i].id)
  {}

  lemma InsertHas(rows: seq<Row>, row: Row, at: nat, id: Uuid)
    requires at <= |rows|
    ensures HasId(Insert(rows, row, at), id) <==> HasId(rows, id) || id == row.id
  {
    var more := Insert(rows, row, at);
    if HasId(rows, id) {
      var i :| 0 <= i < |rows| && rows[i].id == id;
      assert more[if i < at then i else i + 1].id == id;
    }
    assert more[at] == row;
  }

  lemma InsertDistinct(rows: seq<Row>, row: Row, at: nat)
    requires at <= |rows| && DistinctIds(rows) && !HasId(rows, row.id)
    ensures DistinctIds(Insert(rows, row, at))
  {
    var more := Insert(rows, row, at);
    assert forall i | 0 <= i < |more| && i != at :: more[i] == rows[if i < at then i else i - 1];
  }

  lemma MarkHas(rows: seq<Row>, ids: seq<Uuid>, id: Uuid)
    ensures HasId(Mark(rows, ids), id) <==> HasId(rows, id)
  {
    var marked := Mark(rows, ids);
    assert forall i | 0 <= i < |rows| :: marked[i].id == rows[i].id;
  }

  /** The fetched events are open ones, and fetched exactly if there are any. */
  lemma BatchHas(rows: seq<Row>)
    ensures forall id | HasId(Batch(rows), id) :: HasId(rows, id) && IsOpen(rows, id)
    ensures Batch(rows) == [] <==> Unprocessed(rows) == []
  {
    forall id | HasId(Batch(rows), id) ensures HasId(rows, id) && IsOpen(rows, id) {
      var i :| 0 <= i < |Batch(rows)| && Batch(rows)[i].id == id;
      UnprocessedIn(rows, Batch(rows)[i]);
      assert Batch(rows)[i] == Unprocessed(rows)[i];
    }
  }

  lemma UnprocessedHas(rows: seq<Row>, id: Uuid)
    ensures HasId(Unprocessed(rows), id) <==> IsOpen(rows, id)
  {
    if HasId(Unprocessed(rows), id) {
      var i :| 0 <= i < |Unprocessed(rows)| && Unprocessed(rows)[i].id == id;
      UnprocessedIn(rows, Unprocessed(rows)[i]);
    }
    if IsOpen(rows, id) {
      var i :| 0 <= i < |rows| && rows[i].id == id && !rows[i].processed;
      UnprocessedIn(rows, rows[i]);
    }
  }

  lemma CommitSafe(s: Relaying, row: Row, at: nat, calls: set<Uuid>)
    requires Safe(s) && CanCommit(s, row, at)
    ensures Safe(s.(rows := Insert(s.rows, row, at), calls := calls))
  {
    var more := Insert(s.rows, row, at);
    InsertDistinct(s.rows, row, at);
    hide DistinctIds, HasId;
    forall id ensures HasId(more, id) <==> HasId(s.rows, id) || id == row.id {
      InsertHas(s.rows, row, at, id);
    }
    assert forall i | 0 <= i < |more| && i != at :: more[i] == s.rows[if i < at then i else i - 1];
  }

  lemma StepSafe(s: Relaying, step: Step)
    requires Safe(s) && Next(s, step).Some?
    ensures Safe(Next(s, step).value)
    ensures forall id | HasId(s.rows, id) :: HasId(Next(s, step).value.rows, id)
  {
    hide DistinctIds, HasId, Batch, Insert, Mark;
    match step {
      case Commit(row, at) =>
        CommitSafe(s, row, at, s.calls + {row.id});
        CommitKeeps(s, row, at);
      case CommitCancel(row, at) =>
        CommitSafe(s, row, at, s.calls);
        CommitKeeps(s, row, at);
      case Fetch(_) => BatchHas(s.rows);
      case Publish(fails) => PublishSafe(s, fails);
      case Finish(_) => MarkSafe(s);
      case _ =>
    }
  }

  lemma PublishSafe(s: Relaying, fails: bool)
    requires Safe(s) && s.pc.Publishing? && s.pc.done < |s.pc.batch|
    ensures Safe(Next(s, Publish(fails)).value)
  {
    hide DistinctIds, HasId;
    var row := s.pc.batch[s.pc.done];
    HasAt(s.pc.batch, s.pc.done);
    forall id ensures HasId(s.published + [row], id) <==> HasId(s.published, id) || id == row.id {
      HasAppend(s.published, row, id);
    }
  }

  lemma CommitKeeps(s: Relaying, row: Row, at: nat)
    requires at <= |s.rows|
    ensures forall id | HasId(s.rows, id) :: HasId(Insert(s.rows, row, at), id)
  {
    forall id | HasId(s.rows, id) ensures HasId(Insert(s.rows, row, at), id) {
      InsertHas(s.rows, row, at, id);
    }
  }

  lemma MarkSafe(s: Relaying)
    requires Safe(s) && s.pc.Publishing?
    ensures Safe(s.(rows := Mark(s.rows, s.pc.kept), pc := Fetching(false)))
    ensures forall id | HasId(s.rows, id) :: HasId(Mark(s.rows, s.pc.kept), id)
  {
    KeepsIds(s.rows, s.pc.kept);
    hide DistinctIds, HasId;
    forall id ensures HasId(Mark(s.rows, s.pc.kept), id) <==> HasId(s.rows, id) {
      MarkHas(s.rows, s.pc.kept, id);
    }
  }

  lemma {:induction false} ExecSafe(s: Relaying, steps: seq<Step>)
    requires Safe(s) && Exec(s, steps).Some?
    ensures Safe(Exec(s, steps).value)
    ensures forall id | HasId(s.rows, id) :: HasId(Exec(s, steps).value.rows, id)
    decreases |steps|
  {
    hide Safe, Next, HasId;
    if steps != [] {
      StepSafe(s, steps[0]);
      ExecSafe(Next(s, steps[0]).value, steps[1..]);
    }
  }

  lemma {:induction false} ExecSplit(s: Relaying, first: seq<Step>, second: seq<Step>)
    requires Exec(s, first + second).Some?
    ensures Exec(s, first).Some? && Exec(Exec(s, first).value, second) == Exec(s, first + second)
    decreases |first|
  {
    hide Next;
    if first == [] {
      assert first + second == second;
    } else {
      assert (first + second)[1..] == first[1..] + second;
      ExecSplit(Next(s, first[0]).value, first[1..], second);
    }
  }

  predicate Commits(step: Step, id: Uuid) {
    (step.Commit? || step.CommitCancel?) && step.row.id == id
  }

  /**
   Under any pattern of failures, in every run: a marked event has been published, and a committed
   event is never lost: it is in the table, and if it is not marked it is still to be fetched.
   */
  lemma {:induction false} OutboxSafety(steps: seq<Step>, k: nat, id: Uuid)
    requires Exec(START, steps).Some?
    ensures var s := Exec(START, steps).value;
            forall i | 0 <= i < |s.rows| && s.rows[i].processed :: HasId(s.published, s.rows[i].id)
    ensures k < |steps| && Commits(steps[k], id) ==>
              var s := Exec(START, steps).value;
              exists i :: 0 <= i < |s.rows| && s.rows[i].id == id
                  && (s.rows[i].processed || s.rows[i] in Unprocessed(s.rows))
  {
    ExecSafe(START, steps);
    if k < |steps| && Commits(steps[k], id) {
      var s := Exec(START, steps).value;
      var front, rest := steps[..k], steps[k..];
      assert front + rest == steps && rest[0] == steps[k];
      ExecSplit(START, front, rest);
      var before := Exec(START, front).value;
      ExecSafe(START, front);
      var after := Next(before, steps[k]).value;
      assert HasId(after.rows, id) by {
        InsertHas(before.rows, steps[k].row, steps[k].at, id);
      }
      StepSafe(before, steps[k]);
      ExecSafe(after, rest[1..]);
      var i :| 0 <= i < |s.rows| && s.rows[i].id == id;
      UnprocessedIn(s.rows, s.rows[i]);
    }
  }

  // ---------- Publication and waking up ----------

  predicate IsOpen(rows: seq<Row>, id: Uuid) {
    exists i :: 0 <= i < |rows| && rows[i].id == id && !rows[i].processed
  }

  /** Nothing is owed: each event not marked belongs to a cancel, or to a call that has not returned. */
  predicate NothingOwed(s: Relaying) {
    forall i | 0 <= i < |s.rows| && !s.rows[i].processed :: s.rows[i].event.CancelRequested? || s.rows[i].id in s.calls
  }

  /**
   While no marking fails, an event is published once: before it is marked it is published only as
   part of the batch in progress.
   */
  ghost predicate Once(s: Relaying) {
    && Safe(s) && DistinctIds(s.published)
    && (forall id | HasId(s.published, id) && IsOpen(s.rows, id) :: s.pc.Publishing? && id in s.pc.kept)
    && (s.pc.Publishing? ==>
          && DistinctIds(s.pc.batch) && (forall id | HasId(s.pc.batch, id) :: IsOpen(s.rows, id))
          && (forall id | id in s.pc.kept :: HasId(s.pc.batch[..s.pc.done], id)))
  }

  /**
   Without any failure the relay never sleeps on an event that is owed: if it parks with the slot
   empty, nothing is owed.
   */
  ghost predicate Orderly(s: Relaying) {
    && Once(s)
    && (s.pc.Publishing? ==> s.pc.batch != [] && s.pc.kept == Ids(s.pc.batch[..s.pc.done]))
    && (s.pc.Parked? && !s.slot ==> NothingOwed(s))
  }

  lemma {:induction false} UnprocessedDistinct(rows: seq<Row>)
    requires DistinctIds(rows)
    ensures DistinctIds(Unprocessed(rows))
  {
    if rows != [] {
      UnprocessedDistinct(rows[1..]);
      UnprocessedHas(rows[1..], rows[0].id);
    }
  }

  lemma InsertOpen(rows: seq<Row>, row: Row, at: nat, id: Uuid)
    requires at <= |rows| && !row.processed
    ensures IsOpen(Insert(rows, row, at), id) <==> IsOpen(rows, id) || id == row.id
  {
    var more := Insert(rows, row, at);
    if IsOpen(rows, id) {
      var i :| 0 <= i < |rows| && rows[i].id == id && !rows[i].processed;
      assert more[if i < at then i else i + 1] == rows[i];
    }
    assert more[at] == row;
  }

  lemma MarkOpen(rows: seq<Row>, ids: seq<Uuid>, id: Uuid)
    ensures IsOpen(Mark(rows, ids), id) <==> IsOpen(rows, id) && id !in ids
  {
    var marked := Mark(rows, ids);
    if IsOpen(rows, id) && id !in ids {
      var i :| 0 <= i < |rows| && rows[i].id == id && !rows[i].processed;
      assert marked[i] == rows[i];
    }
  }

  lemma BatchOpen(rows: seq<Row>)
    requires DistinctIds(rows)
    ensures DistinctIds(Batch(rows)) && forall id | HasId(Batch(rows), id) :: IsOpen(rows, id)
    ensures Batch(rows) == [] ==> forall i | 0 <= i < |rows| :: rows[i].processed
  {
    UnprocessedDistinct(rows);
    BatchHas(rows);
    if Batch(rows) == [] {
      forall i | 0 <= i < |rows| ensures rows[i].processed {
        UnprocessedIn(rows, rows[i]);
      }
    }
  }

  lemma CommitOnce(s: Relaying, row: Row, at: nat, calls: set<Uuid>)
    requires Once(s) && CanCommit(s, row, at)
    ensures Once(s.(rows := Insert(s.rows, row, at), calls := calls))
  {
    hide Safe, HasId, IsOpen, Insert, DistinctIds;
    CommitSafe(s, row, at, calls);
    forall id ensures IsOpen(Insert(s.rows, row, at), id) <==> IsOpen(s.rows, id) || id == row.id {
      InsertOpen(s.rows, row, at, id);
    }
    PublishedHas(s, row.id);
  }

  lemma PublishedHas(s: Relaying, id: Uuid)
    requires Safe(s)
    ensures HasId(s.published, id) ==> HasId(s.rows, id)
    ensures s.pc.Publishing? ==> s.pc.done <= |s.pc.batch|
  {}

  lemma PublishOnce(s: Relaying, fails: bool)
    requires Once(s) && s.pc.Publishing? && s.pc.done < |s.pc.batch|
    ensures Once(Next(s, Publish(fails)).value)
  {
    hide Safe, IsOpen, HasId, DistinctIds;
    StepSafe(s, Publish(fails));
    var row := s.pc.batch[s.pc.done];
    assert s.pc.batch[..s.pc.done + 1] == s.pc.batch[..s.pc.done] + [row];
    NotYet(s.pc.batch, s.pc.done);
    forall id
      ensures HasId(s.published + [row], id) <==> HasId(s.published, id) || id == row.id
      ensures HasId(s.pc.batch[..s.pc.done + 1], id) <==> HasId(s.pc.batch[..s.pc.done], id) || id == row.id
    {
      HasAppend(s.published, row, id);
      HasAppend(s.pc.batch[..s.pc.done], row, id);
    }
    PublishAgain(s.published, row);
  }

  lemma NotYet(batch: seq<Row>, i: nat)
    requires DistinctIds(batch) && i < |batch|
    ensures !HasId(batch[..i], batch[i].id) && HasId(batch, batch[i].id)
  {}

  lemma FinishOnce(s: Relaying)
    requires Once(s) && s.pc.Publishing? && s.pc.done >= |s.pc.batch|
    ensures Once(Next(s, Finish(false)).value)
  {
    hide Safe, Mark, IsOpen, HasId, DistinctIds;
    StepSafe(s, Finish(false));
    forall id ensures IsOpen(Mark(s.rows, s.pc.kept), id) <==> IsOpen(s.rows, id) && id !in s.pc.kept {
      MarkOpen(s.rows, s.pc.kept, id);
    }
  }

  lemma FetchOnce(s: Relaying, fails: bool)
    requires Once(s) && s.pc.Fetching?
    ensures Once(Next(s, Fetch(fails)).value)
  {
    hide Safe, Batch, IsOpen, HasId, DistinctIds;
    StepSafe(s, Fetch(fails));
    SafeIds(s);
    BatchOpen(s.rows);
  }

  lemma SafeIds(s: Relaying)
    requires Safe(s)
    ensures DistinctIds(s.rows)
  {}

  /** The marking of some published events fails. */
  predicate LosesMarks(s: Relaying, step: Step) {
    step == Finish(true) && s.pc.Publishing? && s.pc.kept != []
  }

  /** Every step but one that loses marks keeps publication unique. */
  lemma StepOnce(s: Relaying, step: Step)
    requires Once(s) && !LosesMarks(s, step) && Next(s, step).Some?
    ensures Once(Next(s, step).value)
  {
    hide HasId, IsOpen, DistinctIds, Batch, Insert, Mark;
    match step {
      case Commit(row, at) => CommitOnce(s, row, at, s.calls + {row.id});
      case CommitCancel(row, at) => CommitOnce(s, row, at, s.calls);
      case Publish(fails) => PublishOnce(s, fails);
      case Finish(fails) =>
        if !fails {
          FinishOnce(s);
        }
      case Fetch(fails) => FetchOnce(s, fails);
      case _ =>
    }
  }

  lemma CommitOwes(s: Relaying, row: Row, at: nat, calls: set<Uuid>)
    requires NothingOwed(s) && at <= |s.rows| && s.calls <= calls && (row.event.CancelRequested? || row.id in calls)
    ensures NothingOwed(s.(rows := Insert(s.rows, row, at), calls := calls))
  {
    var more := Insert(s.rows, row, at);
    assert forall i | 0 <= i < |more| ::
        more[i] == if i < at then s.rows[i] else if i == at then row else s.rows[i - 1];
  }

  lemma StepOrderly(s: Relaying, step: Step)
    requires Orderly(s) && !Fails(step) && Next(s, step).Some?
    ensures Orderly(Next(s, step).value)
  {
    hide Once, Insert, Mark, Batch, NothingOwed;
    StepOnce(s, step);
    OnceFacts(s);
    match step {
      case Commit(row, at) =>
        if NothingOwed(s) {
          CommitOwes(s, row, at, s.calls + {row.id});
        }
      case CommitCancel(row, at) =>
        if NothingOwed(s) {
          CommitOwes(s, row, at, s.calls);
        }
      case Publish(_) =>
        var row := s.pc.batch[s.pc.done];
        assert s.pc.batch[..s.pc.done + 1] == s.pc.batch[..s.pc.done] + [row];
        IdsAppend(s.pc.batch[..s.pc.done], row);
      case Fetch(_) =>
        BatchOpen(s.rows);
        NothingOpen(s);
      case _ =>
    }
  }

  lemma OnceFacts(s: Relaying)
    requires Once(s)
    ensures DistinctIds(s.rows) && (s.pc.Publishing? ==> s.pc.done <= |s.pc.batch|)
  {}

  lemma NothingOpen(s: Relaying)
    ensures (forall i | 0 <= i < |s.rows| :: s.rows[i].processed) ==> NothingOwed(s) && NothingOwed(s.(pc := Parked))
  {}

  lemma {:induction false} ExecOnce(s: Relaying, steps: seq<Step>)
    requires Once(s) && Finish(true) !in steps && Exec(s, steps).Some?
    ensures Once(Exec(s, steps).value)
    decreases |steps|
  {
    hide Once, Next;
    if steps != [] {
      assert steps[0] in steps;
      StepOnce(s, steps[0]);
      ExecOnce(Next(s, steps[0]).value, steps[1..]);
    }
  }

  lemma {:induction false} ExecOrderly(s: Relaying, steps: seq<Step>)
    requires Orderly(s) && FailureFree(steps) && Exec(s, steps).Some?
    ensures Orderly(Exec(s, steps).value)
    decreases |steps|
  {
    hide Orderly, Next;
    if steps != [] {
      assert !Fails(steps[0]);
      StepOrderly(s, steps[0]);
      ExecOrderly(Next(s, steps[0]).value, steps[1..]);
    }
  }

  /**
   No lost wake-up: in a failure-free run, whenever the relay is parked with the slot empty, every
   event whose PlaceOrder or Deposit call has returned is published and marked.
   */
  lemma NoLostWakeUp(steps: seq<Step>)
    requires FailureFree(steps) && Exec(START, steps).Some?
    ensures var s := Exec(START, steps).value;
            s.pc.Parked? && !s.slot ==>
              forall i | 0 <= i < |s.rows| && !s.rows[i].event.CancelRequested? && s.rows[i].id !in s.calls ::
                s.rows[i].processed && HasId(s.published, s.rows[i].id)
  {
    ExecOrderly(START, steps);
  }

  /** No event is published twice in a run in which no marking fails, whatever else fails or arrives. */
  lemma PublishedOnce(steps: seq<Step>)
    requires Finish(true) !in steps && Exec(START, steps).Some?
    ensures DistinctIds(Exec(START, steps).value.published)
  {
    ExecOnce(START, steps);
  }

  /**
   Delivery is not exactly once: when the marking of a batch fails, its events are published again.
   From any table and log, draining the table publishes no event twice exactly when every event
   published before has been marked.
   */
  lemma RepeatsIffUnmarked(rows: seq<Row>, published: seq<Row>, n: nat)
    requires DistinctIds(rows) && DistinctIds(published) && n >= (|Unprocessed(rows)| + 99) / 100
    ensures DistinctIds(Rounds(rows, published, n).published) <==> forall id | HasId(published, id) :: !IsOpen(rows, id)
  {
    hide Unprocessed, Rounds, DistinctIds, HasId, IsOpen;
    var open := Unprocessed(rows);
    Drains(rows, published, n);
    UnprocessedDistinct(rows);
    assert |open| <= n * 100 && open[..|open|] == open;
    forall id ensures HasId(open, id) <==> IsOpen(rows, id) {
      UnprocessedHas(rows, id);
    }
    DistinctConcat(published, open);
  }

  lemma DistinctConcat(a: seq<Row>, b: seq<Row>)
    requires DistinctIds(a) && DistinctIds(b)
    ensures DistinctIds(a + b) <==> forall id | HasId(a, id) :: !HasId(b, id)
  {
    if id :| HasId(a, id) && HasId(b, id) {
      var i, j :| 0 <= i < |a| && a[i].id == id && 0 <= j < |b| && b[j].id == id;
      assert (a + b)[i].id == (a + b)[|a| + j].id;
    } else {
      forall i, j | 0 <= i < j < |a + b| ensures (a + b)[i].id != (a + b)[j].id {
        assert (a + b)[i] == if i < |a| then a[i] else b[i - |a|];
        assert (a + b)[j] == if j < |a| then a[j] else b[j - |a|];
        if i < |a| <= j {
          HasAt(a, i);
          HasAt(b, j - |a|);
        }
      }
    }
  }

  const CANCEL := Row(1, Engine.CancelRequested(7), false)

  lemma MarkFailureRepeats()
    ensures exists steps :: Exec(START, steps).Some? && Exec(START, steps).value.published == [CANCEL, CANCEL]
  {
    hide Next, Batch, Exec, Insert;
    var s := START.(rows := [CANCEL]);
    var again := s.(published := [CANCEL], pc := Fetching(false));
    var last := again.(published := [CANCEL, CANCEL], pc := Publishing([CANCEL], 1, [1]));
    OneEvent();
    var t: seq<Step> := [Fetch(false)] + ([Publish(false)] + []);
    OneRound(again, []);
    assert [] + [CANCEL] == [CANCEL] && [CANCEL] + [CANCEL] == [CANCEL, CANCEL];
    ExecNothing(last);
    FailsToMark(s.(published := [CANCEL], pc := Publishing([CANCEL], 1, [1])), t);
    var t' := [Finish(true)] + ([Timeout] + t);
    OneRound(s, t');
    var steps := [CommitCancel(CANCEL, 0)] + ([Fetch(false)] + ([Publish(false)] + t'));
    LateCommit(START, CANCEL);
    ExecCons(START, CommitCancel(CANCEL, 0), [Fetch(false)] + ([Publish(false)] + t'));
    assert Exec(START, steps) == Some(last);
  }

  lemma ExecNothing(s: Relaying)
    ensures Exec(s, []) == Some(s)
  {}

  lemma OneEvent()
    ensures Batch([CANCEL]) == [CANCEL]
  {
    assert [CANCEL][1..] == [] && Unprocessed([]) == [];
    assert Unprocessed([CANCEL]) == [CANCEL];
  }

  lemma FailsToMark(s: Relaying, rest: seq<Step>)
    requires s.pc == Publishing([CANCEL], 1, [1])
    ensures Exec(s, [Finish(true)] + ([Timeout] + rest)) == Exec(s.(pc := Fetching(false)), rest)
  {
    ExecCons(s, Finish(true), [Timeout] + rest);
    ExecCons(s.(pc := Parked), Timeout, rest);
  }

  lemma OneRound(s: Relaying, rest: seq<Step>)
    requires s.pc == Fetching(false) && Batch(s.rows) == [CANCEL]
    ensures Exec(s, [Fetch(false)] + ([Publish(false)] + rest))
         == Exec(s.(published := s.published + [CANCEL], pc := Publishing([CANCEL], 1, [1])), rest)
  {
    hide Batch;
    ExecCons(s, Fetch(false), [Publish(false)] + rest);
    ExecCons(s.(pc := Publishing([CANCEL], 0, [])), Publish(false), rest);
    assert [] + [1] == [1];
  }

  // ---------- Runs, step by step ----------

  /** The state before step `k` of a run. */
  function Before(steps: seq<Step>, k: nat): Option<Relaying>
    requires k <= |steps|
  {
    Exec(START, steps[..k])
  }

  lemma RunStates(steps: seq<Step>, k: nat)
    requires Exec(START, steps).Some? && k <= |steps|
    ensures Before(steps, k).Some? && Before(steps, |steps|) == Exec(START, steps)
    ensures k == 0 ==> Before(steps, k) == Some(START)
    ensures k < |steps| ==> Before(steps, k + 1) == Next(Before(steps, k).value, steps[k])
  {
    hide Next;
    assert steps[..|steps|] == steps;
    assert steps[..k] + steps[k..] == steps;
    ExecSplit(START, steps[..k], steps[k..]);
    if k < |steps| {
      assert steps[..k + 1] + steps[k + 1..] == steps;
      ExecSplit(START, steps[..k + 1], steps[k + 1..]);
      assert steps[..k + 1] == steps[..k] + [steps[k]];
      ExecSplit(START, steps[..k], [steps[k]]);
      assert [steps[k]] + [] == [steps[k]];
      ExecCons(Before(steps, k).value, steps[k], []);
    }
  }

  // ---------- Cancels and waking up ----------

  /** The relay is parked, and nothing but the timer will wake it. */
  predicate Asleep(s: Relaying) {
    s.pc.Parked? && !s.slot
  }

  /** The relay never sleeps on an event of a call that has returned, a cancel's included. */
  predicate Awake(s: Relaying) {
    Asleep(s) ==> forall i | 0 <= i < |s.rows| && !s.rows[i].processed :: s.rows[i].id in s.calls
  }

  predicate CallsHaveRows(s: Relaying) {
    forall id | id in s.calls :: HasId(s.rows, id)
  }

  lemma StepCalls(s: Relaying, step: Step)
    requires Safe(s) && CallsHaveRows(s) && Next(s, step).Some?
    ensures CallsHaveRows(Next(s, step).value)
  {
    hide HasId, Safe, Insert, Mark, Batch;
    StepSafe(s, step);
    if step.Commit? {
      InsertHas(s.rows, step.row, step.at, step.row.id);
    }
  }

  lemma InsertAwake(rows: seq<Row>, row: Row, at: nat, calls: set<Uuid>)
    requires at <= |rows| && !row.processed
    requires forall i | 0 <= i < |rows| && !rows[i].processed :: rows[i].id in calls
    ensures var more := Insert(rows, row, at);
            (forall i | 0 <= i < |more| && !more[i].processed :: more[i].id in calls) <==> row.id in calls
  {
    var more := Insert(rows, row, at);
    assert forall i | 0 <= i < |more| :: more[i] == if i < at then rows[i] else if i == at then row else rows[i - 1];
    assert more[at] == row;
  }

  /** A step puts the relay to sleep on an event just if it commits a cancel while the relay is asleep. */
  lemma StepAwake(s: Relaying, step: Step)
    requires Orderly(s) && CallsHaveRows(s) && Awake(s) && !Fails(step) && Next(s, step).Some?
    ensures Awake(Next(s, step).value) <==> !(step.CommitCancel? && Asleep(s))
  {
    hide Once, HasId, Insert, Mark, Batch, NothingOwed;
    OnceFacts(s);
    match step {
      case Commit(row, at) =>
        if Asleep(s) {
          InsertAwake(s.rows, row, at, s.calls + {row.id});
        }
      case CommitCancel(row, at) =>
        if Asleep(s) {
          InsertAwake(s.rows, row, at, s.calls);
          assert row.id !in s.calls;
        }
      case Fetch(_) => BatchOpen(s.rows);
      case _ =>
    }
  }

  lemma {:induction false} AwakeUpTo(steps: seq<Step>, k: nat)
    requires FailureFree(steps) && Exec(START, steps).Some? && k <= |steps|
    requires forall j | 0 <= j < k :: steps[j].CommitCancel? ==> !Asleep(StateAt(steps, j))
    ensures Awake(StateAt(steps, k))
  {
    hide Next, Orderly, Awake, CallsHaveRows, Exec;
    RunStates(steps, k);
    if k == 0 {
      NothingYet();
    } else {
      AwakeUpTo(steps, k - 1);
      RunOrderly(steps, k - 1);
      RunStates(steps, k - 1);
      StepAwake(StateAt(steps, k - 1), steps[k - 1]);
    }
  }

  lemma NothingYet()
    ensures Awake(START) && Orderly(START) && CallsHaveRows(START)
  {}

  /** The state before step `k` of a run that is possible. */
  function StateAt(steps: seq<Step>, k: nat): Relaying
    requires k <= |steps| && Exec(START, steps).Some?
  {
    RunStates(steps, k);
    Before(steps, k).value
  }

  lemma {:induction false} RunOrderly(steps: seq<Step>, k: nat)
    requires FailureFree(steps) && Exec(START, steps).Some? && k <= |steps|
    ensures Orderly(StateAt(steps, k)) && CallsHaveRows(StateAt(steps, k))
  {
    hide Next, Once, CallsHaveRows, NothingOwed, Exec;
    RunStates(steps, k);
    NothingYet();
    if k > 0 {
      RunOrderly(steps, k - 1);
      RunStates(steps, k - 1);
      OnceSafe(StateAt(steps, k - 1));
      StepOrderly(StateAt(steps, k - 1), steps[k - 1]);
      StepCalls(StateAt(steps, k - 1), steps[k - 1]);
    }
  }

  lemma OnceSafe(s: Relaying)
    requires Once(s)
    ensures Safe(s)
  {}

  /**
   When the wake-up reaches cancels too: in a failure-free run the relay never sleeps on an event of
   a returned call, a cancel's included, exactly when no cancel commits while the relay is asleep.
   */
  lemma AwakeIffNoLateCancel(steps: seq<Step>)
    requires FailureFree(steps) && Exec(START, steps).Some?
    ensures (forall k | 0 <= k <= |steps| :: Awake(StateAt(steps, k)))
       <==> (forall k | 0 <= k < |steps| :: steps[k].CommitCancel? ==> !Asleep(StateAt(steps, k)))
  {
    hide Next, Orderly, Awake, CallsHaveRows, Exec, Asleep, StateAt, FailureFree;
    if forall k | 0 <= k <= |steps| :: Awake(StateAt(steps, k)) {
      forall k | 0 <= k < |steps| ensures steps[k].CommitCancel? ==> !Asleep(StateAt(steps, k)) {
        assert Awake(StateAt(steps, k)) && Awake(StateAt(steps, k + 1));
        LateCancel(steps, k);
      }
    }
    if forall k | 0 <= k < |steps| :: steps[k].CommitCancel? ==> !Asleep(StateAt(steps, k)) {
      forall k | 0 <= k <= |steps| ensures Awake(StateAt(steps, k)) {
        AwakeUpTo(steps, k);
      }
    }
  }

  lemma LateCancel(steps: seq<Step>, k: nat)
    requires FailureFree(steps) && Exec(START, steps).Some? && k < |steps| && Awake(StateAt(steps, k))
    ensures Awake(StateAt(steps, k + 1)) <==> !(steps[k].CommitCancel? && Asleep(StateAt(steps, k)))
  {
    hide Next, Orderly, Awake, CallsHaveRows, Exec, Asleep;
    RunOrderly(steps, k);
    RunStates(steps, k);
    RunStates(steps, k + 1);
    StepAwake(StateAt(steps, k), steps[k]);
  }

  // ---------- Exactly-once over runs ----------

  /** An event is doomed to be published twice, or some event has been. */
  predicate Repeats(s: Relaying, id: Uuid) {
    || !DistinctIds(s.published)
    || (HasId(s.published, id) && IsOpen(s.rows, id) && (s.pc.Publishing? ==> id !in s.pc.kept))
  }

  lemma StepRepeats(s: Relaying, step: Step, id: Uuid)
    requires Safe(s) && Repeats(s, id) && Next(s, step).Some?
    ensures Repeats(Next(s, step).value, id)
  {
    hide Safe, HasId, IsOpen, DistinctIds, Insert, Mark, Batch;
    match step {
      case Commit(row, at) => InsertOpen(s.rows, row, at, id);
      case CommitCancel(row, at) => InsertOpen(s.rows, row, at, id);
      case Publish(_) => PublishRepeats(s, step.fails, id);
      case Finish(_) => MarkOpen(s.rows, s.pc.kept, id);
      case _ =>
    }
  }

  lemma PublishRepeats(s: Relaying, fails: bool, id: Uuid)
    requires Repeats(s, id) && Next(s, Publish(fails)).Some?
    ensures Repeats(Next(s, Publish(fails)).value, id)
  {
    hide IsOpen, HasId, DistinctIds;
    var now := s.pc.batch[s.pc.done];
    if !fails {
      PublishAgain(s.published, now);
      HasAppend(s.published, now, id);
    }
  }

  lemma PublishAgain(published: seq<Row>, row: Row)
    ensures DistinctIds(published + [row]) <==> DistinctIds(published) && !HasId(published, row.id)
  {
    var all := published + [row];
    assert all[|published|] == row;
    assert forall i | 0 <= i < |published| :: all[i] == published[i];
  }

  lemma LostMarksRepeat(s: Relaying)
    requires Once(s) && LosesMarks(s, Finish(true)) && Next(s, Finish(true)).Some?
    ensures Repeats(Next(s, Finish(true)).value, s.pc.kept[0])
  {
    hide IsOpen, HasId;
    var id := s.pc.kept[0];
    assert id in s.pc.kept;
    PrefixHas(s.pc.batch, s.pc.done, id);
  }

  lemma PrefixHas(rows: seq<Row>, i: nat, id: Uuid)
    requires i <= |rows| && HasId(rows[..i], id)
    ensures HasId(rows, id)
  {}

  predicate LostMarks(steps: seq<Step>, k: nat)
    requires k < |steps| && Exec(START, steps).Some?
  {
    LosesMarks(StateAt(steps, k), steps[k])
  }

  lemma {:induction false} OnceOrRepeats(steps: seq<Step>, k: nat) returns (id: Uuid)
    requires Exec(START, steps).Some? && k <= |steps|
    ensures Safe(StateAt(steps, k))
    ensures if exists j :: 0 <= j < k && LostMarks(steps, j)
            then Repeats(StateAt(steps, k), id) else Once(StateAt(steps, k))
  {
    hide Next, Once, Repeats, LosesMarks, Exec, Safe;
    RunStates(steps, k);
    if k == 0 {
      id := 0;
      NothingPublished();
    } else {
      var before, step := StateAt(steps, k - 1), steps[k - 1];
      id := OnceOrRepeats(steps, k - 1);
      RunStates(steps, k - 1);
      StepSafe(before, step);
      if j :| 0 <= j < k - 1 && LostMarks(steps, j) {
        StepRepeats(before, step, id);
      } else if LostMarks(steps, k - 1) {
        id := LostId(before, step);
      } else {
        StepOnce(before, step);
      }
    }
  }

  lemma NothingPublished()
    ensures Once(START) && Safe(START)
  {}

  lemma LostId(s: Relaying, step: Step) returns (id: Uuid)
    requires Once(s) && LosesMarks(s, step) && Next(s, step).Some?
    ensures Repeats(Next(s, step).value, id)
  {
    LostMarksRepeat(s);
    id := s.pc.kept[0];
  }

  /**
   When delivery is exactly once: after any run that has left no batch half done, draining the table
   leaves no event published twice exactly when no marking of published events failed in the run.
   */
  lemma OnceIffNoLostMarks(steps: seq<Step>, n: nat)
    requires Exec(START, steps).Some? && !Exec(START, steps).value.pc.Publishing?
    requires n >= (|Unprocessed(Exec(START, steps).value.rows)| + 99) / 100
    ensures var s := Exec(START, steps).value;
            DistinctIds(Rounds(s.rows, s.published, n).published)
            <==> forall k | 0 <= k < |steps| :: !LostMarks(steps, k)
  {
    hide Next, Exec, Unprocessed, Rounds, LostMarks, IsOpen, HasId;
    RunStates(steps, |steps|);
    var s := StateAt(steps, |steps|);
    var id := OnceOrRepeats(steps, |steps|);
    Drains(s.rows, s.published, n);
    if DistinctIds(s.published) {
      RepeatsIffUnmarked(s.rows, s.published, n);
    } else {
      var i, j :| 0 <= i < j < |s.published| && s.published[i].id == s.published[j].id;
      var all := Rounds(s.rows, s.published, n).published;
      assert all[i] == s.published[i] && all[j] == s.published[j];
    }
  }

  /**
   A cancel's notification may be spent before its event is visible: the relay can park with the
   slot empty while the event of a cancel that has returned is not published. Only the timer helps.
   */
  lemma CancelWakeUpLost()
    ensures exists steps ::
              && FailureFree(steps) && Exec(START, steps).Some?
              && var s := Exec(START, steps).value;
                 s.pc.Parked? && !s.slot && s.calls == {} && s.rows == [CANCEL] && s.published == []
  {
    hide Next, Exec, Batch, Insert;
    var row := CANCEL;
    var parked := START.(pc := Parked);
    NoEvents();
    var t1 := [CommitCancel(row, 0)] + [];
    LateCommit(parked, row);
    ExecCons(parked, CommitCancel(row, 0), []);
    ExecNothing(parked.(rows := [row]));
    var t4 := [Fetch(false)] + ([Retry] + ([Fetch(false)] + t1));
    ParksIdle(START, t1);
    var t5 := [Notified] + t4;
    WakesUp(parked.(slot := true), t4);
    var t8 := [Fetch(false)] + ([Retry] + ([Fetch(false)] + t5));
    ParksIdle(START.(slot := true), t5);
    var steps := [NotifyCancel] + t8;
    NotifiesFirst(START, t8);
    assert Exec(START, steps) == Some(parked.(rows := [row]));
  }

  lemma NoEvents()
    ensures Batch([]) == []
  {}

  lemma LateCommit(s: Relaying, row: Row)
    requires s.rows == [] && !row.processed && row.event.CancelRequested?
    ensures Next(s, CommitCancel(row, 0)) == Some(s.(rows := [row]))
  {
    assert Insert([], row, 0) == [row];
  }

  lemma WakesUp(s: Relaying, rest: seq<Step>)
    requires s.pc.Parked? && s.slot
    ensures Exec(s, [Notified] + rest) == Exec(s.(slot := false, pc := Fetching(false)), rest)
  {
    ExecCons(s, Notified, rest);
  }

  lemma NotifiesFirst(s: Relaying, rest: seq<Step>)
    ensures Exec(s, [NotifyCancel] + rest) == Exec(s.(slot := true), rest)
  {
    ExecCons(s, NotifyCancel, rest);
  }

  lemma ExecCons(s: Relaying, step: Step, rest: seq<Step>)
    requires Next(s, step).Some?
    ensures Exec(s, [step] + rest) == Exec(Next(s, step).value, rest)
  {
    hide Next;
    assert ([step] + rest)[1..] == rest;
  }

  /** With nothing to fetch, the relay looks twice and parks. */
  lemma ParksIdle(s: Relaying, rest: seq<Step>)
    requires s.pc == Fetching(false) && Batch(s.rows) == []
    ensures Exec(s, [Fetch(false)] + ([Retry] + ([Fetch(false)] + rest))) == Exec(s.(pc := Parked), rest)
  {
    ExecCons(s.(pc := Fetching(true)), Fetch(false), rest);
    ExecCons(s.(pc := Sleeping), Retry, [Fetch(false)] + rest);
    ExecCons(s, Fetch(false), [Retry] + ([Fetch(false)] + rest));
  }

  // ---------- What is published ----------

  /** One of the first `k` steps commits this row, newly and as it is. */
  predicate CommittedBy(steps: seq<Step>, k: nat, row: Row) {
    exists j :: 0 <= j < k <= |steps| && (steps[j].Commit? || steps[j].CommitCancel?) && steps[j].row == row
  }

  /** The log, the batch in progress and the table hold rows as they were committed, but for the mark. */
  predicate Genuine(steps: seq<Step>, k: nat, s: Relaying) {
    && (forall i | 0 <= i < |s.published| :: CommittedBy(steps, k, s.published[i]))
    && (forall i | 0 <= i < |s.rows| :: CommittedBy(steps, k, s.rows[i].(processed := false)))
    && (s.pc.Publishing? ==> forall i | 0 <= i < |s.pc.batch| :: CommittedBy(steps, k, s.pc.batch[i]))
  }

  lemma CommittedLater(steps: seq<Step>, k: nat)
    requires k < |steps|
    ensures forall row | CommittedBy(steps, k, row) :: CommittedBy(steps, k + 1, row)
    ensures steps[k].Commit? || steps[k].CommitCancel? ==> CommittedBy(steps, k + 1, steps[k].row)
  {}

  lemma BatchGenuine(steps: seq<Step>, k: nat, s: Relaying)
    requires Genuine(steps, k, s)
    ensures forall i | 0 <= i < |Batch(s.rows)| :: CommittedBy(steps, k, Batch(s.rows)[i])
  {
    hide CommittedBy;
    forall i | 0 <= i < |Batch(s.rows)| ensures CommittedBy(steps, k, Batch(s.rows)[i]) {
      var row := Batch(s.rows)[i];
      UnprocessedIn(s.rows, row);
      var j :| 0 <= j < |s.rows| && s.rows[j] == row;
      assert s.rows[j].(processed := false) == row;
    }
  }

  lemma InsertGenuine(steps: seq<Step>, k: nat, s: Relaying, row: Row, at: nat)
    requires Genuine(steps, k, s) && at <= |s.rows| && !row.processed && CommittedBy(steps, k, row)
    ensures forall i | 0 <= i <= |s.rows| :: CommittedBy(steps, k, Insert(s.rows, row, at)[i].(processed := false))
  {
    hide CommittedBy;
    var more := Insert(s.rows, row, at);
    assert forall i | 0 <= i < |more| && i != at :: more[i] == s.rows[if i < at then i else i - 1];
    assert more[at] == row && row.(processed := false) == row;
  }

  lemma StepGenuine(steps: seq<Step>, k: nat, s: Relaying)
    requires k < |steps| && Genuine(steps, k, s) && Next(s, steps[k]).Some?
    ensures Genuine(steps, k + 1, Next(s, steps[k]).value)
  {
    hide CommittedBy, Batch, Insert;
    CommittedLater(steps, k);
    assert Genuine(steps, k + 1, s);
    match steps[k] {
      case Commit(row, at) => InsertGenuine(steps, k + 1, s, row, at);
      case CommitCancel(row, at) => InsertGenuine(steps, k + 1, s, row, at);
      case Fetch(_) => BatchGenuine(steps, k + 1, s);
      case _ =>
    }
  }

  lemma {:induction false} RunGenuine(steps: seq<Step>, k: nat)
    requires Exec(START, steps).Some? && k <= |steps|
    ensures Genuine(steps, k, StateAt(steps, k))
  {
    hide Next, Genuine, Exec;
    RunStates(steps, k);
    if k == 0 {
      NothingGenuine(steps);
    } else {
      RunGenuine(steps, k - 1);
      RunStates(steps, k - 1);
      StepGenuine(steps, k - 1, StateAt(steps, k - 1));
    }
  }

  lemma NothingGenuine(steps: seq<Step>)
    ensures Genuine(steps, 0, START)
  {}

  /** No id is committed twice. */
  lemma {:induction false} CommittedOnce(steps: seq<Step>, j: nat, k: nat, id: Uuid)
    requires Exec(START, steps).Some? && j < k < |steps| && Commits(steps[j], id)
    ensures !Commits(steps[k], id)
  {
    hide Exec, Safe, HasId;
    RunStates(steps, k);
    RunStates(steps, k + 1);
    CommittedStays(steps, j, k, id);
  }

  lemma {:induction false} CommittedStays(steps: seq<Step>, j: nat, k: nat, id: Uuid)
    requires Exec(START, steps).Some? && j < k <= |steps| && Commits(steps[j], id)
    ensures HasId(StateAt(steps, k).rows, id)
  {
    hide Exec, Safe, HasId, Next;
    RunStates(steps, k);
    RunStates(steps, k - 1);
    if k - 1 == j {
      CommitHas(StateAt(steps, j), steps[j]);
    } else {
      CommittedStays(steps, j, k - 1, id);
      RunSafe(steps, k - 1);
      StepSafe(StateAt(steps, k - 1), steps[k - 1]);
    }
  }

  lemma CommitHas(s: Relaying, step: Step)
    requires Next(s, step).Some? && (step.Commit? || step.CommitCancel?)
    ensures HasId(Next(s, step).value.rows, step.row.id)
  {
    InsertHas(s.rows, step.row, step.at, step.row.id);
  }

  lemma {:induction false} RunSafe(steps: seq<Step>, k: nat)
    requires Exec(START, steps).Some? && k <= |steps|
    ensures Safe(StateAt(steps, k))
  {
    hide Next, Exec, Safe;
    RunStates(steps, k);
    if k == 0 {
      NothingPublished();
    } else {
      RunSafe(steps, k - 1);
      RunStates(steps, k - 1);
      StepSafe(StateAt(steps, k - 1), steps[k - 1]);
    }
  }

  /**
   Under any pattern of failures, in every run: each published event is, id and content, the one row
   that was committed under that id.
   */
  lemma {:induction false} PublishedAsCommitted(steps: seq<Step>, i: nat)
    requires Exec(START, steps).Some? && i < |Exec(START, steps).value.published|
    ensures var row := Exec(START, steps).value.published[i];
            && (exists k :: 0 <= k < |steps| && Commits(steps[k], row.id))
            && (forall k | 0 <= k < |steps| && Commits(steps[k], row.id) :: steps[k].row == row)
  {
    hide Exec;
    RunStates(steps, |steps|);
    RunGenuine(steps, |steps|);
    var row := StateAt(steps, |steps|).published[i];
    assert CommittedBy(steps, |steps|, row);
    var j :| 0 <= j < |steps| && (steps[j].Commit? || steps[j].CommitCancel?) && steps[j].row == row;
    forall k | 0 <= k < |steps| && Commits(steps[k], row.id) ensures steps[k].row == row {
      if j < k {
        CommittedOnce(steps, j, k, row.id);
      } else if k < j {
        CommittedOnce(steps, k, j, row.id);
      }
    }
  }

  // ---------- A round of the relay as protocol steps ----------

  /** The steps in which a relay handles a fetched batch, given what goes wrong. */
  function PublishSteps(batch: seq<Row>, f: Faults): seq<Step> {
    if batch == [] then [Finish(f.mark)] else [Publish(batch[0].id in f.publish)] + PublishSteps(batch[1..], f)
  }

  function RoundSteps(rows: seq<Row>, f: Faults): seq<Step> {
    [Fetch(f.fetch)]
    + if f.fetch then []
      else if Batch(rows) == [] then [Retry] + [Fetch(f.refetch)]
      else PublishSteps(Batch(rows), f)
  }

  /** Where handling a batch ends, if these events are still to be published of it. */
  function Handled(s: Relaying, kept: seq<Row>, f: Faults): Relaying
    requires s.pc.Publishing?
  {
    var all := s.pc.kept + Ids(kept);
    s.(rows := if f.mark || all == [] then s.rows else Mark(s.rows, all),
       published := s.published + kept,
       pc := if f.mark || all == [] then Parked else Fetching(false))
  }

  lemma HandledStep(s: Relaying, f: Faults, rest: seq<Row>)
    requires s.pc.Publishing? && s.pc.done < |s.pc.batch|
    ensures var row := s.pc.batch[s.pc.done];
            var next := Next(s, Publish(row.id in f.publish));
            && next.Some? && next.value.pc.Publishing?
            && next.value.pc.batch == s.pc.batch && next.value.pc.done == s.pc.done + 1
            && Handled(next.value, rest, f) == Handled(s, (if row.id in f.publish then [] else [row]) + rest, f)
  {
    var row := s.pc.batch[s.pc.done];
    hide Mark, Ids;
    IdsCons(row, rest);
    assert s.pc.kept + ([row.id] + Ids(rest)) == s.pc.kept + [row.id] + Ids(rest);
    assert s.published + ([row] + rest) == s.published + [row] + rest;
    assert [] + rest == rest;
  }

  lemma IdsCons(row: Row, rest: seq<Row>)
    ensures Ids([row] + rest) == [row.id] + Ids(rest)
  {}

  lemma HandledEnd(s: Relaying, f: Faults)
    requires s.pc.Publishing? && s.pc.done == |s.pc.batch|
    ensures Exec(s, [Finish(f.mark)]) == Some(Handled(s, [], f))
  {
    hide Mark;
    ExecCons(s, Finish(f.mark), []);
    assert [Finish(f.mark)] + [] == [Finish(f.mark)];
    IdsNone();
    assert s.pc.kept + [] == s.pc.kept && s.published + [] == s.published;
  }

  lemma {:induction false} PublishStepsExec(s: Relaying, f: Faults)
    requires s.pc.Publishing? && s.pc.done <= |s.pc.batch|
    ensures Exec(s, PublishSteps(s.pc.batch[s.pc.done..], f))
        == Some(Handled(s, Kept(s.pc.batch[s.pc.done..], f.publish), f))
    decreases |s.pc.batch| - s.pc.done
  {
    var left := s.pc.batch[s.pc.done..];
    hide Next, Handled, Exec;
    if left == [] {
      HandledEnd(s, f);
    } else {
      var step := Publish(left[0].id in f.publish);
      assert left[0] == s.pc.batch[s.pc.done] && left[1..] == s.pc.batch[s.pc.done + 1..];
      HandledStep(s, f, Kept(left[1..], f.publish));
      ExecCons(s, step, PublishSteps(left[1..], f));
      PublishStepsExec(Next(s, step).value, f);
    }
  }

  /**
   A round of the relay, run as protocol steps with nothing in between, does to the table and the
   log what the round does as a whole; and the relay goes on without parking just if it did publish
   something and nothing failed.
   */
  lemma RoundRefines(s: Relaying, f: Faults)
    requires s.pc == Fetching(false)
    ensures var r := Round(s.rows, s.published, f);
            Exec(s, RoundSteps(s.rows, f))
            == Some(s.(rows := r.rows, published := r.published,
                       pc := if r.count > 0 && !r.failed then Fetching(false) else Parked))
  {
    var batch := Batch(s.rows);
    hide Batch, Mark;
    if f.fetch {
      assert [Fetch(true)] + [] == [Fetch(true)];
      ExecCons(s, Fetch(true), []);
    } else if batch == [] {
      ExecCons(s, Fetch(false), [Retry] + [Fetch(f.refetch)]);
      ExecCons(s.(pc := Sleeping), Retry, [Fetch(f.refetch)]);
      assert [Fetch(f.refetch)] + [] == [Fetch(f.refetch)];
      ExecCons(s.(pc := Fetching(true)), Fetch(f.refetch), []);
    } else {
      ExecCons(s, Fetch(false), PublishSteps(batch, f));
      var p := s.(pc := Publishing(batch, 0, []));
      assert batch[0..] == batch;
      PublishStepsExec(p, f);
      assert [] + Ids(Kept(batch, f.publish)) == Ids(Kept(batch, f.publish));
      assert s.published + [] == s.published;
    }
  }
}
