/**
 The depth protocol: a worker that changes the book and then raises a flag, and a loop that lowers
 the flag, takes a snapshot and publishes it.
 */
module DepthRefresh {
  import opened Domain
  import opened Matching
  import opened Measures

  datatype Writer = Idle | Changed

  datatype Loop = Waiting | Cleared | Taken(snap: Snapshot)

  /** `shown` is the last snapshot set in the cache. */
  datatype Depths = Depths(book: BookValue, flag: bool, writer: Writer, loop: Loop, shown: Snapshot)

  /**
   The writer changes the book under the lock, then either commits and raises the flag or fails to
   commit and does not. On a tick the loop lowers a raised flag; then it takes a snapshot under the
   lock; then it sets it in the cache, or fails to.
   */
  datatype Step =
    | Change(book: BookValue)
    | Commit
    | CommitFails
    | Tick
    | Take
    | Set
    | SetFails

  function Next(s: Depths, step: Step): Option<Depths> {
    match step
    case Change(book) => if s.writer.Idle? then Some(s.(book := book, writer := Changed)) else None
    case Commit => if s.writer.Changed? then Some(s.(flag := true, writer := Idle)) else None
    case CommitFails => if s.writer.Changed? then Some(s.(writer := Idle)) else None
    case Tick => if s.loop.Waiting? then Some(if s.flag then s.(flag := false, loop := Cleared) else s) else None
    case Take => if s.loop.Cleared? then Some(s.(loop := Taken(DepthOf(s.book)))) else None
    case Set => if s.loop.Taken? then Some(s.(shown := s.loop.snap, loop := Waiting)) else None
    case SetFails => if s.loop.Taken? then Some(s.(loop := Waiting)) else None
  }

  /** The start, after the book was rebuilt and its snapshot set. */
  function Start(book: BookValue): Depths {
    Depths(book, false, Idle, Waiting, DepthOf(book))
  }

  function Exec(s: Depths, steps: seq<Step>): Option<Depths>
    decreases |steps|
  {
    if steps == [] then Some(s)
    else
      match Next(s, steps[0])
      case None => None
      case Some(next) => Exec(next, steps[1..])
  }

  predicate FailureFree(steps: seq<Step>) {
    forall i | 0 <= i < |steps| :: !steps[i].CommitFails? && !steps[i].SetFails?
  }

  /** What the loop's round in progress will leave in the cache; the round may still have to look. */
  function Pending(s: Depths): Snapshot {
    match s.loop
    case Waiting => s.shown
    case Cleared => DepthOf(s.book)
    case Taken(snap) => snap
  }

  /** No update is lost: the round in progress ends with the current depth, or another one is on its way. */
  predicate Current(s: Depths) {
    Pending(s) == DepthOf(s.book) || s.flag || s.writer.Changed?
  }

  /** Every step but the failing ones keeps the invariant. */
  lemma StepCurrent(s: Depths, step: Step)
    requires Current(s) && Next(s, step).Some? && !step.CommitFails? && !step.SetFails?
    ensures Current(Next(s, step).value)
  {
    hide DepthOf;
  }

  lemma {:induction false} ExecCurrent(s: Depths, steps: seq<Step>)
    requires Current(s) && FailureFree(steps) && Exec(s, steps).Some?
    ensures Current(Exec(s, steps).value)
    decreases |steps|
  {
    hide Current, Next;
    if steps != [] {
      StepCurrent(s, steps[0]);
      ExecCurrent(Next(s, steps[0]).value, steps[1..]);
    }
  }

  /**
   No lost depth update: at any point of any interleaving without failures, either the last
   snapshot set is that of the current book, or a refresh is flagged, in progress, or about to be
   flagged; and a round in progress ends with the current depth unless another one is to follow.
   */
  lemma NoLostUpdate(book: BookValue, steps: seq<Step>)
    requires FailureFree(steps) && Exec(Start(book), steps).Some?
    ensures var s := Exec(Start(book), steps).value;
            && (s.shown == DepthOf(s.book) || s.flag || !s.loop.Waiting? || s.writer.Changed?)
            && (s.loop.Taken? && s.loop.snap != DepthOf(s.book) ==> s.flag || s.writer.Changed?)
  {
    ExecCurrent(Start(book), steps);
    hide DepthOf;
  }

  // ---------- Catching up ----------

  /** What the loop does by itself in two rounds: finish the one it is in, then one more if flagged. */
  function Catching(s: Depths): seq<Step> {
    (match s.loop
     case Waiting => []
     case Cleared => [Take, Set]
     case Taken(_) => [Set])
    + if s.flag then [Tick, Take, Set] else [Tick]
  }

  lemma ExecStep(s: Depths, step: Step, rest: seq<Step>)
    requires Next(s, step).Some?
    ensures Exec(s, [step] + rest) == Exec(Next(s, step).value, rest)
  {
    hide Next;
    assert ([step] + rest)[1..] == rest;
  }

  lemma LastRound(s: Depths)
    requires s.loop.Waiting?
    ensures Exec(s, if s.flag then [Tick, Take, Set] else [Tick])
         == Some(s.(flag := false, shown := if s.flag then DepthOf(s.book) else s.shown))
  {
    hide DepthOf;
    if s.flag {
      assert [Tick, Take, Set] == [Tick] + ([Take] + ([Set] + [])) && [Tick, Take, Set][1..] == [Take, Set];
      ExecStep(s, Tick, [Take] + ([Set] + []));
      ExecStep(s.(flag := false, loop := Cleared), Take, [Set] + []);
      ExecStep(s.(flag := false, loop := Taken(DepthOf(s.book))), Set, []);
    } else {
      ExecStep(s, Tick, []);
      assert [Tick] + [] == [Tick];
    }
  }

  /** Where the loop gets by itself. */
  lemma CaughtUp(s: Depths)
    ensures Exec(s, Catching(s))
         == Some(s.(flag := false, loop := Waiting, shown := if s.flag then DepthOf(s.book) else Pending(s)))
  {
    hide DepthOf, Exec;
    var last := if s.flag then [Tick, Take, Set] else [Tick];
    match s.loop {
      case Waiting =>
        assert [] + last == last;
        LastRound(s);
      case Cleared =>
        assert [Take, Set] + last == [Take] + ([Set] + last);
        ExecStep(s, Take, [Set] + last);
        ExecStep(s.(loop := Taken(DepthOf(s.book))), Set, last);
        LastRound(s.(shown := DepthOf(s.book), loop := Waiting));
      case Taken(snap) =>
        ExecStep(s, Set, last);
        LastRound(s.(shown := snap, loop := Waiting));
    }
  }

  /** Once the writer rests, the loop shows the current depth within two rounds exactly if no update was lost. */
  lemma CatchesUp(s: Depths)
    requires s.writer.Idle?
    ensures Exec(s, Catching(s)).Some? && Exec(s, Catching(s)).value.book == s.book
    ensures Exec(s, Catching(s)).value.shown == DepthOf(s.book) <==> Current(s)
  {
    hide DepthOf, Exec;
    CaughtUp(s);
  }

  // ---------- Failures ----------

  /** What the loop shows in the end, if it is left to itself after these steps. */
  function ShownAfter(s: Depths, steps: seq<Step>): Option<Snapshot> {
    match Exec(s, steps)
    case None => None
    case Some(t) =>
      match Exec(t, Catching(t))
      case None => None
      case Some(last) => Some(last.shown)
  }

  lemma TwoSteps(s: Depths, first: Step, second: Step)
    requires Next(s, first).Some? && Next(Next(s, first).value, second).Some?
    ensures Exec(s, [first, second]) == Next(Next(s, first).value, second)
  {
    hide Next, Exec;
    var t := Next(s, first).value;
    assert [first, second] == [first] + ([second] + []);
    ExecStep(s, first, [second] + []);
    ExecStep(t, second, []);
    ExecNothing(Next(t, second).value);
  }

  /**
   A placement whose transaction fails: its depth is shown in the end exactly when, before the call,
   a refresh was already flagged, or the loop had lowered the flag but not yet looked, or the depth
   about to be shown was the new one anyway.
   */
  lemma FailedChangeShown(s: Depths, after: BookValue)
    requires s.writer.Idle?
    ensures ShownAfter(s, [Change(after), CommitFails]).Some?
    ensures ShownAfter(s, [Change(after), CommitFails]) == Some(DepthOf(after))
       <==> s.flag || s.loop.Cleared? || Pending(s) == DepthOf(after)
  {
    hide DepthOf, Exec;
    TwoSteps(s, Change(after), CommitFails);
    CaughtUp(s.(book := after));
  }

  /** A change that commits is always shown in the end, whatever was lost before it. */
  lemma CommittedChangeShown(s: Depths, after: BookValue)
    requires s.writer.Idle?
    ensures ShownAfter(s, [Change(after), Commit]) == Some(DepthOf(after))
  {
    hide DepthOf, Exec;
    TwoSteps(s, Change(after), Commit);
    CaughtUp(s.(book := after, flag := true));
  }

  /**
   A round whose last step, the update of the cache, fails: the current depth is shown in the end
   exactly when the cache showed it already, or another refresh had been flagged.
   */
  lemma FailedSetShown(s: Depths)
    requires s.writer.Idle? && s.loop.Taken?
    ensures ShownAfter(s, [SetFails]).Some?
    ensures ShownAfter(s, [SetFails]) == Some(DepthOf(s.book)) <==> s.shown == DepthOf(s.book) || s.flag
  {
    hide DepthOf, Exec;
    assert [SetFails] + [] == [SetFails];
    ExecStep(s, SetFails, []);
    ExecNothing(s.(loop := Waiting));
    CaughtUp(s.(loop := Waiting));
  }

  lemma ExecNothing(s: Depths)
    ensures Exec(s, []) == Some(s)
  {}

  /**
   When a commit fails the update is lost: the book has changed, the flag is down, the loop ticks
   in vain, and the cache goes on showing the old depth.
   */
  lemma UpdateLost(book: BookValue, after: BookValue)
    requires DepthOf(after) != DepthOf(book)
    ensures var s := Exec(Start(book), [Change(after), CommitFails, Tick]);
            && s == Some(Depths(after, false, Idle, Waiting, DepthOf(book))) && !Current(s.value)
            && Next(s.value, Tick) == s
  {
    hide DepthOf;
    var s := Start(book);
    assert [Change(after), CommitFails, Tick] == [Change(after)] + ([CommitFails] + ([Tick] + []));
    ExecStep(s, Change(after), [CommitFails] + ([Tick] + []));
    ExecStep(s.(book := after, writer := Changed), CommitFails, [Tick] + []);
    ExecStep(s.(book := after), Tick, []);
  }
}
