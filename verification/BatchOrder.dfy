/** The order of events in an image-flash batch, as an automaton. */
module BatchOrder {

  datatype Event = Quiesce | Operation | Commit | ImageWrite | CheckpointWritten | Restore

  datatype Phase = Idle | Released | Working | Committed | Written | Undone | Done | Wrong

  /** Which event may follow: the checkpoint is never written back once image data is on disk. */
  function Next(phase: Phase, e: Event): Phase {
    match e
    case Quiesce => if phase == Idle then Released else Wrong
    case Operation => if phase == Released then Working else Wrong
    case Commit => if phase == Working then Committed else Wrong
    case ImageWrite => if phase == Working || phase == Committed || phase == Written then Written else Wrong
    case CheckpointWritten => if phase == Working || phase == Committed then Undone else Wrong
    case Restore => if phase == Released || Busy(phase) then Done else Wrong
  }

  predicate Busy(phase: Phase) {
    phase == Working || phase == Committed || phase == Written || phase == Undone
  }

  function Fold(phase: Phase, run: seq<Event>): Phase {
    if |run| == 0 then phase else Next(Fold(phase, run[..|run| - 1]), run[|run| - 1])
  }

  /** A complete run, as the automaton reads it. */
  predicate GoodRun(run: seq<Event>) {
    Fold(Idle, run) == Done
  }

  lemma {:induction false} FoldNext(run: seq<Event>, e: Event)
    ensures Fold(Idle, run + [e]) == Next(Fold(Idle, run), e)
  {
    assert (run + [e])[..|run|] == run;
  }

  ghost function Count(run: seq<Event>, e: Event): nat {
    multiset(run)[e]
  }

  lemma {:induction false} CountNext(run: seq<Event>, e: Event, f: Event)
    ensures Count(run + [e], f) == Count(run, f) + if e == f then 1 else 0
  {
  }

  /** How often each event has happened when a phase is reached. */
  ghost predicate History(phase: Phase, run: seq<Event>) {
    && Count(run, Quiesce) == (if phase == Idle then 0 else 1)
    && Count(run, Operation) <= (if phase == Idle || phase == Released then 0 else 1)
    && Count(run, Commit) <= (if phase == Idle || phase == Released || phase == Working then 0 else 1)
    && Count(run, CheckpointWritten) <= (if phase == Undone || phase == Done then 1 else 0)
    && (phase == Done || (Count(run, ImageWrite) > 0 <==> phase == Written))
    && (phase == Done || (Count(run, CheckpointWritten) > 0 <==> phase == Undone))
    && (phase == Done || (Count(run, Operation) > 0 <==> Busy(phase)))
    && (Count(run, CheckpointWritten) == 0 || Count(run, ImageWrite) == 0)
    && Count(run, Restore) == (if phase == Done then 1 else 0)
  }

  lemma {:induction false} HistoryNext(phase: Phase, run: seq<Event>, e: Event)
    requires History(phase, run) && Next(phase, e) != Wrong
    ensures History(Next(phase, e), run + [e])
  {
    CountNext(run, e, Quiesce);
    CountNext(run, e, Operation);
    CountNext(run, e, Commit);
    CountNext(run, e, ImageWrite);
    CountNext(run, e, CheckpointWritten);
    CountNext(run, e, Restore);
  }

  lemma {:induction false} PhaseHistory(run: seq<Event>)
    requires Fold(Idle, run) != Wrong
    ensures History(Fold(Idle, run), run)
  {
    if |run| > 0 {
      var init := run[..|run| - 1];
      PhaseHistory(init);
      HistoryNext(Fold(Idle, init), init, run[|run| - 1]);
      assert run == init + [run[|run| - 1]];
    }
  }

  /**
    A complete run releases once and restores once, last; it has at most one operation, one commit and one write-back
    of the checkpoint, and never a write-back together with image data.
   */
  lemma {:induction false} GoodRunOrder(run: seq<Event>)
    requires GoodRun(run)
    ensures |run| >= 2 && run[|run| - 1] == Restore
    ensures Count(run, Quiesce) == 1 && Count(run, Restore) == 1
    ensures Count(run, Operation) <= 1 && Count(run, Commit) <= 1 && Count(run, CheckpointWritten) <= 1
    ensures CheckpointWritten in run ==> ImageWrite !in run
  {
    PhaseHistory(run);
    var init := run[..|run| - 1];
    PhaseHistory(init);
    assert Fold(Idle, init) != Idle;
  }

  /** Until the restore, the phase tells what has happened. */
  lemma {:induction false} PhaseTells(run: seq<Event>)
    requires Fold(Idle, run) != Wrong && Fold(Idle, run) != Done
    ensures ImageWrite in run <==> Fold(Idle, run) == Written
    ensures CheckpointWritten in run <==> Fold(Idle, run) == Undone
    ensures Operation in run <==> Busy(Fold(Idle, run))
  {
    PhaseHistory(run);
  }
}
