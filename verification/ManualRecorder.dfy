/**
  The manual diagnostic recorder: callers toggle it under a mutex and join the previous worker while holding
  that mutex; the worker takes the same mutex to publish its result. A state machine over single steps.
 */
module ManualRecorder {

  datatype Status = Idle | Starting | Recording | Saving | Failed

  /** Where a calling thread is: `Ask…` is a status query, the others are a toggle. */
  datatype Caller = Away | Wanting | Holding | Joining | Joined | AskWanting | AskHolding

  /** Where the worker is. `Ending` has left its last critical section; `Finished` can be joined at once. */
  datatype Worker =
    | NoWorker | Creating | StartWaits(started: bool) | StartHolds(started: bool)
    | TakeWaits | TakeHolds | Finishing | SaveWaits(saved: bool) | SaveHolds(saved: bool)
    | Ending | Finished

  datatype Owner = Nobody | ByCaller(i: nat) | ByWorker

  /** The recorder, its mutex, and every thread that uses it; `owned` says whether it holds a recording. */
  datatype State = State(owner: Owner, status: Status, owned: bool, worker: Worker, callers: seq<Caller>)

  datatype Action =
    | Toggle(i: nat) | Ask(i: nat) | Lock(i: nat) | Decide(i: nat) | Join(i: nat) | Spawn(i: nat) | Answer(i: nat)
    | Create(started: bool) | StartLock | StartDone | TakeLock | TakeDone
    | Finish(saved: bool) | SaveLock | SaveDone | End

  /** A new request from outside, as opposed to a step of one already made. */
  predicate IsRequest(a: Action) {
    a.Toggle? || a.Ask?
  }

  predicate At(m: State, i: nat, c: Caller) {
    i < |m.callers| && m.callers[i] == c
  }

  predicate Enabled(m: State, a: Action) {
    match a
    case Toggle(i) => At(m, i, Away)
    case Ask(i) => At(m, i, Away)
    case Lock(i) => (At(m, i, Wanting) || At(m, i, AskWanting)) && m.owner == Nobody
    case Decide(i) => At(m, i, Holding)
    case Join(i) => At(m, i, Joining) && m.worker == Finished
    case Spawn(i) => At(m, i, Joined)
    case Answer(i) => At(m, i, AskHolding)
    case Create(_) => m.worker == Creating
    case StartLock => m.worker.StartWaits? && m.owner == Nobody
    case StartDone => m.worker.StartHolds?
    case TakeLock => m.worker == TakeWaits && m.owner == Nobody
    case TakeDone => m.worker == TakeHolds
    case Finish(_) => m.worker == Finishing
    case SaveLock => m.worker.SaveWaits? && m.owner == Nobody
    case SaveDone => m.worker.SaveHolds?
    case End => m.worker == Ending
  }

  predicate BusyStatus(s: Status) {
    s == Starting || s == Saving
  }

  function Do(m: State, a: Action): State
    requires Enabled(m, a)
  {
    match a
    case Toggle(i) => m.(callers := m.callers[i := Wanting])
    case Ask(i) => m.(callers := m.callers[i := AskWanting])
    case Lock(i) =>
      m.(owner := ByCaller(i), callers := m.callers[i := if m.callers[i] == Wanting then Holding else AskHolding])
    case Decide(i) =>
      if BusyStatus(m.status) then m.(owner := Nobody, callers := m.callers[i := Away])
      else m.(callers := m.callers[i := if m.worker == NoWorker then Joined else Joining])
    case Join(i) => m.(worker := NoWorker, callers := m.callers[i := Joined])
    case Spawn(i) =>
      var start := m.status != Recording;
      State(Nobody, if start then Starting else Saving, m.owned, if start then Creating else TakeWaits,
            m.callers[i := Away])
    case Answer(i) => m.(owner := Nobody, callers := m.callers[i := Away])
    case Create(started) => m.(worker := StartWaits(started))
    case StartLock => m.(owner := ByWorker, worker := StartHolds(m.worker.started))
    case StartDone =>
      m.(owner := Nobody, worker := Ending, status := if m.worker.started then Recording else Failed,
         owned := m.owned || m.worker.started)
    case TakeLock => m.(owner := ByWorker, worker := TakeHolds)
    case TakeDone => m.(owner := Nobody, worker := Finishing, owned := false)
    case Finish(saved) => m.(worker := SaveWaits(saved))
    case SaveLock => m.(owner := ByWorker, worker := SaveHolds(m.worker.saved))
    case SaveDone => m.(owner := Nobody, worker := Ending, status := if m.worker.saved then Idle else Failed)
    case End => m.(worker := Finished)
  }

  // ----- the invariant -----

  predicate StartWork(w: Worker) {
    w == Creating || w.StartWaits? || w.StartHolds?
  }

  predicate SaveWork(w: Worker) {
    w == TakeWaits || w == TakeHolds || w == Finishing || w.SaveWaits? || w.SaveHolds?
  }

  /** The worker still has to take the mutex, or is inside it. */
  predicate NeedsMutex(w: Worker) {
    StartWork(w) || SaveWork(w)
  }

  predicate HasMutex(c: Caller) {
    c == Holding || c == Joining || c == Joined || c == AskHolding
  }

  ghost predicate CallerOk(m: State, i: nat)
    requires i < |m.callers|
  {
    var c := m.callers[i];
    && (m.owner == ByCaller(i) <==> HasMutex(c))
    && (c == Joining ==> (m.worker == Ending || m.worker == Finished) && !BusyStatus(m.status))
    && (c == Joined ==> m.worker == NoWorker && !BusyStatus(m.status))
  }

  ghost predicate Inv(m: State) {
    && (forall i :: 0 <= i < |m.callers| ==> CallerOk(m, i))
    && (m.owner.ByCaller? ==> m.owner.i < |m.callers|)
    && (m.owner == ByWorker <==> m.worker.StartHolds? || m.worker == TakeHolds || m.worker.SaveHolds?)
    && (m.status == Starting <==> StartWork(m.worker))
    && (m.status == Saving <==> SaveWork(m.worker))
    && (m.owned <==> m.status == Recording || m.worker == TakeWaits || m.worker == TakeHolds)
  }

  function Quiescent(n: nat): State {
    State(Nobody, Idle, false, NoWorker, seq(n, i => Away))
  }

  lemma {:induction false} InvAtStart(n: nat)
    ensures Inv(Quiescent(n))
  {
  }

  predicate ByWorkerThread(a: Action) {
    a.Create? || a.StartLock? || a.StartDone? || a.TakeLock? || a.TakeDone? || a.Finish? || a.SaveLock? ||
      a.SaveDone? || a.End?
  }

  lemma {:induction false} WorkerStepKeepsInv(m: State, a: Action)
    requires Inv(m) && Enabled(m, a) && ByWorkerThread(a)
    ensures Inv(Do(m, a))
  {
    var m' := Do(m, a);
    forall i | 0 <= i < |m'.callers| ensures CallerOk(m', i) {
      assert CallerOk(m, i);
    }
  }

  lemma {:induction false} CallerStepKeepsInv(m: State, a: Action)
    requires Inv(m) && Enabled(m, a) && !ByWorkerThread(a)
    ensures Inv(Do(m, a))
  {
    var m' := Do(m, a);
    assert CallerOk(m, a.i);
    forall i | 0 <= i < |m'.callers| ensures CallerOk(m', i) {
      assert CallerOk(m, i);
    }
  }

  lemma {:induction false} StepKeepsInv(m: State, a: Action)
    requires Inv(m) && Enabled(m, a)
    ensures Inv(Do(m, a))
  {
    if ByWorkerThread(a) {
      WorkerStepKeepsInv(m, a);
    } else {
      CallerStepKeepsInv(m, a);
    }
  }

  // ----- runs -----

  predicate IsRun(m: State, actions: seq<Action>)
    decreases |actions|
  {
    |actions| == 0 || (Enabled(m, actions[0]) && IsRun(Do(m, actions[0]), actions[1..]))
  }

  function After(m: State, actions: seq<Action>): State
    requires IsRun(m, actions)
    decreases |actions|
  {
    if |actions| == 0 then m else After(Do(m, actions[0]), actions[1..])
  }

  lemma {:induction false} RunKeepsInv(m: State, actions: seq<Action>)
    requires Inv(m) && IsRun(m, actions)
    ensures Inv(After(m, actions))
    decreases |actions|
  {
    if |actions| > 0 {
      StepKeepsInv(m, actions[0]);
      RunKeepsInv(Do(m, actions[0]), actions[1..]);
    }
  }

  /**
    In every interleaving: a caller that joins while it holds the mutex never waits for a worker that still
    needs the mutex; a busy status holds exactly while a worker has the mutex ahead of it; a recording is owned
    only while recording, or while saving before the worker takes it.
   */
  lemma {:induction false} RecorderIsSafe(n: nat, actions: seq<Action>)
    requires IsRun(Quiescent(n), actions)
    ensures
      var m := After(Quiescent(n), actions);
      && (forall i :: At(m, i, Joining) ==> !NeedsMutex(m.worker))
      && (forall i :: At(m, i, Joined) ==> m.worker == NoWorker)
      && (BusyStatus(m.status) <==> NeedsMutex(m.worker))
      && (m.owned <==>
          m.status == Recording || (m.status == Saving && (m.worker == TakeWaits || m.worker == TakeHolds)))
  {
    InvAtStart(n);
    RunKeepsInv(Quiescent(n), actions);
    var m := After(Quiescent(n), actions);
    forall i | At(m, i, Joining) || At(m, i, Joined) ensures CallerOk(m, i) {
    }
  }

  // ----- every request is served -----

  /** No call is under way and no worker is at work. */
  predicate Settled(m: State) {
    (forall i :: 0 <= i < |m.callers| ==> m.callers[i] == Away) && (m.worker == NoWorker || m.worker == Finished)
  }

  /** Some step of a request already made can be taken, whenever one is under way. */
  lemma {:induction false} NeverStuck(m: State) returns (a: Action)
    requires Inv(m) && !Settled(m)
    ensures Enabled(m, a) && !IsRequest(a)
  {
    match m.owner {
      case ByWorker =>
        a := if m.worker.StartHolds? then StartDone else if m.worker == TakeHolds then TakeDone else SaveDone;
      case ByCaller(i) =>
        assert CallerOk(m, i);
        match m.callers[i] {
          case Holding => a := Decide(i);
          case Joining => a := if m.worker == Ending then End else Join(i);
          case Joined => a := Spawn(i);
          case AskHolding => a := Answer(i);
        }
      case Nobody =>
        if m.worker == Creating { a := Create(true); }
        else if m.worker.StartWaits? { a := StartLock; }
        else if m.worker == TakeWaits { a := TakeLock; }
        else if m.worker == Finishing { a := Finish(true); }
        else if m.worker.SaveWaits? { a := SaveLock; }
        else if m.worker == Ending { a := End; }
        else {
          var i :| 0 <= i < |m.callers| && m.callers[i] != Away;
          assert CallerOk(m, i);
          a := Lock(i);
        }
    }
  }

  function CallerWork(c: Caller): nat {
    match c
    case Away => 0
    case Wanting => 16
    case Holding => 15
    case Joining => 14
    case Joined => 13
    case AskWanting => 2
    case AskHolding => 1
  }

  function CallersWork(callers: seq<Caller>): nat {
    if |callers| == 0 then 0 else CallersWork(callers[..|callers| - 1]) + CallerWork(callers[|callers| - 1])
  }

  function WorkerWork(w: Worker): nat {
    match w
    case NoWorker => 0
    case Creating => 12
    case StartWaits(_) => 11
    case StartHolds(_) => 10
    case TakeWaits => 12
    case TakeHolds => 11
    case Finishing => 10
    case SaveWaits(_) => 9
    case SaveHolds(_) => 8
    case Ending => 7
    case Finished => 0
  }

  function WorkLeft(m: State): nat {
    CallersWork(m.callers) + WorkerWork(m.worker)
  }

  lemma {:induction false} CallersWorkUpdate(callers: seq<Caller>, i: nat, c: Caller)
    requires i < |callers|
    ensures CallersWork(callers[i := c]) == CallersWork(callers) - CallerWork(callers[i]) + CallerWork(c)
  {
    var init := callers[..|callers| - 1];
    if i < |callers| - 1 {
      CallersWorkUpdate(init, i, c);
      assert callers[i := c][..|callers| - 1] == init[i := c];
    } else {
      assert callers[i := c][..|callers| - 1] == init;
    }
  }

  lemma {:induction false} StepDoesWork(m: State, a: Action)
    requires Inv(m) && Enabled(m, a) && !IsRequest(a)
    ensures WorkLeft(Do(m, a)) < WorkLeft(m)
  {
    if !ByWorkerThread(a) {
      assert CallerOk(m, a.i);
      CallersWorkUpdate(m.callers, a.i, Do(m, a).callers[a.i]);
      assert Do(m, a).callers == m.callers[a.i := Do(m, a).callers[a.i]];
    }
  }

  /** Without new requests no schedule runs longer than the work left, so with `NeverStuck` every schedule settles. */
  lemma {:induction false} RunsAreBounded(m: State, actions: seq<Action>)
    requires Inv(m) && IsRun(m, actions) && forall i :: 0 <= i < |actions| ==> !IsRequest(actions[i])
    ensures |actions| + WorkLeft(After(m, actions)) <= WorkLeft(m)
    decreases |actions|
  {
    if |actions| > 0 {
      StepDoesWork(m, actions[0]);
      StepKeepsInv(m, actions[0]);
      RunsAreBounded(Do(m, actions[0]), actions[1..]);
    }
  }

  /** From every reachable state the requests already made can all be completed. */
  lemma {:induction false} RequestsCanComplete(m: State) returns (actions: seq<Action>)
    requires Inv(m)
    ensures IsRun(m, actions) && Settled(After(m, actions))
    ensures forall i :: 0 <= i < |actions| ==> !IsRequest(actions[i])
    decreases WorkLeft(m)
  {
    if Settled(m) {
      actions := [];
    } else {
      var a := NeverStuck(m);
      StepDoesWork(m, a);
      StepKeepsInv(m, a);
      var rest := RequestsCanComplete(Do(m, a));
      actions := [a] + rest;
      assert actions[1..] == rest;
    }
  }
}
