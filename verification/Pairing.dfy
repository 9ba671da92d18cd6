/**
  ADB Wi-Fi pairing sessions: a generation counter guards the timeout threads, so that a timer tears down only
  the session it was armed for. Starts, stops and timers interleave step by step under the state mutex.
 */
module Pairing {
  import opened Wrappers

  /** A timeout thread: the generation it captured and the session it was armed for. */
  datatype Timer = Timer(generation: nat, session: nat)

  /** How far a StartPairing call has come. */
  datatype Start = NotStarting | Retired | Created(session: nat) | Published(timer: Timer)

  /**
    `detaches` counts the detach operations; the program keeps it in 32 bits. `destroyed` holds every session
    handed to the destroyer, `published` every session ever made current.
   */
  datatype State = State(detaches: nat, server: Option<nat>, starts: seq<Start>, timers: multiset<Timer>,
                         nextSession: nat, published: set<nat>, destroyed: multiset<nat>)

  const GENERATIONS: nat := 0x1_0000_0000

  function Generation(s: State): nat {
    s.detaches % GENERATIONS
  }

  datatype Action =
    | Stop | Retire(i: nat) | Create(i: nat) | GiveUp(i: nat) | Publish(i: nat) | Arm(i: nat) | Expire(timer: Timer)

  function Initial(n: nat): State {
    State(0, None, seq(n, i => NotStarting), multiset{}, 0, {}, multiset{})
  }

  /** Takes the current session away and invalidates every armed timer. */
  function Detach(s: State): State {
    s.(detaches := s.detaches + 1, server := None,
       destroyed := if s.server.Some? then s.destroyed + multiset{s.server.value} else s.destroyed)
  }

  predicate Enabled(s: State, a: Action) {
    match a
    case Stop => true
    case Retire(i) => i < |s.starts| && s.starts[i] == NotStarting
    case Create(i) => i < |s.starts| && s.starts[i] == Retired
    case GiveUp(i) => i < |s.starts| && (s.starts[i] == Retired || s.starts[i].Created?)
    case Publish(i) => i < |s.starts| && s.starts[i].Created?
    case Arm(i) => i < |s.starts| && s.starts[i].Published?
    case Expire(timer) => timer in s.timers
  }

  function Do(s: State, a: Action): State
    requires Enabled(s, a)
  {
    match a
    case Stop => Detach(s)
    case Retire(i) => Detach(s).(starts := s.starts[i := Retired])
    case Create(i) => s.(starts := s.starts[i := Created(s.nextSession)], nextSession := s.nextSession + 1)
    case GiveUp(i) => s.(starts := s.starts[i := NotStarting])
    case Publish(i) =>
      var id := s.starts[i].session;
      s.(server := Some(id), published := s.published + {id},
         starts := s.starts[i := Published(Timer(Generation(s), id))])
    case Arm(i) => s.(timers := s.timers + multiset{s.starts[i].timer}, starts := s.starts[i := NotStarting])
    case Expire(timer) =>
      var s1 := s.(timers := s.timers - multiset{timer});
      if timer.generation == Generation(s) then Detach(s1) else s1
  }

  /** A publish finds no session to overwrite. */
  predicate Vacant(s: State, a: Action) {
    a.Publish? ==> s.server == None
  }

  // ----- what always holds -----

  /** A created session is new; no two starts hold the same one. */
  ghost predicate FreshStart(s: State, i: nat)
    requires i < |s.starts|
  {
    s.starts[i].Created? ==>
      && s.starts[i].session < s.nextSession && s.starts[i].session !in s.published
      && forall j :: 0 <= j < |s.starts| && j != i && s.starts[j].Created? ==>
        s.starts[j].session != s.starts[i].session
  }

  /** A timer that is armed, or that a start is about to arm. */
  ghost predicate Pending(s: State, t: Timer) {
    t in s.timers || exists i :: 0 <= i < |s.starts| && s.starts[i] == Published(t)
  }

  /** Holds in every run: sessions are new when published, and the current one has a timer of this generation. */
  ghost predicate Inv(s: State) {
    && (forall i :: 0 <= i < |s.starts| ==> FreshStart(s, i))
    && (forall id :: id in s.published ==> id < s.nextSession)
    && (s.server.Some? ==> s.server.value in s.published && Pending(s, Timer(Generation(s), s.server.value)))
    && (forall id :: s.destroyed[id] > 0 ==> id in s.published)
  }

  lemma {:induction false} InvAtStart(n: nat)
    ensures Inv(Initial(n))
  {
  }

  lemma {:induction false} StartChangeKeepsFresh(s: State, s': State, k: nat)
    requires (forall i :: 0 <= i < |s.starts| ==> FreshStart(s, i)) && k < |s.starts|
    requires |s'.starts| == |s.starts| && s'.starts == s.starts[k := s'.starts[k]]
    requires s'.published == s.published && s.nextSession <= s'.nextSession
    requires s'.starts[k].Created? ==>
      s'.starts[k].session == s.nextSession < s'.nextSession && s'.starts[k].session !in s.published
    ensures forall i :: 0 <= i < |s'.starts| ==> FreshStart(s', i)
  {
    forall i | 0 <= i < |s'.starts| ensures FreshStart(s', i) {
      assert FreshStart(s, i);
      forall j | 0 <= j < |s.starts| && j != i && s'.starts[i].Created? && s'.starts[j].Created?
        ensures s'.starts[j].session != s'.starts[i].session
      {
        assert FreshStart(s, j);
      }
    }
  }

  lemma {:induction false} DetachKeepsInv(s: State)
    requires Inv(s)
    ensures Inv(Detach(s))
  {
    var s' := Detach(s);
    forall i | 0 <= i < |s'.starts| ensures FreshStart(s', i) {
      assert FreshStart(s, i);
    }
  }

  lemma {:induction false} PublishKeepsInv(s: State, i: nat)
    requires Inv(s) && Enabled(s, Publish(i))
    ensures Inv(Do(s, Publish(i)))
  {
    var s' := Do(s, Publish(i));
    assert FreshStart(s, i);
    forall k | 0 <= k < |s'.starts| ensures FreshStart(s', k) {
      assert FreshStart(s, k);
    }
    assert s'.starts[i] == Published(Timer(Generation(s'), s'.server.value));
  }

  /** Arming moves a timer from its start to the armed ones. */
  lemma {:induction false} ArmKeepsInv(s: State, i: nat)
    requires Inv(s) && Enabled(s, Arm(i))
    ensures Inv(Do(s, Arm(i)))
  {
    var s' := Do(s, Arm(i));
    StartChangeKeepsFresh(s, s', i);
    if s.server.Some? {
      var t := Timer(Generation(s), s.server.value);
      if t !in s.timers {
        var k :| 0 <= k < |s.starts| && s.starts[k] == Published(t);
        assert k != i ==> s'.starts[k] == Published(t);
      }
    }
  }

  lemma {:induction false} ExpireKeepsInv(s: State, t: Timer)
    requires Inv(s) && Enabled(s, Expire(t))
    ensures Inv(Do(s, Expire(t)))
  {
    var s1 := s.(timers := s.timers - multiset{t});
    forall k | 0 <= k < |s.starts| ensures FreshStart(s1, k) {
      assert FreshStart(s, k);
    }
    var s' := Do(s, Expire(t));
    forall k | 0 <= k < |s'.starts| ensures FreshStart(s', k) {
      assert FreshStart(s1, k);
    }
    if s'.server.Some? {
      var own := Timer(Generation(s), s.server.value);
      if own !in s.timers {
        var k :| 0 <= k < |s.starts| && s.starts[k] == Published(own);
        assert s'.starts[k] == Published(own);
      }
    }
  }

  /** Steps of a start that leave the current session and its timer alone. */
  lemma {:induction false} LocalStepKeepsInv(s: State, a: Action)
    requires Inv(s) && Enabled(s, a) && (a.Create? || a.GiveUp?)
    ensures Inv(Do(s, a))
  {
    var s' := Do(s, a);
    StartChangeKeepsFresh(s, s', a.i);
    if s.server.Some? {
      var t := Timer(Generation(s), s.server.value);
      if t !in s.timers {
        var k :| 0 <= k < |s.starts| && s.starts[k] == Published(t);
        assert s'.starts[k] == Published(t);
      }
    }
  }

  lemma {:induction false} StepKeepsInv(s: State, a: Action)
    requires Inv(s) && Enabled(s, a)
    ensures Inv(Do(s, a))
  {
    match a
    case Stop => DetachKeepsInv(s);
    case Retire(i) =>
      DetachKeepsInv(s);
      StartChangeKeepsFresh(Detach(s), Do(s, a), i);
    case Publish(i) => PublishKeepsInv(s, i);
    case Arm(i) => ArmKeepsInv(s, i);
    case Expire(t) => ExpireKeepsInv(s, t);
    case _ => LocalStepKeepsInv(s, a);
  }

  // ----- what holds while every publish is vacant -----

  /** Each published session is current or destroyed exactly once; nothing else was destroyed. */
  ghost predicate Accounted(s: State) {
    forall id :: s.destroyed[id] == if id in s.published && s.server != Some(id) then 1 else 0
  }

  /** A timer of the current generation, armed or about to be, belongs to the current session. */
  ghost predicate TimersOwn(s: State) {
    forall t :: Pending(s, t) && t.generation == Generation(s) ==> s.server == Some(t.session)
  }

  /** No timer is ahead of the counter. */
  ghost predicate TimersPast(s: State) {
    forall t :: Pending(s, t) ==> t.generation <= s.detaches
  }

  lemma {:induction false} AccountedNext(s: State, a: Action)
    requires Inv(s) && Accounted(s) && Enabled(s, a)
    ensures Accounted(Do(s, a)) <==> Vacant(s, a)
  {
    var s' := Do(s, a);
    if a.Publish? {
      assert FreshStart(s, a.i);
      if s.server.Some? {
        assert s'.destroyed[s.server.value] == 0 && s.server.value in s'.published;
        assert s'.server != s.server;
      }
    }
  }

  lemma {:induction false} PendingBefore(s: State, a: Action, t: Timer)
    requires Enabled(s, a) && Pending(Do(s, a), t)
    ensures Pending(s, t) || (a.Publish? && t == Timer(Generation(s), s.starts[a.i].session))
  {
    var s' := Do(s, a);
    if t !in s'.timers {
      var k :| 0 <= k < |s'.starts| && s'.starts[k] == Published(t);
      assert s.starts[k] == Published(t) || a.Publish?;
    } else if a.Arm? && t !in s.timers {
      assert s.starts[a.i] == Published(t);
    } else if a.Expire? {
      assert t in s.timers;
    }
  }

  lemma {:induction false} PastNext(s: State, a: Action)
    requires TimersPast(s) && Enabled(s, a)
    ensures TimersPast(Do(s, a))
  {
    forall t | Pending(Do(s, a), t) ensures t.generation <= Do(s, a).detaches {
      PendingBefore(s, a, t);
    }
  }

  lemma {:induction false} VacantKeepsOwn(s: State, a: Action)
    requires Inv(s) && TimersOwn(s) && TimersPast(s) && Enabled(s, a) && Vacant(s, a)
    requires Do(s, a).detaches < GENERATIONS
    ensures TimersOwn(Do(s, a))
  {
    var s' := Do(s, a);
    forall t | Pending(s', t) && t.generation == Generation(s') ensures s'.server == Some(t.session) {
      PendingBefore(s, a, t);
    }
  }

  /** Overwriting a session leaves its timer behind, with the generation of the new one. */
  lemma {:induction false} OverwriteStraysTimer(s: State, i: nat)
    requires Inv(s) && Enabled(s, Publish(i)) && s.server.Some?
    ensures !TimersOwn(Do(s, Publish(i)))
  {
    var s', t := Do(s, Publish(i)), Timer(Generation(s), s.server.value);
    assert FreshStart(s, i);
    if t !in s.timers {
      var k :| 0 <= k < |s.starts| && s.starts[k] == Published(t);
      assert s'.starts[k] == Published(t);
    }
    assert Pending(s', t) && t.generation == Generation(s') && s'.server != Some(t.session);
  }

  // ----- runs -----

  predicate IsRun(s: State, actions: seq<Action>)
    decreases |actions|
  {
    |actions| == 0 || (Enabled(s, actions[0]) && IsRun(Do(s, actions[0]), actions[1..]))
  }

  /** Every publish of the run finds no session to overwrite. */
  predicate PublishesVacant(s: State, actions: seq<Action>)
    requires IsRun(s, actions)
    decreases |actions|
  {
    |actions| == 0 || (Vacant(s, actions[0]) && PublishesVacant(Do(s, actions[0]), actions[1..]))
  }

  function After(s: State, actions: seq<Action>): State
    requires IsRun(s, actions)
    decreases |actions|
  {
    if |actions| == 0 then s else After(Do(s, actions[0]), actions[1..])
  }

  /** Every state of the run accounts for its sessions. */
  ghost predicate AlwaysAccounted(s: State, actions: seq<Action>)
    requires IsRun(s, actions)
    decreases |actions|
  {
    Accounted(s) && (|actions| > 0 ==> AlwaysAccounted(Do(s, actions[0]), actions[1..]))
  }

  /** In every state of the run the timers of the current generation belong to the current session. */
  ghost predicate AlwaysOwn(s: State, actions: seq<Action>)
    requires IsRun(s, actions)
    decreases |actions|
  {
    TimersOwn(s) && (|actions| > 0 ==> AlwaysOwn(Do(s, actions[0]), actions[1..]))
  }

  lemma {:induction false} DetachesGrow(s: State, actions: seq<Action>)
    requires IsRun(s, actions)
    ensures s.detaches <= After(s, actions).detaches
    decreases |actions|
  {
    if |actions| > 0 {
      DetachesGrow(Do(s, actions[0]), actions[1..]);
    }
  }

  lemma {:induction false} AccountedFrom(s: State, actions: seq<Action>)
    requires Inv(s) && Accounted(s) && IsRun(s, actions)
    ensures AlwaysAccounted(s, actions) <==> PublishesVacant(s, actions)
    ensures PublishesVacant(s, actions) ==> Accounted(After(s, actions))
    decreases |actions|
  {
    if |actions| > 0 {
      AccountedNext(s, actions[0]);
      if Vacant(s, actions[0]) {
        StepKeepsInv(s, actions[0]);
        AccountedFrom(Do(s, actions[0]), actions[1..]);
      }
    }
  }

  lemma {:induction false} OwnFrom(s: State, actions: seq<Action>)
    requires Inv(s) && TimersOwn(s) && TimersPast(s) && IsRun(s, actions) && After(s, actions).detaches < GENERATIONS
    ensures AlwaysOwn(s, actions) <==> PublishesVacant(s, actions)
    ensures PublishesVacant(s, actions) ==> TimersOwn(After(s, actions))
    decreases |actions|
  {
    if |actions| > 0 {
      var a, next := actions[0], Do(s, actions[0]);
      DetachesGrow(next, actions[1..]);
      StepKeepsInv(s, a);
      PastNext(s, a);
      if Vacant(s, a) {
        VacantKeepsOwn(s, a);
        OwnFrom(next, actions[1..]);
      } else {
        OverwriteStraysTimer(s, a.i);
      }
    }
  }

  /**
    The exact condition for the books to balance: in every run, with any number of overlapping starts, each published
    session is at all times current or destroyed exactly once if and only if no publish overwrites a session.
   */
  lemma {:induction false} AccountedIffVacant(n: nat, actions: seq<Action>)
    requires IsRun(Initial(n), actions)
    ensures AlwaysAccounted(Initial(n), actions) <==> PublishesVacant(Initial(n), actions)
  {
    InvAtStart(n);
    AccountedFrom(Initial(n), actions);
  }

  /** The same condition is exact for the timers, until the 32-bit counter wraps. */
  lemma {:induction false} TimersOwnIffVacant(n: nat, actions: seq<Action>)
    requires IsRun(Initial(n), actions) && After(Initial(n), actions).detaches < GENERATIONS
    ensures AlwaysOwn(Initial(n), actions) <==> PublishesVacant(Initial(n), actions)
  {
    InvAtStart(n);
    OwnFrom(Initial(n), actions);
  }

  /**
    In every run whose publishes are vacant, without counter wrap, an expiring timer destroys its own session or
    nothing.
   */
  lemma {:induction false} TimerDestroysOnlyItsSession(n: nat, actions: seq<Action>, t: Timer)
    requires IsRun(Initial(n), actions) && PublishesVacant(Initial(n), actions)
    requires After(Initial(n), actions).detaches < GENERATIONS && t in After(Initial(n), actions).timers
    ensures
      var s := After(Initial(n), actions);
      var s' := Do(s, Expire(t));
      s'.destroyed == s.destroyed || (s.server == Some(t.session) && s'.destroyed == s.destroyed + multiset{t.session})
  {
    InvAtStart(n);
    OwnFrom(Initial(n), actions);
    assert Pending(After(Initial(n), actions), t);
  }

  /** In every run whose publishes are vacant each published session is current or destroyed exactly once. */
  lemma {:induction false} SessionsAreDestroyedOnce(n: nat, actions: seq<Action>, id: nat)
    requires IsRun(Initial(n), actions) && PublishesVacant(Initial(n), actions)
    ensures
      var s := After(Initial(n), actions);
      && (id in s.published ==> s.destroyed[id] == if s.server == Some(id) then 0 else 1)
      && (id !in s.published ==> s.destroyed[id] == 0)
  {
    InvAtStart(n);
    AccountedFrom(Initial(n), actions);
  }

  // ----- serialised starts -----

  /** A start begins only when no other start is under way. */
  predicate Serial(s: State, a: Action) {
    a.Retire? ==> forall j :: 0 <= j < |s.starts| ==> s.starts[j] == NotStarting
  }

  predicate IsSerial(s: State, actions: seq<Action>)
    requires IsRun(s, actions)
    decreases |actions|
  {
    |actions| == 0 || (Serial(s, actions[0]) && IsSerial(Do(s, actions[0]), actions[1..]))
  }

  /** At most one start is under way, and until it publishes there is no session. */
  ghost predicate OneStart(s: State) {
    && (forall i, j :: 0 <= i < j < |s.starts| ==> s.starts[i] == NotStarting || s.starts[j] == NotStarting)
    && forall i :: 0 <= i < |s.starts| ==> (s.starts[i] == Retired || s.starts[i].Created? ==> s.server == None)
  }

  lemma {:induction false} SerialFrom(s: State, actions: seq<Action>)
    requires OneStart(s) && IsRun(s, actions) && IsSerial(s, actions)
    ensures PublishesVacant(s, actions)
    decreases |actions|
  {
    if |actions| > 0 {
      SerialFrom(Do(s, actions[0]), actions[1..]);
    }
  }

  /** Serialised starts never overwrite a session, so both laws hold of them. */
  lemma {:induction false} SerialIsVacant(n: nat, actions: seq<Action>)
    requires IsRun(Initial(n), actions) && IsSerial(Initial(n), actions)
    ensures PublishesVacant(Initial(n), actions)
  {
    SerialFrom(Initial(n), actions);
  }

  ghost predicate Leads(s: State, a: Action, s': State) {
    Enabled(s, a) && Do(s, a) == s'
  }

  /** Two overlapping starts: the first session leaks, and its timer destroys the second. */
  lemma {:induction false} OverlappingStartsBreakIt()
    ensures
      var no: multiset<nat> := multiset{};
      var one := State(1, None, [Retired, NotStarting], multiset{}, 0, {}, no);
      var two := State(2, None, [Retired, Retired], multiset{}, 0, {}, no);
      var made := State(2, None, [Created(0), Created(1)], multiset{}, 2, {}, no);
      var out := State(2, Some(1), [Published(Timer(2, 0)), Published(Timer(2, 1))], multiset{}, 2, {0, 1}, no);
      var armed := State(2, Some(1), [NotStarting, NotStarting], multiset{Timer(2, 0), Timer(2, 1)}, 2, {0, 1}, no);
      && Leads(Initial(2), Retire(0), one) && Leads(one, Retire(1), two)
      && Enabled(two, Create(0)) && Leads(Do(two, Create(0)), Create(1), made)
      && Enabled(made, Publish(0)) && !Vacant(Do(made, Publish(0)), Publish(1))
      && Leads(Do(made, Publish(0)), Publish(1), out)
      && Enabled(out, Arm(0)) && Leads(Do(out, Arm(0)), Arm(1), armed)
      && Enabled(armed, Expire(Timer(2, 0)))
      && Do(armed, Expire(Timer(2, 0))).destroyed == multiset{1}
  {
    var one := State(1, None, [Retired, NotStarting], multiset{}, 0, {}, multiset{});
    assert Initial(2).starts == [NotStarting, NotStarting];
    assert one.starts[0] == Retired;
  }
}
