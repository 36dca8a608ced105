/**
 * The lifetime manager singleton as a state machine: the one-way
 * termination flag, the termination subscriptions and their once-only guard,
 * the threads to join, the registry of tracked instances, and the log.
 * Every thread's action is one atomic `Step`; waiting and timeouts are
 * replaced by the order of steps and by oracle booleans.
 */
module LifetimeManager {
  import opened Wrappers
  import opened Words
  import opened LifetimeTracking
  import Decimal
  import Ordered

  /**
   * A termination subscription: the wrapper around the user's callback,
   * with its shared `called` flag, and whether its subscriber scope is
   * still alive (`active`).
   */
  datatype Subscription = Subscription(active: bool, called: bool)

  datatype Fired = Fired(sub: Subscription, invoked: bool)

  /**
   * One run of the wrapper: the user callback runs only when termination has
   * been initiated (a spurious wake-up does nothing) and only if it has not
   * run before.
   */
  function Fire(s: Subscription, terminating: bool): (r: Fired)
    ensures r.invoked <==> terminating && !s.called
    ensures r.sub.called <==> s.called || terminating
    ensures r.sub.active == s.active
  {
    if terminating && !s.called then Fired(s.(called := true), true) else Fired(s, false)
  }

  /** Parameters of the `DoExit` a termination request runs. */
  datatype ExitRequest = ExitRequest(code: int, graceMs: nat)

  datatype Manager = Manager(
    terminating: bool,                // `termination_initiated_`
    tracking: Tracking,               // `tracking_`
    threadsToJoin: seq<nat>,          // `threads_to_join_`, by thread handle
    subscriptions: seq<Subscription>, // indexed by subscription handle
    invoked: seq<nat>,                // handles whose user callback ran, in order
    exitRequest: Option<ExitRequest>, // what the one `DoExit` was asked to do
    log: seq<string>)                 // lines passed to the logger

  const Initial: Manager := Manager(false, InitialTracking, [], [], [], None, [])

  predicate WellFormed(m: Manager) {
    LifetimeTracking.Valid(m.tracking)
  }

  predicate NoDup(s: seq<nat>) {
    forall i, j :: 0 <= i < j < |s| ==> s[i] != s[j]
  }

  /** `IsShuttingDown`: the flag itself. */
  function IsShuttingDown(m: Manager): bool {
    m.terminating
  }

  /** `WaitUntilTimeToDieFor`: after the wait, `false` exactly when it is time to die. */
  function WaitUntilTimeToDieFor(m: Manager): (keepGoing: bool)
    ensures keepGoing <==> !IsShuttingDown(m)
  {
    !m.terminating
  }

  /**
   * `EmplaceThreadImpl` with the evident intent of its comment: while not
   * terminating the thread is queued for joining; afterwards it is refused
   * and the list is unchanged.
   */
  function EmplaceThread(m: Manager, t: nat): (r: Manager)
    ensures !m.terminating ==> r.threadsToJoin == m.threadsToJoin + [t]
    ensures m.terminating ==> r == m
    ensures r.(threadsToJoin := m.threadsToJoin) == m
  {
    if m.terminating then m else m.(threadsToJoin := m.threadsToJoin + [t])
  }

  /** How the process ends when something goes wrong outside `DoExit`. */
  datatype Crash = StdTerminate

  /**
   * `EmplaceThreadImpl` as written: when terminating, the `std::thread`
   * parameter, which already runs and so is joinable, is destroyed without
   * being joined or detached, and the C++ runtime calls `std::terminate`.
   */
  function EmplaceThreadAsWritten(m: Manager, t: nat): (r: Result<Manager, Crash>)
    ensures r.Ok? <==> !m.terminating
    ensures r.Ok? ==> r.value.threadsToJoin == m.threadsToJoin + [t]
    ensures r.Ok? ==> r.value.(threadsToJoin := m.threadsToJoin) == m
  {
    if m.terminating then Err(StdTerminate) else Ok(m.(threadsToJoin := m.threadsToJoin + [t]))
  }

  /** Emplacing a thread once termination has begun crashes the process. */
  lemma EmplaceAfterExitCrashes(t: nat)
    ensures EmplaceThreadAsWritten(Exit(Initial).manager, t) == Err(StdTerminate)
    ensures EmplaceThread(Exit(Initial).manager, t) == Exit(Initial).manager
  {
  }

  datatype Subscribed = Subscribed(manager: Manager, handle: nat)

  /**
   * `SubscribeToTerminationEvent`: registers the wrapper and, if termination
   * was already initiated, runs it right away.
   */
  function SubscribeToTerminationEvent(m: Manager): (r: Subscribed)
    ensures r.handle == |m.subscriptions|
    ensures |r.manager.subscriptions| == |m.subscriptions| + 1
    ensures r.manager.subscriptions[..|m.subscriptions|] == m.subscriptions
    ensures r.manager.subscriptions[r.handle] == Subscription(true, m.terminating)
    ensures r.manager.invoked == m.invoked + (if m.terminating then [r.handle] else [])
    ensures r.manager.(subscriptions := m.subscriptions, invoked := m.invoked) == m
  {
    var h := |m.subscriptions|;
    var f := Fire(Subscription(true, false), m.terminating);
    Subscribed(m.(subscriptions := m.subscriptions + [f.sub],
                  invoked := m.invoked + (if f.invoked then [h] else [])), h)
  }

  /** Destroying the subscriber scope: the wrapper is never run again. */
  function Unsubscribe(m: Manager, h: nat): (r: Manager)
    ensures |r.subscriptions| == |m.subscriptions|
    ensures forall i :: 0 <= i < |m.subscriptions| ==>
              r.subscriptions[i] == if i == h then m.subscriptions[i].(active := false) else m.subscriptions[i]
    ensures r.(subscriptions := m.subscriptions) == m
  {
    if h < |m.subscriptions|
    then m.(subscriptions := m.subscriptions[h := m.subscriptions[h].(active := false)])
    else m
  }

  /**
   * The waitable atomic runs a live subscriber's wrapper: on the flag's
   * change, or spuriously at any other time.
   */
  function Notify(m: Manager, h: nat): (r: Manager)
    ensures |r.subscriptions| == |m.subscriptions|
    ensures forall i :: 0 <= i < |m.subscriptions| && i != h ==> r.subscriptions[i] == m.subscriptions[i]
    ensures h < |m.subscriptions| && m.subscriptions[h].active && m.terminating ==> r.subscriptions[h].called
    ensures r.invoked == m.invoked + (if h < |m.subscriptions| && m.subscriptions[h].active && m.terminating && !m.subscriptions[h].called then [h] else [])
    ensures r.(subscriptions := m.subscriptions, invoked := m.invoked) == m
  {
    if h < |m.subscriptions| && m.subscriptions[h].active then
      var f := Fire(m.subscriptions[h], m.terminating);
      m.(subscriptions := m.subscriptions[h := f.sub], invoked := m.invoked + (if f.invoked then [h] else []))
    else m
  }

  datatype Notified = Notified(subs: seq<Subscription>, invoked: seq<nat>)

  /**
   * Notification of every live subscriber with handle `i` or above, once
   * the flag is set.
   */
  function NotifyAll(subs: seq<Subscription>, i: nat): (r: Notified)
    requires i <= |subs|
    ensures |r.subs| == |subs|
    ensures forall j :: 0 <= j < i ==> r.subs[j] == subs[j]
    ensures forall j :: i <= j < |subs| ==>
              r.subs[j] == if subs[j].active then subs[j].(called := true) else subs[j]
    ensures forall k :: 0 <= k < |r.invoked| ==>
              i <= r.invoked[k] < |subs| && subs[r.invoked[k]].active && !subs[r.invoked[k]].called
    ensures forall j :: i <= j < |subs| && subs[j].active && !subs[j].called ==> j in r.invoked
    ensures NoDup(r.invoked)
    decreases |subs| - i
  {
    if i == |subs| then Notified(subs, [])
    else
      var rest := NotifyAll(subs, i + 1);
      var f := if subs[i].active then Fire(subs[i], true) else Fired(subs[i], false);
      Notified(rest.subs[i := f.sub], (if f.invoked then [i] else []) + rest.invoked)
  }

  const IgnoringLine: string := "Ignoring aconsecutive call to `LIFETIME_MANAGER_EXIT()`."
  const OrganicLine: string := "The program is terminating organically."

  function InitiatingLine(code: int): string {
    "Initating termination sequence per `LIFETIME_MANAGER_EXIT(" + Decimal.IntToString(code) + ")`."
  }

  /** Setting the flag (test-and-set) and notifying every live subscriber. */
  function Terminate(m: Manager, req: ExitRequest, lines: seq<string>): (r: Manager)
    requires !m.terminating
    ensures r.terminating && r.exitRequest == Some(req)
    ensures r.log == m.log + lines
    ensures r.tracking == m.tracking && r.threadsToJoin == m.threadsToJoin
    ensures |r.subscriptions| == |m.subscriptions|
    ensures forall i :: 0 <= i < |m.subscriptions| ==> r.subscriptions[i].active == m.subscriptions[i].active
    ensures forall i :: 0 <= i < |m.subscriptions| ==> (r.subscriptions[i].called <==> m.subscriptions[i].called || m.subscriptions[i].active)
  {
    var n := NotifyAll(m.subscriptions, 0);
    Manager(true, m.tracking, m.threadsToJoin, n.subs, m.invoked + n.invoked, Some(req), m.log + lines)
  }

  datatype ExitCall = ExitCall(manager: Manager, runsDoExit: bool)

  /**
   * `Exit(exit_code, graceful_delay)`, by default code 0 and two seconds:
   * only the call that flips the flag runs `DoExit`; later calls only log.
   */
  function Exit(m: Manager, code: int := 0, graceMs: nat := 2000): (r: ExitCall)
    ensures r.manager.terminating
    ensures r.runsDoExit <==> !m.terminating
    ensures r.runsDoExit ==> r.manager.exitRequest == Some(ExitRequest(code, graceMs))
                             && r.manager.log == m.log + [InitiatingLine(code)]
    ensures !r.runsDoExit ==> r.manager == m.(log := m.log + [IgnoringLine])
  {
    if m.terminating then ExitCall(m.(log := m.log + [IgnoringLine]), false)
    else ExitCall(Terminate(m, ExitRequest(code, graceMs), [InitiatingLine(code)]), true)
  }

  /**
   * The singleton's destructor: if nobody called `Exit`, the program is
   * ending organically and `DoExit` runs with the defaults; otherwise it
   * does nothing at all.
   */
  function Destroy(m: Manager): (r: ExitCall)
    ensures r.manager.terminating
    ensures r.runsDoExit <==> !m.terminating
    ensures r.runsDoExit ==> r.manager == Exit(m).manager.(log := m.log + ["", OrganicLine])
    ensures !r.runsDoExit ==> r.manager == m
  {
    if m.terminating then ExitCall(m, false)
    else ExitCall(Terminate(m, ExitRequest(0, 2000), ["", OrganicLine]), true)
  }

  /** The atomic actions the threads of a program perform on the manager. */
  datatype Step =
    | Add(desc: string, file: string, line: nat)
    | Remove(id: U64)
    | Emplace(thread: nat)
    | Subscribe
    | Unsubscribe(handle: nat)
    | Notify(handle: nat)
    | CallExit(code: int, graceMs: nat)
    | Destruct

  function Apply(m: Manager, s: Step): (r: Manager)
    requires WellFormed(m)
    ensures WellFormed(r)
  {
    match s
    case Add(d, f, l) => m.(tracking := TrackingAddNewestFirst(m.tracking, d, f, l).tracking)
    case Remove(id) => m.(tracking := TrackingRemove(m.tracking, id))
    case Emplace(t) => EmplaceThread(m, t)
    case Subscribe => SubscribeToTerminationEvent(m).manager
    case Unsubscribe(h) => Unsubscribe(m, h)
    case Notify(h) => Notify(m, h)
    case CallExit(code, g) => Exit(m, code, g).manager
    case Destruct => Destroy(m).manager
  }

  function Run(m: Manager, steps: seq<Step>): (r: Manager)
    requires WellFormed(m)
    ensures WellFormed(r)
    decreases |steps|
  {
    if |steps| == 0 then m else Run(Apply(m, steps[0]), steps[1..])
  }

  /** Whether a step is the one that starts `DoExit`. */
  predicate StartsDoExit(m: Manager, s: Step) {
    (s.CallExit? || s.Destruct?) && !m.terminating
  }

  /** How many steps of a run start `DoExit`. */
  function DoExitRuns(m: Manager, steps: seq<Step>): nat
    requires WellFormed(m)
    decreases |steps|
  {
    if |steps| == 0 then 0
    else (if StartsDoExit(m, steps[0]) then 1 else 0) + DoExitRuns(Apply(m, steps[0]), steps[1..])
  }

  // ---------------------------------------------------------------------
  // The one-way flag.

  lemma ApplyKeepsFlag(m: Manager, s: Step)
    requires WellFormed(m) && m.terminating
    ensures Apply(m, s).terminating
    ensures Apply(m, s).threadsToJoin == m.threadsToJoin
    ensures Apply(m, s).exitRequest == m.exitRequest
  {
  }

  /** Only a step that starts `DoExit` sets the flag. */
  lemma ApplySetsFlag(m: Manager, s: Step)
    requires WellFormed(m) && !m.terminating
    ensures Apply(m, s).terminating <==> StartsDoExit(m, s)
  {
  }

  /**
   * Once set, the flag never reverts, the list of threads to join is frozen,
   * and the exit request stays the first one.
   */
  lemma {:induction false} FlagNeverReverts(m: Manager, steps: seq<Step>)
    requires WellFormed(m) && m.terminating
    ensures Run(m, steps).terminating
    ensures Run(m, steps).threadsToJoin == m.threadsToJoin
    ensures Run(m, steps).exitRequest == m.exitRequest
    ensures !WaitUntilTimeToDieFor(Run(m, steps))
    decreases |steps|
  {
    if |steps| > 0 {
      ApplyKeepsFlag(m, steps[0]);
      FlagNeverReverts(Apply(m, steps[0]), steps[1..]);
    }
  }

  /** `DoExit` is started at most once in any run, and never after termination began. */
  lemma {:induction false} DoExitAtMostOnce(m: Manager, steps: seq<Step>)
    requires WellFormed(m)
    ensures DoExitRuns(m, steps) <= 1
    ensures m.terminating ==> DoExitRuns(m, steps) == 0
    decreases |steps|
  {
    if |steps| > 0 {
      var m1 := Apply(m, steps[0]);
      DoExitAtMostOnce(m1, steps[1..]);
      if m.terminating {
        ApplyKeepsFlag(m, steps[0]);
      } else {
        ApplySetsFlag(m, steps[0]);
      }
    }
  }

  /** `DoExit` was started in a run exactly when the run set the flag. */
  lemma {:induction false} DoExitRanIffFlagSet(m: Manager, steps: seq<Step>)
    requires WellFormed(m) && !m.terminating
    ensures DoExitRuns(m, steps) == 1 <==> Run(m, steps).terminating
    decreases |steps|
  {
    if |steps| > 0 {
      var m1 := Apply(m, steps[0]);
      ApplySetsFlag(m, steps[0]);
      if m1.terminating {
        DoExitAtMostOnce(m1, steps[1..]);
        FlagNeverReverts(m1, steps[1..]);
      } else {
        DoExitRanIffFlagSet(m1, steps[1..]);
      }
    }
  }

  // ---------------------------------------------------------------------
  // Termination callbacks run once and only once.

  /**
   * What every reachable manager satisfies: each handle's callback ran at
   * most once, exactly for the wrappers marked `called`, only after
   * termination began, and once it began every live subscriber has run.
   */
  predicate CallbacksOnce(m: Manager) {
    && WellFormed(m)
    && NoDup(m.invoked)
    && (forall k :: 0 <= k < |m.invoked| ==>
          m.invoked[k] < |m.subscriptions| && m.subscriptions[m.invoked[k]].called)
    && (forall h :: 0 <= h < |m.subscriptions| && m.subscriptions[h].called ==> h in m.invoked)
    && (forall h :: 0 <= h < |m.subscriptions| && m.subscriptions[h].called ==> m.terminating)
    && (m.terminating ==> forall h :: 0 <= h < |m.subscriptions| && m.subscriptions[h].active ==> m.subscriptions[h].called)
    && (!m.terminating ==> m.invoked == [])
    && (m.terminating <==> m.exitRequest.Some?)
  }

  lemma InitialCallbacksOnce()
    ensures CallbacksOnce(Initial)
  {
  }

  lemma SubscribeKeepsCallbacksOnce(m: Manager)
    requires CallbacksOnce(m)
    ensures CallbacksOnce(SubscribeToTerminationEvent(m).manager)
  {
    var r := SubscribeToTerminationEvent(m).manager;
    var h := |m.subscriptions|;
    forall k | 0 <= k < |r.invoked| ensures r.invoked[k] < |r.subscriptions| && r.subscriptions[r.invoked[k]].called {
      if k < |m.invoked| {
        assert r.invoked[k] == m.invoked[k];
      }
    }
    forall i | 0 <= i < |r.subscriptions| && r.subscriptions[i].called ensures i in r.invoked {
      if i < h {
        assert r.subscriptions[i] == m.subscriptions[i];
      }
    }
    forall i, j | 0 <= i < j < |r.invoked| ensures r.invoked[i] != r.invoked[j] {
      if j >= |m.invoked| {
        assert m.invoked[i] < h;
      }
    }
  }

  lemma UnsubscribeKeepsCallbacksOnce(m: Manager, h: nat)
    requires CallbacksOnce(m)
    ensures CallbacksOnce(Unsubscribe(m, h))
  {
  }

  lemma NotifyKeepsCallbacksOnce(m: Manager, h: nat)
    requires CallbacksOnce(m)
    ensures CallbacksOnce(Notify(m, h))
  {
    // Once terminating every live wrapper has already run, so a
    // notification never runs a user callback a second time.
    assert Notify(m, h).invoked == m.invoked;
  }

  lemma TerminateKeepsCallbacksOnce(m: Manager, req: ExitRequest, lines: seq<string>)
    requires CallbacksOnce(m) && !m.terminating
    ensures CallbacksOnce(Terminate(m, req, lines))
  {
    var n := NotifyAll(m.subscriptions, 0);
    var r := Terminate(m, req, lines);
    assert r.invoked == n.invoked;
  }

  lemma ApplyKeepsCallbacksOnce(m: Manager, s: Step)
    requires CallbacksOnce(m)
    ensures CallbacksOnce(Apply(m, s))
  {
    match s
    case Subscribe => SubscribeKeepsCallbacksOnce(m);
    case Unsubscribe(h) => UnsubscribeKeepsCallbacksOnce(m, h);
    case Notify(h) => NotifyKeepsCallbacksOnce(m, h);
    case CallExit(code, g) =>
      if !m.terminating {
        TerminateKeepsCallbacksOnce(m, ExitRequest(code, g), [InitiatingLine(code)]);
      }
    case Destruct =>
      if !m.terminating {
        TerminateKeepsCallbacksOnce(m, ExitRequest(0, 2000), ["", OrganicLine]);
      }
    case _ =>
  }

  lemma {:induction false} RunKeepsCallbacksOnce(m: Manager, steps: seq<Step>)
    requires CallbacksOnce(m)
    ensures CallbacksOnce(Run(m, steps))
    decreases |steps|
  {
    if |steps| > 0 {
      ApplyKeepsCallbacksOnce(m, steps[0]);
      RunKeepsCallbacksOnce(Apply(m, steps[0]), steps[1..]);
    }
  }

  /**
   * From a fresh manager, whatever the interleaving: every callback ran at
   * most once, none ran before termination, and once termination began each
   * subscriber still subscribed has run exactly once.
   */
  lemma CalledOnceAndOnlyOnce(steps: seq<Step>)
    ensures var m := Run(Initial, steps);
            && NoDup(m.invoked)
            && (|m.invoked| > 0 ==> m.terminating)
            && (m.terminating ==> forall h :: 0 <= h < |m.subscriptions| && m.subscriptions[h].active ==> h in m.invoked)
  {
    RunKeepsCallbacksOnce(Initial, steps);

  }

  /**
   * A step never runs the callback of a subscriber whose scope is gone, and
   * only `Unsubscribe` ends a scope.
   */
  lemma ApplyRunsOnlyLiveCallbacks(m: Manager, s: Step, h: nat)
    requires WellFormed(m) && h < |m.subscriptions|
    ensures h < |Apply(m, s).subscriptions|
    ensures !m.subscriptions[h].active && h !in m.invoked ==> h !in Apply(m, s).invoked
    ensures !m.subscriptions[h].active ==> !Apply(m, s).subscriptions[h].active
    ensures s != Step.Unsubscribe(h) && m.subscriptions[h].active ==> Apply(m, s).subscriptions[h].active
    ensures h in m.invoked ==> h in Apply(m, s).invoked
  {
    var r := Apply(m, s);
    match s
    case Subscribe =>
      assert r.subscriptions[h] == m.subscriptions[h];
    case CallExit(code, g) =>
      if !m.terminating {
        assert r.invoked == m.invoked + NotifyAll(m.subscriptions, 0).invoked;
      }
    case Destruct =>
      if !m.terminating {
        assert r.invoked == m.invoked + NotifyAll(m.subscriptions, 0).invoked;
      }
    case _ =>
  }

  /** A step keeps a live registry entry alive unless it removes that very id. */
  lemma ApplyKeepsAlive(m: Manager, s: Step, id: U64)
    requires WellFormed(m) && IsAlive(m.tracking, id) && s != Remove(id)
    ensures IsAlive(Apply(m, s).tracking, id)
  {
    match s
    case Add(d, f, l) =>
      var a := TrackingAddNewestFirst(m.tracking, d, f, l);
      assert id != a.id ==> Ordered.Find(a.tracking.stillAlive, id) == Ordered.Find(m.tracking.stillAlive, id);
    case Remove(x) =>
      assert Ordered.Find(Apply(m, s).tracking.stillAlive, id) == Ordered.Find(m.tracking.stillAlive, id);
    case _ =>
  }

  // ---------------------------------------------------------------------
  // `DoExit`.

  datatype Outcome = ProcessExit(code: int) | Abort

  datatype Shutdown = Shutdown(log: seq<string>, outcome: Outcome)

  const MainOkLine: string := "Main termination sequence successful, joining the presumably-done threads."
  const JoinedLine: string := "Termination sequence successful, all threads joined."
  const AllDoneLine: string := "Termination sequence successful, all done."
  const UncooperativeLine: string := "Uncooperative threads remain, time to `abort()`."
  const UnsuccessfulLine: string := "Termination sequence unsuccessful, still has offenders."
  const AbortLine: string := "Time to `abort()`."

  function OffenderLines(alive: seq<(U64, TrackedInstance)>): (lines: seq<string>)
    ensures |lines| == |alive|
    ensures forall i :: 0 <= i < |alive| ==> lines[i] == "Offender: " + ToShortString(alive[i].1)
  {
    if |alive| == 0 then [] else ["Offender: " + ToShortString(alive[0].1)] + OffenderLines(alive[1..])
  }

  /**
   * The end of `DoExit`. `drainedInTime`: the registry became empty within
   * the grace period; `joinedInTime`: the queued threads were then all
   * joined within the grace period; `aliveAtReport`: the registry when the
   * offenders are listed. The "Gone after ..." lines with their timings are
   * not modelled.
   */
  function DoExit(req: ExitRequest, drainedInTime: bool, joinedInTime: bool,
                  aliveAtReport: seq<(U64, TrackedInstance)>): (r: Shutdown)
    ensures r.outcome.ProcessExit? <==> drainedInTime && joinedInTime
    ensures r.outcome.ProcessExit? ==> r.outcome.code == req.code
    ensures drainedInTime ==> |r.log| == 3 && r.log[0] == MainOkLine
    ensures drainedInTime && joinedInTime ==> r.log[1..] == [JoinedLine, AllDoneLine]
    ensures drainedInTime && !joinedInTime ==> r.log[1..] == ["", UncooperativeLine]
    ensures !drainedInTime ==> && |r.log| == |aliveAtReport| + 4
                               && r.log[..2] == ["", UnsuccessfulLine]
                               && r.log[|r.log| - 2..] == ["", AbortLine]
                               && forall i :: 0 <= i < |aliveAtReport| ==>
                                    r.log[2 + i] == "Offender: " + ToShortString(aliveAtReport[i].1)
  {
    if drainedInTime then
      if joinedInTime then Shutdown([MainOkLine, JoinedLine, AllDoneLine], ProcessExit(req.code))
      else Shutdown([MainOkLine, "", UncooperativeLine], Abort)
    else
      var lines := ["", UnsuccessfulLine] + OffenderLines(aliveAtReport) + ["", AbortLine];
      assert lines[..2] == ["", UnsuccessfulLine];
      assert lines[|lines| - 2..] == ["", AbortLine];
      Shutdown(lines, Abort)
  }

  /** The exit request a step makes if it starts `DoExit`: its own for `Exit`, the defaults for the destructor. */
  function RequestOf(s: Step): ExitRequest {
    match s
    case CallExit(code, graceMs) => ExitRequest(code, graceMs)
    case _ => ExitRequest(0, 2000)
  }

  /** The step that sets the flag records its own request. */
  lemma FlipRequest(m: Manager, s: Step)
    requires WellFormed(m) && !m.terminating && Apply(m, s).terminating
    ensures Apply(m, s).exitRequest == Some(RequestOf(s))
  {
    ApplySetsFlag(m, s);
  }

  lemma RunOfPrefix(m: Manager, steps: seq<Step>, j: nat)
    requires WellFormed(m) && 1 <= j <= |steps|
    ensures Run(m, steps[..j]) == Run(Apply(m, steps[0]), steps[1..][..j - 1])
  {
    assert steps[..j][0] == steps[0];
    assert steps[..j][1..] == steps[1..][..j - 1];
  }

  /** The index of the first step of a run that starts `DoExit`; `|steps|` when none does. */
  function FirstStart(m: Manager, steps: seq<Step>): nat
    requires WellFormed(m)
    decreases |steps|
  {
    if |steps| == 0 then 0
    else if StartsDoExit(m, steps[0]) then 0
    else 1 + FirstStart(Apply(m, steps[0]), steps[1..])
  }

  /**
   * In a run that sets the flag, exactly one step starts `DoExit`, the one
   * at index `i`, and the exit request the run ends with is the one that
   * step made.
   */
  lemma {:induction false} FlagFlipStep(m: Manager, steps: seq<Step>) returns (i: nat)
    requires WellFormed(m) && !m.terminating && Run(m, steps).terminating
    ensures i == FirstStart(m, steps) && i < |steps|
    ensures forall j :: 0 <= j < |steps| ==> (StartsDoExit(Run(m, steps[..j]), steps[j]) <==> j == i)
    ensures Run(m, steps).exitRequest == Some(RequestOf(steps[i]))
    decreases |steps|
  {
    var m1 := Apply(m, steps[0]);
    ApplySetsFlag(m, steps[0]);
    assert Run(m, steps[..0]) == m;
    if m1.terminating {
      i := 0;
      FlipRequest(m, steps[0]);
      FlagNeverReverts(m1, steps[1..]);
      forall j | 1 <= j < |steps| ensures !StartsDoExit(Run(m, steps[..j]), steps[j]) {
        RunOfPrefix(m, steps, j);
        FlagNeverReverts(m1, steps[1..][..j - 1]);
      }
    } else {
      var k := FlagFlipStep(m1, steps[1..]);
      i := k + 1;
      forall j | 1 <= j < |steps|
        ensures StartsDoExit(Run(m, steps[..j]), steps[j]) <==> j == i
      {
        RunOfPrefix(m, steps, j);
        assert steps[j] == steps[1..][j - 1];
      }
    }
  }

  /**
   * A run that exits: from any running manager, the fresh one included,
   * exactly one step starts `DoExit`, the run keeps the exit request that
   * step made, and that `DoExit` ends in `exit(code)` of that request
   * exactly when both grace periods were met, and aborts otherwise.
   */
  lemma ExitCodeIsTheFirstRequests(m: Manager, steps: seq<Step>, drained: bool, joined: bool,
                                   alive: seq<(U64, TrackedInstance)>)
    requires WellFormed(m) && !m.terminating && Run(m, steps).terminating
    ensures DoExitRuns(m, steps) == 1
    ensures Run(m, steps).exitRequest.Some?
    ensures var i := FirstStart(m, steps);
            && i < |steps| && Run(m, steps).exitRequest == Some(RequestOf(steps[i]))
            && forall j :: 0 <= j < |steps| ==> (StartsDoExit(Run(m, steps[..j]), steps[j]) <==> j == i)
    ensures var req := Run(m, steps).exitRequest.value;
            DoExit(req, drained, joined, alive).outcome
              == if drained && joined then ProcessExit(req.code) else Abort
  {
    DoExitRanIffFlagSet(m, steps);
    var i := FlagFlipStep(m, steps);
    ExitOutcome(RequestOf(steps[i]), drained, joined, alive);
  }

  /** How `DoExit` ends, whatever it logs. */
  lemma ExitOutcome(req: ExitRequest, drained: bool, joined: bool, alive: seq<(U64, TrackedInstance)>)
    ensures DoExit(req, drained, joined, alive).outcome == if drained && joined then ProcessExit(req.code) else Abort
  {
  }
}
