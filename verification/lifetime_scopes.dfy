/**
 * The header's helpers that bracket a piece of work with `TrackingAdd` /
 * `TrackingRemove`: tracked threads, tracked singleton instances and
 * tracked child processes. Each is a small phase machine whose steps
 * interleave with the steps of every other thread.
 */
module LifetimeScopes {
  import opened Words
  import Wrappers
  import Ordered
  import opened LifetimeTracking
  import opened LifetimeManager

  /** The id the next `TrackingAdd` on `m` hands out. */
  function NextId(m: Manager): (id: U64)
    requires WellFormed(m)
    ensures id == TrackingAddNewestFirst(m.tracking, "", "", 0).id
  {
    Dec64(m.tracking.nextIdDesc)
  }

  lemma {:induction false} RunAppend(m: Manager, a: seq<Step>, b: seq<Step>)
    requires WellFormed(m)
    ensures Run(m, a + b) == Run(Run(m, a), b)
    decreases |a|
  {
    if |a| > 0 {
      assert (a + b)[0] == a[0] && (a + b)[1..] == a[1..] + b;
      RunAppend(Apply(m, a[0]), a[1..], b);
    } else {
      assert a + b == b;
    }
  }

  /** Steps that never remove `id` keep it alive at every point of the run. */
  lemma {:induction false} RunKeepsAlive(m: Manager, steps: seq<Step>, id: U64)
    requires WellFormed(m) && IsAlive(m.tracking, id)
    requires forall k :: 0 <= k < |steps| ==> steps[k] != Remove(id)
    ensures forall k :: 0 <= k <= |steps| ==> IsAlive(Run(m, steps[..k]).tracking, id)
    decreases |steps|
  {
    if |steps| > 0 {
      ApplyKeepsAlive(m, steps[0], id);
      var m1 := Apply(m, steps[0]);
      RunKeepsAlive(m1, steps[1..], id);
      forall k | 0 <= k <= |steps| ensures IsAlive(Run(m, steps[..k]).tracking, id) {
        if k > 0 {
          assert steps[..k][1..] == steps[1..][..k - 1];
          assert Run(m, steps[..k]) == Run(m1, steps[1..][..k - 1]);
        } else {
          assert steps[..k] == [];
        }
      }
    }
  }

  // ---------------------------------------------------------------------
  // `C5T_LIFETIME_MANAGER_TRACKED_THREAD`.

  /**
   * The steps of a tracked thread and its creator, in the order the creator
   * waits for: the thread registers under the header's own `__FILE__` and
   * `__LINE__`, the creator emplaces the thread, the body runs (interleaved
   * with anything else), the thread unregisters its id.
   */
  function TrackedThreadSteps(desc: string, headerFile: string, headerLine: nat,
                              t: nat, id: U64, body: seq<Step>): (steps: seq<Step>)
    ensures |steps| == |body| + 3
    ensures steps[0] == Add(desc, headerFile, headerLine) && steps[1] == Emplace(t)
    ensures steps[2..|steps| - 1] == body && steps[|steps| - 1] == Remove(id)
  {
    [Add(desc, headerFile, headerLine), Emplace(t)] + body + [Remove(id)]
  }

  /** The thread's `TrackingAdd` and the creator's `EmplaceThreadImpl`, run back to back. */
  lemma RegisterThenEmplace(m: Manager, desc: string, headerFile: string, headerLine: nat, t: nat)
    requires WellFormed(m)
    ensures var registered := Run(m, [Add(desc, headerFile, headerLine), Emplace(t)]);
            && WellFormed(registered)
            && Ordered.Find(registered.tracking.stillAlive, NextId(m)) == Wrappers.Some(MakeInstance(desc, headerFile, headerLine))
            && (registered.threadsToJoin == m.threadsToJoin + [t] <==> !m.terminating)
  {
    var m1 := Apply(m, Add(desc, headerFile, headerLine));
    assert Run(m1, [Emplace(t)]) == Apply(m1, Emplace(t));
    assert Run(m, [Add(desc, headerFile, headerLine), Emplace(t)]) == Apply(m1, Emplace(t));
  }

  /**
   * The body runs strictly inside the registration: the id is live from the
   * `TrackingAdd` through every step of the body, and gone after the
   * `TrackingRemove`; the thread is queued for joining unless termination
   * had begun.
   */
  lemma TrackedThreadBracket(m: Manager, desc: string, headerFile: string, headerLine: nat,
                             t: nat, body: seq<Step>)
    requires WellFormed(m)
    requires forall k :: 0 <= k < |body| ==> body[k] != Remove(NextId(m))
    ensures var id := NextId(m);
            var registered := Run(m, [Add(desc, headerFile, headerLine), Emplace(t)]);
            && Ordered.Find(registered.tracking.stillAlive, id) == Wrappers.Some(MakeInstance(desc, headerFile, headerLine))
            && (registered.threadsToJoin == m.threadsToJoin + [t] <==> !m.terminating)
            && (forall k :: 0 <= k <= |body| ==> IsAlive(Run(registered, body[..k]).tracking, id))
            && !IsAlive(Run(m, TrackedThreadSteps(desc, headerFile, headerLine, t, id, body)).tracking, id)
  {
    var id := NextId(m);
    var pre := [Add(desc, headerFile, headerLine), Emplace(t)];
    RegisterThenEmplace(m, desc, headerFile, headerLine, t);
    var registered := Run(m, pre);
    RunKeepsAlive(registered, body, id);
    TrackedThreadEnds(m, pre, body, id);
    assert TrackedThreadSteps(desc, headerFile, headerLine, t, id, body) == pre + body + [Remove(id)];
  }

  /** Whatever ran before, the final `TrackingRemove` leaves the id gone. */
  lemma TrackedThreadEnds(m: Manager, pre: seq<Step>, body: seq<Step>, id: U64)
    requires WellFormed(m)
    ensures !IsAlive(Run(m, pre + body + [Remove(id)]).tracking, id)
  {
    RunAppend(m, pre + body, [Remove(id)]);
    var before := Run(m, pre + body);
    assert Run(before, [Remove(id)]) == Apply(before, Remove(id));
  }

  // ---------------------------------------------------------------------
  // `CreateLifetimeTrackedInstance`.

  /**
   * The dedicated thread of `CreateLifetimeTrackedInstance`: it constructs
   * the instance, registers it (which releases the creator), waits until
   * termination, destroys the instance, and only then unregisters.
   */
  datatype InstancePhase =
    | Constructing
    | Registered(id: U64)
    | Destroyed(id: U64)
    | Finished

  datatype InstanceThread = InstanceThread(phase: InstancePhase, manager: Manager)

  /** Whether the creator's `result.Wait()` has returned the instance. */
  predicate CreatorReturned(st: InstanceThread) {
    !st.phase.Constructing?
  }

  /** One step of the instance's own thread. */
  function InstanceStep(st: InstanceThread, text: string, file: string, line: nat): (r: InstanceThread)
    requires WellFormed(st.manager)
    ensures WellFormed(r.manager)
    ensures st.phase.Constructing? ==> r.phase == Registered(NextId(st.manager))
    ensures st.phase.Registered? ==> (r.phase.Destroyed? <==> st.manager.terminating)
    ensures st.phase.Registered? ==> r.manager == st.manager
    ensures st.phase.Destroyed? ==> r.phase.Finished? && !IsAlive(r.manager.tracking, st.phase.id)
  {
    match st.phase
    case Constructing => InstanceThread(Registered(NextId(st.manager)), Apply(st.manager, Add(text, file, line)))
    case Registered(id) => if st.manager.terminating then InstanceThread(Destroyed(id), st.manager) else st
    case Destroyed(id) => InstanceThread(Finished, Apply(st.manager, Remove(id)))
    case Finished => st
  }

  /** Another thread's step. */
  function OtherStep(st: InstanceThread, s: Step): (r: InstanceThread)
    requires WellFormed(st.manager)
  {
    InstanceThread(st.phase, Apply(st.manager, s))
  }

  /**
   * The instance stays registered from construction until after its
   * destruction, and it is destroyed only once termination has begun.
   */
  predicate InstanceRegistered(st: InstanceThread) {
    && WellFormed(st.manager)
    && ((st.phase.Registered? || st.phase.Destroyed?) ==> IsAlive(st.manager.tracking, st.phase.id))
    && ((st.phase.Destroyed? || st.phase.Finished?) ==> st.manager.terminating)
  }

  lemma InstanceStepKeepsRegistered(st: InstanceThread, text: string, file: string, line: nat)
    requires InstanceRegistered(st)
    ensures InstanceRegistered(InstanceStep(st, text, file, line))
  {
    match st.phase
    case Constructing =>
      var a := TrackingAddNewestFirst(st.manager.tracking, text, file, line);
      assert Ordered.Find(a.tracking.stillAlive, a.id).Some?;
    case Destroyed(id) =>
      ApplyKeepsFlag(st.manager, Remove(id));
    case _ =>
  }

  lemma OtherStepKeepsRegistered(st: InstanceThread, s: Step)
    requires InstanceRegistered(st)
    requires (st.phase.Registered? || st.phase.Destroyed?) ==> s != Remove(st.phase.id)
    ensures InstanceRegistered(OtherStep(st, s))
  {
    if st.phase.Registered? || st.phase.Destroyed? {
      ApplyKeepsAlive(st.manager, s, st.phase.id);
    }
    if st.manager.terminating {
      ApplyKeepsFlag(st.manager, s);
    }
  }

  // ---------------------------------------------------------------------
  // `C5T_LIFETIME_MANAGER_TRACKED_POPEN2`.

  /**
   * Phases of a tracked child process: not started; registered under `id` (`started`);
   * the user callback runs with the termination subscription `handle` in
   * scope; the callback has returned (scope gone) and the child is being
   * waited for; `popen2_done` is set and the id removed.
   */
  datatype Popen2Phase =
    | NotStarted
    | Started(id: U64)
    | UserCode(id: U64, handle: nat)
    | AwaitingChild(id: U64, handle: nat)
    | Done(id: U64, handle: nat)
  {
    predicate Subscribed() {
      UserCode? || AwaitingChild? || Done?
    }
  }

  /** `kills`: how many times the subscription's callback called `ctx.Kill()`. */
  datatype Popen2 = Popen2(manager: Manager, phase: Popen2Phase, popen2Done: bool, kills: nat)

  /**
   * The `Kill()` calls made while the manager went from `m` to `r`: one if
   * the subscription's callback ran in between and saw `popen2_done` unset.
   */
  function KillsDuring(p: Popen2Phase, done: bool, m: Manager, r: Manager): (n: nat)
    ensures n <= 1
    ensures n == 1 <==> p.Subscribed() && !done && p.handle !in m.invoked && p.handle in r.invoked
  {
    if p.Subscribed() && !done && p.handle !in m.invoked && p.handle in r.invoked then 1 else 0
  }

  /** The tracked child's own next step. */
  function Popen2Advance(st: Popen2, text: string, file: string, line: nat): (r: Popen2)
    requires WellFormed(st.manager)
    ensures WellFormed(r.manager)
    ensures st.phase.NotStarted? ==> r.phase == Started(NextId(st.manager))
    ensures st.phase.Started? ==> r.phase == UserCode(st.phase.id, |st.manager.subscriptions|)
    ensures st.phase.UserCode? ==> r.phase == AwaitingChild(st.phase.id, st.phase.handle)
    ensures st.phase.AwaitingChild? ==> r.phase == Done(st.phase.id, st.phase.handle) && r.popen2Done
    ensures st.phase.Done? ==> r == st
  {
    match st.phase
    case NotStarted =>
      Popen2(Apply(st.manager, Add(text, file, line)), Started(NextId(st.manager)), false, st.kills)
    case Started(id) =>
      var p := UserCode(id, |st.manager.subscriptions|);
      var m1 := Apply(st.manager, Step.Subscribe);
      Popen2(m1, p, st.popen2Done, st.kills + KillsDuring(p, st.popen2Done, st.manager, m1))
    case UserCode(id, h) =>
      Popen2(Apply(st.manager, Step.Unsubscribe(h)), AwaitingChild(id, h), st.popen2Done, st.kills)
    case AwaitingChild(id, h) =>
      Popen2(Apply(st.manager, Remove(id)), Done(id, h), true, st.kills)
    case Done(_, _) => st
  }

  /** Another thread's step, which may notify the subscription. */
  function Popen2Other(st: Popen2, s: Step): (r: Popen2)
    requires WellFormed(st.manager)
    ensures WellFormed(r.manager)
    ensures r.phase == st.phase && r.popen2Done == st.popen2Done
  {
    var m1 := Apply(st.manager, s);
    Popen2(m1, st.phase, st.popen2Done, st.kills + KillsDuring(st.phase, st.popen2Done, st.manager, m1))
  }

  /** Steps that only the child's own code takes: ending its scope, removing its id. */
  predicate Foreign(st: Popen2, s: Step) {
    && (st.phase.Subscribed() ==> s != Step.Unsubscribe(st.phase.handle))
    && (!st.phase.NotStarted? ==> s != Remove(st.phase.id))
  }

  /**
   * SIGTERM has been sent exactly when the subscription's callback ran
   * (so at most once); the subscription is live exactly during the user
   * code; the child stays registered until it is done.
   */
  predicate Popen2Ok(st: Popen2) {
    && CallbacksOnce(st.manager)
    && (!st.phase.Subscribed() ==> st.kills == 0)
    && (st.phase.Subscribed() ==>
          && st.phase.handle < |st.manager.subscriptions|
          && st.kills == (if st.phase.handle in st.manager.invoked then 1 else 0)
          && (st.manager.subscriptions[st.phase.handle].active <==> st.phase.UserCode?))
    && (st.phase.Done? <==> st.popen2Done)
    && ((st.phase.Started? || st.phase.UserCode? || st.phase.AwaitingChild?) ==>
          IsAlive(st.manager.tracking, st.phase.id))
  }

  lemma Popen2StartOk(m: Manager)
    requires CallbacksOnce(m)
    ensures Popen2Ok(Popen2(m, NotStarted, false, 0))
  {
  }

  lemma Popen2AdvanceOk(st: Popen2, text: string, file: string, line: nat)
    requires Popen2Ok(st)
    ensures Popen2Ok(Popen2Advance(st, text, file, line))
    ensures st.phase.Started? && st.manager.terminating ==> Popen2Advance(st, text, file, line).kills == 1
    ensures st.phase.AwaitingChild? ==>
              !IsAlive(Popen2Advance(st, text, file, line).manager.tracking, st.phase.id)
  {
    match st.phase
    case NotStarted =>
      ApplyKeepsCallbacksOnce(st.manager, Add(text, file, line));
      var a := TrackingAddNewestFirst(st.manager.tracking, text, file, line);
      assert Ordered.Find(a.tracking.stillAlive, a.id).Some?;
    case Started(id) =>
      ApplyKeepsCallbacksOnce(st.manager, Step.Subscribe);
      ApplyKeepsAlive(st.manager, Step.Subscribe, id);
      var m1 := Apply(st.manager, Step.Subscribe);
      assert m1 == SubscribeToTerminationEvent(st.manager).manager;
      var h := |st.manager.subscriptions|;
      assert h !in st.manager.invoked;
      assert h in m1.invoked <==> st.manager.terminating;
    case UserCode(id, h) =>
      ApplyKeepsCallbacksOnce(st.manager, Step.Unsubscribe(h));
      ApplyKeepsAlive(st.manager, Step.Unsubscribe(h), id);
    case AwaitingChild(id, h) =>
      ApplyKeepsCallbacksOnce(st.manager, Remove(id));
      ApplyRunsOnlyLiveCallbacks(st.manager, Remove(id), h);
    case Done(_, _) =>
  }

  lemma Popen2OtherOk(st: Popen2, s: Step)
    requires Popen2Ok(st) && Foreign(st, s)
    ensures Popen2Ok(Popen2Other(st, s))
    ensures !st.phase.UserCode? ==> Popen2Other(st, s).kills == st.kills
  {
    ApplyKeepsCallbacksOnce(st.manager, s);
    if st.phase.Subscribed() {
      ApplyRunsOnlyLiveCallbacks(st.manager, s, st.phase.handle);
    }
    if st.phase.Started? || st.phase.UserCode? || st.phase.AwaitingChild? {
      ApplyKeepsAlive(st.manager, s, st.phase.id);
    }
  }

  /**
   * SIGTERM goes out at most once, only after termination began, and by
   * the time termination has begun with the user code still running it has
   * gone out.
   */
  lemma Popen2KillsAtMostOnce(st: Popen2)
    requires Popen2Ok(st)
    ensures st.kills <= 1
    ensures st.kills == 1 ==> st.manager.terminating
    ensures st.phase.UserCode? && st.manager.terminating ==> st.kills == 1
  {
    if st.phase.Subscribed() && st.phase.handle in st.manager.invoked {
      var k :| 0 <= k < |st.manager.invoked| && st.manager.invoked[k] == st.phase.handle;
      assert st.manager.subscriptions[st.manager.invoked[k]].called;
    }
  }
}
