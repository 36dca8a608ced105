/**
 * Subscriber scopes on the actor-model bus: a scope allocates an id, starts
 * its worker and tracker, links its id to every topic of its keys, receives
 * the events published on those topics, and is torn down in a fixed order.
 * The per-type publisher behind `HandlerPerType` is an abstract link set:
 * `AddGenericLink` records a link and registers the type for the
 * subscriber, `CleanupSubscriberByID` of a type drops that subscriber's
 * links of that type.
 */
module ActorBus {
  import opened Wrappers
  import opened Words
  import opened Topics
  import opened ActorQueue
  import opened ActorRegistry
  import Decimal

  /** A subscriber linked to a topic, expecting events of type `tag`. */
  datatype Link = Link(sid: U64, tid: U64, tag: TypeTag)

  datatype Bus = Bus(registry: Registry, trackers: set<U64>, workers: map<U64, Worker>, links: set<Link>)

  const Initial: Bus := Bus(ActorRegistry.Empty, {}, map[], {})

  /**
   * Each type's cleanup handler is that type's own publisher; every link
   * belongs to a known scope whose type set holds the link's type; every
   * worker keeps its queue accounting.
   */
  predicate Valid(b: Bus) {
    && ActorRegistry.Valid(b.registry)
    && (forall t :: t in b.registry.cleanups ==> b.registry.cleanups[t] == t)
    && (forall l :: l in b.links ==> l.sid in b.workers && l.tag in TypesOf(b.registry, l.sid))
    && (forall s :: s in b.workers ==> Accounting(b.workers[s]))
  }

  lemma InitialValid()
    ensures Valid(Initial)
  {
  }

  datatype Opened = Opened(bus: Bus, sid: U64)

  /**
   * A new scope: `AllocateNextID`, then the worker thread starts on an
   * empty queue and the scope is added as a tracker.
   */
  function NewScope(b: Bus): (o: Opened)
    requires Valid(b)
    ensures Valid(o.bus)
    ensures o.sid == (b.registry.idsUsed + 1) % TWO_64
    ensures o.bus.workers == b.workers[o.sid := Fresh]
    ensures o.bus.trackers == b.trackers + {o.sid} && o.bus.links == b.links
  {
    var a := AllocateNextID(b.registry);
    FreshAccounting();
    Opened(Bus(a.registry, b.trackers + {a.id}, b.workers[a.id := Fresh], b.links), a.id)
  }

  /** Links `sid` to every id of every type in `ts`, registering each type that has ids. */
  function LinkAll(b: Bus, sid: U64, ids: map<TypeTag, set<U64>>, ts: seq<TypeTag>): (r: Bus)
    requires Valid(b) && sid in b.workers
    requires forall i :: 0 <= i < |ts| ==> ts[i] in ids
    ensures Valid(r)
    ensures r.workers == b.workers && r.trackers == b.trackers && r.registry.idsUsed == b.registry.idsUsed
    ensures forall l :: l in r.links <==> l in b.links || (l.sid == sid && l.tag in ts && l.tid in ids[l.tag])
    decreases |ts|
  {
    if |ts| == 0 then b
    else
      var t := ts[0];
      var b1 := if ids[t] == {} then b
                else Bus(RegisterType(b.registry, t, sid, t), b.trackers, b.workers,
                         b.links + set tid | tid in ids[t] :: Link(sid, tid, t));
      assert forall i :: 0 <= i < |ts[1..]| ==> ts[1..][i] == ts[i + 1];
      var r := LinkAll(b1, sid, ids, ts[1..]);
      assert forall x :: x in ts <==> x == t || x in ts[1..];
      r
  }

  /** `SubscribeAllImpl`: one link per (type, topic id) of the keys. */
  function SubscribeAll(b: Bus, sid: U64, keys: TopicKeys): (r: Bus)
    requires Valid(b) && sid in b.workers && Topics.WellFormed(keys)
    ensures Valid(r)
    ensures r.workers == b.workers && r.trackers == b.trackers && r.registry.idsUsed == b.registry.idsUsed
    ensures forall l :: l in r.links <==> l in b.links || (l.sid == sid && l.tag in keys.ids && l.tid in keys.ids[l.tag])
  {
    assert forall i :: 0 <= i < |keys.types| ==> keys.types[i] in keys.types;
    LinkAll(b, sid, keys.ids, keys.types)
  }

  /**
   * `C5T_EMIT` of an event of type `e.tag`: `PublishGenericEvent` on that
   * type's own publisher, which holds only the links made for that type, so
   * every subscriber linked to the topic for that type gets the event
   * enqueued and links of other types on the same topic id are not seen.
   * The closure's `dynamic_pointer_cast` therefore always succeeds.
   */
  function Publish(b: Bus, tid: U64, e: Event): (r: Bus)
    requires Valid(b)
    ensures Valid(r) && r.links == b.links && r.trackers == b.trackers && r.registry == b.registry
    ensures r.workers.Keys == b.workers.Keys
    ensures forall s :: s in b.workers ==>
              r.workers[s] == if Link(s, tid, e.tag) in b.links then Enqueue(b.workers[s], e) else b.workers[s]
  {
    var ws := map s | s in b.workers :: if Link(s, tid, e.tag) in b.links then Enqueue(b.workers[s], e) else b.workers[s];
    forall s | s in ws ensures Accounting(ws[s]) {
      StepKeepsAccounting(b.workers[s], Push(e), e' => false);
    }
    b.(workers := ws)
  }

  /** Publications one after another, each a topic id and an event. */
  function PublishAll(b: Bus, ps: seq<(U64, Event)>): (r: Bus)
    requires Valid(b)
    ensures Valid(r) && r.links == b.links && r.trackers == b.trackers && r.registry == b.registry
    ensures r.workers.Keys == b.workers.Keys
    decreases |ps|
  {
    if |ps| == 0 then b else PublishAll(Publish(b, ps[0].0, ps[0].1), ps[1..])
  }

  /** The events of `ps` that subscriber `sid` is linked for, topic and type both, in publication order. */
  function DeliveredTo(links: set<Link>, sid: U64, ps: seq<(U64, Event)>): (es: seq<Event>)
    ensures |es| <= |ps|
    decreases |ps|
  {
    if |ps| == 0 then []
    else (if Link(sid, ps[0].0, ps[0].1.tag) in links then [ps[0].1] else []) + DeliveredTo(links, sid, ps[1..])
  }

  lemma ExtendThenAppend<T>(x: seq<T>, y: seq<T>, now: seq<T>, rest: seq<T>)
    requires y == x + now
    ensures y + rest == x + (now + rest)
  {
  }

  /** One worker over a sequence of publications: it receives exactly the events it is linked for. */
  lemma {:induction false} PublishAllReaches(b: Bus, ps: seq<(U64, Event)>, s: U64)
    requires Valid(b) && s in b.workers
    ensures var w := PublishAll(b, ps).workers[s];
            && w.enqueued == b.workers[s].enqueued + DeliveredTo(b.links, s, ps)
            && w.queue.fifo == b.workers[s].queue.fifo + DeliveredTo(b.links, s, ps)
            && w.calls == b.workers[s].calls && w.running == b.workers[s].running
    decreases |ps|
  {
    if |ps| > 0 {
      var b1 := Publish(b, ps[0].0, ps[0].1);
      PublishAllReaches(b1, ps[1..], s);
      var now := if Link(s, ps[0].0, ps[0].1.tag) in b.links then [ps[0].1] else [];
      var rest := DeliveredTo(b.links, s, ps[1..]);
      var w := b.workers[s];
      assert DeliveredTo(b.links, s, ps) == now + rest;
      ExtendThenAppend(w.enqueued, b1.workers[s].enqueued, now, rest);
      ExtendThenAppend(w.queue.fifo, b1.workers[s].queue.fifo, now, rest);
    } else {
      assert DeliveredTo(b.links, s, ps) == [];
    }
  }

  /**
   * Over any sequence of publications, each worker's queue receives exactly
   * the events it is linked for, in publication order, whatever other types
   * share the topic ids; its calls and its running state are untouched.
   */
  lemma PublishAllDelivers(b: Bus, ps: seq<(U64, Event)>)
    requires Valid(b)
    ensures forall s :: s in b.workers ==>
              && PublishAll(b, ps).workers[s].enqueued == b.workers[s].enqueued + DeliveredTo(b.links, s, ps)
              && PublishAll(b, ps).workers[s].queue.fifo == b.workers[s].queue.fifo + DeliveredTo(b.links, s, ps)
              && PublishAll(b, ps).workers[s].calls == b.workers[s].calls
              && PublishAll(b, ps).workers[s].running == b.workers[s].running
  {
    forall s | s in b.workers
      ensures PublishAll(b, ps).workers[s].enqueued == b.workers[s].enqueued + DeliveredTo(b.links, s, ps)
      ensures PublishAll(b, ps).workers[s].queue.fifo == b.workers[s].queue.fifo + DeliveredTo(b.links, s, ps)
      ensures PublishAll(b, ps).workers[s].calls == b.workers[s].calls
      ensures PublishAll(b, ps).workers[s].running == b.workers[s].running
    {
      PublishAllReaches(b, ps, s);
    }
  }

  /**
   * One topic id linked for two types by two scopes: an event of the first
   * type reaches the first scope only, and the second scope's worker is unchanged.
   */
  lemma SharedTopicId(b: Bus, x: U64, y: U64, tid: U64, t: TypeTag, u: TypeTag, v: int)
    requires Valid(b) && x in b.workers && y in b.workers && t != u
    requires Link(x, tid, t) in b.links && Link(y, tid, u) in b.links && Link(y, tid, t) !in b.links
    ensures Publish(b, tid, Event(t, v)).workers[x].queue.fifo == b.workers[x].queue.fifo + [Event(t, v)]
    ensures Publish(b, tid, Event(t, v)).workers[y] == b.workers[y]
  {
  }

  /** The worker thread of scope `sid` takes one pass of its loop, if it can. */
  function WakeWorker(b: Bus, sid: U64, throws: Event -> bool): (r: Bus)
    requires Valid(b) && sid in b.workers
    ensures Valid(r)
    ensures r.workers == b.workers[sid := ActorQueue.Step(b.workers[sid], WakeUp, throws)]
    ensures r.links == b.links && r.trackers == b.trackers
  {
    StepKeepsAccounting(b.workers[sid], WakeUp, throws);
    b.(workers := b.workers[sid := ActorQueue.Step(b.workers[sid], WakeUp, throws)])
  }

  /** The links left after each called per-type publisher dropped the subscriber's links of its type. */
  function DropLinks(links: set<Link>, calls: seq<CleanupCall>): (r: set<Link>)
    ensures forall l :: l in r <==> l in links && CleanupCall(l.tag, l.sid) !in calls
  {
    set l | l in links && CleanupCall(l.tag, l.sid) !in calls
  }

  /**
   * Scope teardown, in the destructor's order: remove the tracker, clean
   * the subscriber up in every type it registered, set `done`, and join
   * the worker, which leaves its loop through `OnShutdown`.
   */
  function Teardown(b: Bus, sid: U64, throws: Event -> bool): (r: Bus)
    requires Valid(b) && sid in b.workers && b.workers[sid].running
    ensures Valid(r)
    ensures r.trackers == b.trackers - {sid}
    ensures forall l :: l in r.links <==> l in b.links && l.sid != sid
    ensures r.workers.Keys == b.workers.Keys
    ensures forall s :: s in b.workers && s != sid ==> r.workers[s] == b.workers[s]
    ensures !r.workers[sid].running && r.workers[sid].calls == b.workers[sid].calls + [OnShutdown]
    ensures Handled(r.workers[sid].calls) == Handled(b.workers[sid].calls)
  {
    var c := CleanupSubscriberByID(b.registry, sid);
    var links := DropLinks(b.links, c.calls);
    forall l | l in b.links ensures l in links <==> l.sid != sid {
      if l.sid == sid {
        var types := TypesOf(b.registry, sid);
        var i :| 0 <= i < |types| && types[i] == l.tag;
        assert c.calls[i] == CleanupCall(l.tag, sid);
      }
    }
    var w := SetDone(b.workers[sid]);
    StepKeepsAccounting(b.workers[sid], Stop, throws);
    StepKeepsAccounting(w, WakeUp, throws);
    var joined := Wake(w, throws);
    Bus(c.registry, b.trackers - {sid}, b.workers[sid := joined], links)
  }

  /** A torn-down scope receives nothing more. */
  lemma PublishMissesTornDownScope(b: Bus, sid: U64, throws: Event -> bool, tid: U64, e: Event)
    requires Valid(b) && sid in b.workers && b.workers[sid].running
    ensures var r := Teardown(b, sid, throws);
            Publish(r, tid, e).workers[sid] == r.workers[sid]
  {
  }

  /** What the smoke test's worker writes: the event type followed by the payload. */
  function Render(es: seq<Event>): (s: string)
    ensures |es| == 0 ==> s == ""
  {
    if |es| == 0 then "" else es[0].tag + Decimal.IntToString(es[0].x) + Render(es[1..])
  }

  function Never(e: Event): bool {
    false
  }

  /** Three publications on a bus in turn. */
  function Publish3(b: Bus, t1: U64, e1: Event, t2: U64, e2: Event, t3: U64, e3: Event): (r: Bus)
    requires Valid(b)
    ensures Valid(r)
    ensures r.workers.Keys == b.workers.Keys && r.links == b.links && r.registry == b.registry
  {
    Publish(Publish(Publish(b, t1, e1), t2, e2), t3, e3)
  }

  /** Wakes worker `sid` with closures that never throw, if there is such a worker. */
  function WakeIfPresent(b: Bus, sid: U64): (r: Bus)
    requires Valid(b)
    ensures Valid(r)
  {
    if sid in b.workers then WakeWorker(b, sid, Never) else b
  }

  /**
   * Publishing on three topics and waking a subscriber linked to the first
   * two only: it handles the first two events, in order, and nothing else.
   */
  lemma PublishThreeWakeOne(b: Bus, sid: U64, t1: U64, t2: U64, t3: U64, tag: TypeTag, x1: int, x2: int, x3: int)
    requires Valid(b) && sid in b.workers && b.workers[sid].running && b.workers[sid].queue == EmptyQueue
    requires Link(sid, t1, tag) in b.links && Link(sid, t2, tag) in b.links && Link(sid, t3, tag) !in b.links
    ensures var r := WakeIfPresent(Publish3(b, t1, Event(tag, x1), t2, Event(tag, x2), t3, Event(tag, x3)), sid);
            && r.workers.Keys == b.workers.Keys && r.links == b.links && r.registry == b.registry
            && r.workers[sid].running && r.workers[sid].queue.fifo == [] && !r.workers[sid].queue.done
            && Handled(r.workers[sid].calls) == Handled(b.workers[sid].calls) + [Event(tag, x1), Event(tag, x2)]
  {
    var w := b.workers[sid];
    var e1, e2, e3 := Event(tag, x1), Event(tag, x2), Event(tag, x3);
    var b1 := Publish(b, t1, e1);
    var b2 := Publish(b1, t2, e2);
    var b3 := Publish(b2, t3, e3);
    assert b3.workers[sid] == Enqueue(Enqueue(w, e1), e2);
    var r := WakeWorker(b3, sid, Never);
    assert r.workers[sid].calls == w.calls + EventCalls([e1, e2]) + [OnBatchDone];
    HandledAppend(w.calls, EventCalls([e1, e2]));
    HandledAppend(w.calls + EventCalls([e1, e2]), [OnBatchDone]);
    HandledEventCalls([e1, e2]);
  }

  /** Publishing on topics a subscriber is not linked to leaves its worker alone. */
  lemma PublishThreeMisses(b: Bus, sid: U64, t1: U64, t2: U64, t3: U64, tag: TypeTag, x1: int, x2: int, x3: int)
    requires Valid(b) && sid in b.workers
    requires Link(sid, t1, tag) !in b.links && Link(sid, t2, tag) !in b.links && Link(sid, t3, tag) !in b.links
    ensures Publish3(b, t1, Event(tag, x1), t2, Event(tag, x2), t3, Event(tag, x3)).workers[sid] == b.workers[sid]
  {
    var e1, e2, e3 := Event(tag, x1), Event(tag, x2), Event(tag, x3);
    var b1 := Publish(b, t1, e1);
    var b2 := Publish(b1, t2, e2);
  }

  /** Smoke scenario, first scope: subscriber 1 on `a1 + a2`. */
  function ScopeOnA(a1: U64, a2: U64): (r: Bus)
    ensures Valid(r)
  {
    var o := NewScope(Initial);
    SubscribeAll(o.bus, o.sid, KeyPlusKey(TopicKey("a", a1), TopicKey("a", a2)))
  }

  /** Subscribing to `x + y` of one type adds exactly those two links. */
  lemma SubscribePair(b: Bus, sid: U64, tag: TypeTag, x: U64, y: U64)
    requires Valid(b) && sid in b.workers
    ensures SubscribeAll(b, sid, KeyPlusKey(TopicKey(tag, x), TopicKey(tag, y))).links
            == b.links + {Link(sid, x, tag), Link(sid, y, tag)}
  {
  }

  lemma ScopeOnAFacts(a1: U64, a2: U64)
    ensures var r := ScopeOnA(a1, a2);
            && r.workers.Keys == {1} && r.workers[1] == Fresh && r.registry.idsUsed == 1
            && r.links == {Link(1, a1, "a"), Link(1, a2, "a")}
  {
    var o := NewScope(Initial);
    assert o.sid == 1;
    SubscribePair(o.bus, 1, "a", a1, a2);
  }

  /** 101, 102 and 103 are published on `a1`, `a2`, `a3`, then worker 1 runs. */
  function AfterA(a1: U64, a2: U64, a3: U64): (r: Bus)
    ensures Valid(r)
  {
    WakeIfPresent(Publish3(ScopeOnA(a1, a2), a1, Event("a", 101), a2, Event("a", 102), a3, Event("a", 103)), 1)
  }

  lemma AfterAFacts(a1: U64, a2: U64, a3: U64)
    requires a3 != a1 && a3 != a2
    ensures var r := AfterA(a1, a2, a3);
            && r.workers.Keys == {1} && r.registry.idsUsed == 1 && r.links == {Link(1, a1, "a"), Link(1, a2, "a")}
            && r.workers[1].running && r.workers[1].queue.fifo == [] && !r.workers[1].queue.done
            && Handled(r.workers[1].calls) == [Event("a", 101), Event("a", 102)]
  {
    ScopeOnAFacts(a1, a2);
    PublishThreeWakeOne(ScopeOnA(a1, a2), 1, a1, a2, a3, "a", 101, 102, 103);
  }

  /** 201 to 203 are published on `b1` to `b3`, then a subscriber opens on `b1 + b2`. */
  function OpenOnB(w: Bus, b1: U64, b2: U64, b3: U64): (r: Bus)
    requires Valid(w)
    ensures Valid(r)
  {
    var q := Publish3(w, b1, Event("b", 201), b2, Event("b", 202), b3, Event("b", 203));
    var o := NewScope(q);
    SubscribeAll(o.bus, o.sid, KeyPlusKey(TopicKey("b", b1), TopicKey("b", b2)))
  }

  lemma OpenOnBFacts(w: Bus, a1: U64, a2: U64, b1: U64, b2: U64, b3: U64)
    requires Valid(w) && w.workers.Keys == {1} && w.registry.idsUsed == 1
    requires w.links == {Link(1, a1, "a"), Link(1, a2, "a")}
    requires b1 != a1 && b1 != a2 && b2 != a1 && b2 != a2 && b3 != a1 && b3 != a2
    ensures var r := OpenOnB(w, b1, b2, b3);
            && r.workers.Keys == {1, 2} && r.workers[2] == Fresh && r.workers[1] == w.workers[1]
            && r.links == {Link(1, a1, "a"), Link(1, a2, "a"), Link(2, b1, "b"), Link(2, b2, "b")}
  {
    PublishThreeMisses(w, 1, b1, b2, b3, "b", 201, 202, 203);
    var q := Publish3(w, b1, Event("b", 201), b2, Event("b", 202), b3, Event("b", 203));
    var o := NewScope(q);
    assert o.sid == 2;
    SubscribePair(o.bus, 2, "b", b1, b2);
  }

  /** 301 to 303 are published on `b1` to `b3`, then both workers run. */
  function PublishOnB(s2: Bus, b1: U64, b2: U64, b3: U64): (r: Bus)
    requires Valid(s2)
    ensures Valid(r)
  {
    var p := Publish3(s2, b1, Event("b", 301), b2, Event("b", 302), b3, Event("b", 303));
    WakeIfPresent(WakeIfPresent(p, 2), 1)
  }

  /** With scope 1 on `a1 + a2` and scope 2 on `b1 + b2`, only scope 2 is linked to `b1` and `b2`, and nobody to `b3`. */
  lemma LinksOfTwoScopes(links: set<Link>, a1: U64, a2: U64, b1: U64, b2: U64, b3: U64)
    requires links == {Link(1, a1, "a"), Link(1, a2, "a"), Link(2, b1, "b"), Link(2, b2, "b")}
    requires b3 != b1 && b3 != b2
    requires b1 != a1 && b1 != a2 && b2 != a1 && b2 != a2 && b3 != a1 && b3 != a2
    ensures Link(1, b1, "b") !in links && Link(1, b2, "b") !in links && Link(1, b3, "b") !in links
    ensures Link(2, b1, "b") in links && Link(2, b2, "b") in links && Link(2, b3, "b") !in links
  {
  }

  lemma PublishOnBFacts(s2: Bus, a1: U64, a2: U64, b1: U64, b2: U64, b3: U64)
    requires Valid(s2) && s2.workers.Keys == {1, 2} && s2.workers[2] == Fresh
    requires s2.workers[1].running && s2.workers[1].queue.fifo == [] && !s2.workers[1].queue.done
    requires s2.links == {Link(1, a1, "a"), Link(1, a2, "a"), Link(2, b1, "b"), Link(2, b2, "b")}
    requires b3 != b1 && b3 != b2
    requires b1 != a1 && b1 != a2 && b2 != a1 && b2 != a2 && b3 != a1 && b3 != a2
    ensures var r := PublishOnB(s2, b1, b2, b3);
            && r.workers.Keys == {1, 2}
            && Handled(r.workers[1].calls) == Handled(s2.workers[1].calls)
            && Handled(r.workers[2].calls) == [Event("b", 301), Event("b", 302)]
  {
    LinksOfTwoScopes(s2.links, a1, a2, b1, b2, b3);
    PublishThreeWakeOne(s2, 2, b1, b2, b3, "b", 301, 302, 303);
    PublishThreeMisses(s2, 1, b1, b2, b3, "b", 301, 302, 303);
    var p := Publish3(s2, b1, Event("b", 301), b2, Event("b", 302), b3, Event("b", 303));
    var v := WakeIfPresent(p, 2);
    assert v.workers[1] == s2.workers[1];
    var r := WakeIfPresent(v, 1);
    assert r.workers == v.workers;
  }

  lemma AfterBFacts(a1: U64, a2: U64, a3: U64, b1: U64, b2: U64, b3: U64)
    requires a3 != a1 && a3 != a2 && b3 != b1 && b3 != b2
    requires b1 != a1 && b1 != a2 && b2 != a1 && b2 != a2 && b3 != a1 && b3 != a2
    ensures var r := PublishOnB(OpenOnB(AfterA(a1, a2, a3), b1, b2, b3), b1, b2, b3);
            && r.workers.Keys == {1, 2}
            && Handled(r.workers[1].calls) == [Event("a", 101), Event("a", 102)]
            && Handled(r.workers[2].calls) == [Event("b", 301), Event("b", 302)]
  {
    AfterAFacts(a1, a2, a3);
    var w := AfterA(a1, a2, a3);
    OpenOnBFacts(w, a1, a2, b1, b2, b3);
    PublishOnBFacts(OpenOnB(w, b1, b2, b3), a1, a2, b1, b2, b3);
  }

  /** Two events rendered: type, payload, type, payload. */
  lemma RenderTwo(tag: TypeTag, x: int, y: int)
    ensures Render([Event(tag, x), Event(tag, y)]) == tag + Decimal.IntToString(x) + tag + Decimal.IntToString(y)
  {
    var es := [Event(tag, x), Event(tag, y)];
    assert es[1..][1..] == [];
  }

  lemma Payloads()
    ensures Decimal.IntToString(101) == "101" && Decimal.IntToString(102) == "102"
    ensures Decimal.IntToString(301) == "301" && Decimal.IntToString(302) == "302"
  {
    assert Decimal.NatToString(10) == "10" && Decimal.NatToString(30) == "30";
  }

  lemma RenderedPairs()
    ensures Render([Event("a", 101), Event("a", 102)]) == "a101a102"
    ensures Render([Event("b", 301), Event("b", 302)]) == "b301b302"
    ensures Render([Event("a", 101), Event("a", 102)]) + Render([Event("b", 301), Event("b", 302)]) == "a101a102b301b302"
  {
    RenderTwo("a", 101, 102);
    RenderTwo("b", 301, 302);
    Payloads();
  }

  /**
   * The actor-model smoke scenario on distinct topics: a scope on `a1 + a2`
   * gets 101 and 102 but not 103; `b` events published before any `b`
   * subscriber exists reach nobody; a later scope on `b1 + b2` gets 301 and
   * 302 but not 303. Both workers write to one stream.
   */
  lemma SmokeScenario(a1: U64, a2: U64, a3: U64, b1: U64, b2: U64, b3: U64)
    requires a3 != a1 && a3 != a2 && b3 != b1 && b3 != b2
    requires b1 != a1 && b1 != a2 && b2 != a1 && b2 != a2 && b3 != a1 && b3 != a2
    ensures var r := PublishOnB(OpenOnB(AfterA(a1, a2, a3), b1, b2, b3), b1, b2, b3);
            && r.workers.Keys == {1, 2}
            && Render(Handled(r.workers[1].calls)) + Render(Handled(r.workers[2].calls)) == "a101a102b301b302"
  {
    AfterBFacts(a1, a2, a3, b1, b2, b3);
    var r := PublishOnB(OpenOnB(AfterA(a1, a2, a3), b1, b2, b3), b1, b2, b3);
    assert Handled(r.workers[1].calls) == [Event("a", 101), Event("a", 102)];
    assert Handled(r.workers[2].calls) == [Event("b", 301), Event("b", 302)];
    RenderedPairs();
  }
}
