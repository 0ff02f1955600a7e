/** The shared debounce batch of the observer under every interleaving of notifications, timer expiry, callbacks and
    `Stop`. A timer is re-armed with `Reset` even when its callback has already started, so a callback may find an
    empty batch, and a forgotten timer may still fire. */
module ObserverBatch {
  import opened Common
  import opened ObserverRegistry

  /** A notification that reached at least one plugin; the cluster state is opaque. */
  datatype Event = Event(changed: seq<string>, state: int)

  /** How accepted events left the batch. */
  datatype Segment = Fired(queues: set<nat>, state: int, events: seq<Event>) | Discarded(events: seq<Event>)

  datatype Batch = Batch(
    queues: set<nat>,
    pending: seq<Event>,
    timer: Option<nat>,
    armed: set<nat>,        // timers that will expire
    inflight: multiset<nat>, // callbacks that started and wait for the lock
    nextTimer: nat,
    accepted: seq<Event>,
    segments: seq<Segment>)

  const EMPTY := Batch({}, [], None, {}, multiset{}, 0, [], [])

  datatype Step = Notify(ev: Event) | Expire(timer: nat) | Callback(timer: nat) | Stop

  predicate Enabled(b: Batch, step: Step) {
    match step
    case Notify(_) => true
    case Expire(t) => t in b.armed
    case Callback(t) => t in b.inflight
    case Stop => true
  }

  function Next(plugins: seq<Plugin>, b: Batch, step: Step): Batch {
    match step
    case Notify(ev) =>
      var affected := AffectedBy(plugins, ev.changed);
      if ev.changed == [] || affected == {} then b
      else
        var t := if b.timer.Some? then b.timer.value else b.nextTimer;
        b.(queues := b.queues + affected,
           pending := b.pending + [ev],
           accepted := b.accepted + [ev],
           timer := Some(t),
           armed := b.armed + {t},
           nextTimer := if b.timer.Some? then b.nextTimer else b.nextTimer + 1)
    case Expire(t) => b.(armed := b.armed - {t}, inflight := b.inflight + multiset{t})
    case Callback(t) =>
      var drained := b.(queues := {}, pending := [], timer := None, inflight := b.inflight - multiset{t});
      if b.queues == {} || b.pending == [] then drained
      else drained.(segments := b.segments + [Fired(b.queues, b.pending[|b.pending| - 1].state, b.pending)])
    case Stop =>
      b.(queues := {},
         pending := [],
         timer := None,
         armed := if b.timer.Some? then b.armed - {b.timer.value} else b.armed,
         segments := b.segments + [Discarded(b.pending)])
  }

  /** The plugins that some event of a list affects. */
  function AffectedByAny(plugins: seq<Plugin>, events: seq<Event>): set<nat> {
    if events == [] then {} else AffectedByAny(plugins, events[..|events| - 1]) + AffectedBy(plugins, events[|events| - 1].changed)
  }

  /** A fired segment rendered exactly the plugins its events affect, with the state of its last event. */
  ghost predicate ExactSegment(plugins: seq<Plugin>, s: Segment) {
    s.Fired? ==> s.events != [] && s.queues == AffectedByAny(plugins, s.events) && s.state == s.events[|s.events| - 1].state
  }

  function EventsOf(segments: seq<Segment>): seq<Event> {
    if segments == [] then [] else EventsOf(segments[..|segments| - 1]) + segments[|segments| - 1].events
  }

  ghost predicate Inv(plugins: seq<Plugin>, b: Batch) {
    TimersSound(b) && ContentsSound(plugins, b)
  }

  /** The batch is non-empty exactly while it has a timer, and that timer is armed or its callback has started. */
  ghost predicate TimersSound(b: Batch) {
    && (b.timer.Some? ==> b.timer.value in b.armed || b.timer.value in b.inflight)
    && (b.queues != {} <==> b.timer.Some?)
    && (b.queues != {} <==> b.pending != [])
    && (b.timer.Some? ==> b.timer.value < b.nextTimer) && (forall t | t in b.armed :: t < b.nextTimer)
  }

  ghost predicate ContentsSound(plugins: seq<Plugin>, b: Batch) {
    && b.queues == AffectedByAny(plugins, b.pending)
    && (forall i | 0 <= i < |b.segments| :: ExactSegment(plugins, b.segments[i]))
    && b.accepted == EventsOf(b.segments) + b.pending
  }

  lemma NotifyKept(plugins: seq<Plugin>, b: Batch, ev: Event)
    requires Inv(plugins, b)
    ensures Inv(plugins, Next(plugins, b, Notify(ev)))
  {
    hide AffectedBy, ExactSegment, EventsOf, AffectedByAny;
    var b' := Next(plugins, b, Notify(ev));
    if b' != b {
      AffectedByOneMore(plugins, b.pending, ev);
      assert b'.accepted == EventsOf(b.segments) + (b.pending + [ev]);
      assert b'.queues != {} by {
        var q :| q in AffectedBy(plugins, ev.changed);
        assert q in b'.queues;
      }
    }
  }

  lemma AffectedByOneMore(plugins: seq<Plugin>, events: seq<Event>, ev: Event)
    ensures AffectedByAny(plugins, events + [ev]) == AffectedByAny(plugins, events) + AffectedBy(plugins, ev.changed)
  {
    assert (events + [ev])[..|events|] == events;
  }

  lemma ExpireKept(plugins: seq<Plugin>, b: Batch, t: nat)
    requires Inv(plugins, b) && t in b.armed
    ensures Inv(plugins, Next(plugins, b, Expire(t)))
  {
    hide AffectedByAny, ExactSegment, EventsOf;
  }

  lemma CallbackKept(plugins: seq<Plugin>, b: Batch, t: nat)
    requires Inv(plugins, b) && t in b.inflight
    ensures Inv(plugins, Next(plugins, b, Callback(t)))
  {
    hide AffectedBy;
    var b' := Next(plugins, b, Callback(t));
    if |b'.segments| > |b.segments| {
      assert b'.segments[..|b.segments|] == b.segments;
    }
  }

  lemma StopKept(plugins: seq<Plugin>, b: Batch)
    requires Inv(plugins, b)
    ensures Inv(plugins, Next(plugins, b, Stop))
  {
    hide AffectedBy;
    var b' := Next(plugins, b, Stop);
    assert b'.segments[..|b.segments|] == b.segments;
  }

  lemma InvKept(plugins: seq<Plugin>, b: Batch, step: Step)
    requires Inv(plugins, b) && Enabled(b, step)
    ensures Inv(plugins, Next(plugins, b, step))
  {
    hide Inv, Next;
    match step
    case Notify(ev) => NotifyKept(plugins, b, ev);
    case Expire(t) => ExpireKept(plugins, b, t);
    case Callback(t) => CallbackKept(plugins, b, t);
    case Stop => StopKept(plugins, b);
  }

  /** The batch after some more steps; a step that is not enabled does nothing. */
  ghost function RunFrom(plugins: seq<Plugin>, b: Batch, steps: seq<Step>): Batch {
    if steps == [] then b
    else
      var c, last := RunFrom(plugins, b, steps[..|steps| - 1]), steps[|steps| - 1];
      if Enabled(c, last) then Next(plugins, c, last) else c
  }

  ghost function After(plugins: seq<Plugin>, steps: seq<Step>): Batch {
    RunFrom(plugins, EMPTY, steps)
  }

  lemma Reachable(plugins: seq<Plugin>, steps: seq<Step>)
    ensures Inv(plugins, After(plugins, steps))
  {
    InvAlong(plugins, EMPTY, steps);
  }

  /** In every interleaving a non-empty batch has an armed timer or a started callback, and that callback fires the
      whole batch: right away if it has started, else after the timer expires. */
  lemma {:induction false} NeverStranded(plugins: seq<Plugin>, steps: seq<Step>)
    ensures var b := After(plugins, steps);
      b.queues != {} ==>
        && b.pending != []
        && var fired := b.segments + [Fired(b.queues, b.pending[|b.pending| - 1].state, b.pending)];
           exists t ::
             || (t in b.inflight && Next(plugins, b, Callback(t)).segments == fired)
             || (t in b.armed && Enabled(Next(plugins, b, Expire(t)), Callback(t))
                 && Next(plugins, Next(plugins, b, Expire(t)), Callback(t)).segments == fired)
  {
    Reachable(plugins, steps);
    var b := After(plugins, steps);
    if b.queues != {} {
      var t := b.timer.value;
      assert t in b.inflight || t in b.armed;
    }
  }

  ghost function Work(b: Batch): nat {
    2 * |b.armed| + |b.inflight|
  }

  /** Enabled expiries and callbacks only. */
  ghost predicate TimersOnly(plugins: seq<Plugin>, b: Batch, more: seq<Step>) {
    forall i | 0 <= i < |more| :: (more[i].Expire? || more[i].Callback?) && Enabled(RunFrom(plugins, b, more[..i]), more[i])
  }

  lemma {:induction false} WorkDone(plugins: seq<Plugin>, b: Batch, more: seq<Step>)
    requires TimersOnly(plugins, b, more)
    ensures Work(RunFrom(plugins, b, more)) == Work(b) - |more|
    ensures RunFrom(plugins, b, more).accepted == b.accepted
  {
    if more != [] {
      var front, last := more[..|more| - 1], more[|more| - 1];
      assert forall i | 0 <= i < |front| :: front[i] == more[i] && front[..i] == more[..i];
      WorkDone(plugins, b, front);
      var c := RunFrom(plugins, b, front);
      assert Enabled(c, last);
      if last.Expire? {
        assert |c.armed - {last.timer}| == |c.armed| - 1;
      }
    }
  }

  /** From every reachable batch, expiries and callbacks alone come to an end after exactly `Work` steps, whatever their
      order: while fewer were taken another is enabled, and then the batch is empty and no event was added. */
  lemma {:induction false} EventuallyDrained(plugins: seq<Plugin>, steps: seq<Step>, more: seq<Step>)
    requires TimersOnly(plugins, After(plugins, steps), more)
    ensures var b, c := After(plugins, steps), RunFrom(plugins, After(plugins, steps), more);
      && |more| <= Work(b) && c.accepted == b.accepted
      && (|more| == Work(b) ==> c.queues == {} && c.pending == [] && c.accepted == EventsOf(c.segments))
      && (|more| < Work(b) ==> exists step: Step :: TimersOnly(plugins, b, more + [step]))
  {
    var b := After(plugins, steps);
    var c := RunFrom(plugins, b, more);
    WorkDone(plugins, b, more);
    Reachable(plugins, steps);
    InvAlong(plugins, b, more);
    if |more| < Work(b) {
      if t :| t in c.armed {
        OneMoreTimer(plugins, b, more, Expire(t));
      } else {
        assert c.armed == {};
        var t :| t in c.inflight;
        OneMoreTimer(plugins, b, more, Callback(t));
      }
    }
  }

  lemma OneMoreTimer(plugins: seq<Plugin>, b: Batch, more: seq<Step>, step: Step)
    requires TimersOnly(plugins, b, more) && (step.Expire? || step.Callback?) && Enabled(RunFrom(plugins, b, more), step)
    ensures TimersOnly(plugins, b, more + [step])
  {
    var longer := more + [step];
    assert forall i | 0 <= i < |more| :: longer[i] == more[i] && longer[..i] == more[..i];
    assert longer[..|more|] == more;
  }

  lemma {:induction false} InvAlong(plugins: seq<Plugin>, b: Batch, more: seq<Step>)
    requires Inv(plugins, b)
    ensures Inv(plugins, RunFrom(plugins, b, more))
  {
    if more != [] {
      hide Inv, Next;
      var c, last := RunFrom(plugins, b, more[..|more| - 1]), more[|more| - 1];
      InvAlong(plugins, b, more[..|more| - 1]);
      if Enabled(c, last) {
        InvKept(plugins, c, last);
      }
    }
  }

  /** In every interleaving each accepted event is, in order, in exactly one fired batch, in one batch that `Stop`
      discarded, or still pending; and each fired batch holds exactly the plugins whose watched keys meet its events
      and renders them with the state of its last event. */
  lemma EventsAreConserved(plugins: seq<Plugin>, steps: seq<Step>)
    ensures var b := After(plugins, steps);
      && b.accepted == EventsOf(b.segments) + b.pending
      && b.accepted == AcceptedEvents(plugins, steps)
      && forall i | 0 <= i < |b.segments| :: ExactSegment(plugins, b.segments[i])
  {
    Reachable(plugins, steps);
    AcceptedInOrder(plugins, steps);
  }

  /** The notifications that reach some plugin, in order. */
  function AcceptedEvents(plugins: seq<Plugin>, steps: seq<Step>): seq<Event> {
    if steps == [] then []
    else
      var front, last := AcceptedEvents(plugins, steps[..|steps| - 1]), steps[|steps| - 1];
      if last.Notify? && AffectedBy(plugins, last.ev.changed) != {} then front + [last.ev] else front
  }

  lemma {:induction false} AcceptedInOrder(plugins: seq<Plugin>, steps: seq<Step>)
    ensures After(plugins, steps).accepted == AcceptedEvents(plugins, steps)
  {
    if steps != [] {
      AcceptedInOrder(plugins, steps[..|steps| - 1]);
    }
  }

  /** A plugin is in a fired batch exactly when one of its watched keys was notified in one of the batch's events. */
  lemma {:induction false} AffectedByAnyMeans(plugins: seq<Plugin>, events: seq<Event>, q: nat)
    ensures q in AffectedByAny(plugins, events) <==>
            q < |plugins| && exists i, key | 0 <= i < |events| && key in events[i].changed :: key in plugins[q].watched
  {
    if events != [] {
      var front, last := events[..|events| - 1], events[|events| - 1];
      AffectedByAnyMeans(plugins, front, q);
      AffectedMeans(plugins, last.changed);
      if i, key :| 0 <= i < |front| && key in front[i].changed && q < |plugins| && key in plugins[q].watched {
        assert 0 <= i < |events| && key in events[i].changed && key in plugins[q].watched;
      }
      if key :| key in last.changed && q < |plugins| && key in plugins[q].watched {
        assert key in events[|events| - 1].changed && key in plugins[q].watched;
      }
    }
  }

  // ----- the debounce window -----

  /** A timer or callback other than the batch's own timer is about. */
  ghost predicate HasStray(b: Batch) {
    (exists t :: t in b.inflight) || exists t :: t in b.armed && Some(t) != b.timer
  }

  /** The events that are pending in `b` are still pending in a later batch, or `Stop` discarded them. */
  ghost predicate NotFired(b: Batch, c: Batch) {
    var n := |b.segments|;
    if |c.segments| == n then b.pending <= c.pending
    else |c.segments| > n && c.segments[n].Discarded? && b.pending <= c.segments[n].events
  }

  /** Nothing can fire the batch but the expiry of its own timer `t`. */
  ghost predicate Waits(b: Batch, c: Batch, t: nat) {
    NotFired(b, c) && (|c.segments| == |b.segments| ==> c.timer == Some(t) && c.armed == {t} && c.inflight == multiset{})
  }

  lemma {:induction false} WaitsAlong(plugins: seq<Plugin>, b: Batch, t: nat, more: seq<Step>)
    requires Waits(b, b, t) && Expire(t) !in more
    ensures Waits(b, RunFrom(plugins, b, more), t)
  {
    if more != [] {
      hide AffectedBy;
      var front, last := more[..|more| - 1], more[|more| - 1];
      assert last in more;
      WaitsAlong(plugins, b, t, front);
      var c := RunFrom(plugins, b, front);
      assert last != Expire(t);
    }
  }

  /** After any steps, a notification waits for the expiry of its own timer in every continuation exactly when no
      callback is in flight and no forgotten timer is armed at that moment. */
  lemma {:induction false} WindowKeptIffNoStray(plugins: seq<Plugin>, steps: seq<Step>, ev: Event)
    requires AffectedBy(plugins, ev.changed) != {}
    ensures var b := After(plugins, steps);
      var b' := Next(plugins, b, Notify(ev));
      && b'.timer.Some? && b'.pending == b.pending + [ev]
      && ((forall more | Expire(b'.timer.value) !in more :: NotFired(b', RunFrom(plugins, b', more))) <==> !HasStray(b))
  {
    var b := After(plugins, steps);
    var b' := Next(plugins, b, Notify(ev));
    Reachable(plugins, steps);
    AffectedByNothing(plugins, ev.changed);
    hide After;
    if HasStray(b) {
      var more := StrayFires(plugins, b, ev);
    } else {
      forall more | Expire(b'.timer.value) !in more
        ensures NotFired(b', RunFrom(plugins, b', more))
      {
        NoStrayWaits(plugins, b, ev);
        WaitsAlong(plugins, b', b'.timer.value, more);
      }
    }
  }

  lemma AffectedByNothing(plugins: seq<Plugin>, changed: seq<string>)
    ensures changed == [] ==> AffectedBy(plugins, changed) == {}
  {
  }

  lemma NoStrayWaits(plugins: seq<Plugin>, b: Batch, ev: Event)
    requires AffectedBy(plugins, ev.changed) != {} && ev.changed != [] && Inv(plugins, b) && !HasStray(b)
    ensures var b' := Next(plugins, b, Notify(ev)); b'.timer.Some? && Waits(b', b', b'.timer.value)
  {
    hide AffectedBy, AffectedByAny, ExactSegment, EventsOf;
    assert forall t :: t !in b.inflight;
    assert b.inflight == multiset{};
  }

  /** A stray callback or timer fires the batch. */
  lemma StrayFires(plugins: seq<Plugin>, b: Batch, ev: Event) returns (more: seq<Step>)
    requires AffectedBy(plugins, ev.changed) != {} && ev.changed != [] && Inv(plugins, b) && HasStray(b)
    ensures var b' := Next(plugins, b, Notify(ev));
      && b'.timer.Some? && Expire(b'.timer.value) !in more
      && !NotFired(b', RunFrom(plugins, b', more))
  {
    hide AffectedBy, AffectedByAny, ExactSegment, EventsOf;
    var b' := Next(plugins, b, Notify(ev));
    if t :| t in b.inflight {
      more := [Callback(t)];
      OneStep(plugins, b', Callback(t));
    } else {
      var t :| t in b.armed && Some(t) != b.timer;
      more := [Expire(t), Callback(t)];
      TwoSteps(plugins, b', Expire(t), Callback(t));
    }
  }

  lemma OneStep(plugins: seq<Plugin>, b: Batch, step: Step)
    requires Enabled(b, step)
    ensures RunFrom(plugins, b, [step]) == Next(plugins, b, step)
  {
    hide Next;
    assert [step][..0] == [] && RunFrom(plugins, b, []) == b;
  }

  lemma TwoSteps(plugins: seq<Plugin>, b: Batch, s: Step, t: Step)
    requires Enabled(b, s) && Enabled(Next(plugins, b, s), t)
    ensures RunFrom(plugins, b, [s, t]) == Next(plugins, Next(plugins, b, s), t)
  {
    hide Next;
    assert [s, t][..1] == [s];
    OneStep(plugins, b, s);
  }

  /** A forgotten timer comes about when `Reset` hits a timer whose callback has started: the callback drops the
      handle, and the re-armed timer stays. */
  lemma ResetAfterExpiryForgetsTimer(plugins: seq<Plugin>, ev: Event)
    requires AffectedBy(plugins, ev.changed) != {} && ev.changed != []
    ensures var b := After(plugins, [Notify(ev), Expire(0), Notify(ev), Callback(0)]);
            b.queues == {} && b.timer == None && HasStray(b)
  {
    var s4 := [Notify(ev), Expire(0), Notify(ev), Callback(0)];
    var s3 := [Notify(ev), Expire(0), Notify(ev)];
    var s2 := [Notify(ev), Expire(0)];
    var s1 := [Notify(ev)];
    assert s4[..3] == s3 && s3[..2] == s2 && s2[..1] == s1 && s1[..0] == [];
    assert After(plugins, s1[..0]) == EMPTY;
    var b1 := After(plugins, s1);
    assert b1 == Next(plugins, EMPTY, Notify(ev));
    assert b1.timer == Some(0) && b1.armed == {0} && b1.inflight == multiset{};
    var b2 := After(plugins, s2);
    assert b2.timer == Some(0) && b2.armed == {} && b2.inflight == multiset{0};
    var b3 := After(plugins, s3);
    assert b3.timer == Some(0) && b3.armed == {0} && b3.inflight == multiset{0};
    assert 0 in After(plugins, s4).armed;
  }
}
