/** The observer itself: registry, shared batch and rendering in dispatch order, tied to the machine of batches and render
    calls. */
module ObserverCoalescer {
  import opened Common
  import opened ObserverRegistry
  import opened ObserverBatch
  import opened ObserverRendering

  class Observer {
    const registry: Registry
    var queues: set<nat>
    var pending: seq<Event>
    var timer: Option<nat>
    var armed: set<nat>
    var inflight: multiset<nat>
    var nextTimer: nat
    var jobs: seq<Job>
    var log: seq<Render>
    ghost var accepted: seq<Event>
    ghost var segments: seq<Segment>

    ghost function BatchView(): Batch
      reads this
    {
      Batch(queues, pending, timer, armed, inflight, nextTimer, accepted, segments)
    }

    ghost function View(): Machine
      reads this
    {
      Machine(BatchView(), jobs, log)
    }

    ghost predicate Valid()
      reads this, registry
    {
      registry.Valid() && Sound(registry.plugins, View())
    }

    constructor (registry: Registry)
      requires registry.Valid()
      ensures Valid() && this.registry == registry && View() == IDLE
    {
      this.registry := registry;
      queues, pending, timer, armed, inflight, nextTimer := {}, [], None, {}, multiset{}, 0;
      jobs, log, accepted, segments := [], [], [], [];
      new;
      IdleIsSound(registry.plugins);
    }

    method Notify(changed: seq<string>, state: int)
      requires Valid()
      modifies this
      ensures Valid()
      ensures View() == MoveTo(registry.plugins, old(View()), Batching(Step.Notify(Event(changed, state)), []))
    {
      hide Sound;
      SoundKept(registry.plugins, View(), Batching(Step.Notify(Event(changed, state)), []));
      if changed == [] {
        return;
      }
      var affected := registry.Affected(changed);
      if affected == [] {
        assert AffectedBy(registry.plugins, changed) == {};
        return;
      }
      assert affected[0] in AffectedBy(registry.plugins, changed);
      NotifyBatch(affected, Event(changed, state));
      assert queues == old(queues) + AffectedBy(registry.plugins, changed);
    }

    /** Adds the plugins and the event, and starts or restarts the timer. */
    method NotifyBatch(affected: seq<nat>, ev: Event)
      modifies this
      ensures forall q: nat :: q in queues <==> q in old(queues) || q in affected
      ensures var t := if old(timer).Some? then old(timer).value else old(nextTimer);
        BatchView() == old(BatchView()).(queues := queues, pending := old(pending) + [ev], accepted := old(accepted) + [ev],
                                         timer := Some(t), armed := old(armed) + {t},
                                         nextTimer := if old(timer).Some? then old(nextTimer) else old(nextTimer) + 1)
      ensures jobs == old(jobs) && log == old(log)
    {
      for i := 0 to |affected|
        invariant forall q: nat :: q in queues <==> q in old(queues) || q in affected[..i]
        invariant BatchView() == old(BatchView()).(queues := queues) && jobs == old(jobs) && log == old(log)
      {
        queues := queues + {affected[i]};
      }
      assert affected[..|affected|] == affected;
      pending, accepted := pending + [ev], accepted + [ev];
      if timer.Some? {
        armed := armed + {timer.value};
      } else {
        timer, armed, nextTimer := Some(nextTimer), armed + {nextTimer}, nextTimer + 1;
      }
    }

    /** A timer expires and its callback starts. */
    method Expire(t: nat)
      requires Valid() && t in armed
      modifies this
      ensures Valid() && View() == MoveTo(registry.plugins, old(View()), Batching(Step.Expire(t), []))
    {
      hide Sound;
      SoundKept(registry.plugins, View(), Batching(Step.Expire(t), []));
      armed, inflight := armed - {t}, inflight + multiset{t};
    }

    /** The callback: drains the batch under the lock and sorts its plugins. The render calls follow one by one. */
    method FireBatch(t: nat) returns (order: seq<nat>)
      requires Valid() && t in inflight
      modifies this
      ensures Valid() && CanMove(registry.plugins, old(View()), Batching(Callback(t), order))
      ensures View() == MoveTo(registry.plugins, old(View()), Batching(Callback(t), order))
    {
      hide Sound, IsDispatchOrder, AffectedByAny;
      ghost var m := View();
      DrainFacts(registry.plugins, m);
      var affected, events := queues, pending;
      queues, pending, timer, inflight := {}, [], None, inflight - multiset{t};
      order := [];
      if affected != {} && events != [] {
        var latest := LatestState(events);
        order := SortedByPriority(registry.plugins, affected);
        jobs := jobs + [Job(order, latest, 0)];
        segments := segments + [Fired(affected, latest, events)];
      }
      SoundKept(registry.plugins, m, Batching(Callback(t), order));
    }

    /** The next render call of a fired batch. */
    method RenderNext(j: nat)
      requires Valid() && j < |jobs| && jobs[j].done < |jobs[j].order|
      modifies this`jobs, this`log
      ensures Valid() && View() == MoveTo(registry.plugins, old(View()), Rendering(j))
    {
      hide Sound;
      SoundKept(registry.plugins, View(), Rendering(j));
      var job := jobs[j];
      log := log + [Render(j, job.order[job.done], job.state)];
      jobs := jobs[j := job.(done := job.done + 1)];
    }

    method Stop()
      requires Valid()
      modifies this
      ensures Valid() && View() == MoveTo(registry.plugins, old(View()), Batching(Step.Stop, []))
    {
      hide Sound;
      SoundKept(registry.plugins, View(), Batching(Step.Stop, []));
      if timer.Some? {
        armed := armed - {timer.value};
        timer := None;
      }
      segments := segments + [Discarded(pending)];
      queues, pending := {}, [];
    }

    /** One possible move. A callback sorts its plugins into the only dispatch order. */
    method Perform(move: Move)
      requires Valid() && CanMove(registry.plugins, View(), move)
      modifies this
      ensures Valid() && View() == MoveTo(registry.plugins, old(View()), move)
    {
      hide Valid;
      match move {
        case Rendering(j) => RenderNext(j);
        case Batching(step, given) =>
          match step {
            case Notify(ev) => Notify(ev.changed, ev.state);
            case Expire(t) => Expire(t);
            case Stop => Stop();
            case Callback(t) =>
              ghost var m := View();
              var order := FireBatch(t);
              if Fires(m.batch, step) {
                DispatchOrderIsUnique(registry.plugins, m.batch.queues, given, order);
              }
          }
      }
    }

    /** Any interleaving of notifications, expiries, callbacks, render calls and stops: the observer follows the machine. */
    method Run(moves: seq<Move>)
      requires Valid() && View() == IDLE
      modifies this
      ensures Valid() && View() == Played(registry.plugins, moves)
    {
      for i := 0 to |moves|
        invariant Valid() && View() == Played(registry.plugins, moves[..i])
      {
        hide Valid, MoveTo;
        assert moves[..i + 1][..i] == moves[..i];
        var now := IsPossible(moves[i]);
        if now {
          Perform(moves[i]);
        }
      }
      assert moves[..|moves|] == moves;
    }

    /** Whether a move is possible; the order given with a firing callback is compared with the sorted one. */
    method IsPossible(move: Move) returns (possible: bool)
      requires Valid()
      ensures possible == CanMove(registry.plugins, View(), move)
    {
      hide Sound, IsDispatchOrder;
      match move {
        case Rendering(j) => possible := j < |jobs| && jobs[j].done < |jobs[j].order|;
        case Batching(step, given) =>
          match step {
            case Notify(_) => possible := true;
            case Stop => possible := true;
            case Expire(t) => possible := t in armed;
            case Callback(t) =>
              possible := t in inflight;
              if possible && queues != {} && pending != [] {
                DrainFacts(registry.plugins, View());
                var order := SortedByPriority(registry.plugins, queues);
                possible := given == order;
                if given != order && IsDispatchOrder(registry.plugins, queues, given) {
                  DispatchOrderIsUnique(registry.plugins, queues, given, order);
                }
              }
          }
      }
    }
  }

  lemma DrainFacts(plugins: seq<Plugin>, m: Machine)
    requires Sound(plugins, m)
    ensures m.batch.queues == AffectedByAny(plugins, m.batch.pending)
    ensures forall q | q in m.batch.queues :: q < |plugins|
  {
    forall q | q in m.batch.queues
      ensures q < |plugins|
    {
      AffectedByAnyMeans(plugins, m.batch.pending, q);
    }
  }

  /** The loop that keeps the state of the last event. */
  method LatestState(events: seq<Event>) returns (latest: int)
    requires events != []
    ensures latest == events[|events| - 1].state
  {
    latest := 0;
    for i := 0 to |events|
      invariant i == |events| ==> latest == events[|events| - 1].state
    {
      if i == |events| - 1 {
        latest := events[i].state;
      }
    }
  }
}
