/** Rendering of fired batches: a callback drains the batch under the lock and then renders its plugins one by one without
    it, so that the renderings of two batches can interleave. */
module ObserverRendering {
  import opened Common
  import opened ObserverRegistry
  import opened ObserverBatch

  /** A fired batch: its plugins in dispatch order, the state they get, and how many were rendered. */
  datatype Job = Job(order: seq<nat>, state: int, done: nat)

  /** A render call, for the batch of that number. */
  datatype Render = Render(batch: nat, plugin: nat, state: int)

  datatype Machine = Machine(batch: Batch, jobs: seq<Job>, log: seq<Render>)

  const IDLE := Machine(EMPTY, [], [])

  /** A step of the batch machine, with the dispatch order that a firing callback sorts its plugins into; or the next
      render call of a batch. */
  datatype Move = Batching(step: Step, order: seq<nat>) | Rendering(job: nat)

  predicate Fires(b: Batch, step: Step) {
    step.Callback? && b.queues != {} && b.pending != []
  }

  ghost predicate CanMove(plugins: seq<Plugin>, m: Machine, move: Move) {
    match move
    case Batching(step, order) => Enabled(m.batch, step) && (Fires(m.batch, step) ==> IsDispatchOrder(plugins, m.batch.queues, order))
    case Rendering(j) => j < |m.jobs| && m.jobs[j].done < |m.jobs[j].order|
  }

  function MoveTo(plugins: seq<Plugin>, m: Machine, move: Move): Machine
    requires move.Rendering? ==> move.job < |m.jobs| && m.jobs[move.job].done < |m.jobs[move.job].order|
  {
    match move
    case Batching(step, order) =>
      m.(batch := Next(plugins, m.batch, step),
         jobs := if Fires(m.batch, step) then m.jobs + [Job(order, m.batch.pending[|m.batch.pending| - 1].state, 0)] else m.jobs)
    case Rendering(j) =>
      var job := m.jobs[j];
      m.(jobs := m.jobs[j := job.(done := job.done + 1)], log := m.log + [Render(j, job.order[job.done], job.state)])
  }

  /** The machine after some moves; a move that is not possible does nothing. */
  ghost function Played(plugins: seq<Plugin>, moves: seq<Move>): Machine {
    if moves == [] then IDLE
    else
      var m, last := Played(plugins, moves[..|moves| - 1]), moves[|moves| - 1];
      if CanMove(plugins, m, last) then MoveTo(plugins, m, last) else m
  }

  // ----- what was rendered -----

  function FiredOf(segments: seq<Segment>): seq<Segment> {
    if segments == [] then []
    else
      var last := segments[|segments| - 1];
      FiredOf(segments[..|segments| - 1]) + if last.Fired? then [last] else []
  }

  lemma FiredOfAppend(segments: seq<Segment>, s: Segment)
    ensures FiredOf(segments + [s]) == FiredOf(segments) + if s.Fired? then [s] else []
  {
    assert (segments + [s])[..|segments|] == segments;
  }

  /** The plugins rendered for one batch, in order. */
  function RenderedFor(log: seq<Render>, j: nat): seq<nat> {
    if log == [] then []
    else
      var last := log[|log| - 1];
      RenderedFor(log[..|log| - 1], j) + if last.batch == j then [last.plugin] else []
  }

  /** The job of a fired batch renders exactly the plugins whose watched keys meet one of its events, each once in dispatch
      order, with the state of its last event. */
  ghost predicate IsJobOf(plugins: seq<Plugin>, s: Segment, job: Job) {
    && s.Fired? && s.events != []
    && IsDispatchOrder(plugins, AffectedByAny(plugins, s.events), job.order)
    && job.state == s.events[|s.events| - 1].state
    && job.done <= |job.order|
  }

  ghost predicate JobsSound(plugins: seq<Plugin>, fired: seq<Segment>, jobs: seq<Job>) {
    |jobs| == |fired| && forall j | 0 <= j < |jobs| :: IsJobOf(plugins, fired[j], jobs[j])
  }

  /** What was rendered for each batch is the beginning of its order. */
  ghost predicate LogSound(jobs: seq<Job>, log: seq<Render>) {
    && (forall i | 0 <= i < |log| :: log[i].batch < |jobs| && log[i].state == jobs[log[i].batch].state)
    && (forall j: nat | j < |jobs| :: jobs[j].done <= |jobs[j].order| && RenderedFor(log, j) == jobs[j].order[..jobs[j].done])
    && (forall j: nat | j >= |jobs| :: RenderedFor(log, j) == [])
  }

  ghost predicate Sound(plugins: seq<Plugin>, m: Machine) {
    Inv(plugins, m.batch) && JobsSound(plugins, FiredOf(m.batch.segments), m.jobs) && LogSound(m.jobs, m.log)
  }

  lemma RenderedForAppend(log: seq<Render>, r: Render)
    ensures forall j: nat :: RenderedFor(log + [r], j) == RenderedFor(log, j) + if r.batch == j then [r.plugin] else []
  {
    assert (log + [r])[..|log|] == log;
  }

  lemma RenderKeepsLog(jobs: seq<Job>, log: seq<Render>, j: nat)
    requires LogSound(jobs, log) && j < |jobs| && jobs[j].done < |jobs[j].order|
    ensures var job := jobs[j];
      LogSound(jobs[j := job.(done := job.done + 1)], log + [Render(j, job.order[job.done], job.state)])
  {
    var job := jobs[j];
    RenderedForAppend(log, Render(j, job.order[job.done], job.state));
    assert job.order[..job.done + 1] == job.order[..job.done] + [job.order[job.done]];
  }

  lemma DrainKeepsJobs(plugins: seq<Plugin>, b: Batch, order: seq<nat>, jobs: seq<Job>, log: seq<Render>)
    requires b.queues == AffectedByAny(plugins, b.pending) && b.pending != [] && IsDispatchOrder(plugins, b.queues, order)
    requires JobsSound(plugins, FiredOf(b.segments), jobs) && LogSound(jobs, log)
    ensures var state := b.pending[|b.pending| - 1].state;
      && JobsSound(plugins, FiredOf(b.segments + [Fired(b.queues, state, b.pending)]), jobs + [Job(order, state, 0)])
      && LogSound(jobs + [Job(order, state, 0)], log)
  {
    hide IsDispatchOrder, AffectedByAny, FiredOf;
    FiredOfAppend(b.segments, Fired(b.queues, b.pending[|b.pending| - 1].state, b.pending));
  }

  lemma SoundKept(plugins: seq<Plugin>, m: Machine, move: Move)
    requires Sound(plugins, m) && CanMove(plugins, m, move)
    ensures Sound(plugins, MoveTo(plugins, m, move))
  {
    hide IsDispatchOrder, AffectedByAny, AffectedBy, FiredOf, EventsOf, ExactSegment, LogSound;
    match move
    case Rendering(j) =>
      LogFacts(m.jobs, m.log);
      RenderKeepsLog(m.jobs, m.log, j);
    case Batching(step, order) =>
      InvKept(plugins, m.batch, step);
      if Fires(m.batch, step) {
        DrainKeepsJobs(plugins, m.batch, order, m.jobs, m.log);
      } else if step.Stop? {
        FiredOfAppend(m.batch.segments, Discarded(m.batch.pending));
        assert FiredOf(m.batch.segments + [Discarded(m.batch.pending)]) == FiredOf(m.batch.segments);
      }
  }

  lemma LogFacts(jobs: seq<Job>, log: seq<Render>)
    requires LogSound(jobs, log)
    ensures forall j: nat | j < |jobs| :: jobs[j].done <= |jobs[j].order|
  {
  }

  /** In every interleaving: each fired batch renders exactly the plugins its events affect, each once, in dispatch order
      and with the state of its last event; at any time a beginning of that was rendered. */
  lemma {:induction false} PlayedIsSound(plugins: seq<Plugin>, moves: seq<Move>)
    ensures Sound(plugins, Played(plugins, moves))
  {
    if moves == [] {
      IdleIsSound(plugins);
    } else {
      hide Sound, MoveTo;
      var m, last := Played(plugins, moves[..|moves| - 1]), moves[|moves| - 1];
      PlayedIsSound(plugins, moves[..|moves| - 1]);
      if CanMove(plugins, m, last) {
        SoundKept(plugins, m, last);
      }
    }
  }

  /** In every interleaving, of two render calls of one batch the earlier is for the plugin with the lower priority value
      (100 if unset), and for the one registered first if these are equal. */
  lemma RenderedInPriorityOrder(plugins: seq<Plugin>, moves: seq<Move>, i: nat, j: nat)
    requires var log := Played(plugins, moves).log; i < j < |log| && log[i].batch == log[j].batch
    ensures var log := Played(plugins, moves).log;
      var q, q' := log[i].plugin, log[j].plugin;
      && q < |plugins| && q' < |plugins|
      && var p := if plugins[q].meta.priority == 0 then 100 else plugins[q].meta.priority;
         var p' := if plugins[q'].meta.priority == 0 then 100 else plugins[q'].meta.priority;
         p < p' || (p == p' && q < q')
  {
    var m := Played(plugins, moves);
    PlayedIsSound(plugins, moves);
    var b := m.log[i].batch;
    var order := m.jobs[b].order;
    assert IsJobOf(plugins, FiredOf(m.batch.segments)[b], m.jobs[b]);
    DispatchOrderMeans(plugins, AffectedByAny(plugins, FiredOf(m.batch.segments)[b].events), order);
    var x, y := PositionsIn(m.log, b, i, j);
    assert RenderedFor(m.log, b) == order[..m.jobs[b].done];
    assert order[x] == m.log[i].plugin && order[y] == m.log[j].plugin;
    assert RunsBefore(plugins, order[x], order[y]);
  }

  /** Where two render calls of a batch stand among all of that batch. */
  lemma {:induction false} PositionsIn(log: seq<Render>, b: nat, i: nat, j: nat) returns (x: nat, y: nat)
    requires i < j < |log| && log[i].batch == log[j].batch == b
    ensures x < y < |RenderedFor(log, b)| && RenderedFor(log, b)[x] == log[i].plugin && RenderedFor(log, b)[y] == log[j].plugin
  {
    if j < |log| - 1 {
      x, y := PositionsIn(log[..|log| - 1], b, i, j);
    } else {
      x := PositionIn(log[..|log| - 1], b, i);
      y := |RenderedFor(log, b)| - 1;
    }
  }

  lemma {:induction false} PositionIn(log: seq<Render>, b: nat, i: nat) returns (x: nat)
    requires i < |log| && log[i].batch == b
    ensures x < |RenderedFor(log, b)| && RenderedFor(log, b)[x] == log[i].plugin
  {
    if i < |log| - 1 {
      x := PositionIn(log[..|log| - 1], b, i);
    } else {
      x := |RenderedFor(log, b)| - 1;
    }
  }

  /** When all batches are finished, a plugin was rendered for a batch exactly if some event of the batch changed a key that
      it watches, and was given the state of the batch's last event. */
  lemma RenderedExactly(plugins: seq<Plugin>, moves: seq<Move>, b: nat, q: nat)
    requires Finished(Played(plugins, moves)) && b < |Played(plugins, moves).jobs|
    ensures var m := Played(plugins, moves);
      && b < |FiredOf(m.batch.segments)|
      && var events := FiredOf(m.batch.segments)[b].events;
         && events != []
         && ((exists i | 0 <= i < |m.log| :: m.log[i].batch == b && m.log[i].plugin == q) <==>
             q < |plugins| && exists n, key | 0 <= n < |events| && key in events[n].changed :: key in plugins[q].watched)
         && forall i | 0 <= i < |m.log| && m.log[i].batch == b :: m.log[i].state == events[|events| - 1].state
  {
    var m := Played(plugins, moves);
    PlayedIsSound(plugins, moves);
    var s := FiredOf(m.batch.segments)[b];
    assert IsJobOf(plugins, s, m.jobs[b]);
    AffectedByAnyMeans(plugins, s.events, q);
    assert m.jobs[b].order[..m.jobs[b].done] == m.jobs[b].order;
    assert q in m.jobs[b].order <==> q in AffectedByAny(plugins, s.events);
    if q in RenderedFor(m.log, b) {
      var at := RenderCall(m.log, b, q);
    }
    if i :| 0 <= i < |m.log| && m.log[i].batch == b && m.log[i].plugin == q {
      var x := PositionIn(m.log, b, i);
    }
  }

  lemma IdleIsSound(plugins: seq<Plugin>)
    ensures Sound(plugins, IDLE)
  {
    assert RunFrom(plugins, EMPTY, []) == EMPTY;
    Reachable(plugins, []);
  }

  // ----- order across batches -----

  ghost predicate Finished(m: Machine) {
    forall j | 0 <= j < |m.jobs| :: m.jobs[j].done == |m.jobs[j].order|
  }

  /** Render calls of an earlier batch come before those of a later one. */
  ghost predicate InBatchOrder(log: seq<Render>) {
    forall i, j | 0 <= i < j < |log| :: log[i].batch <= log[j].batch
  }

  /** A move renders for a batch while an earlier one is not finished. */
  ghost predicate Overtakes(plugins: seq<Plugin>, moves: seq<Move>, n: nat)
    requires n < |moves|
  {
    var m := Played(plugins, moves[..n]);
    && moves[n].Rendering? && CanMove(plugins, m, moves[n])
    && exists a: nat | a < moves[n].job :: m.jobs[a].done < |m.jobs[a].order|
  }

  ghost predicate NoOverlap(plugins: seq<Plugin>, moves: seq<Move>) {
    forall n: nat | n < |moves| :: !Overtakes(plugins, moves, n)
  }

  /** Nothing was rendered for a batch while an earlier one has plugins left. */
  ghost predicate Front(m: Machine) {
    forall i, a | 0 <= i < |m.log| && 0 <= a < m.log[i].batch && a < |m.jobs| :: m.jobs[a].done == |m.jobs[a].order|
  }

  lemma {:induction false} NoOverlapKeepsOrder(plugins: seq<Plugin>, moves: seq<Move>)
    requires NoOverlap(plugins, moves)
    ensures InBatchOrder(Played(plugins, moves).log) && Front(Played(plugins, moves))
  {
    if moves != [] {
      var front, last := moves[..|moves| - 1], moves[|moves| - 1];
      assert forall n: nat | n < |front| :: front[..n] == moves[..n];
      assert forall n: nat | n < |front| :: Overtakes(plugins, front, n) == Overtakes(plugins, moves, n);
      NoOverlapKeepsOrder(plugins, front);
      PlayedIsSound(plugins, front);
      var m := Played(plugins, front);
      assert !Overtakes(plugins, moves, |front|);
      if CanMove(plugins, m, last) {
        OrderKept(plugins, m, last);
      }
    }
  }

  lemma OrderKept(plugins: seq<Plugin>, m: Machine, move: Move)
    requires Sound(plugins, m) && CanMove(plugins, m, move) && InBatchOrder(m.log) && Front(m)
    requires move.Rendering? ==> forall a: nat | a < move.job :: m.jobs[a].done == |m.jobs[a].order|
    ensures InBatchOrder(MoveTo(plugins, m, move).log) && Front(MoveTo(plugins, m, move))
  {
    hide Inv, Next, JobsSound, RenderedFor, IsDispatchOrder;
  }

  /** A render call that overtakes an unfinished batch is out of order once that batch is finished. */
  lemma {:induction false} OvertakingShows(plugins: seq<Plugin>, moves: seq<Move>, n: nat)
    requires n < |moves| && Overtakes(plugins, moves, n)
    ensures var m, m1 := Played(plugins, moves), Played(plugins, moves[..n + 1]);
      && m1.log <= m.log && |m1.jobs| <= |m.jobs| && m1.log != [] && m1.log[|m1.log| - 1].batch == moves[n].job
      && forall a: nat | a < |m1.jobs| ::
           && m.jobs[a].order == m1.jobs[a].order && m1.jobs[a].done <= m.jobs[a].done
           && (m1.jobs[a].done < m.jobs[a].done ==> exists i | |m1.log| <= i < |m.log| :: m.log[i].batch == a)
  {
    if n + 1 == |moves| {
      assert moves[..n + 1] == moves;
    } else {
      var front, last := moves[..|moves| - 1], moves[|moves| - 1];
      assert front[..n] == moves[..n] && front[..n + 1] == moves[..n + 1];
      OvertakingShows(plugins, front, n);
      var m := Played(plugins, front);
      if CanMove(plugins, m, last) {
        LaterMove(plugins, m, last);
      }
    }
  }

  lemma LaterMove(plugins: seq<Plugin>, m: Machine, move: Move)
    requires CanMove(plugins, m, move)
    ensures var m' := MoveTo(plugins, m, move);
      && m.log <= m'.log && |m.jobs| <= |m'.jobs|
      && forall a: nat | a < |m.jobs| ::
           && m'.jobs[a].order == m.jobs[a].order && m.jobs[a].done <= m'.jobs[a].done
           && (m.jobs[a].done < m'.jobs[a].done ==> m'.log == m.log + [m'.log[|m.log|]] && m'.log[|m.log|].batch == a)
  {
    hide Next, IsDispatchOrder;
  }

  /** When all batches are finished, every plugin of an earlier batch was rendered before every plugin of a later one
      exactly if no two batches overlapped. */
  lemma {:induction false} BatchOrderIffNoOverlap(plugins: seq<Plugin>, moves: seq<Move>)
    requires Finished(Played(plugins, moves))
    ensures InBatchOrder(Played(plugins, moves).log) <==> NoOverlap(plugins, moves)
  {
    if NoOverlap(plugins, moves) {
      NoOverlapKeepsOrder(plugins, moves);
    } else {
      var n: nat :| n < |moves| && Overtakes(plugins, moves, n);
      OvertakingShows(plugins, moves, n);
      var m0, m1, m := Played(plugins, moves[..n]), Played(plugins, moves[..n + 1]), Played(plugins, moves);
      var a: nat :| a < moves[n].job && m0.jobs[a].done < |m0.jobs[a].order|;
      assert moves[..n + 1][..n] == moves[..n];
      assert m1.jobs[a] == m0.jobs[a];
      var i :| |m1.log| <= i < |m.log| && m.log[i].batch == a;
      assert m.log[|m1.log| - 1] == m1.log[|m1.log| - 1];
    }
  }

  /** Without overlap the last render call of a plugin is that of the last batch it belongs to, with that batch's state. */
  lemma {:induction false} LastRenderIsLatest(plugins: seq<Plugin>, moves: seq<Move>, i: nat, j: nat)
    requires NoOverlap(plugins, moves) && Finished(Played(plugins, moves))
    requires var m := Played(plugins, moves);
      && i < |m.log| && j < |m.jobs| && m.log[i].plugin in m.jobs[j].order
      && forall later | i < later < |m.log| :: m.log[later].plugin != m.log[i].plugin
    ensures var m := Played(plugins, moves);
      j <= m.log[i].batch < |m.jobs| && m.log[i].state == m.jobs[m.log[i].batch].state
  {
    var m, q := Played(plugins, moves), Played(plugins, moves).log[i].plugin;
    NoOverlapKeepsOrder(plugins, moves);
    PlayedIsSound(plugins, moves);
    assert m.jobs[j].order[..m.jobs[j].done] == m.jobs[j].order;
    assert q in RenderedFor(m.log, j);
    var at := RenderCall(m.log, j, q);
  }

  lemma {:induction false} RenderCall(log: seq<Render>, j: nat, q: nat) returns (at: nat)
    requires q in RenderedFor(log, j)
    ensures at < |log| && log[at].batch == j && log[at].plugin == q
  {
    var last := log[|log| - 1];
    if last.batch == j && last.plugin == q {
      at := |log| - 1;
    } else {
      at := RenderCall(log[..|log| - 1], j, q);
    }
  }

  lemma OneMoreMove(plugins: seq<Plugin>, moves: seq<Move>, move: Move)
    requires CanMove(plugins, Played(plugins, moves), move)
    ensures Played(plugins, moves + [move]) == MoveTo(plugins, Played(plugins, moves), move)
  {
    assert (moves + [move])[..|moves|] == moves;
  }

  /** Two batches of one plugin whose renderings overlap: the plugin is last rendered with the older state. */
  lemma OverlapRendersOldState(plugins: seq<Plugin>, changed: seq<string>, older: int, newer: int)
    returns (moves: seq<Move>)
    requires AffectedBy(plugins, changed) == {0} && |plugins| == 1 && changed != []
    ensures Finished(Played(plugins, moves)) && Played(plugins, moves).log == [Render(1, 0, newer), Render(0, 0, older)]
  {
    hide AffectedBy;
    var ev1, ev2 := Event(changed, older), Event(changed, newer);
    assert IsDispatchOrder(plugins, {0}, [0]);
    var first := FireOne(plugins, [], ev1, 0);
    var both := FireOne(plugins, first, ev2, 1);
    OneMoreMove(plugins, both, Rendering(1));
    OneMoreMove(plugins, both + [Rendering(1)], Rendering(0));
    moves := both + [Rendering(1)] + [Rendering(0)];
  }

  predicate Idle(b: Batch, nextTimer: nat) {
    b.queues == {} && b.pending == [] && b.timer == None && b.armed == {} && b.inflight == multiset{} && b.nextTimer == nextTimer
  }

  /** One event, its expiry and its callback. */
  lemma OneBatch(plugins: seq<Plugin>, b: Batch, ev: Event, t: nat)
    requires AffectedBy(plugins, ev.changed) == {0} && ev.changed != [] && Idle(b, t)
    ensures var b1 := Next(plugins, b, Step.Notify(ev));
      var b2 := Next(plugins, b1, Step.Expire(t));
      && Enabled(b1, Step.Expire(t)) && !Fires(b, Step.Notify(ev)) && !Fires(b1, Step.Expire(t))
      && Enabled(b2, Step.Callback(t)) && b2.queues == {0} && b2.pending == [ev]
      && Idle(Next(plugins, b2, Step.Callback(t)), t + 1)
  {
    hide AffectedBy;
    var b1 := Next(plugins, b, Step.Notify(ev));
    assert b1.armed == {t} && b1.queues == {0} && b1.pending == [ev] && b1.inflight == multiset{};
    var b2 := Next(plugins, b1, Step.Expire(t));
    assert b2.armed == {} && b2.inflight == multiset{t};
    assert b2.inflight - multiset{t} == multiset{};
  }

  lemma FireOne(plugins: seq<Plugin>, moves: seq<Move>, ev: Event, t: nat) returns (longer: seq<Move>)
    requires AffectedBy(plugins, ev.changed) == {0} && ev.changed != [] && IsDispatchOrder(plugins, {0}, [0])
    requires Idle(Played(plugins, moves).batch, t)
    ensures var m, m' := Played(plugins, moves), Played(plugins, longer);
      m'.jobs == m.jobs + [Job([0], ev.state, 0)] && m'.log == m.log && Idle(m'.batch, t + 1)
  {
    hide AffectedBy, IsDispatchOrder, Next, Idle, Played;
    var notify, expire, callback := Batching(Step.Notify(ev), []), Batching(Step.Expire(t), []), Batching(Step.Callback(t), [0]);
    OneBatch(plugins, Played(plugins, moves).batch, ev, t);
    OneMoreMove(plugins, moves, notify);
    OneMoreMove(plugins, moves + [notify], expire);
    longer := moves + [notify] + [expire] + [callback];
    OneMoreMove(plugins, moves + [notify] + [expire], callback);
  }
}
