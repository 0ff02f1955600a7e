/** The alert dispatcher and its bounded mail queue with a pool of workers. */
module MailPool {

  const CAPACITY := 256

  datatype Job = Job(to: seq<string>, subject: string, body: string, ruleName: string, nodeID: string, event: string)

  datatype Fate = Dropped | Queued | Taken(worker: nat)

  /** The history of the queue. Jobs are numbered in the order in which they are offered. */
  datatype Ledger = Ledger(offered: seq<Job>, fates: seq<Fate>, waiting: seq<nat>, served: seq<nat>) {

    function Accepted(): seq<nat> {
      served + waiting
    }

    function Offer(job: Job): Ledger {
      if |waiting| < CAPACITY
      then Ledger(offered + [job], fates + [Queued], waiting + [|offered|], served)
      else Ledger(offered + [job], fates + [Dropped], waiting, served)
    }

    function Take(worker: nat): Ledger
      requires waiting != [] && waiting[0] < |fates|
    {
      Ledger(offered, fates[waiting[0] := Taken(worker)], waiting[1..], served + [waiting[0]])
    }

    /** Every job has one fate, which says where its number is; the numbers served and then the numbers
        waiting increase, so jobs leave in the order in which they were accepted. */
    ghost predicate Valid() {
      && |fates| == |offered|
      && |waiting| <= CAPACITY
      && Increasing(Accepted())
      && (forall i | 0 <= i < |Accepted()| :: Accepted()[i] < |offered|)
      && (forall n | 0 <= n < |offered| :: (fates[n] == Queued <==> n in waiting) && (fates[n].Taken? <==> n in served))
    }
  }

  const FRESH := Ledger([], [], [], [])

  ghost predicate Increasing(s: seq<nat>) {
    forall i, j | 0 <= i < j < |s| :: s[i] < s[j]
  }

  lemma OfferKeepsValid(l: Ledger, job: Job)
    requires l.Valid()
    ensures l.Offer(job).Valid()
  {
    var l', n := l.Offer(job), |l.offered|;
    if |l.waiting| < CAPACITY {
      assert l'.Accepted() == l.Accepted() + [n];
    }
    assert n !in l.served && n !in l.waiting by {
      assert forall i | 0 <= i < |l.served| :: l.served[i] == l.Accepted()[i];
      assert forall i | 0 <= i < |l.waiting| :: l.waiting[i] == l.Accepted()[|l.served| + i];
    }
  }

  lemma TakeKeepsValid(l: Ledger, worker: nat)
    requires l.Valid() && l.waiting != []
    ensures l.waiting[0] < |l.fates|
    ensures l.Take(worker).Valid()
  {
    var head := l.waiting[0];
    assert l.Accepted()[|l.served|] == head;
    var l' := l.Take(worker);
    assert l'.Accepted() == l.Accepted() && l.waiting == [head] + l'.waiting;
    assert forall i | 0 <= i < |l'.waiting| :: l'.waiting[i] == l.Accepted()[|l.served| + 1 + i];
  }

  datatype Step = Offering(job: Job) | Taking(worker: nat)

  /** Any schedule of offers and workers; a worker that finds the queue empty waits. */
  ghost function After(steps: seq<Step>): (l: Ledger)
    ensures l.Valid()
  {
    if steps == [] then FRESH
    else
      var l := After(steps[..|steps| - 1]);
      match steps[|steps| - 1]
      case Offering(job) => OfferKeepsValid(l, job); l.Offer(job)
      case Taking(worker) => if l.waiting == [] then l else TakeKeepsValid(l, worker); l.Take(worker)
  }

  /** In every schedule: a job is exactly one of dropped, queued and taken by one worker, the queue stays within
      its capacity, and a job taken later was offered later. */
  lemma EveryJobHasOneFate(steps: seq<Step>)
    ensures var l := After(steps);
      && |l.waiting| <= 256
      && (forall i, j | 0 <= i < j < |l.served| :: l.served[i] < l.served[j])
      && (forall i, j | 0 <= i < |l.served| && 0 <= j < |l.waiting| :: l.served[i] < l.waiting[j])
      && (forall n | 0 <= n < |l.offered| ::
            match l.fates[n]
            case Dropped => n !in l.waiting && n !in l.served
            case Queued => n in l.waiting && n !in l.served
            case Taken(_) => n !in l.waiting && n in l.served)
  {
    var l := After(steps);
    var all := l.Accepted();
    forall i, j | 0 <= i < j < |l.served|
      ensures l.served[i] < l.served[j]
    {
      assert all[i] == l.served[i] && all[j] == l.served[j];
    }
    forall i, j | 0 <= i < |l.served| && 0 <= j < |l.waiting|
      ensures l.served[i] < l.waiting[j]
    {
      assert all[i] == l.served[i] && all[|l.served| + j] == l.waiting[j];
    }
  }

  /** After any schedule, the next job offered is dropped exactly if 256 jobs are waiting, and else waits last. */
  lemma DroppedIffFull(steps: seq<Step>, job: Job)
    ensures var l, l' := After(steps), After(steps + [Offering(job)]);
      && l'.offered == l.offered + [job] && l'.served == l.served
      && (if |l.waiting| == 256 then l'.fates == l.fates + [Dropped] && l'.waiting == l.waiting
          else l'.fates == l.fates + [Queued] && l'.waiting == l.waiting + [|l.offered|])
  {
    assert (steps + [Offering(job)])[..|steps|] == steps;
  }

  /** After any schedule, a worker gets the job that waited longest, if there is one. */
  lemma WorkerGetsTheFirst(steps: seq<Step>, worker: nat)
    ensures var l, l' := After(steps), After(steps + [Taking(worker)]);
      if l.waiting == [] then l' == l
      else
        && l'.offered == l.offered && l.waiting == [l.waiting[0]] + l'.waiting && l'.served == l.served + [l.waiting[0]]
        && |l'.fates| == |l.fates|
        && forall n | 0 <= n < |l.fates| :: l'.fates[n] == if n == l.waiting[0] then Taken(worker) else l.fates[n]
  {
    assert (steps + [Taking(worker)])[..|steps|] == steps;
  }

  /** The dispatcher after `Start`. */
  class Dispatcher {
    const hasWebhook: bool
    const mailerConfigured: bool
    var webhooks: seq<(string, string)> // event and node of every webhook delivery
    var queue: seq<Job>
    ghost var ledger: Ledger

    ghost predicate Valid()
      reads this
    {
      && ledger.Valid()
      && |queue| == |ledger.waiting|
      && (forall i | 0 <= i < |queue| :: ledger.waiting[i] < |ledger.offered| && queue[i] == ledger.offered[ledger.waiting[i]])
    }

    constructor Start(hasWebhook: bool, mailerConfigured: bool)
      ensures Valid() && ledger == FRESH && queue == [] && webhooks == []
      ensures this.hasWebhook == hasWebhook && this.mailerConfigured == mailerConfigured
    {
      this.hasWebhook, this.mailerConfigured := hasWebhook, mailerConfigured;
      webhooks, queue, ledger := [], [], FRESH;
    }

    /** Never blocks: a job that finds the queue full is dropped. */
    method Dispatch(webhook: bool, job: Job)
      requires Valid()
      modifies this
      ensures Valid()
      ensures webhooks == old(webhooks) + if webhook && hasWebhook then [(job.event, job.nodeID)] else []
      ensures ledger == if job.to == [] || !mailerConfigured then old(ledger) else old(ledger).Offer(job)
      ensures queue == if job.to != [] && mailerConfigured && |old(queue)| < 256 then old(queue) + [job] else old(queue)
    {
      if webhook && hasWebhook {
        webhooks := webhooks + [(job.event, job.nodeID)];
      }
      if job.to == [] || !mailerConfigured {
        return;
      }
      OfferKeepsValid(ledger, job);
      ledger := ledger.Offer(job);
      if |queue| < CAPACITY {
        queue := queue + [job];
      }
    }

    /** A worker receives the head of the queue. */
    method Receive(worker: nat) returns (job: Job)
      requires Valid() && queue != []
      modifies this`queue, this`ledger
      ensures Valid()
      ensures job == old(queue)[0] && queue == old(queue)[1..]
      ensures old(ledger).waiting != [] && old(ledger).waiting[0] < |old(ledger).fates| && ledger == old(ledger).Take(worker)
    {
      TakeKeepsValid(ledger, worker);
      job := queue[0];
      ledger := ledger.Take(worker);
      queue := queue[1..];
    }
  }
}
