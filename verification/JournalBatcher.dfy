/** The journal batcher: log entries are collected in one reused buffer and emitted as copies. */
module JournalBatcher {
  import opened Common

  const BATCH_SIZE := 50

  /** `a` is what is left of `b` after some of its elements are struck out. */
  predicate IsSubsequence<E(==)>(a: seq<E>, b: seq<E>) {
    a == [] ||
    (b != [] &&
     (IsSubsequence(a, b[..|b| - 1]) ||
      (a[|a| - 1] == b[|b| - 1] && IsSubsequence(a[..|a| - 1], b[..|b| - 1]))))
  }

  lemma SubsequenceOfLonger<E>(a: seq<E>, b: seq<E>, x: E)
    requires IsSubsequence(a, b)
    ensures IsSubsequence(a, b + [x]) && IsSubsequence(a + [x], b + [x])
  {
  }

  lemma {:induction false} SubsequenceWithoutLast<E>(a: seq<E>, b: seq<E>)
    requires a != [] && IsSubsequence(a, b)
    ensures IsSubsequence(a[..|a| - 1], b)
  {
    if IsSubsequence(a, b[..|b| - 1]) {
      SubsequenceWithoutLast(a, b[..|b| - 1]);
    }
  }

  /** The i-th element of `a` is the one of `b` at the i-th of some increasing positions. */
  ghost predicate Embeds<E(!new)>(a: seq<E>, b: seq<E>, at: seq<nat>) {
    && |at| == |a|
    && (forall i, j | 0 <= i < j < |at| :: at[i] < at[j])
    && (forall i | 0 <= i < |at| :: at[i] < |b| && b[at[i]] == a[i])
  }

  lemma {:induction false} SubsequenceMeans<E(!new)>(a: seq<E>, b: seq<E>)
    ensures IsSubsequence(a, b) <==> exists at: seq<nat> :: Embeds(a, b, at)
  {
    if at: seq<nat> :| Embeds(a, b, at) {
      EmbeddedIsSubsequence(a, b, at);
    }
    if IsSubsequence(a, b) {
      SubsequenceEmbeds(a, b);
    }
  }

  lemma {:induction false} SubsequenceEmbeds<E(!new)>(a: seq<E>, b: seq<E>)
    requires IsSubsequence(a, b)
    ensures exists at: seq<nat> :: Embeds(a, b, at)
  {
    if a == [] {
      assert Embeds(a, b, []);
    } else {
      var front := b[..|b| - 1];
      if IsSubsequence(a, front) {
        SubsequenceEmbeds(a, front);
        var at: seq<nat> :| Embeds(a, front, at);
        assert Embeds(a, b, at);
      } else {
        SubsequenceEmbeds(a[..|a| - 1], front);
        var at: seq<nat> :| Embeds(a[..|a| - 1], front, at);
        assert Embeds(a, b, at + [|b| - 1]);
      }
    }
  }

  lemma {:induction false} EmbeddedIsSubsequence<E(!new)>(a: seq<E>, b: seq<E>, at: seq<nat>)
    requires Embeds(a, b, at)
    ensures IsSubsequence(a, b)
    decreases |b|
  {
    if a != [] {
      assert at[|a| - 1] < |b|;
      var n, front := |a| - 1, b[..|b| - 1];
      if at[n] == |b| - 1 {
        EmbeddedIsSubsequence(a[..n], front, at[..n]);
      } else {
        EmbeddedIsSubsequence(a, front, at);
      }
    }
  }

  /** Dropping the held batch leaves a subsequence. */
  lemma {:induction false} SubsequenceWithoutSuffix<E>(a: seq<E>, h: seq<E>, b: seq<E>)
    requires IsSubsequence(a + h, b)
    ensures IsSubsequence(a, b)
  {
    if h == [] {
      assert a + h == a;
    } else {
      SubsequenceWithoutLast(a + h, b);
      assert (a + h)[..|a + h| - 1] == a + h[..|h| - 1];
      SubsequenceWithoutSuffix(a, h[..|h| - 1], b);
    }
  }

  /** `Expired` means that the timer's channel holds a value; `Spent` that it was received and the timer not re-armed. */
  datatype Timer = Armed | Expired | Spent

  /** What the select loop can meet. `Cancel` and `Expire` happen outside; the rest are the branches of the select. */
  datatype Event<E> = Cancel | Expire | OnDone | OnEntry(entry: E) | OnClosed | OnTimer

  function EntriesOf<E>(events: seq<Event<E>>): seq<E> {
    if events == [] then []
    else
      var front, last := events[..|events| - 1], events[|events| - 1];
      EntriesOf(front) + if last.OnEntry? then [last.entry] else []
  }

  /** `takes` says beforehand of every send whether the reader takes it; the others end by cancellation. */
  class Streamer<E(0, ==, !new)> {
    const batch: array<E>
    const takes: nat -> bool
    var sends: nat
    var held: nat
    var output: seq<array<E>>
    var timer: Timer
    var cancelled: bool
    var exited: bool
    ghost var sent: seq<seq<E>> // what each emitted batch held when it was emitted
    ghost var consumed: seq<E>
    ghost var asked: bool // a `Cancel` came in

    function Held(): seq<E>
      reads this, batch
      requires held <= batch.Length
    {
      batch[..held]
    }

    /** Emitted batches still hold what they held when emitted, have 1 to 50 entries and are not the reused buffer. */
    ghost predicate Emitted()
      reads this`output, this`sent, output
    {
      |output| == |sent| &&
      forall i | 0 <= i < |output| :: output[i] != batch && output[i][..] == sent[i] && 1 <= |sent[i]| <= 50
    }

    /** Nothing is lost, duplicated or reordered before cancellation; entries may only be missing after it. */
    ghost predicate Accounted()
      reads this, batch
      requires held <= batch.Length
    {
      IsSubsequence(Concat(sent) + Held(), consumed) &&
      (!cancelled ==> Concat(sent) + Held() == consumed)
    }

    /** Cancellation came from outside: by an event, or during a send that the reader did not take. */
    ghost predicate CancelledFromOutside()
      reads this
    {
      cancelled <==> asked || CountFailures(takes, sends) > 0
    }

    /** Between two rounds of the loop there is room in the buffer and the timer will fire or has fired. */
    ghost predicate Valid()
      reads this, batch, output
    {
      batch.Length == BATCH_SIZE && held < BATCH_SIZE && Emitted() && Accounted() && CancelledFromOutside() && timer != Spent &&
      (exited ==> held == 0)
    }

    constructor (takes: nat -> bool)
      ensures Valid() && !exited && !cancelled && output == [] && consumed == []
      ensures fresh(batch) && this.takes == takes && sends == 0 && !asked
    {
      this.takes, sends, asked := takes, 0, false;
      batch := new E[BATCH_SIZE];
      held, output, timer, cancelled, exited, sent, consumed := 0, [], Armed, false, false, [], [];
    }

    /** Emits a copy of the held entries and empties the buffer. The send waits for the reader or for cancellation, and
        only the latter drops the batch. */
    method Flush()
      requires batch.Length == BATCH_SIZE && held <= BATCH_SIZE && Emitted() && Accounted() && CancelledFromOutside()
      modifies this`held, this`output, this`sent, this`cancelled, this`sends
      ensures held == 0 && Emitted() && Accounted() && CancelledFromOutside()
      ensures old(output) <= output && (old(cancelled) ==> cancelled)
      ensures forall i | |old(output)| <= i < |output| :: fresh(output[i])
      ensures sends == old(sends) + if old(held) == 0 then 0 else 1
      ensures sent == old(sent) + if old(held) > 0 && takes(old(sends)) then [old(Held())] else []
    {
      hide IsSubsequence, Concat, CountFailures;
      if held == 0 {
        return;
      }
      var toSend := CopyOfHeld();
      SubsequenceWithoutSuffix(Concat(sent), Held(), consumed);
      held := 0;
      Send(toSend);
      assert Concat(sent) + Held() == Concat(sent);
    }

    method Send(toSend: array<E>)
      requires Emitted() && CancelledFromOutside() && toSend != batch && 1 <= toSend.Length <= BATCH_SIZE
      modifies this`output, this`sent, this`cancelled, this`sends
      ensures Emitted() && CancelledFromOutside() && sends == old(sends) + 1
      ensures if takes(old(sends))
        then output == old(output) + [toSend] && sent == old(sent) + [toSend[..]] && cancelled == old(cancelled)
             && Concat(sent) == Concat(old(sent)) + toSend[..]
        else output == old(output) && sent == old(sent) && cancelled
    {
      var delivered := takes(sends);
      sends := sends + 1;
      if delivered {
        output, sent := output + [toSend], sent + [toSend[..]];
        assert sent[..|sent| - 1] == old(sent);
      } else {
        cancelled := true;
      }
    }

    method CopyOfHeld() returns (copy: array<E>)
      requires held <= batch.Length
      ensures fresh(copy) && copy[..] == Held()
    {
      copy := new E[held];
      for i := 0 to held
        invariant copy[..i] == batch[..i]
      {
        copy[i] := batch[i];
      }
      assert copy[..held] == copy[..];
    }

    /** The rounds that emit what is held: at the end, when the timer fired, and when the buffer is full. */
    predicate Emits(event: Event<E>)
      reads this
    {
      && !exited
      && match event
         case OnDone => cancelled && held > 0
         case OnClosed => held > 0
         case OnTimer => timer == Expired && held > 0
         case OnEntry(_) => held + 1 == 50
         case _ => false
    }

    /** One round of the loop; an event whose branch is not ready, or that comes after the exit, does nothing. */
    method Step(event: Event<E>)
      requires Valid()
      modifies this, batch
      ensures Valid()
      ensures old(output) <= output && old(sent) <= sent && (old(cancelled) ==> cancelled)
      ensures forall i | |old(output)| <= i < |output| :: fresh(output[i])
      ensures consumed == old(consumed) + if event.OnEntry? && !old(exited) then [event.entry] else []
      ensures exited == (old(exited) || event.OnClosed? || (event.OnDone? && old(cancelled)))
      ensures sends == old(sends) + if old(Emits(event)) then 1 else 0
      ensures if old(Emits(event)) then held == 0
              else sent == old(sent) && held == |consumed| - |old(consumed)| + old(held)
      ensures asked == (old(asked) || (event.Cancel? && !old(exited)))
    {
      hide IsSubsequence, Concat, CountFailures, Emitted;
      if exited {
        return;
      }
      match event
      case Cancel =>
        cancelled, asked := true, true;
      case Expire =>
        timer := Expired;
      case OnDone =>
        if cancelled {
          Flush();
          exited := true;
        }
      case OnClosed =>
        Flush();
        exited := true;
      case OnTimer =>
        if timer == Expired {
          timer := Spent;
          Flush();
          timer := Armed;
        }
      case OnEntry(entry) =>
        Receive(entry);
    }

    /** A full buffer is emitted at once, and the timer starts over with its channel drained. */
    method Receive(entry: E)
      requires Valid() && !exited
      modifies this`held, this`consumed, this`output, this`sent, this`cancelled, this`sends, this`timer, batch
      ensures Valid() && consumed == old(consumed) + [entry]
      ensures if old(held) + 1 == BATCH_SIZE then held == 0 && sends == old(sends) + 1
              else held == old(held) + 1 && sends == old(sends) && sent == old(sent)
      ensures old(output) <= output && old(sent) <= sent && (old(cancelled) ==> cancelled)
      ensures forall i | |old(output)| <= i < |output| :: fresh(output[i])
    {
      hide IsSubsequence, Concat, CountFailures;
      Append(entry);
      if held >= BATCH_SIZE {
        Flush();
        if timer != Armed {
          timer := Spent; // drained without waiting
        }
        timer := Armed;
      }
    }

    method Append(entry: E)
      requires Valid()
      modifies this`held, this`consumed, batch
      ensures held == old(held) + 1 && consumed == old(consumed) + [entry]
      ensures Emitted() && Accounted() && CancelledFromOutside()
    {
      SubsequenceOfLonger(Concat(sent) + Held(), consumed, entry);
      batch[held], held := entry, held + 1;
      consumed := consumed + [entry];
      assert Held() == old(Held()) + [entry];
      assert Concat(sent) + Held() == (Concat(sent) + old(Held())) + [entry];
    }

    /** Over every run: the invariant holds, earlier batches are never touched, and unless a `Cancel` comes in or the
        reader leaves a batch, nothing is lost: a run that ends with the journal has emitted every entry in order. */
    method Run(events: seq<Event<E>>)
      requires Valid() && !exited && !asked && consumed == []
      modifies this, batch
      ensures Valid() && old(sent) <= sent && consumed <= EntriesOf(events)
      ensures !exited ==> consumed == EntriesOf(events)
      ensures Cancel !in events && (forall n: nat | n < sends :: takes(n)) ==>
                && Concat(sent) + Held() == consumed
                && (exited ==> Concat(sent) == consumed)
                && (exited <==> OnClosed in events)
      ensures IsSubsequence(Concat(sent), EntriesOf(events))
      ensures exists at: seq<nat> :: Embeds(Concat(sent), EntriesOf(events), at)
    {
      for n := 0 to |events|
        invariant Valid() && old(sent) <= sent && old(output) <= output
        invariant forall i | |old(output)| <= i < |output| :: fresh(output[i])
        invariant asked ==> Cancel in events[..n]
        invariant OnClosed in events[..n] ==> exited
        invariant !cancelled && exited ==> OnClosed in events[..n]
        invariant consumed <= EntriesOf(events[..n]) && (!exited ==> consumed == EntriesOf(events[..n]))
      {
        assert events[..n + 1][..n] == events[..n];
        ghost var before := output;
        Step(events[n]);
        assert forall i | 0 <= i < |before| :: output[i] == before[i];
      }
      assert events[..|events|] == events;
      assert exited ==> Held() == [];
      SubsequenceWithoutSuffix(Concat(sent), Held(), consumed);
      SubsequenceOfExtension(Concat(sent), consumed, EntriesOf(events));
      SubsequenceMeans(Concat(sent), EntriesOf(events));
    }
  }

  lemma {:induction false} SubsequenceOfExtension<E>(a: seq<E>, b: seq<E>, c: seq<E>)
    requires IsSubsequence(a, b) && b <= c
    ensures IsSubsequence(a, c)
    decreases |c|
  {
    if |b| < |c| {
      SubsequenceOfExtension(a, b, c[..|c| - 1]);
    } else {
      assert b == c;
    }
  }
}
