/** The console escape detector and the stdin relay around it. */
module ConsoleEscape {
  import opened Common

  type Byte = b: int | 0 <= b < 256

  datatype EscapeState = Idle | SeenNewline | SeenTilde

  const CR: Byte := 13
  const LF: Byte := 10

  predicate IsNewline(b: Byte) {
    b == CR || b == LF
  }

  /** One byte of the state machine; the second result says that the sequence is complete. */
  function Advance(state: EscapeState, b: Byte, esc: seq<Byte>): (EscapeState, bool) {
    if |esc| < 2 then (Idle, false)
    else
      var plain := if IsNewline(b) then SeenNewline else Idle;
      match state
      case Idle => (plain, false)
      case SeenNewline => (if b == esc[0] then SeenTilde else plain, false)
      case SeenTilde => if b == esc[1] then (Idle, true) else (plain, false)
  }

  /** The state after a stream; a session starts as if after a newline. */
  function StateAfter(stream: seq<Byte>, esc: seq<Byte>): EscapeState {
    if stream == [] then SeenNewline
    else Advance(StateAfter(stream[..|stream| - 1], esc), stream[|stream| - 1], esc).0
  }

  /** The index of the byte at which the machine disconnects. */
  function Detect(stream: seq<Byte>, esc: seq<Byte>): Option<nat> {
    if stream == [] then None
    else
      var front, n := stream[..|stream| - 1], |stream| - 1;
      var earlier := Detect(front, esc);
      if earlier.Some? then earlier
      else if Advance(StateAfter(front, esc), stream[n], esc).1 then Some(n)
      else None
  }

  // ----- what the sequence means -----

  /** Byte i is the end byte, the one before is the trigger, and that one is first or follows a CR (13) or LF (10). */
  predicate EscapeAt(stream: seq<Byte>, esc: seq<Byte>, i: int) {
    |esc| >= 2 && 1 <= i < |stream| && stream[i] == esc[1] && TriggerBefore(stream, esc, i)
  }

  predicate TriggerBefore(stream: seq<Byte>, esc: seq<Byte>, i: int) {
    |esc| >= 2 && 1 <= i <= |stream| && stream[i - 1] == esc[0] && (i == 1 || stream[i - 2] == 13 || stream[i - 2] == 10)
  }

  ghost predicate IsFirstEscape(stream: seq<Byte>, esc: seq<Byte>, at: Option<nat>) {
    match at
    case None => forall i :: !EscapeAt(stream, esc, i)
    case Some(i) => EscapeAt(stream, esc, i) && forall j | j < i :: !EscapeAt(stream, esc, j)
  }

  /** The trigger is not a line break, or trigger and end are the same byte. */
  predicate Unambiguous(esc: seq<Byte>) {
    |esc| >= 2 ==> (esc[0] != 13 && esc[0] != 10) || esc[0] == esc[1]
  }

  lemma {:induction false} StateMeaning(stream: seq<Byte>, esc: seq<Byte>)
    requires |esc| >= 2 && Unambiguous(esc) && forall i :: !EscapeAt(stream, esc, i)
    ensures StateAfter(stream, esc) ==
            if TriggerBefore(stream, esc, |stream|) then SeenTilde
            else if stream == [] || IsNewline(stream[|stream| - 1]) then SeenNewline
            else Idle
  {
    if stream != [] {
      var front, n := stream[..|stream| - 1], |stream| - 1;
      forall i
        ensures !EscapeAt(front, esc, i)
      {
        assert EscapeAt(front, esc, i) ==> EscapeAt(stream, esc, i);
      }
      StateMeaning(front, esc);
      assert TriggerBefore(front, esc, n) == TriggerBefore(stream, esc, n);
      assert !EscapeAt(stream, esc, n);
    }
  }

  lemma {:induction false} DetectsFirstEscape(stream: seq<Byte>, esc: seq<Byte>)
    requires Unambiguous(esc)
    ensures IsFirstEscape(stream, esc, Detect(stream, esc))
  {
    if stream != [] {
      var front, n := stream[..|stream| - 1], |stream| - 1;
      DetectsFirstEscape(front, esc);
      forall i | i < n
        ensures EscapeAt(front, esc, i) == EscapeAt(stream, esc, i)
      {
      }
      if Detect(front, esc).None? && |esc| >= 2 {
        StateMeaning(front, esc);
        assert TriggerBefore(front, esc, n) == TriggerBefore(stream, esc, n);
      }
    }
  }

  lemma MissedEscape(esc: seq<Byte>) returns (s3: seq<Byte>)
    requires !Unambiguous(esc)
    ensures s3 == [esc[0], esc[0], esc[1]] && Detect(s3, esc) == None && EscapeAt(s3, esc, 2)
    ensures !IsFirstEscape(s3, esc, Detect(s3, esc))
  {
    s3 := [esc[0], esc[0], esc[1]];
    var s2, s1: seq<Byte> := [esc[0], esc[0]], [esc[0]];
    assert s3[..2] == s2 && s2[..1] == s1 && s1[..0] == [];
    assert StateAfter(s1[..0], esc) == SeenNewline && Detect(s1[..0], esc) == None;
    assert StateAfter(s1, esc) == SeenTilde && Detect(s1, esc) == None;
    assert StateAfter(s2, esc) == SeenNewline && Detect(s2, esc) == None;
    assert Detect(s3, esc) == None && EscapeAt(s3, esc, 2);
  }

  /** The detector finds the first escape sequence in every stream exactly when the escape pair is unambiguous. A pair
      that starts with a line break is missed after two of them. */
  lemma DetectorIsExactIff(esc: seq<Byte>)
    ensures (forall stream :: IsFirstEscape(stream, esc, Detect(stream, esc))) <==> Unambiguous(esc)
  {
    if Unambiguous(esc) {
      forall stream
        ensures IsFirstEscape(stream, esc, Detect(stream, esc))
      {
        DetectsFirstEscape(stream, esc);
      }
    } else {
      var missed := MissedEscape(esc);
    }
  }

  // ----- the relay -----

  lemma {:induction false} DetectInPrefix(p: seq<Byte>, q: seq<Byte>, esc: seq<Byte>)
    requires Detect(p, esc).Some?
    ensures Detect(p + q, esc) == Detect(p, esc)
  {
    if q == [] {
      assert p + q == p;
    } else {
      assert (p + q)[..|p + q| - 1] == p + q[..|q| - 1];
      DetectInPrefix(p, q[..|q| - 1], esc);
    }
  }

  lemma {:induction false} ConcatSplit(chunks: seq<seq<Byte>>, c: nat)
    requires c <= |chunks|
    ensures Concat(chunks[..c]) <= Concat(chunks)
  {
    if c == |chunks| {
      assert chunks[..c] == chunks;
    } else {
      assert chunks[..|chunks| - 1][..c] == chunks[..c];
      ConcatSplit(chunks[..|chunks| - 1], c);
    }
  }

  lemma DetectOneMore(stream: seq<Byte>, b: Byte, esc: seq<Byte>)
    ensures var (next, disconnect) := Advance(StateAfter(stream, esc), b, esc);
      && StateAfter(stream + [b], esc) == next
      && (Detect(stream, esc) == None ==> Detect(stream + [b], esc) == if disconnect then Some(|stream|) else None)
  {
    hide Advance;
    assert (stream + [b])[..|stream|] == stream;
  }

  lemma ConcatOneMore(chunks: seq<seq<Byte>>, c: nat)
    requires c < |chunks|
    ensures Concat(chunks[..c + 1]) == Concat(chunks[..c]) + chunks[c]
  {
    assert chunks[..c + 1][..c] == chunks[..c];
  }

  /** A detection inside one chunk is the detection in the whole stream. */
  lemma DetectedInChunk(chunks: seq<seq<Byte>>, c: nat, at: nat, esc: seq<Byte>)
    requires c < |chunks| && at < |chunks[c]|
    requires var before := Concat(chunks[..c]); Detect(before + chunks[c][..at + 1], esc) == Some(|before| + at)
    ensures var before := Concat(chunks[..c]);
      && Detect(Concat(chunks), esc) == Some(|before| + at)
      && |before| + at < |Concat(chunks)|
      && before + chunks[c][..at] == Concat(chunks)[..|before| + at]
  {
    hide Detect;
    var before, all := Concat(chunks[..c]), Concat(chunks);
    assert chunks[..c + 1][..c] == chunks[..c];
    ConcatSplit(chunks, c + 1);
    var seen, rest := before + chunks[c][..at + 1], all[|before| + at + 1..];
    assert all == seen + rest;
    DetectInPrefix(seen, rest, esc);
  }

  datatype Outcome = Disconnected | WriteError | EndOfInput

  /** What a relay that ended at the n-th chunk forwarded, and why it ended. */
  ghost predicate Relayed(chunks: seq<seq<Byte>>, esc: seq<Byte>, writes: nat -> bool, forwarded: seq<Byte>, outcome: Outcome, n: nat) {
    && n <= |chunks| && (forall c: nat | c < n && chunks[c] != [] :: writes(c))
    && match outcome
       case EndOfInput => n == |chunks| && Detect(Concat(chunks), esc) == None && forwarded == Concat(chunks)
       case WriteError =>
         n < |chunks| && chunks[n] != [] && !writes(n) && forwarded == Concat(chunks[..n]) && Detect(Concat(chunks[..n + 1]), esc) == None
       case Disconnected =>
         && n < |chunks|
         && var before, at := Concat(chunks[..n]), Detect(Concat(chunks), esc);
            && at.Some? && |before| <= at.value < |before| + |chunks[n]| && at.value < |Concat(chunks)|
            && forwarded == if writes(n) then Concat(chunks)[..at.value] else before
  }

  /** If every write succeeds, a relay forwards exactly the bytes before the one that completes the escape sequence. */
  lemma RelayedInFull(chunks: seq<seq<Byte>>, esc: seq<Byte>, writes: nat -> bool, forwarded: seq<Byte>, outcome: Outcome, n: nat)
    requires Relayed(chunks, esc, writes, forwarded, outcome, n)
    ensures (forall c: nat | c < |chunks| :: writes(c)) ==>
      match Detect(Concat(chunks), esc)
      case Some(i) => outcome == Disconnected && i <= |Concat(chunks)| && forwarded == Concat(chunks)[..i]
      case None => outcome == EndOfInput && forwarded == Concat(chunks)
  {
    hide Detect, Concat;
  }

  lemma EndsDisconnected(chunks: seq<seq<Byte>>, esc: seq<Byte>, writes: nat -> bool, n: nat, at: nat)
    requires n < |chunks| && at < |chunks[n]| && forall c: nat | c < n && chunks[c] != [] :: writes(c)
    requires var before := Concat(chunks[..n]); Detect(before + chunks[n][..at + 1], esc) == Some(|before| + at)
    ensures var before := Concat(chunks[..n]);
      Relayed(chunks, esc, writes, if at > 0 && writes(n) then before + chunks[n][..at] else before, Disconnected, n)
  {
    hide Detect, Concat;
    DetectedInChunk(chunks, n, at, esc);
    assert chunks[n][..0] == [] && Concat(chunks[..n]) + [] == Concat(chunks[..n]);
  }

  /** Reads chunk by chunk; on the end byte of an escape sequence it sends the rest of the chunk before it and stops.
      `writes` says beforehand of every chunk whether sending it succeeds. However the stream is cut, the bytes
      forwarded with successful writes are exactly those before the end byte; the first failed write of a whole chunk
      ends the relay with the chunks before it forwarded. */
  method Relay(chunks: seq<seq<Byte>>, esc: seq<Byte>, writes: nat -> bool) returns (forwarded: seq<Byte>, outcome: Outcome, ghost n: nat)
    ensures (forall c: nat | c < |chunks| :: writes(c)) ==>
      match Detect(Concat(chunks), esc)
      case Some(i) => outcome == Disconnected && i <= |Concat(chunks)| && forwarded == Concat(chunks)[..i]
      case None => outcome == EndOfInput && forwarded == Concat(chunks)
    ensures Relayed(chunks, esc, writes, forwarded, outcome, n)
  {
    hide Detect, StateAfter, Concat;
    forwarded := [];
    var state := SeenNewline;
    NothingRead(chunks, esc);
    for c := 0 to |chunks|
      invariant forwarded == Concat(chunks[..c])
      invariant forall d: nat | d < c && chunks[d] != [] :: writes(d)
      invariant state == StateAfter(Concat(chunks[..c]), esc) && Detect(Concat(chunks[..c]), esc) == None
    {
      hide Relayed;
      n := c;
      var chunk := chunks[c];
      ConcatOneMore(chunks, c);
      var at: int;
      state, at := ScanChunk(forwarded, chunk, esc, state);
      if at >= 0 {
        EndsDisconnected(chunks, esc, writes, c, at);
        if at > 0 {
          var sent := writes(c);
          if sent {
            forwarded := forwarded + chunk[..at];
          }
        }
        outcome := Disconnected;
        RelayedInFull(chunks, esc, writes, forwarded, outcome, n);
        return;
      }
      if chunk != [] {
        var sent := writes(c);
        if !sent {
          outcome := WriteError;
          EndsInError(chunks, esc, writes, n);
          RelayedInFull(chunks, esc, writes, forwarded, outcome, n);
          return;
        }
        forwarded := forwarded + chunk;
      }
    }
    n := |chunks|;
    assert chunks[..|chunks|] == chunks;
    outcome := EndOfInput;
    RelayedInFull(chunks, esc, writes, forwarded, outcome, n);
  }

  lemma NothingRead(chunks: seq<seq<Byte>>, esc: seq<Byte>)
    ensures Concat(chunks[..0]) == [] && StateAfter([], esc) == SeenNewline && Detect([], esc) == None
  {
  }

  lemma EndsInError(chunks: seq<seq<Byte>>, esc: seq<Byte>, writes: nat -> bool, n: nat)
    requires n < |chunks| && chunks[n] != [] && !writes(n) && forall c: nat | c < n && chunks[c] != [] :: writes(c)
    requires Detect(Concat(chunks[..n + 1]), esc) == None
    ensures Relayed(chunks, esc, writes, Concat(chunks[..n]), WriteError, n)
  {
  }

  /** The byte loop over one chunk; `at` is the disconnecting byte or -1. */
  method ScanChunk(ghost before: seq<Byte>, chunk: seq<Byte>, esc: seq<Byte>, state0: EscapeState) returns (state: EscapeState, at: int)
    requires state0 == StateAfter(before, esc) && Detect(before, esc) == None
    ensures -1 <= at < |chunk|
    ensures at >= 0 ==> Detect(before + chunk[..at + 1], esc) == Some(|before| + at)
    ensures at < 0 ==> state == StateAfter(before + chunk, esc) && Detect(before + chunk, esc) == None
  {
    state := state0;
    assert before + chunk[..0] == before;
    for i := 0 to |chunk|
      invariant state == StateAfter(before + chunk[..i], esc) && Detect(before + chunk[..i], esc) == None
    {
      hide Detect, StateAfter, Advance;
      DetectOneMore(before + chunk[..i], chunk[i], esc);
      assert before + chunk[..i + 1] == before + chunk[..i] + [chunk[i]];
      var (next, disconnect) := Advance(state, chunk[i], esc);
      state := next;
      if disconnect {
        at := i;
        return;
      }
    }
    assert chunk[..|chunk|] == chunk;
    at := -1;
  }
}
