/** What several components share: optional values, concatenation, and the outcomes of calls that may fail. */
module Common {

  datatype Option<+T> = None | Some(value: T)

  function Concat<E>(parts: seq<seq<E>>): seq<E> {
    if parts == [] then [] else Concat(parts[..|parts| - 1]) + parts[|parts| - 1]
  }

  /** The parts of a text between the separators. */
  function Split(text: string, separator: char): (parts: seq<string>)
    ensures parts != []
  {
    if text == "" then [""]
    else if text[0] == separator then [""] + Split(text[1..], separator)
    else var rest := Split(text[1..], separator); [[text[0]] + rest[0]] + rest[1..]
  }

  /** How many of the first calls fail. The outcome of every call is given in advance, so the program cannot choose it. */
  ghost function CountFailures(outcome: nat -> bool, calls: nat): (f: nat)
    ensures f == 0 <==> forall n: nat | n < calls :: outcome(n)
  {
    if calls == 0 then 0 else CountFailures(outcome, calls - 1) + if outcome(calls - 1) then 0 else 1
  }

  /** The number of failures is the same before and after some calls exactly when each of them succeeds. */
  lemma {:induction false} FailuresUnchangedIff(outcome: nat -> bool, from: nat, to: nat)
    requires from <= to
    ensures CountFailures(outcome, from) <= CountFailures(outcome, to)
    ensures CountFailures(outcome, from) == CountFailures(outcome, to) <==> forall n: nat | from <= n < to :: outcome(n)
  {
    if from < to {
      FailuresUnchangedIff(outcome, from, to - 1);
    }
  }
}
