/** The canonical instruction list that is hashed: sorted by target and opcode with a sort that need not be stable. */
module InstructionHash {
  import opened Common
  import opened Order

  datatype Instruction = Instruction(opcode: string, target: string, payload: string, anchors: Option<(string, string)>)

  /** The comparison that the sort uses. */
  predicate KeyLess(a: Instruction, b: Instruction) {
    if a.target != b.target then Less(a.target, b.target) else Less(a.opcode, b.opcode)
  }

  predicate SameKey(a: Instruction, b: Instruction) {
    a.target == b.target && a.opcode == b.opcode
  }

  lemma KeyLessFacts(a: Instruction, b: Instruction)
    ensures !KeyLess(a, b) && !KeyLess(b, a) <==> SameKey(a, b)
    ensures !(KeyLess(a, b) && KeyLess(b, a))
  {
    LessIsTotal(a.target, b.target);
    LessIsTotal(a.opcode, b.opcode);
  }

  lemma KeyLessTransitive(a: Instruction, b: Instruction, c: Instruction)
    requires !KeyLess(b, a) && !KeyLess(c, b)
    ensures !KeyLess(c, a)
  {
    LessIsTotal(a.target, b.target);
    LessIsTotal(b.target, c.target);
    LessIsTotal(a.opcode, b.opcode);
    LessIsTotal(b.opcode, c.opcode);
    LessIsTotal(a.target, c.target);
    LessIsTotal(a.opcode, c.opcode);
    if Less(a.target, b.target) && Less(b.target, c.target) {
      LessIsTransitive(a.target, b.target, c.target);
    }
    if Less(a.opcode, b.opcode) && Less(b.opcode, c.opcode) {
      LessIsTransitive(a.opcode, b.opcode, c.opcode);
    }
  }

  ghost predicate IsSorted(s: seq<Instruction>) {
    forall i, j | 0 <= i < j < |s| :: !KeyLess(s[j], s[i])
  }

  /** Any outcome of the sort: a sorted permutation. */
  ghost predicate IsSortOf(instrs: seq<Instruction>, s: seq<Instruction>) {
    multiset(s) == multiset(instrs) && IsSorted(s)
  }

  /** Instructions that agree on target and opcode agree altogether. */
  ghost predicate KeysIdentify(m: multiset<Instruction>) {
    forall a, b | a in m && b in m && a.target == b.target && a.opcode == b.opcode :: a == b
  }

  lemma SameHead(x: seq<Instruction>, y: seq<Instruction>)
    requires x != [] && y != [] && multiset(x) == multiset(y) && IsSorted(x) && IsSorted(y)
    ensures SameKey(x[0], y[0])
  {
    hide KeyLess;
    assert x[0] in multiset(y) && y[0] in multiset(x);
    var i :| 0 <= i < |y| && y[i] == x[0];
    var j :| 0 <= j < |x| && x[j] == y[0];
    KeyLessFacts(x[0], y[0]);
    KeyLessFacts(x[0], x[0]);
    KeyLessFacts(y[0], y[0]);
  }

  lemma TailOfSorted(x: seq<Instruction>)
    requires x != [] && IsSorted(x)
    ensures IsSorted(x[1..]) && multiset(x[1..]) == multiset(x) - multiset{x[0]}
  {
    hide KeyLess;
    assert x == [x[0]] + x[1..];
  }

  lemma HeadIdentified(x: seq<Instruction>, y: seq<Instruction>)
    requires x != [] && y != [] && multiset(x) == multiset(y) && KeysIdentify(multiset(x)) && SameKey(x[0], y[0])
    ensures x[0] == y[0] && KeysIdentify(multiset(x[1..]))
  {
    assert x[0] in multiset(x) && y[0] in multiset(y);
    assert x == [x[0]] + x[1..];
    assert forall a | a in multiset(x[1..]) :: a in multiset(x);
  }

  /** Two outcomes of sorting the same instructions agree if keys identify instructions. */
  lemma {:induction false} SortIsUnique(x: seq<Instruction>, y: seq<Instruction>)
    requires multiset(x) == multiset(y) && IsSorted(x) && IsSorted(y) && KeysIdentify(multiset(x))
    ensures x == y
  {
    hide IsSorted, KeysIdentify;
    assert |x| == |multiset(x)| == |multiset(y)| == |y|;
    if x != [] {
      SameHead(x, y);
      HeadIdentified(x, y);
      TailOfSorted(x);
      TailOfSorted(y);
      SortIsUnique(x[1..], y[1..]);
      assert x == [x[0]] + x[1..] && y == [y[0]] + y[1..];
    }
  }

  // ----- some outcome exists -----

  function Insert(s: seq<Instruction>, a: Instruction): seq<Instruction> {
    if s == [] || KeyLess(a, s[0]) then [a] + s else [s[0]] + Insert(s[1..], a)
  }

  function Sort(s: seq<Instruction>): seq<Instruction> {
    if s == [] then [] else Insert(Sort(s[..|s| - 1]), s[|s| - 1])
  }

  lemma {:induction false} InsertFacts(s: seq<Instruction>, a: Instruction)
    requires IsSorted(s)
    ensures multiset(Insert(s, a)) == multiset(s) + multiset{a}
    ensures IsSorted(Insert(s, a))
  {
    var r := Insert(s, a);
    if s == [] {
    } else if KeyLess(a, s[0]) {
      forall j | 0 < j < |r|
        ensures !KeyLess(r[j], r[0])
      {
        KeyLessFacts(a, s[0]);
        if j > 1 {
          KeyLessTransitive(a, s[0], s[j - 1]);
        }
      }
    } else {
      InsertFacts(s[1..], a);
      assert s == [s[0]] + s[1..];
      forall j | 0 < j < |r|
        ensures !KeyLess(r[j], r[0])
      {
        assert r[j] in multiset(Insert(s[1..], a));
        assert r[j] == a || r[j] in s[1..];
      }
    }
  }

  lemma {:induction false} SortFacts(s: seq<Instruction>)
    ensures IsSortOf(s, Sort(s))
  {
    if s != [] {
      var front, last := s[..|s| - 1], s[|s| - 1];
      SortFacts(front);
      InsertFacts(Sort(front), last);
      assert s == front + [last];
    }
  }

  // ----- results -----

  /** For lists with distinct (target, opcode) pairs, the canonical sequences are equal exactly when one list is a
      permutation of the other, whichever outcomes the sort chose. */
  lemma CanonicalIffPermutation(a: seq<Instruction>, b: seq<Instruction>, x: seq<Instruction>, y: seq<Instruction>)
    requires DistinctKeys(a) && DistinctKeys(b) && IsSortOf(a, x) && IsSortOf(b, y)
    ensures x == y <==> multiset(a) == multiset(b)
  {
    if multiset(a) == multiset(b) {
      forall u, v | u in multiset(x) && v in multiset(x) && SameKey(u, v)
        ensures u == v
      {
        var i :| 0 <= i < |a| && a[i] == u;
        var j :| 0 <= j < |a| && a[j] == v;
      }
      SortIsUnique(x, y);
    }
  }

  ghost predicate DistinctKeys(s: seq<Instruction>) {
    forall i, j | 0 <= i < j < |s| :: (s[i].target, s[i].opcode) != (s[j].target, s[j].opcode)
  }

  /** In every outcome of the sort the targets ascend, and the opcodes of one target do: of two different names the earlier
      is a proper beginning of the later, or has the smaller character where they first differ. */
  lemma SortedMeans(instrs: seq<Instruction>, s: seq<Instruction>, i: nat, j: nat)
    requires IsSortOf(instrs, s) && i < j < |s|
    ensures var a, b := s[i], s[j];
      if a.target != b.target then Ascends(a.target, b.target) else a.opcode == b.opcode || Ascends(a.opcode, b.opcode)
  {
    var a, b := s[i], s[j];
    assert !KeyLess(b, a);
    LessIsTotal(a.target, b.target);
    LessIsTotal(a.opcode, b.opcode);
    LessMeans(a.target, b.target);
    LessMeans(a.opcode, b.opcode);
  }

  ghost predicate Ascends(a: string, b: string) {
    exists i: nat :: FirstDifference(a, b, i) && (i == |a| || a[i] < b[i])
  }

  /** The canonical sequence of a list is well defined exactly when instructions that agree on target and opcode are
      equal; otherwise two outcomes of the sort differ. */
  lemma CanonicalFormIsUniqueIff(a: seq<Instruction>)
    ensures (forall x, y | IsSortOf(a, x) && IsSortOf(a, y) :: x == y) <==> KeysIdentify(multiset(a))
  {
    if KeysIdentify(multiset(a)) {
      forall x, y | IsSortOf(a, x) && IsSortOf(a, y)
        ensures x == y
      {
        SortIsUnique(x, y);
      }
    } else {
      var u, v :| u in multiset(a) && v in multiset(a) && SameKey(u, v) && u != v;
      var x, y := TwoOutcomes(a, u, v);
    }
  }

  lemma TwoOutcomes(a: seq<Instruction>, u: Instruction, v: Instruction) returns (x: seq<Instruction>, y: seq<Instruction>)
    requires u in multiset(a) && v in multiset(a) && SameKey(u, v) && u != v
    ensures IsSortOf(a, x) && IsSortOf(a, y) && x != y
  {
    hide IsSorted;
    SortFacts(a);
    x := Sort(a);
    assert u in multiset(x) && v in multiset(x);
    var p :| 0 <= p < |x| && x[p] == u;
    var q :| 0 <= q < |x| && x[q] == v;
    y := x[p := v][q := u];
    SwapKeepsSort(x, p, q);
    assert y[p] == v;
  }

  lemma SwapKeepsSort(x: seq<Instruction>, p: nat, q: nat)
    requires p < |x| && q < |x| && p != q && SameKey(x[p], x[q]) && IsSorted(x)
    ensures var y := x[p := x[q]][q := x[p]]; multiset(y) == multiset(x) && IsSorted(y)
  {
  }

  ghost predicate Partial(instrs: seq<Instruction>, canonical: seq<Instruction>, rest: seq<Instruction>) {
    && multiset(canonical) + multiset(rest) == multiset(instrs)
    && IsSorted(canonical)
    && forall i, j | 0 <= i < |canonical| && 0 <= j < |rest| :: !KeyLess(rest[j], canonical[i])
  }

  lemma PickStep(instrs: seq<Instruction>, canonical: seq<Instruction>, rest: seq<Instruction>, k: nat)
    requires Partial(instrs, canonical, rest) && k < |rest|
    requires forall j | 0 <= j < |rest| :: !KeyLess(rest[j], rest[k])
    ensures Partial(instrs, canonical + [rest[k]], rest[..k] + rest[k + 1..])
  {
    hide KeyLess;
    assert rest == rest[..k] + [rest[k]] + rest[k + 1..];
    assert multiset(canonical + [rest[k]]) == multiset(canonical) + multiset{rest[k]};
    var left := rest[..k] + rest[k + 1..];
    forall i, j | 0 <= i < |canonical + [rest[k]]| && 0 <= j < |left|
      ensures !KeyLess(left[j], (canonical + [rest[k]])[i])
    {
      assert left[j] == rest[if j < k then j else j + 1];
    }
  }

  /** `HashInstructions` up to encoding: the instructions sorted by key, with equal keys in any order. */
  method Canonicalise(instrs: seq<Instruction>) returns (canonical: seq<Instruction>)
    ensures IsSortOf(instrs, canonical)
  {
    var rest := instrs;
    canonical := [];
    while rest != []
      invariant Partial(instrs, canonical, rest)
      decreases |rest|
    {
      var least := LeastOf(rest);
      var i: int := *;
      if !(0 <= i < |rest| && SameKey(rest[i], rest[least])) {
        i := least;
      }
      PickStep(instrs, canonical, rest, i);
      canonical := canonical + [rest[i]];
      rest := rest[..i] + rest[i + 1..];
    }
  }

  /** Some position whose instruction no other precedes. */
  method LeastOf(s: seq<Instruction>) returns (k: nat)
    requires s != []
    ensures k < |s| && forall j | 0 <= j < |s| :: !KeyLess(s[j], s[k])
  {
    k := 0;
    KeyLessFacts(s[0], s[0]);
    for i := 1 to |s|
      invariant k < |s|
      invariant forall j | 0 <= j < i :: !KeyLess(s[j], s[k])
    {
      if KeyLess(s[i], s[k]) {
        KeyLessFacts(s[i], s[k]);
        forall j | 0 <= j < i
          ensures !KeyLess(s[j], s[i])
        {
          KeyLessTransitive(s[i], s[k], s[j]);
        }
        k := i;
        KeyLessFacts(s[i], s[i]);
      }
    }
  }
}
