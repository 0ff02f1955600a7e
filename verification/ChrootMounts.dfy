/** The chroot mount set: mounts in order, roll-back of a failed set, and a session that unmounts everything. */
module ChrootMounts {
  import opened Common

  /** The targets of the default mounts, relative to the root. */
  const DEFAULT_MOUNTS := ["proc", "sys", "dev", "dev/pts", "run"]

  function Targets(root: string, mounts: seq<string>): seq<string> {
    seq(|mounts|, i requires 0 <= i < |mounts| => root + "/" + mounts[i])
  }

  function Reverse(s: seq<string>): seq<string> {
    if s == [] then [] else [s[|s| - 1]] + Reverse(s[..|s| - 1])
  }

  lemma {:induction false} ReverseOfAppend(a: seq<string>, b: seq<string>)
    ensures Reverse(a + b) == Reverse(b) + Reverse(a)
  {
    if b == [] {
      assert a + b == a;
    } else {
      assert (a + b)[..|a + b| - 1] == a + b[..|b| - 1];
      ReverseOfAppend(a, b[..|b| - 1]);
    }
  }

  lemma ConcatLast(base: seq<string>, sets: seq<seq<string>>, i: nat)
    requires i < |sets|
    ensures base + Concat(sets[..i + 1]) == (base + Concat(sets[..i])) + sets[i]
    ensures Reverse(Concat(sets[..i + 1])) == Reverse(sets[i]) + Reverse(Concat(sets[..i]))
  {
    assert sets[..i + 1][..i] == sets[..i];
    ReverseOfAppend(Concat(sets[..i]), sets[i]);
  }

  lemma Regroup(a: seq<string>, b: seq<string>, c: seq<string>)
    ensures a + (b + c) == (a + b) + c
  {
  }

  /** Unmounting detaches the topmost mount on a target. */
  function Detach(stack: seq<string>, target: string): seq<string> {
    if stack == [] then []
    else if stack[|stack| - 1] == target then stack[..|stack| - 1]
    else Detach(stack[..|stack| - 1], target) + [stack[|stack| - 1]]
  }

  lemma TopOfStack(base: seq<string>, mounted: seq<string>, i: nat)
    requires i < |mounted|
    ensures Detach(base + mounted[..i + 1], mounted[i]) == base + mounted[..i]
    ensures Reverse(mounted[..i + 1]) == [mounted[i]] + Reverse(mounted[..i])
  {
    assert mounted[..i + 1][..i] == mounted[..i];
    assert (base + mounted[..i + 1])[..|base| + i] == base + mounted[..i];
  }

  /** The kernel's mount table, oldest mount first. `mountOk` and `unmountOk` say beforehand which calls succeed. */
  class Kernel {
    const mountOk: nat -> bool
    const unmountOk: nat -> bool
    var stack: seq<string>
    var mountCalls: nat
    var unmounts: seq<string> // targets of the unmount calls, in order

    ghost function UnmountFailures(): nat
      reads this`unmounts
    {
      CountFailures(unmountOk, |unmounts|)
    }

    constructor (stack: seq<string>, mountOk: nat -> bool, unmountOk: nat -> bool)
      ensures this.stack == stack && mountCalls == 0 && unmounts == []
      ensures this.mountOk == mountOk && this.unmountOk == unmountOk
    {
      this.mountOk, this.unmountOk := mountOk, unmountOk;
      this.stack, mountCalls, unmounts := stack, 0, [];
    }

    method Mount(target: string) returns (ok: bool)
      modifies this`stack, this`mountCalls
      ensures ok == mountOk(old(mountCalls)) && mountCalls == old(mountCalls) + 1
      ensures stack == if ok then old(stack) + [target] else old(stack)
    {
      ok := mountOk(mountCalls);
      mountCalls := mountCalls + 1;
      if ok {
        stack := stack + [target];
      }
    }

    method Unmount(target: string) returns (ok: bool)
      modifies this`stack, this`unmounts
      ensures ok == unmountOk(|old(unmounts)|) && unmounts == old(unmounts) + [target]
      ensures UnmountFailures() == old(UnmountFailures()) + if ok then 0 else 1
      ensures stack == if ok then Detach(old(stack), target) else old(stack)
    {
      ok := unmountOk(|unmounts|);
      unmounts := unmounts + [target];
      if ok {
        stack := Detach(stack, target);
      }
    }

    /** The clean-up closure: walks the mounted targets backwards and goes on after errors. */
    method Cleanup(mounted: seq<string>, ghost base: seq<string>) returns (ok: bool)
      modifies this`stack, this`unmounts
      ensures unmounts == old(unmounts) + Reverse(mounted)
      ensures old(UnmountFailures()) <= UnmountFailures()
      ensures ok <==> UnmountFailures() == old(UnmountFailures())
      ensures ok && old(stack) == base + mounted ==> stack == base
    {
      ok := true;
      var i := |mounted|;
      assert mounted[..i] == mounted;
      while i > 0
        invariant 0 <= i <= |mounted|
        invariant unmounts + Reverse(mounted[..i]) == old(unmounts) + Reverse(mounted)
        invariant old(UnmountFailures()) <= UnmountFailures() && (ok <==> UnmountFailures() == old(UnmountFailures()))
        invariant ok && old(stack) == base + mounted ==> stack == base + mounted[..i]
      {
        hide CountFailures, Reverse, Detach;
        i := i - 1;
        TopOfStack(base, mounted, i);
        var done := Unmount(mounted[i]);
        ok := ok && done;
      }
    }

    /** Mounts all targets in order; at the first failure the targets before it are unmounted again, last one first. */
    method MountAll(targets: seq<string>) returns (ok: bool)
      modifies this
      ensures old(UnmountFailures()) <= UnmountFailures()
      ensures ok <==> forall n: nat | old(mountCalls) <= n < old(mountCalls) + |targets| :: mountOk(n)
      ensures ok ==> stack == old(stack) + targets && unmounts == old(unmounts) && mountCalls == old(mountCalls) + |targets|
      ensures !ok ==>
        var n := mountCalls - 1;
        && old(mountCalls) <= n < old(mountCalls) + |targets|
        && !mountOk(n) && (forall m: nat | old(mountCalls) <= m < n :: mountOk(m))
        && unmounts == old(unmounts) + Reverse(targets[..n - old(mountCalls)])
      ensures !ok && UnmountFailures() == old(UnmountFailures()) ==> stack == old(stack)
    {
      for i := 0 to |targets|
        invariant stack == old(stack) + targets[..i]
        invariant unmounts == old(unmounts) && mountCalls == old(mountCalls) + i
        invariant forall n: nat | old(mountCalls) <= n < mountCalls :: mountOk(n)
      {
        ok := Mount(targets[i]);
        if !ok {
          var cleaned := Cleanup(targets[..i], old(stack));
          return;
        }
      }
      assert targets[..|targets|] == targets;
      ok := true;
    }
  }

  class Session {
    const root: string
    var mounts: seq<string> // public: a caller may replace the default list
    const kernel: Kernel
    var cleanups: seq<seq<string>> // the targets that each pending clean-up closure captured
    ghost const base: seq<string>  // the mount table when the session was made
    ghost const failures: nat      // unmount calls that had failed by then

    /** Unless an unmount failed, the mounts above the base are those of the pending clean-ups. */
    ghost predicate Valid()
      reads this, kernel
    {
      failures <= kernel.UnmountFailures() &&
      (kernel.UnmountFailures() == failures ==> kernel.stack == base + Concat(cleanups))
    }

    constructor (root: string, kernel: Kernel)
      ensures Valid() && this.root == root && mounts == ["proc", "sys", "dev", "dev/pts", "run"] && this.kernel == kernel
      ensures cleanups == [] && base == kernel.stack && failures == kernel.UnmountFailures()
    {
      this.root, mounts, this.kernel := root, DEFAULT_MOUNTS, kernel;
      cleanups, base, failures := [], kernel.stack, kernel.UnmountFailures();
    }

    /** A failed `Enter` leaves the mount table as it was. */
    method Enter() returns (ok: bool)
      requires Valid()
      modifies this`cleanups, kernel
      ensures Valid()
      ensures cleanups == if ok then old(cleanups) + [Targets(root, mounts)] else old(cleanups)
      ensures ok <==> forall n: nat | old(kernel.mountCalls) <= n < old(kernel.mountCalls) + |mounts| :: kernel.mountOk(n)
      ensures ok ==> kernel.stack == old(kernel.stack) + Targets(root, mounts) && kernel.unmounts == old(kernel.unmounts)
      ensures ok ==>
                && |kernel.stack| == |old(kernel.stack)| + |mounts|
                && forall i | 0 <= i < |mounts| :: kernel.stack[|old(kernel.stack)| + i] == root + "/" + mounts[i]
      ensures !ok && kernel.UnmountFailures() == old(kernel.UnmountFailures()) ==> kernel.stack == old(kernel.stack)
    {
      ok := kernel.MountAll(Targets(root, mounts));
      if ok {
        cleanups := cleanups + [Targets(root, mounts)];
        assert cleanups[..|cleanups| - 1] == old(cleanups);
      }
    }

    /** Unmounts everything that the session mounted, last mount first; a second `Close` unmounts nothing. */
    method Close() returns (ok: bool)
      requires Valid()
      modifies this`cleanups, kernel
      ensures Valid() && cleanups == []
      ensures kernel.unmounts == old(kernel.unmounts) + Reverse(Concat(old(cleanups)))
      ensures ok <==> kernel.UnmountFailures() == old(kernel.UnmountFailures())
      ensures kernel.UnmountFailures() == failures ==> kernel.stack == base
      ensures old(cleanups) == [] ==> kernel.unmounts == old(kernel.unmounts) && kernel.stack == old(kernel.stack)
    {
      ok := true;
      var i := |cleanups|;
      assert cleanups[..i] == cleanups;
      assert Reverse(Concat([])) == [];
      while i > 0
        invariant 0 <= i <= |cleanups| && cleanups == old(cleanups)
        invariant kernel.unmounts + Reverse(Concat(cleanups[..i])) == old(kernel.unmounts) + Reverse(Concat(cleanups))
        invariant old(kernel.UnmountFailures()) <= kernel.UnmountFailures()
        invariant ok <==> kernel.UnmountFailures() == old(kernel.UnmountFailures())
        invariant failures <= kernel.UnmountFailures()
        invariant kernel.UnmountFailures() == failures ==> kernel.stack == base + Concat(cleanups[..i])
        invariant i == |cleanups| ==> kernel.stack == old(kernel.stack)
      {
        hide Concat, Reverse, CountFailures, Detach, Valid;
        i := i - 1;
        ConcatLast(base, cleanups, i);
        Regroup(kernel.unmounts, Reverse(cleanups[i]), Reverse(Concat(cleanups[..i])));
        var done := kernel.Cleanup(cleanups[i], base + Concat(cleanups[..i]));
        ok := ok && done;
      }
      cleanups := [];
    }
  }
}
