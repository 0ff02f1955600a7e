/** Slurm bundle install and rollback: renames, pruning and a marker write in the repository directory, where
    every operation may fail and a crash may happen between any two of them. `outcome` says beforehand which operations
    succeed. */
module BundleRepo {
  import opened Common
  import opened Order

  /** `.installed-version`. */
  datatype Marker = Marker(distro: string, arch: string, sha: string)

  datatype Bundle = Bundle(payload: string, marker: Option<Marker>)

  datatype Entry = Dir(bundle: Bundle) | Plain

  /** The entries of the repository directory. */
  type Fs = map<string, Entry>

  const PREVIOUS := ".previous-"
  const TRASH := ".trash-"

  function Prev(stamp: string): string {
    PREVIOUS + stamp
  }

  predicate IsPrev(fs: Fs, name: string) {
    name in fs && fs[name].Dir? && PREVIOUS <= name
  }

  /** The live directory of a distribution; never a hidden name. */
  predicate IsLiveName(name: string) {
    name != "" && name[0] != '.'
  }

  ghost predicate IsNewest(fs: Fs, name: string) {
    IsPrev(fs, name) && forall m | IsPrev(fs, m) :: m == name || Less(m, name)
  }

  /** The bundle is intact at the live path or in the greatest-named previous directory. */
  ghost predicate Recoverable(fs: Fs, live: string, b: Bundle) {
    || (live in fs && fs[live] == Dir(b))
    || exists p :: IsNewest(fs, p) && fs[p] == Dir(b)
  }

  ghost predicate Fresher(fs: Fs, stamp: string) {
    Prev(stamp) !in fs && forall m | IsPrev(fs, m) :: Less(m, Prev(stamp))
  }

  /** A later time stamp: the names are of one length and the second has the greater character where they differ first. */
  ghost predicate LaterName(m: string, p: string) {
    |m| == |p| && exists i: nat :: FirstDifference(m, p, i) && i < |m| && m[i] < p[i]
  }

  /** The stamp is free and later than those of all archives. */
  ghost predicate LaterStamp(fs: Fs, stamp: string) {
    ".previous-" + stamp !in fs && forall m | m in fs && fs[m].Dir? && ".previous-" <= m :: LaterName(m, ".previous-" + stamp)
  }

  ghost predicate LatestArchive(fs: Fs, p: string) {
    && p in fs && fs[p].Dir? && ".previous-" <= p
    && forall m | m in fs && fs[m].Dir? && ".previous-" <= m && m != p :: LaterName(m, p)
  }

  /** The bundle is live, or in the archive of that stamp and no archive is later. */
  ghost predicate Intact(fs: Fs, live: string, stamp: string, b: Bundle) {
    (live in fs && fs[live] == Dir(b)) ||
    (LatestArchive(fs, ".previous-" + stamp) && fs[".previous-" + stamp] == Dir(b))
  }

  // ----- the effect of failure-free operations -----

  function Moved(fs: Fs, src: string, dst: string): Fs
    requires src in fs
  {
    (fs - {src})[dst := fs[src]]
  }

  ghost function Pruned(fs: Fs): Fs {
    map n | n in fs && (IsPrev(fs, n) ==> IsNewest(fs, n)) :: fs[n]
  }

  ghost function Installed(fs: Fs, live: string, b: Bundle, stamp: string): Fs {
    if live in fs then Pruned(Moved(fs, live, Prev(stamp)))[live := Dir(b)] else fs[live := Dir(b)]
  }

  /** `<distro>-<arch>` of a marker, if the rollback accepts it. */
  function LiveNameOf(b: Bundle): Option<string> {
    if b.marker == None || b.marker.value.distro == "" then None
    else Some(b.marker.value.distro + "-" + b.marker.value.arch)
  }

  /** A complete bundle of a live directory: its marker leads back there. */
  predicate Complete(b: Bundle, live: string) {
    LiveNameOf(b) == Some(live)
  }

  /** The newest previous directory and the live path that its marker names. */
  ghost function RollbackTarget(fs: Fs): Option<(string, string)> {
    if exists p :: IsNewest(fs, p) then
      var p :| IsNewest(fs, p);
      if LiveNameOf(fs[p].bundle) == None then None else Some((p, LiveNameOf(fs[p].bundle).value))
    else None
  }

  ghost function RolledBack(fs: Fs, trash: string): Fs {
    match RollbackTarget(fs)
    case None => fs
    case Some((p, live)) => if p in fs then (fs - {p, live, trash})[live := fs[p]] else fs
  }

  /** The complete bundle is in the only previous directory. */
  ghost predicate Held(fs: Fs, p: string, live: string, b: Bundle) {
    IsPrev(fs, p) && fs[p] == Dir(b) && Complete(b, live) && forall m | IsPrev(fs, m) :: m == p
  }

  /** A rollback still makes the bundle live: it is the only one to go back to, or it is live already. */
  ghost predicate Reachable(fs: Fs, live: string, b: Bundle) {
    || (live in fs && fs[live] == Dir(b) && forall m :: !IsPrev(fs, m))
    || exists p :: Held(fs, p, live, b)
  }

  datatype InstallResult = AlreadyInstalled | InstallError | InstallDone

  predicate IsInstalled(fs: Fs, live: string, sha: string) {
    live in fs && fs[live].Dir? && fs[live].bundle.marker.Some? && fs[live].bundle.marker.value.sha == sha
  }

  /** What an install that was broken off anywhere, or not at all, can leave: nothing happened; or the live directory is
      archived, if there was one, with the older archives pruned to any degree, and the staged bundle may be live with
      any marker. */
  ghost predicate InstallPoint(fs: Fs, fs': Fs, live: string, staged: Bundle, stamp: string) {
    || fs' == fs
    || (Staged(fs', live, staged) &&
        if live in fs then Prev(stamp) !in fs && OlderOnly(Moved(fs, live, Prev(stamp)), fs' - {live})
        else fs' - {live} == fs)
  }

  predicate Staged(fs: Fs, live: string, staged: Bundle) {
    live in fs ==> fs[live].Dir? && fs[live].bundle.payload == staged.payload
  }

  /** Whether the two renames of a rollback succeed, by their outcomes. */
  predicate SwapOk(fs: Fs, target: string, trash: string, outcome: nat -> bool, call: nat) {
    if target in fs then trash !in fs && outcome(call) && outcome(call + 1) else outcome(call)
  }

  /** What a rollback leaves whose renames do not both succeed: what was there, if the live directory could not be moved
      away or was put back. It stays in the trash if putting it back fails too; and if there was no live directory, a
      trash left from an earlier rollback of the same second becomes live. */
  function SwapFailed(fs: Fs, target: string, trash: string, outcome: nat -> bool, call: nat): Fs {
    if target in fs then
      if trash in fs || !outcome(call) || outcome(call + 2) then fs else Moved(fs, target, trash)
    else
      if trash in fs && outcome(call + 1) then Moved(fs, trash, target) else fs
  }

  // ----- the operations -----

  class Repo {
    var entries: Fs
    const outcome: nat -> bool // which operations succeed
    var calls: nat
    ghost var visited: set<Fs> // what the directory was after every atomic step

    ghost function Failures(): nat
      reads this`calls
    {
      CountFailures(outcome, calls)
    }

    constructor (entries: Fs, outcome: nat -> bool)
      ensures this.entries == entries && this.outcome == outcome && visited == {}
    {
      this.entries, this.outcome, calls, visited := entries, outcome, 0, {};
    }

    method Call() returns (ok: bool)
      modifies this`calls
      ensures ok == outcome(old(calls)) && calls == old(calls) + 1
      ensures Failures() == old(Failures()) + if ok then 0 else 1
    {
      ok := outcome(calls);
      calls := calls + 1;
    }

    /** Fails on a missing source or an existing target, and may fail for any other reason. */
    method Rename(src: string, dst: string) returns (ok: bool)
      modifies this
      ensures old(Failures()) <= Failures() && calls == old(calls) + 1
      ensures Failures() == old(Failures()) <==> outcome(old(calls))
      ensures ok <==> outcome(old(calls)) && src in old(entries) && dst !in old(entries)
      ensures ok ==> src in old(entries) && dst !in old(entries) && entries == Moved(old(entries), src, dst)
      ensures ok ==> visited == old(visited) + {entries}
      ensures !ok ==> entries == old(entries) && visited == old(visited)
    {
      ok := Call();
      ok := ok && src in entries && dst !in entries;
      if ok {
        entries := Moved(entries, src, dst);
        visited := visited + {entries};
      }
    }

    /** Not atomic: the directory is damaged before it is gone, and may stay damaged. */
    method RemoveAll(name: string)
      modifies this
      ensures old(Failures()) <= Failures()
      ensures Failures() == old(Failures()) ==> entries == old(entries) - {name}
      ensures SameBut(old(entries), entries, name)
      ensures forall fs | fs in visited :: fs in old(visited) || SameBut(old(entries), fs, name)
    {
      if name !in entries {
        return;
      }
      if entries[name].Dir? {
        var wreck: Bundle := *;
        entries := entries[name := Dir(wreck)];
        visited := visited + {entries};
      }
      var ok := Call();
      if ok {
        entries := entries - {name};
        visited := visited + {entries};
      }
    }

    /** Removes every previous directory but the greatest-named one. */
    method PruneOldPreviousDirs()
      modifies this
      ensures old(Failures()) <= Failures()
      ensures Failures() == old(Failures()) ==> entries == Pruned(old(entries))
      ensures Failures() == old(Failures()) ==>
                forall p | LatestArchive(old(entries), p) ::
                  entries == map n | n in old(entries) && (old(entries)[n].Dir? && ".previous-" <= n ==> n == p) :: old(entries)[n]
      ensures forall fs | fs in visited :: fs in old(visited) || OlderOnly(old(entries), fs)
      ensures OlderOnly(old(entries), entries)
    {
      hide OlderOnly, SameBut, LatestArchive;
      LatestIsKept(entries);
      var prevs := set n | n in entries && IsPrev(entries, n);
      OlderOnlyRefl(entries);
      if |prevs| <= 1 {
        AtMostOneIsNewest(entries, prevs);
        return;
      }
      var newest := Greatest(prevs);
      PrunedKeepsNewest(entries, prevs, newest);
      RemoveEach(prevs - {newest}, entries, newest);
    }

    method RemoveEach(names: set<string>, ghost fs0: Fs, ghost newest: string)
      requires OlderOnly(fs0, entries) && IsNewest(fs0, newest)
      requires forall n | n in names :: IsPrev(fs0, n) && n != newest
      modifies this
      ensures old(Failures()) <= Failures()
      ensures Failures() == old(Failures()) ==> entries == old(entries) - names
      ensures OlderOnly(fs0, entries)
      ensures forall fs | fs in visited :: fs in old(visited) || OlderOnly(fs0, fs)
    {
      hide OlderOnly, SameBut, IsNewest, IsPrev;
      var todo := names;
      while todo != {}
        invariant todo <= names && old(Failures()) <= Failures()
        invariant Failures() == old(Failures()) ==> entries == old(entries) - (names - todo)
        invariant OlderOnly(fs0, entries)
        invariant forall fs | fs in visited :: fs in old(visited) || OlderOnly(fs0, fs)
        decreases |todo|
      {
        var n :| n in todo;
        ghost var before := entries;
        RemoveAll(n);
        OlderOnlyStep(fs0, before, n, newest);
        todo := todo - {n};
      }
    }

    /** The rename of the staged directory to the live path. */
    method Promote(b: Bundle, live: string) returns (ok: bool)
      modifies this
      ensures old(Failures()) <= Failures()
      ensures Failures() == old(Failures()) ==> (ok <==> live !in old(entries))
      ensures ok ==> live !in old(entries) && entries == old(entries)[live := Dir(b)] && visited == old(visited) + {entries}
      ensures !ok ==> entries == old(entries) && visited == old(visited)
    {
      ok := Call();
      ok := ok && live !in entries;
      if ok {
        entries := entries[live := Dir(b)];
        visited := visited + {entries};
      }
    }

    /** Not atomic: a failed write may leave any marker. */
    method WriteMarker(b: Bundle, live: string, marker: Marker) returns (ok: bool)
      modifies this
      ensures Failures() == old(Failures()) + if ok then 0 else 1
      ensures ok ==> entries == old(entries)[live := Dir(b.(marker := Some(marker)))]
      ensures forall fs | fs == entries || fs in visited ::
                fs in old(visited) || (SameElsewhere(old(entries), fs, live) && Staged(fs, live, b))
    {
      var torn: Option<Marker> := *;
      entries := entries[live := Dir(b.(marker := torn))];
      visited := visited + {entries};
      ok := Call();
      if ok {
        entries := entries[live := Dir(b.(marker := Some(marker)))];
        visited := visited + {entries};
      }
    }

    /** The swap part of the install. `was` is the bundle that is live at the start. */
    method Install(live: string, staged: Bundle, marker: Marker, stamp: string, ghost was: Bundle) returns (res: InstallResult)
      requires IsLiveName(live)
      modifies this
      ensures old(Failures()) <= Failures()
      ensures res == AlreadyInstalled <==>
              live in old(entries) && old(entries)[live].Dir? && old(entries)[live].bundle.marker.Some?
              && old(entries)[live].bundle.marker.value.sha == marker.sha
      ensures res == AlreadyInstalled ==> entries == old(entries) && visited == old(visited)
      ensures Failures() == old(Failures()) ==>
        var collision := live in old(entries) && Prev(stamp) in old(entries);
        && (res == InstallError <==> collision && res != AlreadyInstalled)
        && (res == InstallError ==> entries == old(entries))
      ensures res == InstallDone ==> live in entries && entries[live] == Dir(staged.(marker := Some(marker)))
      ensures forall fs | fs == entries || fs in visited ::
                fs in old(visited) || InstallPoint(old(entries), fs, live, staged, stamp)
      ensures res == InstallDone && Failures() == old(Failures()) ==>
                entries == Installed(old(entries), live, staged.(marker := Some(marker)), stamp)
      ensures live in old(entries) && old(entries)[live] == Dir(was) && Fresher(old(entries), stamp) ==>
                forall fs | fs == entries || fs in visited :: fs in old(visited) || Recoverable(fs, live, was)
      ensures live in old(entries) && old(entries)[live] == Dir(was) && LaterStamp(old(entries), stamp) ==>
                forall fs | fs == entries || fs in visited :: fs in old(visited) || Intact(fs, live, stamp, was)
    {
      hide Recoverable, Pruned, SameElsewhere, Fresher, CountFailures, OlderOnly, InstallPoint, Staged, LaterStamp, Intact;
      PointsAreRecoverable(entries, live, staged, stamp, was);
      PointsAreIntact(entries, live, staged, stamp, was);
      if IsInstalled(entries, live, marker.sha) {
        NothingIsAPoint(entries, live, staged, stamp);
        return AlreadyInstalled;
      }
      ghost var fs0 := entries;
      if live in entries {
        NothingIsAPoint(fs0, live, staged, stamp);
        var ok := Archive(live, stamp);
        if !ok {
          return InstallError;
        }
        ArchivePoints(fs0, entries, live, staged, stamp);
      } else {
        FillPoints(fs0, live, staged, stamp);
      }
      var ok := Fill(live, staged, marker);
      res := if ok then InstallDone else InstallError;
    }

    /** Moves the live directory away and prunes. */
    method Archive(live: string, stamp: string) returns (ok: bool)
      requires IsLiveName(live) && live in entries
      modifies this
      ensures old(Failures()) <= Failures()
      ensures Failures() == old(Failures()) ==>
                && (ok <==> Prev(stamp) !in old(entries))
                && (ok ==> entries == Pruned(Moved(old(entries), live, Prev(stamp))))
      ensures !ok ==> entries == old(entries) && visited == old(visited)
      ensures ok ==>
                && Prev(stamp) !in old(entries) && live !in entries
                && OlderOnly(Moved(old(entries), live, Prev(stamp)), entries)
                && forall fs | fs in visited :: fs in old(visited) || OlderOnly(Moved(old(entries), live, Prev(stamp)), fs)
    {
      hide Pruned, CountFailures, OlderOnly;
      ghost var fs0 := entries;
      ok := Rename(live, Prev(stamp));
      if ok {
        OlderOnlyRefl(entries);
        PruneOldPreviousDirs();
        LiveIsFree(fs0, live, stamp, entries);
      }
    }

    /** Promotes the staged directory and writes its marker; nothing but the live entry changes. */
    method Fill(live: string, staged: Bundle, marker: Marker) returns (ok: bool)
      modifies this
      ensures old(Failures()) <= Failures()
      ensures Failures() == old(Failures()) ==> (ok <==> live !in old(entries))
      ensures ok ==> entries == old(entries)[live := Dir(staged.(marker := Some(marker)))]
      ensures Failures() == old(Failures()) && !ok ==> entries == old(entries)
      ensures live !in old(entries) ==>
                forall fs | fs == entries || fs in visited ::
                  fs in old(visited) || (SameElsewhere(old(entries), fs, live) && Staged(fs, live, staged))
    {
      hide SameElsewhere, CountFailures;
      ghost var fs0 := entries;
      ok := Promote(staged, live);
      if ok {
        ok := WriteMarker(staged, live, marker);
      }
      PromoteElsewhere(fs0, live, Dir(staged));
    }

    /** Swaps the newest previous directory back, if its marker names a live path and no trash of the same second is in
        the way. The last claim holds for every bundle `was` that a rollback can still make live at `live`. */
    method Rollback(trashStamp: string, ghost live: string, ghost was: Bundle) returns (ok: bool)
      requires IsLiveName(live)
      modifies this
      ensures old(Failures()) <= Failures()
      ensures match RollbackTarget(old(entries))
        case None => !ok && entries == old(entries)
        case Some((p, target)) =>
          IsLiveName(target) ==>
            var trash := TRASH + trashStamp;
            && (ok <==> SwapOk(old(entries), target, trash, outcome, old(calls)))
            && (!ok ==> entries == SwapFailed(old(entries), target, trash, outcome, old(calls)))
            && (ok ==> p in old(entries) && target in entries && entries[target] == old(entries)[p] && p !in entries)
            && (ok && Failures() == old(Failures()) ==> entries == RolledBack(old(entries), trash))
      ensures Reachable(old(entries), live, was) ==>
                && Reachable(entries, live, was)
                && (forall fs | fs in visited :: fs in old(visited) || Reachable(fs, live, was))
                && (Failures() == old(Failures()) && !(live in old(entries) && TRASH + trashStamp in old(entries)) ==>
                      live in entries && entries[live] == Dir(was))
    {
      var prevs := set n | n in entries && IsPrev(entries, n);
      assert forall n | IsPrev(entries, n) :: n in prevs;
      if prevs == {} {
        return false;
      }
      var newest := Greatest(prevs);
      NewestIsUnique(entries, newest);
      var name := LiveNameOf(entries[newest].bundle);
      if name == None {
        return false;
      }
      ok := SwapBack(newest, name.value, TRASH + trashStamp, live, was);
    }

    /** The two renames and the clean-up. */
    method SwapBack(newest: string, target: string, trash: string, ghost live: string, ghost was: Bundle) returns (ok: bool)
      requires IsLiveName(live) && TRASH <= trash
      requires IsPrev(entries, newest) && LiveNameOf(entries[newest].bundle) == Some(target)
      modifies this
      ensures old(Failures()) <= Failures()
      ensures IsLiveName(target) ==>
                && (ok <==> SwapOk(old(entries), target, trash, outcome, old(calls)))
                && (!ok ==> entries == SwapFailed(old(entries), target, trash, outcome, old(calls)))
                && (ok ==> target in entries && entries[target] == old(entries)[newest] && newest !in entries)
                && (Failures() == old(Failures()) ==> (ok <==> !(target in old(entries) && trash in old(entries))))
                && (ok && Failures() == old(Failures()) ==>
                      entries == (old(entries) - {newest, target, trash})[target := old(entries)[newest]])
      ensures Held(old(entries), newest, live, was) ==>
                && Reachable(entries, live, was)
                && (forall fs | fs in visited :: fs in old(visited) || Reachable(fs, live, was))
                && target == live
    {
      hide Reachable, Held, SameBut, LiveNameOf, IsPrev, CountFailures;
      ghost var fs0, held, good := entries, Held(entries, newest, live, was), IsLiveName(target);
      if good {
        NamesDiffer(fs0, newest, target, trash);
        SwapEffect(fs0, newest, target, trash);
      }
      if held {
        HeldIsReachable(fs0, newest, target, live, was);
      }
      if target in entries {
        ok := Rename(target, trash);
        if !ok {
          return;
        }
        if held {
          RenameKeepsHeld(fs0, newest, target, trash, live, was);
        }
      }
      ghost var fs1 := entries;
      ok := Rename(newest, target);
      if !ok {
        var undone := Rename(trash, target);
        if held && undone {
          RenameKeepsHeld(fs1, newest, trash, target, live, was);
        }
        if good && target in fs0 {
          MovedBack(fs0, target, trash);
        }
        return;
      }
      if held {
        SwapIsReachable(fs1, newest, live, trash, was);
      }
      ghost var fs2 := entries;
      RemoveAll(trash);
      if good {
        KeptBut(fs2, entries, trash, target, newest);
      }
    }
  }

  lemma MovedBack(fs: Fs, target: string, trash: string)
    requires target in fs && trash !in fs
    ensures Moved(Moved(fs, target, trash), trash, target) == fs
  {
  }

  lemma KeptBut(fs: Fs, fs': Fs, trash: string, target: string, p: string)
    requires SameBut(fs, fs', trash) && target in fs && p !in fs && target != trash && p != trash
    ensures target in fs' && fs'[target] == fs[target] && p !in fs'
  {
  }

  /** At most the entry `name` differs, and it did not become a directory. */
  ghost predicate SameBut(fs: Fs, fs': Fs, name: string) {
    && (forall n | n != name :: n in fs' <==> n in fs)
    && (forall n | n != name && n in fs' :: fs'[n] == fs[n])
    && (name in fs' ==> name in fs && (fs'[name].Dir? <==> fs[name].Dir?))
  }

  /** Only previous directories that are not the newest were damaged or removed. */
  ghost predicate OlderOnly(fs: Fs, fs': Fs) {
    && (forall n | n in fs && !(IsPrev(fs, n) && !IsNewest(fs, n)) :: n in fs' && fs'[n] == fs[n])
    && (forall n | n in fs' :: n in fs && (fs'[n].Dir? <==> fs[n].Dir?))
  }

  lemma AtMostOneIsNewest(fs: Fs, prevs: set<string>)
    requires prevs == (set n | n in fs && IsPrev(fs, n)) && |prevs| <= 1
    ensures Pruned(fs) == fs && OlderOnly(fs, fs)
  {
    forall m, n | IsPrev(fs, m) && IsPrev(fs, n)
      ensures m == n
    {
      assert |prevs - {m}| == 0;
      assert n !in prevs - {m};
    }
  }

  lemma PrunedKeepsNewest(fs: Fs, prevs: set<string>, newest: string)
    requires prevs == set n | n in fs && IsPrev(fs, n)
    requires newest in prevs && forall n | n in prevs :: n == newest || Less(n, newest)
    ensures IsNewest(fs, newest) && fs - (prevs - {newest}) == Pruned(fs)
  {
    forall n | IsPrev(fs, n)
      ensures IsNewest(fs, n) <==> n == newest
    {
      LessIsTotal(n, newest);
    }
  }

  lemma OlderOnlyRefl(fs: Fs)
    ensures OlderOnly(fs, fs)
  {
  }

  lemma OlderOnlyStep(fs0: Fs, fs: Fs, n: string, newest: string)
    requires OlderOnly(fs0, fs) && IsNewest(fs0, newest) && IsPrev(fs0, n) && n != newest
    ensures forall fs' | SameBut(fs, fs', n) :: OlderOnly(fs0, fs')
  {
    LessIsTotal(n, newest);
  }

  /** At most the live entry differs. */
  ghost predicate SameElsewhere(fs: Fs, fs': Fs, live: string) {
    (forall n | n != live :: n in fs' <==> n in fs) && (forall n | n != live && n in fs' :: fs'[n] == fs[n])
  }

  lemma NothingIsAPoint(fs: Fs, live: string, staged: Bundle, stamp: string)
    ensures InstallPoint(fs, fs, live, staged, stamp)
  {
  }

  lemma ArchivePoints(fs: Fs, fs1: Fs, live: string, staged: Bundle, stamp: string)
    requires IsLiveName(live) && live in fs && Prev(stamp) !in fs && OlderOnly(Moved(fs, live, Prev(stamp)), fs1)
    ensures forall fs' | OlderOnly(Moved(fs, live, Prev(stamp)), fs') :: InstallPoint(fs, fs', live, staged, stamp)
    ensures forall fs' | SameElsewhere(fs1, fs', live) && Staged(fs', live, staged) :: InstallPoint(fs, fs', live, staged, stamp)
  {
    hide OlderOnly, InstallPoint, SameElsewhere, Staged;
    forall fs' | OlderOnly(Moved(fs, live, Prev(stamp)), fs')
      ensures InstallPoint(fs, fs', live, staged, stamp)
    {
      LiveIsFree(fs, live, stamp, fs');
      SameElsewhereRefl(fs', live, staged);
      ArchivePoint(fs, fs', fs', live, staged, stamp);
    }
    LiveIsFree(fs, live, stamp, fs1);
    forall fs' | SameElsewhere(fs1, fs', live) && Staged(fs', live, staged)
      ensures InstallPoint(fs, fs', live, staged, stamp)
    {
      ArchivePoint(fs, fs1, fs', live, staged, stamp);
    }
  }

  lemma SameElsewhereRefl(fs: Fs, live: string, staged: Bundle)
    ensures SameElsewhere(fs, fs, live) && (live !in fs ==> Staged(fs, live, staged))
  {
  }

  lemma ArchivePoint(fs: Fs, fs1: Fs, fs': Fs, live: string, staged: Bundle, stamp: string)
    requires live in fs && Prev(stamp) !in fs && OlderOnly(Moved(fs, live, Prev(stamp)), fs1) && live !in fs1
    requires SameElsewhere(fs1, fs', live) && Staged(fs', live, staged)
    ensures InstallPoint(fs, fs', live, staged, stamp)
  {
    hide OlderOnly, Staged;
    assert fs' - {live} == fs1;
  }

  lemma FillPoints(fs: Fs, live: string, staged: Bundle, stamp: string)
    requires live !in fs
    ensures forall fs' | SameElsewhere(fs, fs', live) && Staged(fs', live, staged) :: InstallPoint(fs, fs', live, staged, stamp)
  {
    forall fs' | SameElsewhere(fs, fs', live) && Staged(fs', live, staged)
      ensures InstallPoint(fs, fs', live, staged, stamp)
    {
      assert fs' - {live} == fs;
    }
  }

  lemma LaterIsLess(m: string, p: string)
    requires LaterName(m, p)
    ensures Less(m, p)
  {
    LessMeans(m, p);
  }

  /** For names of one length, as those of time stamps, `LaterName` is the order of names. */
  lemma LaterIffLess(m: string, p: string)
    requires |m| == |p|
    ensures LaterName(m, p) <==> Less(m, p)
  {
    LessMeans(m, p);
    if i: nat :| FirstDifference(m, p, i) && (i == |m| || m[i] < p[i]) {
      assert i < |m|;
    }
  }

  lemma LatestIsNewest(fs: Fs, p: string)
    requires LatestArchive(fs, p)
    ensures IsNewest(fs, p)
  {
    forall m | IsPrev(fs, m) && m != p
      ensures Less(m, p)
    {
      LaterIsLess(m, p);
    }
  }

  lemma LaterIsFresher(fs: Fs, stamp: string)
    requires LaterStamp(fs, stamp)
    ensures Fresher(fs, stamp)
  {
    forall m | IsPrev(fs, m)
      ensures Less(m, Prev(stamp))
    {
      LaterIsLess(m, Prev(stamp));
    }
  }

  /** Pruning keeps the archive with the latest stamp and removes every other. */
  lemma LatestIsKept(fs: Fs)
    ensures forall p | LatestArchive(fs, p) :: Pruned(fs) == map n | n in fs && (fs[n].Dir? && ".previous-" <= n ==> n == p) :: fs[n]
  {
    forall p | LatestArchive(fs, p)
      ensures Pruned(fs) == map n | n in fs && (fs[n].Dir? && ".previous-" <= n ==> n == p) :: fs[n]
    {
      LatestIsNewest(fs, p);
      NewestIsUnique(fs, p);
    }
  }

  /** The rollback goes to the archive with the latest stamp, and back to `<distro>-<arch>` of its marker. */
  lemma RollbackTargetIs(fs: Fs, p: string)
    requires LatestArchive(fs, p)
    ensures RollbackTarget(fs) ==
            match fs[p].bundle.marker
            case None => None
            case Some(m) => if m.distro == "" then None else Some((p, m.distro + "-" + m.arch))
  {
    LatestIsNewest(fs, p);
    NewestIsUnique(fs, p);
  }

  /** Under a later stamp, a bundle that is live stays so or is in the latest archive wherever the install is broken off. */
  lemma PointsAreIntact(fs: Fs, live: string, staged: Bundle, stamp: string, was: Bundle)
    requires IsLiveName(live)
    ensures live in fs && fs[live] == Dir(was) && LaterStamp(fs, stamp) ==>
              forall fs' | InstallPoint(fs, fs', live, staged, stamp) :: Intact(fs', live, stamp, was)
  {
    if live in fs && fs[live] == Dir(was) && LaterStamp(fs, stamp) {
      LaterIsFresher(fs, stamp);
      ArchiveIsNewest(fs, live, stamp, was);
      NotLive(stamp, live);
      NameKinds(live);
      hide LaterName;
      forall fs': Fs | InstallPoint(fs, fs', live, staged, stamp)
        ensures Intact(fs', live, stamp, was)
      {
        if fs' != fs {
          var base, rest, p := Moved(fs, live, Prev(stamp)), fs' - {live}, Prev(stamp);
          NewestSurvives(base, rest, p);
          assert p in fs' && fs'[p] == Dir(was);
          forall m: string | m in fs' && fs'[m].Dir? && ".previous-" <= m && m != p
            ensures LaterName(m, p)
          {
            assert m in rest && m in base && m in fs && fs[m].Dir?;
          }
        }
      }
    }
  }

  /** Under a fresher stamp, a bundle that is live is recoverable wherever the install is broken off. */
  lemma PointsAreRecoverable(fs: Fs, live: string, staged: Bundle, stamp: string, was: Bundle)
    requires IsLiveName(live)
    ensures live in fs && fs[live] == Dir(was) && Fresher(fs, stamp) ==>
              forall fs' | InstallPoint(fs, fs', live, staged, stamp) :: Recoverable(fs', live, was)
  {
    if live in fs && fs[live] == Dir(was) && Fresher(fs, stamp) {
      ArchiveIsNewest(fs, live, stamp, was);
      hide OlderOnly, Fresher;
      forall fs' | InstallPoint(fs, fs', live, staged, stamp)
        ensures Recoverable(fs', live, was)
      {
        if fs' != fs {
          assert SameElsewhere(fs' - {live}, fs', live);
        }
      }
    }
  }

  /** Archiving under a fresher stamp, with anything done to older previous directories and to the live path
      afterwards, keeps the archived bundle recoverable. */
  lemma ArchiveIsNewest(fs: Fs, live: string, stamp: string, b: Bundle)
    requires IsLiveName(live) && live in fs && fs[live] == Dir(b) && Fresher(fs, stamp)
    ensures var fs1 := Moved(fs, live, Prev(stamp));
      && IsNewest(fs1, Prev(stamp))
      && Recoverable(fs1, live, b)
      && (forall fs2 | OlderOnly(fs1, fs2) :: Recoverable(fs2, live, b))
      && (forall fs2, fs3 | OlderOnly(fs1, fs2) && SameElsewhere(fs2, fs3, live) :: Recoverable(fs3, live, b))
  {
  }

  lemma PromoteElsewhere(fs: Fs, live: string, e: Entry)
    ensures SameElsewhere(fs, fs, live) && SameElsewhere(fs, fs[live := e], live)
    ensures forall fs' | SameElsewhere(fs[live := e], fs', live) :: SameElsewhere(fs, fs', live)
  {
  }

  lemma NewestIsUnique(fs: Fs, newest: string)
    requires IsPrev(fs, newest) && forall n | IsPrev(fs, n) :: n == newest || Less(n, newest)
    ensures IsNewest(fs, newest) && forall p | IsNewest(fs, p) :: p == newest
  {
    forall p | IsNewest(fs, p)
      ensures p == newest
    {
      LessIsTotal(p, newest);
    }
  }

  lemma HeldIsReachable(fs: Fs, p: string, target: string, live: string, was: Bundle)
    requires Held(fs, p, live, was) && LiveNameOf(fs[p].bundle) == Some(target)
    ensures target == live && Reachable(fs, live, was)
  {
  }

  lemma SwapEffect(fs: Fs, p: string, target: string, trash: string)
    requires IsPrev(fs, p) && IsLiveName(target) && TRASH <= trash
    ensures var fs1 := if target in fs then Moved(fs, target, trash) else fs;
      p in fs1 && Moved(fs1, p, target) - {trash} == (fs - {p, target, trash})[target := fs[p]]
  {
    NameKinds(p);
    assert trash[0] == TRASH[0] && trash != target && p != target && p != trash;
  }

  lemma NamesDiffer(fs: Fs, p: string, target: string, trash: string)
    requires IsPrev(fs, p) && IsLiveName(target) && TRASH <= trash
    ensures p in fs && p != target && p != trash && target != trash
  {
    NameKinds(p);
    assert trash[0] == TRASH[0];
  }

  /** Archiving and pruning leave the live path free. */
  lemma LiveIsFree(fs: Fs, live: string, stamp: string, pruned: Fs)
    requires live in fs && IsLiveName(live) && OlderOnly(Moved(fs, live, Prev(stamp)), pruned)
    ensures live !in Moved(fs, live, Prev(stamp)) && live !in pruned
  {
    assert PREVIOUS <= Prev(stamp) && Prev(stamp)[0] == PREVIOUS[0];
  }

  lemma NameKinds(name: string)
    ensures PREVIOUS <= name ==> name[0] == '.' && !(TRASH <= name)
  {
    if PREVIOUS <= name {
      assert name[1] == PREVIOUS[1] != TRASH[1];
    }
  }

  /** Renames between the live path and a trash name leave the held bundle alone. */
  lemma RenameKeepsHeld(fs: Fs, p: string, src: string, dst: string, live: string, was: Bundle)
    requires Held(fs, p, live, was) && src in fs && dst !in fs && IsLiveName(live)
    requires (src == live && TRASH <= dst) || (TRASH <= src && dst == live)
    ensures Held(Moved(fs, src, dst), p, live, was) && Reachable(Moved(fs, src, dst), live, was)
  {
    NameKinds(src);
    NameKinds(dst);
    var fs' := Moved(fs, src, dst);
    forall m | IsPrev(fs', m)
      ensures m == p
    {
      assert m != dst && IsPrev(fs, m);
    }
    assert Held(fs', p, live, was);
  }

  lemma SwapIsReachable(fs: Fs, p: string, live: string, trash: string, was: Bundle)
    requires Held(fs, p, live, was) && IsLiveName(live) && live !in fs && TRASH <= trash
    ensures var fs2 := Moved(fs, p, live);
      && Reachable(fs2, live, was)
      && forall fs' | SameBut(fs2, fs', trash) :: Reachable(fs', live, was) && fs'[live] == Dir(was)
  {
    NameKinds(live);
    NameKinds(trash);
    assert live != trash by {
      assert trash[0] == TRASH[0];
    }
    var fs2 := Moved(fs, p, live);
    forall m
      ensures !IsPrev(fs2, m)
    {
      assert m != live ==> (IsPrev(fs2, m) <==> m != p && IsPrev(fs, m));
    }
    forall fs' | SameBut(fs2, fs', trash)
      ensures Reachable(fs', live, was) && fs'[live] == Dir(was)
    {
      forall m
        ensures !IsPrev(fs', m)
      {
        assert m != trash ==> (IsPrev(fs', m) <==> IsPrev(fs2, m));
      }
    }
  }

  // ----- whole-operation results -----

  /** A failure-free install keeps the bundle it replaced exactly when its time stamp is later than every
      archive in the directory; with a clock that went back, pruning removes the archive just made. */
  lemma ArchiveSurvivesIffFresher(fs: Fs, live: string, next: Bundle, stamp: string)
    requires IsLiveName(live) && live in fs && fs[live].Dir? && Prev(stamp) !in fs
    ensures Prev(stamp) in Installed(fs, live, next, stamp) <==> Fresher(fs, stamp)
  {
  }

  /** A failure-free install over a complete bundle leaves that bundle as the only one to go back to. */
  lemma InstallIsReversible(fs: Fs, live: string, was: Bundle, next: Bundle, stamp: string)
    requires IsLiveName(live) && live in fs && fs[live] == Dir(was) && Complete(was, live) && Fresher(fs, stamp)
    ensures Held(Installed(fs, live, next, stamp), Prev(stamp), live, was)
  {
    ArchiveIsNewest(fs, live, stamp, was);
    var p, fs1 := Prev(stamp), Moved(fs, live, Prev(stamp));
    NewestIsUnique(fs1, p);
    NameKinds(live);
    forall m | IsPrev(Installed(fs, live, next, stamp), m)
      ensures m == p
    {
      assert m != live && IsPrev(fs1, m);
    }
  }

  /** Install over a complete bundle, then rollback: exactly the old directory without its previous directories. */
  lemma InstallThenRollback(fs: Fs, live: string, was: Bundle, next: Bundle, stamp: string, trash: string)
    requires IsLiveName(live) && live in fs && fs[live] == Dir(was) && Fresher(fs, stamp)
    requires was.marker.Some? && was.marker.value.distro != "" && live == was.marker.value.distro + "-" + was.marker.value.arch
    requires ".trash-" <= trash && trash !in fs
    ensures RolledBack(Installed(fs, live, next, stamp), trash)
            == map n | n in fs && !(fs[n].Dir? && ".previous-" <= n) :: fs[n]
  {
    InstallIsReversible(fs, live, was, next, stamp);
    var p, fs1, fs2 := Prev(stamp), Moved(fs, live, Prev(stamp)), Installed(fs, live, next, stamp);
    NewestIsUnique(fs2, p);
    NameKinds(live);
    NameKinds(p);
    assert RollbackTarget(fs2) == Some((p, live));
    forall n | n != p && n != live
      ensures n in fs2 <==> n in fs && !IsPrev(fs, n)
    {
      if n in fs2 {
        assert IsPrev(fs, n) ==> IsPrev(fs2, n);
      } else if n in fs {
        assert IsPrev(fs1, n) ==> IsPrev(fs, n);
      }
    }
  }

  // ----- rollback targets over several installs -----

  /** After an install that was broken off anywhere, the rollback target is the bundle just archived, if its marker can be
      read, and the former target if none was archived. */
  lemma TargetAfterInstallPoint(fs: Fs, fs': Fs, live: string, staged: Bundle, stamp: string)
    requires IsLiveName(live) && Fresher(fs, stamp) && InstallPoint(fs, fs', live, staged, stamp)
    ensures RollbackTarget(fs').Some? <==>
            if ArchivedDir(fs, fs', live, stamp) then LiveNameOf(fs[live].bundle).Some? else RollbackTarget(fs).Some?
  {
    hide RollbackTarget, OlderOnly, LiveNameOf;
    if fs' == fs {
    } else if live !in fs {
      assert fs' - {live} == fs;
      SameArchives(fs' - {live}, fs', live);
    } else {
      var base, rest := Moved(fs, live, Prev(stamp)), fs' - {live};
      SameArchives(rest, fs', live);
      ArchivesOfBase(fs, live, stamp);
      PrunedTarget(base, rest);
      if fs[live].Dir? {
        ArchiveIsNewest(fs, live, stamp, fs[live].bundle);
        TargetOfNewest(base, Prev(stamp));
        NewestSurvives(base, rest, Prev(stamp));
        NotLive(stamp, live);
      }
    }
  }

  lemma NotLive(stamp: string, live: string)
    requires IsLiveName(live)
    ensures Prev(stamp) != live
  {
    assert Prev(stamp)[0] == PREVIOUS[0];
  }

  /** The live entry is no archive. */
  lemma SameArchives(fs: Fs, fs': Fs, live: string)
    requires IsLiveName(live) && fs' - {live} == fs
    ensures RollbackTarget(fs').Some? <==> RollbackTarget(fs).Some?
  {
    NameKinds(live);
    assert forall m | m != live :: (m in fs <==> m in fs') && (m in fs ==> fs[m] == fs'[m]);
    SameTarget(fs, fs');
  }

  lemma ArchivesOfBase(fs: Fs, live: string, stamp: string)
    requires IsLiveName(live) && live in fs && Prev(stamp) !in fs
    ensures !fs[live].Dir? ==> (RollbackTarget(Moved(fs, live, Prev(stamp))).Some? <==> RollbackTarget(fs).Some?)
  {
    NameKinds(live);
    if !fs[live].Dir? {
      SameTarget(fs, Moved(fs, live, Prev(stamp)));
    }
  }

  lemma NewestSurvives(fs: Fs, fs': Fs, p: string)
    requires OlderOnly(fs, fs') && IsNewest(fs, p)
    ensures IsNewest(fs', p) && fs'[p] == fs[p]
  {
  }

  /** Without a newest archive there is none. */
  lemma NoArchives(fs: Fs)
    requires forall p :: !IsNewest(fs, p)
    ensures forall m :: !IsPrev(fs, m)
  {
    var prevs := set n | n in fs && IsPrev(fs, n);
    if m :| IsPrev(fs, m) {
      assert m in prevs;
      var top := HasGreatest(prevs);
      assert IsNewest(fs, top);
    }
  }

  lemma NoTarget(fs: Fs)
    requires forall m :: !IsPrev(fs, m)
    ensures RollbackTarget(fs) == None
  {
  }

  lemma PrunedTarget(fs: Fs, fs': Fs)
    requires OlderOnly(fs, fs')
    ensures RollbackTarget(fs').Some? <==> RollbackTarget(fs).Some?
  {
    hide RollbackTarget;
    if p :| IsNewest(fs, p) {
      NewestSurvives(fs, fs', p);
      TargetOfNewest(fs, p);
      TargetOfNewest(fs', p);
    } else {
      NoArchives(fs);
      forall m
        ensures !IsPrev(fs', m)
      {
        assert !IsPrev(fs, m);
      }
      NoTarget(fs);
      NoTarget(fs');
    }
  }

  predicate ArchivedDir(fs: Fs, fs': Fs, live: string, stamp: string) {
    live in fs && fs[live].Dir? && Prev(stamp) !in fs && Prev(stamp) in fs'
  }

  lemma TargetOfNewest(fs: Fs, p: string)
    requires IsNewest(fs, p)
    ensures RollbackTarget(fs).Some? <==> LiveNameOf(fs[p].bundle).Some?
  {
    NewestIsUnique(fs, p);
  }

  lemma SameTarget(fs: Fs, fs': Fs)
    requires forall p :: IsNewest(fs', p) <==> IsNewest(fs, p)
    requires forall p | IsNewest(fs, p) && IsNewest(fs', p) :: fs'[p] == fs[p]
    ensures RollbackTarget(fs').Some? <==> RollbackTarget(fs).Some?
  {
    if p :| IsNewest(fs, p) {
      TargetOfNewest(fs, p);
      TargetOfNewest(fs', p);
    }
  }

  /** A failure-free install over any live bundle can be rolled back exactly if that bundle's marker can be read. */
  lemma TargetAfterInstallIff(fs: Fs, live: string, was: Bundle, next: Bundle, stamp: string)
    requires IsLiveName(live) && live in fs && fs[live] == Dir(was) && Fresher(fs, stamp)
    ensures RollbackTarget(Installed(fs, live, next, stamp)).Some? <==> LiveNameOf(was).Some?
  {
    InstalledIsAPoint(fs, live, next, stamp);
    ArchiveSurvivesIffFresher(fs, live, next, stamp);
    TargetAfterInstallPoint(fs, Installed(fs, live, next, stamp), live, next, stamp);
  }

  lemma InstalledIsAPoint(fs: Fs, live: string, next: Bundle, stamp: string)
    requires IsLiveName(live) && live in fs && Prev(stamp) !in fs
    ensures InstallPoint(fs, Installed(fs, live, next, stamp), live, next, stamp)
  {
    var base := Moved(fs, live, Prev(stamp));
    NotLive(stamp, live);
    assert live !in Pruned(base);
    assert Installed(fs, live, next, stamp) - {live} == Pruned(base);
    assert OlderOnly(base, Pruned(base));
  }

  datatype Attempt = Attempt(staged: Bundle, stamp: string)

  /** The directory before and after each of several installs, each broken off anywhere or complete. */
  ghost predicate InstallRun(states: seq<Fs>, attempts: seq<Attempt>, live: string) {
    && |states| == |attempts| + 1
    && forall i | 0 <= i < |attempts| ::
         Fresher(states[i], attempts[i].stamp) && InstallPoint(states[i], states[i + 1], live, attempts[i].staged, attempts[i].stamp)
  }

  predicate Archives(states: seq<Fs>, attempts: seq<Attempt>, live: string, i: nat)
    requires i < |attempts| && |states| == |attempts| + 1
  {
    ArchivedDir(states[i], states[i + 1], live, attempts[i].stamp)
  }

  /** No install from the i-th on archives anything. */
  ghost predicate QuietFrom(states: seq<Fs>, attempts: seq<Attempt>, live: string, i: nat)
    requires |states| == |attempts| + 1
  {
    forall n: nat | i <= n < |attempts| :: !Archives(states, attempts, live, n)
  }

  /** After any number of installs, complete or not, a rollback target exists exactly if the last bundle that was archived
      had a readable marker, or none was archived and there was a target at the start. */
  lemma {:induction false} TargetSurvivesIff(states: seq<Fs>, attempts: seq<Attempt>, live: string)
    requires IsLiveName(live) && InstallRun(states, attempts, live)
    ensures RollbackTarget(states[|attempts|]).Some? <==>
            || (RollbackTarget(states[0]).Some? && QuietFrom(states, attempts, live, 0))
            || (exists j: nat | j < |attempts| :: Archives(states, attempts, live, j) && QuietFrom(states, attempts, live, j + 1)
                                                 && LiveNameOf(states[j][live].bundle).Some?)
  {
    hide RollbackTarget, InstallPoint, Fresher, ArchivedDir, LiveNameOf;
    if attempts != [] {
      var n := |attempts| - 1;
      var s, a := states[..n + 1], attempts[..n];
      assert forall i: nat | i < n :: Archives(s, a, live, i) == Archives(states, attempts, live, i);
      TargetSurvivesIff(s, a, live);
      TargetAfterInstallPoint(states[n], states[n + 1], live, attempts[n].staged, attempts[n].stamp);
      if Archives(states, attempts, live, n) {
        assert QuietFrom(states, attempts, live, n + 1);
      } else {
        assert forall j: nat | j <= n :: QuietFrom(states, attempts, live, j) <==> QuietFrom(s, a, live, j);
      }
    }
  }

  /** An install that stops between promotion and marker, followed by a complete one, loses the last complete bundle. */
  lemma MarkerlessBundleLosesTheTarget(fs: Fs, live: string, was: Bundle, staged: Bundle, next: Bundle, stamp: string, later: string)
    requires IsLiveName(live) && live in fs && fs[live] == Dir(was) && Complete(was, live) && Fresher(fs, stamp)
    requires Fresher(Installed(fs, live, staged.(marker := None), stamp), later)
    ensures var torn := Installed(fs, live, staged.(marker := None), stamp);
      RollbackTarget(torn).Some? && RollbackTarget(Installed(torn, live, next, later)) == None
  {
    TargetAfterInstallIff(fs, live, was, staged.(marker := None), stamp);
    TargetAfterInstallIff(Installed(fs, live, staged.(marker := None), stamp), live, staged.(marker := None), next, later);
  }
}
