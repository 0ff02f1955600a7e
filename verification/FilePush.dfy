/** Config pushes on a node: back up, write a temporary file, rename, run the apply action, and roll back when the
    action fails. Every file operation may fail, and copies and writes may fail half way; which copies, other file
    operations and actions succeed is given beforehand. */
module FilePush {
  import opened Common

  datatype File = File(content: string, mode: int)

  type Files = map<string, File>

  // ----- comparing file systems -----

  ghost predicate SameAt(fs0: Files, fs: Files, path: string) {
    (path in fs <==> path in fs0) && (path in fs ==> fs[path] == fs0[path])
  }

  ghost predicate OnlyAt(fs0: Files, fs: Files, paths: set<string>) {
    && (forall p | p !in paths :: p in fs <==> p in fs0)
    && (forall p | p !in paths && p in fs :: fs[p] == fs0[p])
  }

  predicate Holds(fs: Files, path: string, content: string) {
    path in fs && fs[path].content == content
  }

  function Bak(path: string): (r: string)
    ensures r != path
  {
    path + ".bak"
  }

  function Tmp(path: string): (r: string)
    ensures r != path && r != Bak(path)
  {
    assert (path + ".tmp")[|path| + 1] == 't' && (path + ".bak")[|path| + 1] == 'b';
    path + ".tmp"
  }

  function Footprint(path: string): set<string> {
    {path, Bak(path), Tmp(path)}
  }

  predicate Placed(fs: Files, path: string, content: string, mode: int) {
    path in fs && fs[path] == File(content, mode)
  }

  /** The file is in place; an old file is in the backup, and without an old file the backup is untouched. */
  ghost predicate Written(fs0: Files, fs: Files, path: string, content: string, mode: int) {
    && Placed(fs, path, content, mode)
    && (if path in fs0 then Holds(fs, Bak(path), fs0[path].content) else SameAt(fs0, fs, Bak(path)))
  }

  datatype CopyResult = Copied | NotExist | CopyError

  class FileSystem {
    const copyOk: nat -> bool // which copies succeed, if the source exists
    const opOk: nat -> bool   // which other operations succeed
    var files: Files
    var copies: nat
    var ops: nat

    constructor (files: Files, copyOk: nat -> bool, opOk: nat -> bool)
      ensures this.files == files && copies == 0 && ops == 0 && this.copyOk == copyOk && this.opOk == opOk
    {
      this.copyOk, this.opOk := copyOk, opOk;
      this.files, copies, ops := files, 0, 0;
    }

    ghost predicate Reliable() {
      (forall n: nat :: copyOk(n)) && (forall n: nat :: opOk(n))
    }

    /** Truncates the target and copies the content; the target keeps its mode if it exists. */
    method CopyFile(src: string, dst: string) returns (res: CopyResult)
      requires src != dst
      modifies this`files, this`copies
      ensures copies == old(copies) + 1
      ensures res == NotExist <==> src !in old(files)
      ensures res == Copied <==> src in old(files) && copyOk(old(copies))
      ensures res == NotExist ==> files == old(files)
      ensures res == Copied ==>
        var old' := old(files);
        files == old'[dst := File(old'[src].content, old'[if dst in old' then dst else src].mode)]
      ensures OnlyAt(old(files), files, {dst})
    {
      var n := copies;
      copies := copies + 1;
      if src !in files {
        return NotExist;
      }
      var mode := if dst in files then files[dst].mode else files[src].mode;
      if !copyOk(n) {
        var truncated: bool := *;
        if truncated {
          var part: string := *;
          files := files[dst := File(part, mode)];
        }
        return CopyError;
      }
      files := files[dst := File(files[src].content, mode)];
      return Copied;
    }

    method Call() returns (ok: bool)
      modifies this`ops
      ensures ok == opOk(old(ops)) && ops == old(ops) + 1
    {
      ok := opOk(ops);
      ops := ops + 1;
    }

    method WriteFile(path: string, content: string, mode: int) returns (ok: bool)
      modifies this`files, this`ops
      ensures ok == opOk(old(ops))
      ensures OnlyAt(old(files), files, {path})
      ensures ok ==> Holds(files, path, content)
    {
      ok := Call();
      var created: bool := *;
      if ok || created {
        var part: string := *;
        files := files[path := File(if ok then content else part, if path in files then files[path].mode else mode)];
      }
    }

    method Chmod(path: string, mode: int) returns (ok: bool)
      modifies this`files, this`ops
      ensures ok <==> opOk(old(ops)) && path in old(files)
      ensures files == if ok then old(files)[path := old(files)[path].(mode := mode)] else old(files)
    {
      ok := Call();
      ok := ok && path in files;
      if ok {
        files := files[path := files[path].(mode := mode)];
      }
    }

    method Rename(src: string, dst: string) returns (ok: bool)
      requires src != dst
      modifies this`files, this`ops
      ensures ok <==> opOk(old(ops)) && src in old(files)
      ensures files == if ok then (old(files) - {src})[dst := old(files)[src]] else old(files)
    {
      ok := Call();
      ok := ok && src in files;
      if ok {
        files := (files - {src})[dst := files[src]];
      }
    }

    /** Best effort. */
    method Remove(path: string)
      modifies this`files, this`ops
      ensures files == if opOk(old(ops)) then old(files) - {path} else old(files)
    {
      var ok := Call();
      if ok {
        files := files - {path};
      }
    }

    /** Writes and moves a file into place; `tidy` removes the temporary file also after a failed write. */
    method Place(path: string, content: string, mode: int, tidy: bool) returns (ok: bool)
      modifies this`files, this`ops
      ensures OnlyAt(old(files), files, {path, Tmp(path)})
      ensures if ok then Placed(files, path, content, mode) else SameAt(old(files), files, path)
      ensures Reliable() ==> ok
    {
      ok := WriteFile(Tmp(path), content, mode);
      if !ok && !tidy {
        return false;
      }
      if ok {
        ok := Chmod(Tmp(path), mode);
      }
      if ok {
        ok := Rename(Tmp(path), path);
      }
      if !ok {
        Remove(Tmp(path));
      }
    }

    /** Backs the file up and replaces it atomically. */
    method Replace(path: string, content: string, mode: int, tidy: bool) returns (ok: bool)
      modifies this
      ensures copies == old(copies) + 1
      ensures OnlyAt(old(files), files, Footprint(path))
      ensures if ok then Written(old(files), files, path, content, mode) else SameAt(old(files), files, path)
      ensures Reliable() ==> ok
    {
      var backup := CopyFile(path, Bak(path));
      if backup == CopyError {
        return false;
      }
      ok := Place(path, content, mode, tidy);
    }
  }

  // ----- checks -----

  const SHA_PREFIX := "sha256:"

  /** `validateChecksum`, for any digest function. */
  predicate ChecksumOk(digest: string -> string, content: string, checksum: string) {
    SHA_PREFIX <= checksum && checksum[|SHA_PREFIX|..] == digest(content)
  }

  // ----- Slurm pushes -----

  const SLURM_DIR := "/etc/slurm/"
  const SLURM_FILES := {"slurm.conf", "gres.conf", "cgroup.conf", "topology.conf", "plugstack.conf", "slurmdbd.conf"}
  const SCRIPT_DIRS := [SLURM_DIR, "/usr/local/sbin/", "/usr/local/bin/", "/opt/slurm/"]
  const SLURM_LIMIT := 2097152

  datatype SlurmFile = SlurmFile(filename: string, destPath: string, content: string, checksum: string) {
    /** `resolveDestPath`: a known file name wins over the path sent by the server. */
    function Dest(): string {
      if filename in SLURM_FILES then SLURM_DIR + filename else destPath
    }

    predicate Allowed() {
      filename in SLURM_FILES || (destPath != "" && SLURM_DIR <= destPath)
    }

    predicate Acceptable(digest: string -> string) {
      Allowed() && |content| <= SLURM_LIMIT && ChecksumOk(digest, content, checksum)
    }

    function Mode(): int {
      if filename == "slurmdbd.conf" then 384 /* 0600 */ else 420 /* 0644 */
    }
  }

  datatype Script = Script(scriptType: string, destPath: string, content: string, checksum: string) {
    predicate Allowed() {
      destPath != "" && exists i | 0 <= i < |SCRIPT_DIRS| :: SCRIPT_DIRS[i] <= destPath
    }

    predicate Acceptable(digest: string -> string) {
      Allowed() && content != "" && |content| <= SLURM_LIMIT && ChecksumOk(digest, content, checksum)
    }
  }

  const SCRIPT_MODE := 493 /* 0755 */

  datatype Action = Reconfigure | Restart | Unknown

  datatype Ack = Ack(ok: bool, fileOk: seq<bool>, scriptOk: seq<bool>, attempted: bool)

  /** The pushed destinations with their backup and temporary paths do not meet. */
  ghost predicate Disjoint(files: seq<SlurmFile>, scripts: seq<Script>) {
    && (forall i, j | 0 <= i < j < |files| :: Footprint(files[i].Dest()) !! Footprint(files[j].Dest()))
    && (forall i, j | 0 <= i < |files| && 0 <= j < |scripts| :: Footprint(files[i].Dest()) !! Footprint(scripts[j].destPath))
    && (forall i, j | 0 <= i < j < |scripts| :: Footprint(scripts[i].destPath) !! Footprint(scripts[j].destPath))
  }

  /** The first `n` files were handled: written ones are in place with their backup, failed ones are as before. */
  ghost predicate Handled(fs0: Files, fs: Files, files: seq<SlurmFile>, fileOk: seq<bool>) {
    && |fileOk| <= |files|
    && (forall i | 0 <= i < |fileOk| :: FileOutcome(fs0, fs, files[i], fileOk[i]))
    && (forall i, p | |fileOk| <= i < |files| && p in Footprint(files[i].Dest()) :: SameAt(fs0, fs, p))
  }

  ghost predicate FileOutcome(fs0: Files, fs: Files, f: SlurmFile, ok: bool) {
    if ok then Written(fs0, fs, f.Dest(), f.content, f.Mode()) else SameAt(fs0, fs, f.Dest())
  }

  /** One more file: the outcomes of the others are in their own footprints. */
  lemma HandleNext(fs0: Files, fs1: Files, fs2: Files, files: seq<SlurmFile>, scripts: seq<Script>, fileOk: seq<bool>, ok: bool)
    requires Disjoint(files, scripts) && Handled(fs0, fs1, files, fileOk) && |fileOk| < |files|
    requires OnlyAt(fs1, fs2, Footprint(files[|fileOk|].Dest())) && FileOutcome(fs1, fs2, files[|fileOk|], ok)
    ensures Handled(fs0, fs2, files, fileOk + [ok])
  {
    var n := |fileOk|;
    forall i | 0 <= i < n
      ensures FileOutcome(fs0, fs2, files[i], fileOk[i])
    {
      OutcomeFramed(fs0, fs1, fs2, files[i], fileOk[i], Footprint(files[n].Dest()));
    }
    var d := files[n].Dest();
    assert forall p | p in Footprint(d) :: SameAt(fs0, fs1, p);
    assert SameAt(fs0, fs1, d) && SameAt(fs0, fs1, Bak(d));
    forall i, p | n < i < |files| && p in Footprint(files[i].Dest())
      ensures SameAt(fs0, fs2, p)
    {
      assert p !in Footprint(d) && SameAt(fs0, fs1, p);
    }
  }

  lemma OutcomeFramed(fs0: Files, fs1: Files, fs2: Files, f: SlurmFile, ok: bool, paths: set<string>)
    requires FileOutcome(fs0, fs1, f, ok) && OnlyAt(fs1, fs2, paths) && Footprint(f.Dest()) !! paths
    ensures FileOutcome(fs0, fs2, f, ok)
  {
  }

  /** Every file was written. */
  ghost predicate AllWritten(fs0: Files, fs: Files, files: seq<SlurmFile>) {
    forall i | 0 <= i < |files| :: FileOutcome(fs0, fs, files[i], true)
  }

  lemma WrittenFramed(fs0: Files, fs1: Files, fs2: Files, files: seq<SlurmFile>, paths: set<string>)
    requires AllWritten(fs0, fs1, files) && OnlyAt(fs1, fs2, paths)
    requires forall i | 0 <= i < |files| :: Footprint(files[i].Dest()) !! paths
    ensures AllWritten(fs0, fs2, files)
  {
  }

  /** The first scripts were handled; the others are as before. */
  ghost predicate ScriptsHandled(fs0: Files, fs: Files, scripts: seq<Script>, scriptOk: seq<bool>) {
    && |scriptOk| <= |scripts|
    && forall j | 0 <= j < |scripts| :: ScriptOutcome(fs0, fs, scripts[j], j < |scriptOk| && scriptOk[j])
  }

  ghost predicate ScriptOutcome(fs0: Files, fs: Files, s: Script, ok: bool) {
    if ok then Placed(fs, s.destPath, s.content, SCRIPT_MODE) else SameAt(fs0, fs, s.destPath)
  }

  lemma ScriptsFramed(fs0: Files, fs1: Files, fs2: Files, scripts: seq<Script>, scriptOk: seq<bool>, paths: set<string>)
    requires ScriptsHandled(fs0, fs1, scripts, scriptOk) && OnlyAt(fs1, fs2, paths)
    requires forall j | 0 <= j < |scripts| :: scripts[j].destPath !in paths
    ensures ScriptsHandled(fs0, fs2, scripts, scriptOk)
  {
  }

  lemma ScriptHandled(fs0: Files, fs1: Files, fs2: Files, scripts: seq<Script>, scriptOk: seq<bool>, ok: bool)
    requires ScriptsHandled(fs0, fs1, scripts, scriptOk) && |scriptOk| < |scripts|
    requires var s := scripts[|scriptOk|];
      && OnlyAt(fs1, fs2, {s.destPath, Tmp(s.destPath)})
      && ScriptOutcome(fs1, fs2, s, ok)
      && forall j | 0 <= j < |scripts| && j != |scriptOk| :: scripts[j].destPath !in {s.destPath, Tmp(s.destPath)}
    ensures ScriptsHandled(fs0, fs2, scripts, scriptOk + [ok])
  {
  }

  /** What the rollback of a file leaves if its copy succeeds: the mode of the push, with the old content if the file
      existed, else with the content of a backup from an earlier push if there is one, else with the pushed content. */
  ghost predicate RolledBack(fs0: Files, fs: Files, f: SlurmFile) {
    var d := f.Dest();
    Placed(fs, d, if d in fs0 then fs0[d].content else if Bak(d) in fs0 then fs0[Bak(d)].content else f.content, f.Mode())
  }

  /** The content or absence of a path is as before. */
  ghost predicate AsBefore(fs0: Files, fs: Files, path: string) {
    if path in fs0 then Holds(fs, path, fs0[path].content) else path !in fs
  }

  /** A successful rollback brings a destination's content back exactly when it existed before the push, and the whole
      file exactly when it also had the mode of the push. */
  lemma RollbackRestoresIffExisted(fs0: Files, fs: Files, f: SlurmFile)
    requires RolledBack(fs0, fs, f)
    ensures AsBefore(fs0, fs, f.Dest()) <==> f.Dest() in fs0
    ensures SameAt(fs0, fs, f.Dest()) <==> f.Dest() in fs0 && fs0[f.Dest()].mode == f.Mode()
  {
  }

  // ----- the checks, spelled out -----

  /** The content has the announced SHA-256, is at most 2 MiB long, and is for a known file or a path below `/etc/slurm/`. */
  predicate IntactFile(f: SlurmFile, digest: string -> string) {
    && f.checksum == "sha256:" + digest(f.content) && |f.content| <= 2097152
    && (IsKnown(f.filename) || "/etc/slurm/" <= f.destPath)
  }

  predicate IsKnown(filename: string) {
    || filename == "slurm.conf" || filename == "gres.conf" || filename == "cgroup.conf" || filename == "topology.conf"
    || filename == "plugstack.conf" || filename == "slurmdbd.conf"
  }

  predicate IntactScript(s: Script, digest: string -> string) {
    && s.checksum == "sha256:" + digest(s.content) && 0 < |s.content| <= 2097152
    && ("/etc/slurm/" <= s.destPath || "/usr/local/sbin/" <= s.destPath || "/usr/local/bin/" <= s.destPath || "/opt/slurm/" <= s.destPath)
  }

  /** A known file is in `/etc/slurm/`, any other at its own path; only `slurmdbd.conf` is private to its owner. What was
      there before is in the file with `.bak` appended to its name. */
  predicate InPlace(fs0: Files, fs: Files, f: SlurmFile) {
    var path := if IsKnown(f.filename) then "/etc/slurm/" + f.filename else f.destPath;
    && path in fs && fs[path] == File(f.content, if f.filename == "slurmdbd.conf" then 0x180 else 0x1A4)
    && (path in fs0 ==> path + ".bak" in fs && fs[path + ".bak"].content == fs0[path].content)
  }

  lemma ChecksumMeans(digest: string -> string, content: string, checksum: string)
    ensures ChecksumOk(digest, content, checksum) <==> checksum == "sha256:" + digest(content)
  {
    if SHA_PREFIX <= checksum {
      assert checksum == SHA_PREFIX + checksum[|SHA_PREFIX|..];
    }
  }

  lemma FileChecks(f: SlurmFile, digest: string -> string)
    ensures f.Acceptable(digest) <==> IntactFile(f, digest)
    ensures forall fs0, fs | FileOutcome(fs0, fs, f, true) :: InPlace(fs0, fs, f)
  {
    ChecksumMeans(digest, f.content, f.checksum);
  }

  lemma ScriptChecks(s: Script, digest: string -> string)
    ensures s.Acceptable(digest) <==> IntactScript(s, digest)
  {
    ChecksumMeans(digest, s.content, s.checksum);
    assert SCRIPT_DIRS[0] == "/etc/slurm/" && SCRIPT_DIRS[1] == "/usr/local/sbin/" && SCRIPT_DIRS[2] == "/usr/local/bin/"
           && SCRIPT_DIRS[3] == "/opt/slurm/";
    hide ChecksumOk;
    if i :| 0 <= i < |SCRIPT_DIRS| && SCRIPT_DIRS[i] <= s.destPath {
      assert i == 0 || i == 1 || i == 2 || i == 3;
    }
  }

  lemma PushChecks(files: seq<SlurmFile>, scripts: seq<Script>, digest: string -> string)
    ensures forall i | 0 <= i < |files| :: files[i].Acceptable(digest) <==> IntactFile(files[i], digest)
    ensures forall j | 0 <= j < |scripts| :: scripts[j].Acceptable(digest) <==> IntactScript(scripts[j], digest)
  {
    forall i | 0 <= i < |files|
      ensures files[i].Acceptable(digest) <==> IntactFile(files[i], digest)
    {
      FileChecks(files[i], digest);
    }
    forall j | 0 <= j < |scripts|
      ensures scripts[j].Acceptable(digest) <==> IntactScript(scripts[j], digest)
    {
      ScriptChecks(scripts[j], digest);
    }
  }

  lemma AllInPlace(fs0: Files, fs: Files, files: seq<SlurmFile>, digest: string -> string)
    requires AllWritten(fs0, fs, files)
    ensures forall i | 0 <= i < |files| :: InPlace(fs0, fs, files[i])
  {
    forall i | 0 <= i < |files|
      ensures InPlace(fs0, fs, files[i])
    {
      FileChecks(files[i], digest);
      assert FileOutcome(fs0, fs, files[i], true);
    }
  }

  /** Everything that a push may touch. */
  ghost function PushFootprint(files: seq<SlurmFile>, scripts: seq<Script>): set<string> {
    (set i, p | 0 <= i < |files| && p in Footprint(files[i].Dest()) :: p) +
    (set j, p | 0 <= j < |scripts| && p in Footprint(scripts[j].destPath) :: p)
  }

  lemma FootprintsWithin(files: seq<SlurmFile>, scripts: seq<Script>)
    ensures forall i | 0 <= i < |files| :: Footprint(files[i].Dest()) <= PushFootprint(files, scripts)
    ensures forall i | 0 <= i < |files| :: files[i].Dest() in PushFootprint(files, scripts)
    ensures forall j | 0 <= j < |scripts| :: Footprint(scripts[j].destPath) <= PushFootprint(files, scripts)
  {
  }

  lemma OneMoreFlag(flags: seq<bool>, flag: bool)
    ensures false in flags + [flag] <==> false in flags || !flag
  {
  }

  lemma OnlyAtRefl(fs: Files, paths: set<string>)
    ensures OnlyAt(fs, fs, paths)
  {
  }

  lemma OnlyAtStep(fs0: Files, fs1: Files, fs2: Files, few: set<string>, many: set<string>)
    requires OnlyAt(fs0, fs1, many) && OnlyAt(fs1, fs2, few) && few <= many
    ensures OnlyAt(fs0, fs2, many)
  {
  }

  class SlurmAgent {
    const fs: FileSystem
    const digest: string -> string
    const actionOk: nat -> bool // which apply actions succeed
    var runs: nat               // apply actions started

    constructor (fs: FileSystem, digest: string -> string, actionOk: nat -> bool)
      ensures this.fs == fs && this.digest == digest && this.actionOk == actionOk && runs == 0
    {
      this.fs, this.digest, this.actionOk, runs := fs, digest, actionOk, 0;
    }

    method WriteSlurmFile(f: SlurmFile) returns (ok: bool)
      modifies fs
      ensures OnlyAt(old(fs.files), fs.files, Footprint(f.Dest()))
      ensures FileOutcome(old(fs.files), fs.files, f, ok)
      ensures ok ==> f.Acceptable(digest) && fs.copies == old(fs.copies) + 1
      ensures fs.Reliable() ==> (ok <==> f.Acceptable(digest))
      ensures if ok then IntactFile(f, digest) && InPlace(old(fs.files), fs.files, f)
              else fs.Reliable() ==> !IntactFile(f, digest)
    {
      FileChecks(f, digest);
      if !f.Acceptable(digest) {
        return false;
      }
      ok := fs.Replace(f.Dest(), f.content, f.Mode(), true);
    }

    /** Scripts have no backup. */
    method WriteSlurmScript(s: Script) returns (ok: bool)
      modifies fs`files, fs`ops
      ensures OnlyAt(old(fs.files), fs.files, {s.destPath, Tmp(s.destPath)})
      ensures ScriptOutcome(old(fs.files), fs.files, s, ok)
      ensures ok ==> s.Acceptable(digest)
      ensures fs.Reliable() ==> (ok <==> s.Acceptable(digest))
      ensures if ok then IntactScript(s, digest) && s.destPath in fs.files && fs.files[s.destPath] == File(s.content, 0x1ED)
              else fs.Reliable() ==> !IntactScript(s, digest)
    {
      ScriptChecks(s, digest);
      if !s.Acceptable(digest) {
        return false;
      }
      ok := fs.Call(); // the parent directory
      if ok {
        ok := fs.Place(s.destPath, s.content, SCRIPT_MODE, true);
      }
    }

    /** The subprocess succeeds or fails; an unknown action always fails. */
    method RunApplyAction(action: Action) returns (ok: bool)
      modifies this
      ensures runs == old(runs) + 1
      ensures ok <==> actionOk(old(runs)) && action != Unknown
    {
      ok := actionOk(runs) && action != Unknown;
      runs := runs + 1;
    }

    method WriteFiles(files: seq<SlurmFile>, ghost scripts: seq<Script>) returns (fileOk: seq<bool>)
      modifies fs
      ensures |fileOk| == |files|
      ensures forall i | 0 <= i < |files| && fileOk[i] :: files[i].Acceptable(digest)
      ensures fs.Reliable() ==> forall i | 0 <= i < |files| :: fileOk[i] <==> files[i].Acceptable(digest)
      ensures false !in fileOk ==> fs.copies == old(fs.copies) + |files|
      ensures OnlyAt(old(fs.files), fs.files, PushFootprint(files, scripts))
      ensures Disjoint(files, scripts) ==>
                Handled(old(fs.files), fs.files, files, fileOk) && ScriptsHandled(old(fs.files), fs.files, scripts, [])
    {
      hide PushFootprint, Footprint, FileOutcome, Disjoint, SlurmFile.Acceptable, ScriptsHandled, IntactFile, InPlace;
      FootprintsWithin(files, scripts);
      NoScriptsYet(fs.files, scripts);
      fileOk := [];
      for i := 0 to |files|
        invariant |fileOk| == i
        invariant forall j | 0 <= j < i && fileOk[j] :: files[j].Acceptable(digest)
        invariant fs.Reliable() ==> forall j | 0 <= j < i :: fileOk[j] <==> files[j].Acceptable(digest)
        invariant false !in fileOk ==> fs.copies == old(fs.copies) + i
        invariant OnlyAt(old(fs.files), fs.files, PushFootprint(files, scripts))
        invariant Disjoint(files, scripts) ==>
                    Handled(old(fs.files), fs.files, files, fileOk) && ScriptsHandled(old(fs.files), fs.files, scripts, [])
      {
        ghost var fs1 := fs.files;
        var ok := WriteSlurmFile(files[i]);
        OnlyAtStep(old(fs.files), fs1, fs.files, Footprint(files[i].Dest()), PushFootprint(files, scripts));
        if Disjoint(files, scripts) {
          HandleNext(old(fs.files), fs1, fs.files, files, scripts, fileOk, ok);
          DisjointFromScripts(files, scripts, i);
          ScriptsFramed(old(fs.files), fs1, fs.files, scripts, [], Footprint(files[i].Dest()));
        }
        OneMoreFlag(fileOk, ok);
        fileOk := fileOk + [ok];
      }
    }

    method WriteScripts(ghost files: seq<SlurmFile>, scripts: seq<Script>, ghost fs0: Files) returns (scriptOk: seq<bool>)
      modifies fs`files, fs`ops
      ensures |scriptOk| == |scripts|
      ensures forall j | 0 <= j < |scripts| && scriptOk[j] :: scripts[j].Acceptable(digest)
      ensures fs.Reliable() ==> forall j | 0 <= j < |scripts| :: scriptOk[j] <==> scripts[j].Acceptable(digest)
      ensures OnlyAt(old(fs.files), fs.files, PushFootprint(files, scripts))
      ensures Disjoint(files, scripts) && old(AllWritten(fs0, fs.files, files) && ScriptsHandled(fs0, fs.files, scripts, [])) ==>
                AllWritten(fs0, fs.files, files) && ScriptsHandled(fs0, fs.files, scripts, scriptOk)
    {
      hide FileOutcome, ScriptOutcome, PushFootprint, Footprint, Disjoint, AllWritten, ScriptsHandled, Script.Acceptable, IntactScript;
      FootprintsWithin(files, scripts);
      ghost var disjoint := Disjoint(files, scripts) && AllWritten(fs0, fs.files, files) && ScriptsHandled(fs0, fs.files, scripts, []);
      scriptOk := [];
      for j := 0 to |scripts|
        invariant |scriptOk| == j
        invariant forall i | 0 <= i < j && scriptOk[i] :: scripts[i].Acceptable(digest)
        invariant fs.Reliable() ==> forall i | 0 <= i < j :: scriptOk[i] <==> scripts[i].Acceptable(digest)
        invariant OnlyAt(old(fs.files), fs.files, PushFootprint(files, scripts))
        invariant disjoint ==> AllWritten(fs0, fs.files, files) && ScriptsHandled(fs0, fs.files, scripts, scriptOk)
      {
        ghost var fs1 := fs.files;
        var ok := WriteSlurmScript(scripts[j]);
        ghost var paths := {scripts[j].destPath, Tmp(scripts[j].destPath)};
        ScriptPaths(files, scripts, j);
        OnlyAtStep(old(fs.files), fs1, fs.files, paths, PushFootprint(files, scripts));
        if disjoint {
          WrittenFramed(fs0, fs1, fs.files, files, paths);
          ScriptHandled(fs0, fs1, fs.files, scripts, scriptOk, ok);
        }
        scriptOk := scriptOk + [ok];
      }
    }

    /** Copies every backup back and goes on after errors: each file whose copy succeeds is rolled back. */
    method RollbackFiles(files: seq<SlurmFile>, ghost scripts: seq<Script>, ghost fs0: Files)
      modifies fs`files, fs`copies
      ensures fs.copies == old(fs.copies) + |files|
      ensures OnlyAt(old(fs.files), fs.files, Destinations(files))
      ensures Disjoint(files, scripts) && old(AllWritten(fs0, fs.files, files)) ==>
                forall i | 0 <= i < |files| && fs.copyOk(old(fs.copies) + i) :: RolledBack(fs0, fs.files, files[i])
    {
      hide RolledBack, FileOutcome, Disjoint, Destinations;
      DestinationsAre(files);
      ghost var start, sound := fs.copies, Disjoint(files, scripts) && AllWritten(fs0, fs.files, files);
      for i := 0 to |files|
        invariant fs.copies == start + i
        invariant OnlyAt(old(fs.files), fs.files, Destinations(files))
        invariant sound ==> PartlyRolledBack(fs0, fs.files, files, i, fs.copyOk, start)
      {
        ghost var fs1 := fs.files;
        var res := fs.CopyFile(Bak(files[i].Dest()), files[i].Dest());
        OnlyAtStep(old(fs.files), fs1, fs.files, {files[i].Dest()}, Destinations(files));
        if sound {
          StillWritten(fs0, fs1, files, i, fs.copyOk, start);
          RollbackStep(fs0, fs1, fs.files, files, scripts, i, fs.copyOk, start);
        }
      }
    }

    /** After a failed restart: the files are rolled back, the scripts stay, and the restart is tried once more. */
    method RollBackAndRetry(files: seq<SlurmFile>, ghost scripts: seq<Script>, ghost scriptOk: seq<bool>, ghost fs0: Files, action: Action)
      returns (recovered: bool)
      modifies this, fs`files, fs`copies
      ensures runs == old(runs) + 1 && (recovered <==> actionOk(old(runs)) && action != Unknown)
      ensures OnlyAt(old(fs.files), fs.files, PushFootprint(files, scripts))
      ensures Disjoint(files, scripts) && old(AllWritten(fs0, fs.files, files)) ==>
                forall i | 0 <= i < |files| && fs.copyOk(old(fs.copies) + i) :: RolledBack(fs0, fs.files, files[i])
      ensures Disjoint(files, scripts) && old(ScriptsHandled(fs0, fs.files, scripts, scriptOk)) ==>
                ScriptsHandled(fs0, fs.files, scripts, scriptOk)
    {
      hide AllWritten, RolledBack, Disjoint, PushFootprint, Destinations, OnlyAt, ScriptsHandled;
      ghost var fs1 := fs.files;
      RollbackFiles(files, scripts, fs0);
      RollbackPaths(files, scripts);
      OnlyAtRefl(fs1, PushFootprint(files, scripts));
      OnlyAtStep(fs1, fs1, fs.files, Destinations(files), PushFootprint(files, scripts));
      if Disjoint(files, scripts) && ScriptsHandled(fs0, fs1, scripts, scriptOk) {
        ScriptsFramed(fs0, fs1, fs.files, scripts, scriptOk, Destinations(files));
      }
      recovered := RunApplyAction(action);
    }

    /** The push. `wrote` tells which files were written at first. */
    method Apply(files: seq<SlurmFile>, scripts: seq<Script>, action: Action) returns (ack: Ack, ghost wrote: seq<bool>)
      modifies this, fs
      ensures |wrote| == |files| && (ack.attempted <==> false !in wrote)
      ensures ack.ok <==> ack.attempted && action != Unknown && actionOk(old(runs))
      ensures runs == old(runs) + if !ack.attempted then 0 else if !ack.ok && action == Restart then 2 else 1
      ensures ack.fileOk == if ack.attempted && !ack.ok && action == Restart && actionOk(old(runs) + 1)
                            then seq(|files|, _ => false) else wrote
      ensures |ack.scriptOk| == if ack.attempted then |scripts| else 0
      ensures forall i | 0 <= i < |files| ::
                && (wrote[i] ==> IntactFile(files[i], digest))
                && (fs.Reliable() && IntactFile(files[i], digest) ==> wrote[i])
      ensures forall j | 0 <= j < |ack.scriptOk| ::
                && (ack.scriptOk[j] ==> IntactScript(scripts[j], digest))
                && (fs.Reliable() && IntactScript(scripts[j], digest) ==> ack.scriptOk[j])
      ensures Disjoint(files, scripts) && ack.ok ==> forall i | 0 <= i < |files| :: InPlace(old(fs.files), fs.files, files[i])
      ensures OnlyAt(old(fs.files), fs.files, PushFootprint(files, scripts))
      ensures Disjoint(files, scripts) ==>
                && ScriptsHandled(old(fs.files), fs.files, scripts, ack.scriptOk)
                && if ack.attempted && !ack.ok && action == Restart
                   then forall i | 0 <= i < |files| && fs.copyOk(old(fs.copies) + |files| + i) ::
                          RolledBack(old(fs.files), fs.files, files[i])
                   else Handled(old(fs.files), fs.files, files, wrote)
    {
      hide AllWritten, Handled, RolledBack, Disjoint, PushFootprint, Destinations, OnlyAt, ScriptsHandled, Script.Acceptable, SlurmFile.Acceptable, IntactFile, IntactScript, InPlace;
      ghost var touched := PushFootprint(files, scripts);
      PushChecks(files, scripts, digest);
      var fileOk := WriteFiles(files, scripts);
      wrote := fileOk;
      if false in fileOk {
        return Ack(false, fileOk, [], false), wrote;
      }
      ghost var fs1 := fs.files;
      AllHandled(old(fs.files), fs1, files, fileOk);
      var scriptOk := WriteScripts(files, scripts, old(fs.files));
      AllHandled(old(fs.files), fs.files, files, fileOk);
      OnlyAtStep(old(fs.files), fs1, fs.files, touched, touched);
      var ok := RunApplyAction(action);
      if !ok && action == Restart {
        ghost var fs2 := fs.files;
        var recovered := RollBackAndRetry(files, scripts, scriptOk, old(fs.files), action);
        OnlyAtStep(old(fs.files), fs2, fs.files, touched, touched);
        if recovered {
          fileOk := seq(|files|, _ => false);
        }
      }
      ack := Ack(ok, fileOk, scriptOk, true);
      if ok && Disjoint(files, scripts) {
        AllInPlace(old(fs.files), fs.files, files, digest);
      }
    }
  }

  lemma AllHandled(fs0: Files, fs: Files, files: seq<SlurmFile>, fileOk: seq<bool>)
    requires |fileOk| == |files| && false !in fileOk
    ensures Handled(fs0, fs, files, fileOk) <==> AllWritten(fs0, fs, files)
  {
    hide FileOutcome;
    assert forall i | 0 <= i < |fileOk| :: fileOk[i];
  }

  ghost function Destinations(files: seq<SlurmFile>): set<string> {
    set i | 0 <= i < |files| :: files[i].Dest()
  }

  lemma NoScriptsYet(fs: Files, scripts: seq<Script>)
    ensures ScriptsHandled(fs, fs, scripts, [])
  {
  }

  lemma DisjointFromScripts(files: seq<SlurmFile>, scripts: seq<Script>, i: nat)
    requires Disjoint(files, scripts) && i < |files|
    ensures forall j | 0 <= j < |scripts| :: scripts[j].destPath !in Footprint(files[i].Dest())
  {
    assert forall j | 0 <= j < |scripts| :: scripts[j].destPath in Footprint(scripts[j].destPath);
  }

  /** What a script writes lies in the push and, on disjoint paths, away from everything else. */
  lemma ScriptPaths(files: seq<SlurmFile>, scripts: seq<Script>, j: nat)
    requires j < |scripts|
    ensures var paths := {scripts[j].destPath, Tmp(scripts[j].destPath)};
      && paths <= PushFootprint(files, scripts)
      && (Disjoint(files, scripts) ==>
            && (forall i | 0 <= i < |files| :: Footprint(files[i].Dest()) !! paths)
            && (forall i | 0 <= i < |scripts| && i != j :: scripts[i].destPath !in paths))
  {
    FootprintsWithin(files, scripts);
    hide PushFootprint, Bak, Tmp;
    var paths, all := {scripts[j].destPath, Tmp(scripts[j].destPath)}, Footprint(scripts[j].destPath);
    assert paths <= all;
    if Disjoint(files, scripts) {
      forall i | 0 <= i < |files|
        ensures Footprint(files[i].Dest()) !! paths
      {
        assert Footprint(files[i].Dest()) !! all;
      }
      forall i | 0 <= i < |scripts| && i != j
        ensures scripts[i].destPath !in paths
      {
        assert scripts[i].destPath in Footprint(scripts[i].destPath) && Footprint(scripts[i].destPath) !! all;
      }
    }
  }

  lemma RollbackPaths(files: seq<SlurmFile>, scripts: seq<Script>)
    ensures Destinations(files) <= PushFootprint(files, scripts)
    ensures Disjoint(files, scripts) ==> forall j | 0 <= j < |scripts| :: scripts[j].destPath !in Destinations(files)
  {
    FootprintsWithin(files, scripts);
    if Disjoint(files, scripts) {
      forall i | 0 <= i < |files|
        ensures forall j | 0 <= j < |scripts| :: scripts[j].destPath != files[i].Dest()
      {
        DisjointFromScripts(files, scripts, i);
        assert files[i].Dest() in Footprint(files[i].Dest());
      }
    }
  }

  lemma DestinationsAre(files: seq<SlurmFile>)
    ensures forall i | 0 <= i < |files| :: {files[i].Dest()} <= Destinations(files)
  {
  }

  /** The first `n` files are rolled back where the copy succeeded, and the others are as they were written. */
  ghost predicate PartlyRolledBack(fs0: Files, fs: Files, files: seq<SlurmFile>, n: nat, copyOk: nat -> bool, start: nat) {
    forall j | 0 <= j < |files| :: if j < n then copyOk(start + j) ==> RolledBack(fs0, fs, files[j]) else FileOutcome(fs0, fs, files[j], true)
  }

  lemma StillWritten(fs0: Files, fs: Files, files: seq<SlurmFile>, n: nat, copyOk: nat -> bool, start: nat)
    requires PartlyRolledBack(fs0, fs, files, n, copyOk, start) && n < |files|
    ensures Placed(fs, files[n].Dest(), files[n].content, files[n].Mode())
  {
    assert FileOutcome(fs0, fs, files[n], true);
  }

  lemma RollbackStep(fs0: Files, fs1: Files, fs2: Files, files: seq<SlurmFile>, scripts: seq<Script>, n: nat, copyOk: nat -> bool, start: nat)
    requires Disjoint(files, scripts) && n < |files| && PartlyRolledBack(fs0, fs1, files, n, copyOk, start)
    requires var d := files[n].Dest();
      && OnlyAt(fs1, fs2, {d})
      && (Bak(d) !in fs1 ==> fs2 == fs1)
      && (Bak(d) in fs1 && copyOk(start + n) ==> Placed(fs2, d, fs1[Bak(d)].content, files[n].Mode()))
    ensures PartlyRolledBack(fs0, fs2, files, n + 1, copyOk, start)
  {
    forall j | 0 <= j < |files|
      ensures if j < n + 1 then copyOk(start + j) ==> RolledBack(fs0, fs2, files[j]) else FileOutcome(fs0, fs2, files[j], true)
    {
      if j != n {
        DisjointDestinations(files, scripts, j, n);
      } else {
        assert FileOutcome(fs0, fs1, files[n], true);
      }
    }
  }

  lemma DisjointDestinations(files: seq<SlurmFile>, scripts: seq<Script>, i: nat, j: nat)
    requires Disjoint(files, scripts) && i < |files| && j < |files| && i != j
    ensures files[i].Dest() != files[j].Dest() && Bak(files[i].Dest()) != files[j].Dest()
  {
    assert files[i].Dest() in Footprint(files[i].Dest()) && Bak(files[i].Dest()) in Footprint(files[i].Dest());
    assert files[j].Dest() in Footprint(files[j].Dest());
  }

  // ----- single-file pushes -----

  datatype Target = Target(relPath: string, mode: int, hasAction: bool)

  const CONFIG_LIMIT := 1048576

  /** The whitelist of targets; modes are 0644, 0600 and 0440. */
  function LookupTarget(name: string): Option<Target> {
    match name
    case "hostname" => Some(Target("etc/hostname", 420, false))
    case "hosts" => Some(Target("etc/hosts", 420, false))
    case "sssd" => Some(Target("etc/sssd/sssd.conf", 384, true))
    case "limits" => Some(Target("etc/security/limits.conf", 420, false))
    case "chrony" => Some(Target("etc/chrony.conf", 420, true))
    case "ntp" => Some(Target("etc/ntp.conf", 420, true))
    case "resolv" => Some(Target("etc/resolv.conf", 420, false))
    case "sudoers" => Some(Target("etc/sudoers.d/clustr-admins", 288, false))
    case "clustr-internal-repo" => Some(Target("etc/yum.repos.d/clustr-internal-repo.repo", 420, true))
    case "ldap-ca-cert" => Some(Target("etc/pki/ca-trust/source/anchors/clustr-ca.crt", 420, true))
    case "sshd-ldap-keys" => Some(Target("etc/ssh/sshd_config.d/50-clustr-ldap-keys.conf", 420, true))
    case _ => None
  }

  /** Which file a target is. */
  lemma TargetFiles(a: string)
    requires LookupTarget(a).Some?
    ensures var path := LookupTarget(a).value.relPath;
      && (a == "hostname" ==> path == "etc/hostname")
      && (a == "hosts" ==> path == "etc/hosts")
      && (a == "sssd" ==> path == "etc/sssd/sssd.conf")
      && (a == "limits" ==> path == "etc/security/limits.conf")
      && (a == "chrony" ==> path == "etc/chrony.conf")
      && (a == "ntp" ==> path == "etc/ntp.conf")
      && (a == "resolv" ==> path == "etc/resolv.conf")
      && (a == "sudoers" ==> path == "etc/sudoers.d/clustr-admins")
      && (a == "clustr-internal-repo" ==> path == "etc/yum.repos.d/clustr-internal-repo.repo")
      && (a == "ldap-ca-cert" ==> path == "etc/pki/ca-trust/source/anchors/clustr-ca.crt")
      && (a == "sshd-ldap-keys" ==> path == "etc/ssh/sshd_config.d/50-clustr-ldap-keys.conf")
  {
  }

  /** Only the SSSD configuration and the sudoers rules are not readable for everybody, and which services are told. */
  lemma TargetModes(a: string)
    requires LookupTarget(a).Some?
    ensures LookupTarget(a).value.mode == if a == "sssd" then 0x180 else if a == "sudoers" then 0x120 else 0x1A4
    ensures LookupTarget(a).value.hasAction <==>
            a == "sssd" || a == "chrony" || a == "ntp" || a == "clustr-internal-repo" || a == "ldap-ca-cert" || a == "sshd-ldap-keys"
  {
  }

  datatype Push = Push(target: string, content: string, checksum: string)

  datatype PushResult =
    | Applied
    | Rejected             // unknown target, too large or wrong checksum
    | WriteFailed
    | RolledBackAfter      // action failed, backup restored, action succeeded
    | Degraded             // action failed, backup restored, action failed again
    | RollbackFailed       // action failed, backup could not be copied

  /** The state after a rollback whose copy succeeded: the old content, or that of a backup from an earlier push, with
      the mode of the push. */
  ghost predicate BackedOut(fs0: Files, fs: Files, path: string, mode: int) {
    if path in fs0 then Placed(fs, path, fs0[path].content, mode)
    else Bak(path) in fs0 && Placed(fs, path, fs0[Bak(path)].content, mode)
  }

  class ConfigApplier {
    const fs: FileSystem
    const digest: string -> string
    const actionOk: nat -> bool
    const rootDir: string
    var runs: nat

    constructor (fs: FileSystem, digest: string -> string, actionOk: nat -> bool, rootDir: string)
      ensures this.fs == fs && this.digest == digest && this.actionOk == actionOk && this.rootDir == rootDir && runs == 0
    {
      this.fs, this.digest, this.actionOk, this.rootDir, runs := fs, digest, actionOk, rootDir, 0;
    }

    function Path(relPath: string): string {
      if rootDir == "/" then "/" + relPath else rootDir + "/" + relPath
    }

    predicate Accepts(p: Push) {
      LookupTarget(p.target).Some? && |p.content| <= CONFIG_LIMIT && ChecksumOk(digest, p.content, p.checksum)
    }

    method RunAction() returns (ok: bool)
      modifies this
      ensures runs == old(runs) + 1 && ok == actionOk(old(runs))
    {
      ok := actionOk(runs);
      runs := runs + 1;
    }

    /** The result of an accepted push when every file operation succeeds. */
    ghost function Expected(t: Target): PushResult
      reads this, fs
    {
      if !t.hasAction || rootDir != "/" || actionOk(runs) then Applied
      else if Path(t.relPath) !in fs.files && Bak(Path(t.relPath)) !in fs.files then RollbackFailed
      else if actionOk(runs + 1) then RolledBackAfter
      else Degraded
    }

    /** `Applied` puts the content in place; a rejected or unwritable push changes nothing and runs nothing; after a
        failed action the old content is back unless the rollback copy failed. No other file but the backup and the
        temporary one changes. */
    method ApplyOne(p: Push) returns (res: PushResult)
      modifies this, fs
      ensures res == Rejected <==> !Accepts(p)
      ensures res == Rejected ==> fs.files == old(fs.files)
      ensures res == Applied ==> p.checksum == "sha256:" + digest(p.content) && |p.content| <= 1048576
      ensures res == Applied ==>
        var t := LookupTarget(p.target).value;
        var path := if rootDir == "/" then "/" + t.relPath else rootDir + "/" + t.relPath;
        && path in fs.files && fs.files[path] == File(p.content, t.mode)
        && (path in old(fs.files) ==> path + ".bak" in fs.files && fs.files[path + ".bak"].content == old(fs.files)[path].content)
      ensures fs.Reliable() && p.checksum == "sha256:" + digest(p.content) && |p.content| <= 1048576 && LookupTarget(p.target).Some? ==>
              res != Rejected && res != WriteFailed
      ensures Accepts(p) && fs.Reliable() ==> res == old(Expected(LookupTarget(p.target).value))
      ensures runs == old(runs) + match res
                case Rejected => 0
                case WriteFailed => 0
                case Applied => if LookupTarget(p.target).value.hasAction && rootDir == "/" then 1 else 0
                case RollbackFailed => 1
                case RolledBackAfter => 2
                case Degraded => 2
      ensures res == Applied && runs > old(runs) ==> actionOk(old(runs))
      ensures res in {RollbackFailed, RolledBackAfter, Degraded} ==> !actionOk(old(runs)) && rootDir == "/"
      ensures res == RolledBackAfter ==> actionOk(old(runs) + 1)
      ensures res == Degraded ==> !actionOk(old(runs) + 1)
      ensures Accepts(p) ==>
        var target := LookupTarget(p.target).value;
        var path := Path(target.relPath);
        && OnlyAt(old(fs.files), fs.files, Footprint(path))
        && match res
           case Applied => Written(old(fs.files), fs.files, path, p.content, target.mode)
           case RolledBackAfter => BackedOut(old(fs.files), fs.files, path, target.mode)
           case Degraded => BackedOut(old(fs.files), fs.files, path, target.mode)
           case RollbackFailed =>
             if path !in old(fs.files) && Bak(path) !in old(fs.files)
             then Placed(fs.files, path, p.content, target.mode)
             else !fs.copyOk(old(fs.copies) + 1)
           case _ => SameAt(old(fs.files), fs.files, path)
    {
      ChecksumMeans(digest, p.content, p.checksum);
      assert forall path :: Bak(path) == path + ".bak";
      hide LookupTarget, ChecksumOk, Bak, Tmp;
      if !Accepts(p) {
        return Rejected;
      }
      var target := LookupTarget(p.target).value;
      var path := Path(target.relPath);
      var ok := fs.Call(); // the parent directory
      if ok {
        ok := fs.Replace(path, p.content, target.mode, false);
      }
      if !ok {
        return WriteFailed;
      }
      if !target.hasAction || rootDir != "/" {
        return Applied;
      }
      ok := RunAction();
      if ok {
        return Applied;
      }
      var copy := fs.CopyFile(Bak(path), path);
      if copy != Copied {
        return RollbackFailed;
      }
      ok := RunAction();
      return if ok then RolledBackAfter else Degraded;
    }
  }
}
