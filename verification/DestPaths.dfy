/** Where an allowed destination of a push leads once its `..` components are followed: the checks compare prefixes. */
module DestPaths {
  import opened Common
  import opened FilePush

  /** One component, from a directory given by the names on the way to it. */
  function Follow(at: seq<string>, component: string): seq<string> {
    if component == "" || component == "." then at
    else if component == ".." then if at == [] then [] else at[..|at| - 1]
    else at + [component]
  }

  function FollowAll(at: seq<string>, components: seq<string>): seq<string> {
    if components == [] then at
    else Follow(FollowAll(at, components[..|components| - 1]), components[|components| - 1])
  }

  /** Where an absolute path leads. */
  function Located(path: string): seq<string> {
    FollowAll([], Split(path, '/'))
  }

  /** On the way along the components the directory is never left. */
  ghost predicate StaysBelow(dir: seq<string>, components: seq<string>) {
    forall n: nat | n <= |components| :: dir <= FollowAll(dir, components[..n])
  }

  /** Names minus `..` components. */
  function Depth(components: seq<string>): int {
    if components == [] then 0
    else
      var last := components[|components| - 1];
      Depth(components[..|components| - 1]) + if last == "" || last == "." then 0 else if last == ".." then -1 else 1
  }

  /** No beginning has more `..` components than names. */
  ghost predicate NeverClimbsOut(components: seq<string>) {
    forall n: nat | n <= |components| :: Depth(components[..n]) >= 0
  }

  lemma {:induction false} DepthIsDistance(dir: seq<string>, components: seq<string>)
    requires NeverClimbsOut(components)
    ensures dir <= FollowAll(dir, components) && |FollowAll(dir, components)| == |dir| + Depth(components)
  {
    if components != [] {
      var front := components[..|components| - 1];
      assert forall n: nat | n <= |front| :: front[..n] == components[..n];
      assert components[..|components|] == components;
      DepthIsDistance(dir, front);
    }
  }

  /** A path stays below a directory other than the root exactly when no beginning of it has more `..` components than
      names. */
  lemma {:induction false} StaysBelowIff(dir: seq<string>, components: seq<string>)
    requires dir != []
    ensures StaysBelow(dir, components) <==> NeverClimbsOut(components)
  {
    if components == [] {
      assert forall n: nat | n <= |components| :: components[..n] == [];
    } else {
      var front := components[..|components| - 1];
      assert forall n: nat | n <= |front| :: front[..n] == components[..n];
      assert components[..|components|] == components;
      StaysBelowIff(dir, front);
      if NeverClimbsOut(front) {
        DepthIsDistance(dir, front);
        assert Depth(components) < 0 ==> |FollowAll(dir, components)| < |dir|;
        if Depth(components) >= 0 {
          assert NeverClimbsOut(components);
          DepthIsDistance(dir, components);
        }
      }
    }
  }

  // ----- paths as text -----

  lemma {:induction false} SplitOfAppend(a: string, b: string, separator: char)
    ensures Split(a + [separator] + b, separator) == Split(a, separator) + Split(b, separator)
  {
    if a == "" {
      assert a + [separator] + b == [separator] + b;
    } else {
      assert (a + [separator] + b)[1..] == a[1..] + [separator] + b;
      SplitOfAppend(a[1..], b, separator);
    }
  }

  lemma {:induction false} SplitOfName(name: string, separator: char)
    requires separator !in name
    ensures Split(name, separator) == [name]
  {
    if name != "" {
      assert name == [name[0]] + name[1..];
      SplitOfName(name[1..], separator);
    }
  }

  lemma {:induction false} FollowAllOfAppend(at: seq<string>, a: seq<string>, b: seq<string>)
    ensures FollowAll(at, a + b) == FollowAll(FollowAll(at, a), b)
  {
    if b == [] {
      assert a + b == a;
    } else {
      assert (a + b)[..|a + b| - 1] == a + b[..|b| - 1];
      FollowAllOfAppend(at, a, b[..|b| - 1]);
    }
  }

  predicate IsName(name: string) {
    name != "" && name != "." && name != ".." && '/' !in name
  }

  lemma LocatedIn(parent: string, name: string)
    requires IsName(name)
    ensures Located(parent + "/" + name) == Located(parent) + [name]
  {
    SplitOfAppend(parent, name, '/');
    SplitOfName(name, '/');
    var parts := Split(parent, '/');
    assert (parts + [name])[..|parts|] == parts;
  }

  lemma AllowedDirs(i: nat) returns (parent: string, name: string)
    requires i < |SCRIPT_DIRS|
    ensures IsName(name) && SCRIPT_DIRS[i] == parent + "/" + name + "/"
  {
    if i == 0 {
      parent, name := "/etc", "slurm";
    } else if i == 1 {
      parent, name := "/usr/local", "sbin";
    } else if i == 2 {
      parent, name := "/usr/local", "bin";
    } else {
      parent, name := "/opt", "slurm";
    }
    assert SCRIPT_DIRS[i] == parent + "/" + name + "/";
  }

  /** A destination under an allowed directory leads from that directory along the rest of the path, and stays below it
      exactly when no beginning of the rest has more `..` components than names; so it does without any `..`. */
  lemma AllowedStaysBelowIff(i: nat, dest: string)
    requires i < |SCRIPT_DIRS| && SCRIPT_DIRS[i] <= dest
    ensures var dir, rest := Located(SCRIPT_DIRS[i]), Split(dest[|SCRIPT_DIRS[i]|..], '/');
      && Located(dest) == FollowAll(dir, rest)
      && (StaysBelow(dir, rest) <==> NeverClimbsOut(rest))
      && (".." !in rest ==> StaysBelow(dir, rest))
  {
    var parent, name := AllowedDirs(i);
    var base, tail := parent + "/" + name, dest[|SCRIPT_DIRS[i]|..];
    assert SCRIPT_DIRS[i] == base + ['/'] + "" && dest == base + ['/'] + tail;
    LocatedIn(parent, name);
    SplitOfAppend(base, "", '/');
    SplitOfAppend(base, tail, '/');
    FollowAllOfAppend([], Split(base, '/'), [""]);
    FollowAllOfAppend([], Split(base, '/'), Split(tail, '/'));
    EmptyComponent(Located(base));
    StaysBelowIff(Located(base), Split(tail, '/'));
    if ".." !in Split(tail, '/') {
      NoClimbing(Split(tail, '/'));
    }
  }

  lemma EmptyComponent(at: seq<string>)
    ensures FollowAll(at, [""]) == at && Split("", '/') == [""]
  {
    assert [""][..0] == [] && FollowAll(at, []) == at;
  }

  lemma {:induction false} NoClimbing(components: seq<string>)
    requires ".." !in components
    ensures NeverClimbsOut(components)
  {
    if components == [] {
      assert forall n: nat | n <= |components| :: components[..n] == [];
    } else {
      var front := components[..|components| - 1];
      assert forall n: nat | n <= |front| :: front[..n] == components[..n];
      assert components[..|components|] == components;
      NoClimbing(front);
      assert Depth(components[..|front|]) >= 0;
    }
  }

  /** The prefix checks alone do not keep a destination below its directory. */
  lemma PrefixIsNotEnough(s: Script, f: SlurmFile)
    requires s.destPath == f.destPath == SLURM_DIR + ".." && f.filename !in SLURM_FILES
    ensures s.Allowed() && f.Allowed() && f.Dest() == s.destPath
    ensures !StaysBelow(Located(SLURM_DIR), Split(s.destPath[|SLURM_DIR|..], '/'))
  {
    assert SCRIPT_DIRS[0] == SLURM_DIR;
    AllowedStaysBelowIff(0, s.destPath);
    SplitOfName("..", '/');
    assert s.destPath[|SLURM_DIR|..] == "..";
    var rest := [".."];
    assert rest[..0] == [] && Depth(rest) == -1 && rest[..1] == rest;
  }
}
