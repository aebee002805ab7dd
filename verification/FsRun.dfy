/** Runs of the calls that make names: the kernel's own and the path system calls of
    several tasks. The specification is a flat map from component stacks to kinds, and
    a working directory for each task. */
module FsRun {
  import opened Wrappers
  import opened Paths
  import opened NameTree

  datatype Fs = Fs(kinds: map<seq<string>, Kind>, cwds: map<nat, seq<string>>)

  /** The kernel makes directories and files at fixed paths; tasks create files and change directory. */
  datatype Op =
    | Mkdir(stack: seq<string>) | Install(stack: seq<string>)
    | Create(task: nat, raw: string) | Chdir(task: nat, raw: string)

  /** The fixed paths of the kernel are canonical. */
  predicate Posed(op: Op)
  {
    op.Mkdir? || op.Install? ==> Clean(op.stack) && |Render(op.stack)| < MAX_PATH
  }

  /** What a raw path means to a task in directory dir. */
  function Target(dir: seq<string>, raw: string): seq<string>
  {
    Fold(if raw != [] && raw[0] == '/' then [] else dir, Components(raw))
  }

  ghost predicate IsDir(kinds: map<seq<string>, Kind>, s: seq<string>)
  {
    s in kinds && kinds[s] == DIR
  }

  /** s, not there before, appears below a directory. */
  ghost predicate Appears(fs: Fs, fs': Fs, s: seq<string>, kind: Kind)
  {
    s !in fs.kinds && s != [] && IsDir(fs.kinds, s[..|s| - 1]) && fs' == fs.(kinds := fs.kinds[s := kind])
  }

  ghost predicate FsStep(fs: Fs, op: Op, ok: bool, fs': Fs)
  {
    if !ok then fs' == fs
    else
      && Known(fs, op)
      && var s := Means(fs, op);
         match op
         case Mkdir(_) => (IsDir(fs.kinds, s) && fs' == fs) || Appears(fs, fs', s, DIR)
         case Chdir(task, _) => IsDir(fs.kinds, s) && fs' == fs.(cwds := fs.cwds[task := s])
         case _ => (s in fs.kinds && fs.kinds[s] == FILE && fs' == fs) || Appears(fs, fs', s, FILE)
  }

  ghost predicate Known(fs: Fs, op: Op)
  {
    op.Create? || op.Chdir? ==> op.task in fs.cwds
  }

  /** The stack an operation is about. */
  ghost function Means(fs: Fs, op: Op): seq<string>
    requires Known(fs, op)
  {
    match op
    case Mkdir(s) => s
    case Install(s) => s
    case Create(task, raw) => Target(fs.cwds[task], raw)
    case Chdir(task, raw) => Target(fs.cwds[task], raw)
  }

  /** A raw path can be resolved: it fits its buffer, joined to the directory if it is relative. */
  predicate Resolves(dir: seq<string>, raw: string)
  {
    && raw != [] && |raw| < MAX_PATH
    && (raw[0] != '/' ==> |Render(dir)| + (if dir == [] then 0 else 1) + |raw| < MAX_PATH)
  }

  /** s can be made: below a directory, with a name that is short enough. */
  ghost predicate CanMake(kinds: map<seq<string>, Kind>, s: seq<string>)
  {
    s != [] && |s[|s| - 1]| < NAME_MAX && IsDir(kinds, s[..|s| - 1])
  }

  /** Exactly when an operation succeeds; memory says whether there is room for a vnode. */
  ghost predicate Succeeds(fs: Fs, op: Op, memory: bool)
  {
    && Known(fs, op) && (op.Create? || op.Chdir? ==> Resolves(fs.cwds[op.task], op.raw))
    && var s := Means(fs, op);
       match op
       case Mkdir(_) => if s in fs.kinds then fs.kinds[s] == DIR else memory && CanMake(fs.kinds, s)
       case Chdir(_, _) => IsDir(fs.kinds, s)
       case _ => CanMake(fs.kinds, s) && if s in fs.kinds then fs.kinds[s] == FILE else memory
  }

  ghost function Kinds(t: Tree): map<seq<string>, Kind>
  {
    map s | s in t.at && t.at[s] in t.nodes :: t.nodes[t.at[s]].kind
  }

  /** Each working directory is canonical, fits its buffer, and names a directory. */
  ghost predicate CwdsOk(cwds: map<nat, string>, dirs: map<nat, seq<string>>, t: Tree)
  {
    cwds.Keys == dirs.Keys &&
    forall k :: k in cwds ==> Canonical(cwds[k], dirs[k]) && |cwds[k]| < MAX_PATH && HasKind(t, dirs[k], DIR)
  }

  lemma KindsAre(t: Tree)
    requires TreeOk(t)
    ensures forall s :: s in Kinds(t) <==> s in t.at
    ensures forall s, k :: HasKind(t, s, k) <==> s in Kinds(t) && Kinds(t)[s] == k
    ensures forall s :: Creatable(t, s) <==> CanMake(Kinds(t), s)
  {
    forall s ensures s in Kinds(t) <==> s in t.at
             ensures Creatable(t, s) <==> CanMake(Kinds(t), s) {
      assert PathOk(t, s);
      if s != [] { assert PathOk(t, s[..|s| - 1]); }
    }
  }

  lemma AddedKinds(t: Tree, t': Tree, s: seq<string>, v: nat, kind: Kind)
    requires TreeOk(t) && Added(t, t', s, v, kind)
    ensures Kinds(t') == Kinds(t)[s := kind]
  {
    var m, m' := Kinds(t)[s := kind], Kinds(t');
    forall q ensures q in m <==> q in m'
             ensures q in m ==> m'[q] == m[q] {
      assert PathOk(t, q);
    }
  }

  /** Resolves a raw path of a task, once it has been copied from user memory, into a canonical one. */
  method Resolve(cwd: string, raw: string, ghost dir: seq<string>) returns (ok: bool, path: string)
    requires Canonical(cwd, dir)
    ensures ok <==> Resolves(dir, raw)
    ensures ok ==> Canonical(path, Target(dir, raw)) && |path| < MAX_PATH
  {
    hide Fold, Components, FitsAll, Render;
    if |raw| >= MAX_PATH {
      return false, [];
    }
    if Resolves(dir, raw) { RawFits(dir, raw); }
    var buf := new char[MAX_PATH];
    var len;
    ok, len := ResolvePath(cwd, raw, buf, dir);
    if !ok {
      return false, [];
    }
    path := buf[..len];
    assert buf[..][..len] == path;
    TargetClean(dir, raw);
  }

  lemma RawFits(dir: seq<string>, raw: string)
    requires Clean(dir) && Resolves(dir, raw)
    ensures if raw[0] == '/' then FitsAll([], Components(raw), MAX_PATH)
            else FitsAll([], dir + Components(raw), MAX_PATH)
  {
    if raw[0] == '/' { ShortInputFits([], raw, MAX_PATH); } else { JoinedFits(dir, raw, MAX_PATH); }
  }

  /** Names that a task gives one at a time: down, nowhere, up, and not above the root. */
  lemma OneName(dir: seq<string>, name: string)
    requires Clean(dir + [name])
    ensures Target(dir, name) == dir + [name] && Target(dir, ".") == dir
    ensures Target(dir + [name], "..") == dir && Target([], "..") == []
    ensures Target(dir, "/") == [] && Target(dir, "/" + name) == [name]
  {
    assert (dir + [name])[|dir|] == name && (dir + [name])[..|dir|] == dir;
    assert IsName(name) && name != "." && name != ".." && name[0] in name;
    NameAlone(name);
    NameAlone(".");
    NameAlone("..");
    FoldOne(dir, name);
    FoldOne([], name);
    FoldOne(dir, ".");
    FoldOne(dir + [name], "..");
    FoldOne([], "..");
    assert [] + [name] == [name] && "/"[1..] == "";
    assert Components("/") == [];
  }

  lemma FoldOne(stack: seq<string>, name: string)
    ensures Fold(stack, [name]) == Step(stack, name)
  {
    assert [name][1..] == [];
  }

  lemma TargetClean(dir: seq<string>, raw: string)
    requires Clean(dir)
    ensures Clean(Target(dir, raw))
  {
    ComponentsAreNames(raw);
    FoldClean(if raw != [] && raw[0] == '/' then [] else dir, Components(raw));
  }

  /** The kinds after s has been made, if it was not there. */
  function Made(kinds: map<seq<string>, Kind>, s: seq<string>, kind: Kind, ok: bool): map<seq<string>, Kind>
  {
    if ok && s !in kinds then kinds[s := kind] else kinds
  }

  method DoMkdir(vfs: Vfs, path: string, memory: bool, ghost s: seq<string>) returns (ok: bool)
    requires vfs.Valid() && Canonical(path, s) && |path| < MAX_PATH
    modifies vfs
    ensures vfs.Valid() && Grown(old(vfs.t), vfs.t)
    ensures ghost var kinds := Kinds(old(vfs.t));
      && (ok <==> if s in kinds then kinds[s] == DIR else memory && CanMake(kinds, s))
      && Kinds(vfs.t) == Made(kinds, s, DIR, ok)
  {
    hide TreeOk, Canonical, Kinds;
    KindsAre(vfs.t);
    ok := vfs.MkDir(path, memory, s);
    if ok && s !in old(vfs.t.at) {
      AddedKinds(old(vfs.t), vfs.t, s, vfs.t.at[s], DIR);
    }
  }

  method DoCreate(vfs: Vfs, path: string, memory: bool, ghost s: seq<string>) returns (ok: bool)
    requires vfs.Valid() && Canonical(path, s) && |path| < MAX_PATH
    modifies vfs
    ensures vfs.Valid() && Grown(old(vfs.t), vfs.t)
    ensures ghost var kinds := Kinds(old(vfs.t));
      && (ok <==> CanMake(kinds, s) && if s in kinds then kinds[s] == FILE else memory)
      && Kinds(vfs.t) == Made(kinds, s, FILE, ok)
  {
    hide TreeOk, Canonical, Kinds;
    KindsAre(vfs.t);
    ok := vfs.CreateFile(path, memory, s);
    if ok && s !in old(vfs.t.at) {
      AddedKinds(old(vfs.t), vfs.t, s, vfs.t.at[s], FILE);
    }
  }

  method FindDir(vfs: Vfs, path: string, ghost s: seq<string>) returns (ok: bool)
    requires vfs.Valid() && Canonical(path, s) && |path| < MAX_PATH
    ensures (ok <==> IsDir(Kinds(vfs.t), s)) && (ok <==> HasKind(vfs.t, s, DIR))
  {
    hide TreeOk, Canonical, Kinds;
    KindsAre(vfs.t);
    CanonicalTokens(path, s);
    Found(vfs.t, s);
    var vn := vfs.Lookup(path);
    ok := vn.Some? && vfs.nodes[vn.value].kind == DIR;
    assert ok <==> HasKind(vfs.t, s, DIR);
  }

  /** Nothing goes away and nothing changes its kind. */
  ghost predicate Grown(t: Tree, t': Tree)
  {
    forall s, k :: HasKind(t, s, k) ==> HasKind(t', s, k)
  }

  method Perform(vfs: Vfs, cwds: map<nat, string>, op: Op, memory: bool, ghost dirs: map<nat, seq<string>>)
    returns (cwds': map<nat, string>, ok: bool, ghost dirs': map<nat, seq<string>>)
    requires vfs.Valid() && CwdsOk(cwds, dirs, vfs.t) && Posed(op)
    modifies vfs
    ensures vfs.Valid() && CwdsOk(cwds', dirs', vfs.t)
    ensures FsStep(Fs(Kinds(old(vfs.t)), dirs), op, ok, Fs(Kinds(vfs.t), dirs'))
    ensures ok <==> Succeeds(Fs(Kinds(old(vfs.t)), dirs), op, memory)
  {
    hide TreeOk, Target, Canonical, Resolves, Kinds, HasKind, CanMake;
    cwds', dirs', ok := cwds, dirs, false;
    var path := [];
    ghost var s := [];
    if op.Mkdir? || op.Install? {
      path, s := Render(op.stack), op.stack;
      CanonicalRender(s);
    } else {
      if op.task !in cwds {
        return;
      }
      var good;
      good, path := Resolve(cwds[op.task], op.raw, dirs[op.task]);
      if !good {
        return;
      }
      s := Target(dirs[op.task], op.raw);
    }
    MakeAppears(Kinds(vfs.t), s);
    match op
    case Mkdir(_) =>
      ok := DoMkdir(vfs, path, memory, s);
    case Chdir(task, _) =>
      ok := FindDir(vfs, path, s);
      if ok {
        cwds', dirs' := cwds[task := path], dirs[task := s];
      }
    case _ =>
      ok := DoCreate(vfs, path, memory, s);
  }

  lemma CanonicalRender(s: seq<string>)
    requires Clean(s)
    ensures Canonical(Render(s), s)
  {}

  lemma MakeAppears(kinds: map<seq<string>, Kind>, s: seq<string>)
    ensures CanMake(kinds, s) ==> s != [] && IsDir(kinds, s[..|s| - 1])
  {}

  ghost predicate IsRun(states: seq<Fs>, ops: seq<Op>, memory: seq<bool>, oks: seq<bool>)
  {
    && |oks| == |ops| && |states| == |ops| + 1 && |memory| == |ops|
    && forall i :: 0 <= i < |ops| ==>
         FsStep(states[i], ops[i], oks[i], states[i + 1]) && (oks[i] <==> Succeeds(states[i], ops[i], memory[i]))
  }

  /** Every run is a run of the flat map, and every working directory names a
      directory at its end. memory says when there was room for a vnode. */
  method Run(vfs: Vfs, cwds: map<nat, string>, ops: seq<Op>, memory: seq<bool>, ghost dirs: map<nat, seq<string>>)
    returns (cwds': map<nat, string>, oks: seq<bool>, ghost dirs': map<nat, seq<string>>, ghost states: seq<Fs>)
    requires vfs.Valid() && CwdsOk(cwds, dirs, vfs.t) && |memory| == |ops|
    requires forall i :: 0 <= i < |ops| ==> Posed(ops[i])
    modifies vfs
    ensures vfs.Valid() && CwdsOk(cwds', dirs', vfs.t) && IsRun(states, ops, memory, oks)
    ensures states[0] == Fs(Kinds(old(vfs.t)), dirs) && states[|ops|] == Fs(Kinds(vfs.t), dirs')
  {
    hide TreeOk, FsStep, Succeeds, Kinds, CwdsOk;
    cwds', dirs', oks, states := cwds, dirs, [], [Fs(Kinds(vfs.t), dirs)];
    for n := 0 to |ops|
      invariant vfs.Valid() && CwdsOk(cwds', dirs', vfs.t) && IsRun(states, ops[..n], memory[..n], oks)
      invariant states[0] == Fs(Kinds(old(vfs.t)), dirs) && states[n] == Fs(Kinds(vfs.t), dirs')
    {
      var ok;
      cwds', ok, dirs' := Perform(vfs, cwds', ops[n], memory[n], dirs');
      assert ops[..n] + [ops[n]] == ops[..n + 1] && memory[..n] + [memory[n]] == memory[..n + 1];
      oks, states := oks + [ok], states + [Fs(Kinds(vfs.t), dirs')];
    }
    assert ops[..|ops|] == ops && memory[..|ops|] == memory;
  }
}
