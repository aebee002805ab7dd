/** Path normalisation. The specification is a stack of names; the code edits one
    buffer in place, cutting it back for ".." and appending names. */
module Paths {
  const NUL: char := '\0'
  const MAX_PATH: nat := 256

  /** How far s goes before a slash. */
  function NameLen(s: string): (n: nat)
    ensures n <= |s| && (forall i :: 0 <= i < n ==> s[i] != '/') && (n < |s| ==> s[n] == '/')
  {
    if s == [] || s[0] == '/' then 0 else 1 + NameLen(s[1..])
  }

  /** The names between the slashes. */
  function Components(s: string): seq<string>
  {
    if s == [] then []
    else if s[0] == '/' then Components(s[1..])
    else [s[..NameLen(s)]] + Components(s[NameLen(s)..])
  }

  /** What a name does to the stack. */
  function Step(stack: seq<string>, name: string): seq<string>
  {
    if name == "." then stack
    else if name == ".." then (if stack == [] then [] else stack[..|stack| - 1])
    else stack + [name]
  }

  function Fold(stack: seq<string>, names: seq<string>): seq<string>
    decreases |names|
  {
    if names == [] then stack else Fold(Step(stack, names[0]), names[1..])
  }

  /** "/a/b/c", and "/" for the root. */
  function Render(stack: seq<string>): (s: string)
  {
    if stack == [] then "/" else Tail(stack)
  }

  function Tail(stack: seq<string>): string
  {
    if stack == [] then "" else Tail(stack[..|stack| - 1]) + "/" + stack[|stack| - 1]
  }

  function Normalize(s: string): string
  {
    Render(Fold([], Components(s)))
  }

  /** Every name that is pushed fits, its NUL included, at the time it is pushed. */
  ghost predicate FitsAll(stack: seq<string>, names: seq<string>, cap: nat)
    decreases |names|
  {
    if names == [] then true
    else
      var stack' := Step(stack, names[0]);
      (|stack'| > |stack| ==> |Render(stack')| < cap) && FitsAll(stack', names[1..], cap)
  }

  predicate IsName(name: string)
  {
    name != [] && '/' !in name
  }

  predicate Names(names: seq<string>)
  {
    forall i :: 0 <= i < |names| ==> IsName(names[i])
  }

  /** No empty name, no ".", no "..". */
  predicate Clean(stack: seq<string>)
  {
    forall i :: 0 <= i < |stack| ==> IsName(stack[i]) && stack[i] != "." && stack[i] != ".."
  }

  lemma {:induction false} ComponentsAreNames(s: string)
    ensures Names(Components(s))
    decreases |s|
  {
    if s != [] {
      if s[0] == '/' {
        ComponentsAreNames(s[1..]);
      } else {
        var n := NameLen(s);
        ComponentsAreNames(s[n..]);
        assert IsName(s[..n]);
      }
    }
  }

  lemma {:induction false} FoldClean(stack: seq<string>, names: seq<string>)
    requires Clean(stack) && Names(names)
    ensures Clean(Fold(stack, names))
    decreases |names|
  {
    if names != [] {
      FoldClean(Step(stack, names[0]), names[1..]);
    }
  }

  lemma {:induction false} FoldCat(stack: seq<string>, a: seq<string>, b: seq<string>)
    ensures Fold(stack, a + b) == Fold(Fold(stack, a), b)
    decreases |a|
  {
    if a == [] {
      assert a + b == b;
    } else {
      assert (a + b)[0] == a[0] && (a + b)[1..] == a[1..] + b;
      FoldCat(Step(stack, a[0]), a[1..], b);
    }
  }

  /** A clean stack, pushed name by name, is itself. */
  lemma {:induction false} FoldSelf(done: seq<string>, rest: seq<string>)
    requires Clean(rest)
    ensures Fold(done, rest) == done + rest
    decreases |rest|
  {
    if rest == [] {
      assert done + rest == done;
    } else {
      FoldSelf(done + [rest[0]], rest[1..]);
      assert done + rest == (done + [rest[0]]) + rest[1..];
    }
  }

  lemma {:induction false} ComponentsCat(a: string, b: string)
    requires b == [] || b[0] == '/'
    ensures Components(a + b) == Components(a) + Components(b)
    decreases |a|
  {
    if a == [] {
      assert a + b == b;
    } else if a[0] == '/' {
      assert (a + b)[1..] == a[1..] + b;
      ComponentsCat(a[1..], b);
    } else {
      var n := NameLen(a);
      NameLenCat(a, b);
      var rest := a[n..];
      assert (a + b)[..n] == a[..n] && (a + b)[n..] == rest + b;
      ComponentsCat(rest, b);
      assert Components(a + b) == [a[..n]] + Components(rest + b);
      assert ([a[..n]] + Components(rest)) + Components(b) == [a[..n]] + (Components(rest) + Components(b));
    }
  }

  lemma {:induction false} NameLenCat(a: string, b: string)
    requires b == [] || b[0] == '/'
    ensures NameLen(a + b) == NameLen(a)
    decreases |a|
  {
    if a == [] {
      assert a + b == b;
    } else if a[0] != '/' {
      assert (a + b)[1..] == a[1..] + b;
      NameLenCat(a[1..], b);
    }
  }

  lemma {:induction false} NameAlone(name: string)
    requires '/' !in name
    ensures NameLen(name) == |name| && (name != [] ==> Components(name) == [name] && Components("/" + name) == [name])
    decreases |name|
  {
    if name != [] {
      NameAlone(name[1..]);
      assert name[|name|..] == [] && name[..|name|] == name;
      assert ("/" + name)[1..] == name;
    }
  }

  lemma {:induction false} ComponentsTail(stack: seq<string>)
    requires Names(stack)
    ensures Components(Tail(stack)) == stack
    decreases |stack|
  {
    if stack != [] {
      var rest, last := stack[..|stack| - 1], stack[|stack| - 1];
      ComponentsTail(rest);
      assert Tail(stack) == Tail(rest) + ("/" + last);
      ComponentsCat(Tail(rest), "/" + last);
      assert IsName(last);
      NameAlone(last);
      assert stack == rest + [last];
    }
  }

  /** Reading a rendering gives its stack back. */
  lemma ComponentsRender(stack: seq<string>)
    requires Names(stack)
    ensures Components(Render(stack)) == stack
  {
    ComponentsTail(stack);
    if stack == [] { assert "/"[1..] == ""; }
  }

  /** The output names no empty, "." or ".." component, and is its own normal form. */
  lemma NormalForm(s: string)
    ensures Clean(Components(Normalize(s))) && Normalize(Normalize(s)) == Normalize(s)
  {
    ComponentsAreNames(s);
    var stack := Fold([], Components(s));
    FoldClean([], Components(s));
    ComponentsRender(stack);
    FoldSelf([], stack);
    assert [] + stack == stack;
  }

  /** A name at the end of a canonical path adds to its stack. */
  lemma ThenName(stack: seq<string>, name: string)
    requires Clean(stack) && IsName(name)
    ensures Normalize(Render(stack) + "/" + name) == Render(Step(stack, name))
  {
    assert Render(stack) + "/" + name == Render(stack) + ("/" + name);
    ComponentsCat(Render(stack), "/" + name);
    ComponentsRender(stack);
    NameAlone(name);
    FoldCat([], stack, [name]);
    FoldSelf([], stack);
    assert [] + stack == stack && [name][1..] == [];
  }

  /** ".." takes the last name back, and stops at the root. */
  lemma UpOne(stack: seq<string>, name: string)
    requires Clean(stack + [name])
    ensures Normalize(Render(stack + [name]) + "/..") == Render(stack)
    ensures Normalize("/..") == "/"
  {
    var s := stack + [name];
    assert forall i :: 0 <= i < |stack| ==> s[i] == stack[i];
    assert IsName(s[|stack|]) && s[..|stack|] == stack;
    ThenName(s, "..");
    assert Render(s) + "/" + ".." == Render(s) + "/..";
    assert "//.." == "/" + "/..";
    ThenName([], "..");
    assert Render([]) + "/" + ".." == "//..";
    assert "//.."[1..] == "/..";
    assert Components("//..") == Components("/..");
  }

  /** "." changes nothing, and a name leads one level down. */
  lemma StayOrDown(stack: seq<string>, name: string)
    requires Clean(stack + [name])
    ensures Normalize(Render(stack) + "/.") == Render(stack)
    ensures Normalize(Render(stack) + "/" + name) == Render(stack + [name])
  {
    var s := stack + [name];
    assert forall i :: 0 <= i < |stack| ==> s[i] == stack[i];
    assert IsName(s[|stack|]) && s[|stack|] == name;
    ThenName(stack, ".");
    assert Render(stack) + "/" + "." == Render(stack) + "/.";
    ThenName(stack, name);
  }

  /** Only the normal form of the front matters, and slashes in a row are one: with the
      laws for one name this determines every normal form. */
  lemma FrontFirst(p: string, q: string)
    ensures Normalize(p + "/" + q) == Normalize(Normalize(p) + "/" + q)
    ensures Normalize(p + "//" + q) == Normalize(p + "/" + q)
  {
    var stack, rest := Fold([], Components(p)), Components(q);
    assert ("/" + q)[1..] == q && ("//" + q)[1..] == "/" + q;
    assert p + "/" + q == p + ("/" + q) && p + "//" + q == p + ("//" + q);
    ComponentsCat(p, "/" + q);
    ComponentsCat(p, "//" + q);
    ComponentsAreNames(p);
    FoldClean([], Components(p));
    assert Normalize(p) + "/" + q == Normalize(p) + ("/" + q);
    ComponentsCat(Normalize(p), "/" + q);
    ComponentsRender(stack);
    FoldCat([], Components(p), rest);
    FoldCat([], stack, rest);
    FoldSelf([], stack);
    assert [] + stack == stack;
  }

  /** A path relative to a canonical directory goes on from that directory's stack. */
  lemma RelativeFold(cwd: seq<string>, path: string)
    requires Clean(cwd)
    ensures ghost var joined := if cwd == [] then "/" + path else Render(cwd) + "/" + path;
      Components(joined) == cwd + Components(path) && Normalize(joined) == Render(Fold(cwd, Components(path)))
  {
    var joined := if cwd == [] then "/" + path else Render(cwd) + "/" + path;
    assert ("/" + path)[1..] == path;
    if cwd == [] {
      assert cwd + Components(path) == Components(path);
    } else {
      assert joined == Render(cwd) + ("/" + path);
      ComponentsCat(Render(cwd), "/" + path);
      ComponentsRender(cwd);
    }
    FoldCat([], cwd, Components(path));
    FoldSelf([], cwd);
    assert [] + cwd == cwd;
  }

  /** The buffer holds s as a C string of length n. */
  ghost predicate Holds(buf: seq<char>, n: nat, s: string)
  {
    n < |buf| && buf[..n] == s && buf[n] == NUL
  }

  lemma LastSlash(stack: seq<string>)
    requires Names(stack) && stack != []
    ensures ghost var at := |Tail(stack[..|stack| - 1])|; ghost var r := Render(stack);
      && at + 1 < |r| && r[at] == '/' && (forall i :: at < i < |r| ==> r[i] != '/')
      && r[..at] == Tail(stack[..|stack| - 1]) && |r| > 1
      && (at == 0 <==> |stack| == 1)
  {
    var rest, last := stack[..|stack| - 1], stack[|stack| - 1];
    assert Render(stack) == Tail(rest) + "/" + last;
    assert IsName(last);
    forall i | |Tail(rest)| < i < |Render(stack)| ensures Render(stack)[i] != '/' {
      assert Render(stack)[i] == last[i - |Tail(rest)| - 1];
    }
  }

  /** Cuts the last name off; the root stays. */
  method PathPop(out: array<char>, len: nat, ghost stack: seq<string>) returns (len': nat)
    requires Names(stack) && Holds(out[..], len, Render(stack))
    modifies out
    ensures Holds(out[..], len', Render(Step(stack, "..")))
    // On the buffer: everything up to the last slash, which itself stays only at the front.
    ensures len' <= len && out[..len'] == old(out[..len'])
    ensures len <= 1 ==> len' == len
    ensures len > 1 ==> ghost var slash := if len' > 1 then len' else len' - 1;
      && 0 <= slash < len && old(out[slash]) == '/' && forall i :: slash < i < len ==> old(out[i]) != '/'
  {
    if stack != [] { LastSlash(stack); }
    if len <= 1 {
      return len;
    }
    ghost var at := |Tail(stack[..|stack| - 1])|;
    len' := len;
    while len' > 1 && out[len' - 1] != '/'
      invariant at + 1 <= len' <= len
    {
      assert out[..len][len' - 1] == out[len' - 1];
      len' := len' - 1;
    }
    assert out[..len][len' - 1] == out[len' - 1];
    assert len' == at + 1;
    if len' > 1 {
      len' := len' - 1;
    }
    assert out[..len'] == out[..len][..len'];
    out[len'] := NUL;
  }

  /** Appends a name, if it fits. */
  method PathPush(out: array<char>, len: nat, name: string, ghost stack: seq<string>) returns (ok: bool, len': nat)
    requires Holds(out[..], len, Render(stack)) && IsName(name) && Names(stack)
    modifies out
    ensures ok <==> |Render(stack + [name])| < out.Length
    ensures ok ==> Holds(out[..], len', Render(stack + [name]))
    ensures !ok ==> out[..] == old(out[..])
  {
    RenderPlus(stack, name);
    var need := len + (if len > 1 then 1 else 0) + |name| + 1;
    if need > out.Length {
      return false, len;
    }
    len' := len;
    if len' > 1 {
      out[len'] := '/';
      len' := len' + 1;
    }
    ghost var prefix := out[..len'];
    forall k | 0 <= k < |name| {
      out[len' + k] := name[k];
    }
    assert out[..len' + |name|] == prefix + name;
    len' := len' + |name|;
    out[len'] := NUL;
    ok := true;
  }

  lemma RenderPlus(stack: seq<string>, name: string)
    requires Names(stack)
    ensures |Render(stack)| > 1 <==> stack != []
    ensures Render(stack + [name]) == (if stack == [] then Render(stack) else Render(stack) + "/") + name
  {
    assert (stack + [name])[..|stack|] == stack && (stack + [name])[|stack|] == name;
    if stack == [] { assert Tail([]) + "/" == "/"; } else { LastSlash(stack); }
  }

  /** Finds the next name at or after p. */
  method NextName(input: string, p: nat) returns (start: nat, end: nat)
    requires p <= |input|
    ensures p <= start <= end <= |input|
    ensures start == end ==> Components(input[p..]) == []
    ensures start < end ==>
      && IsName(input[start..end])
      && Components(input[p..]) == [input[start..end]] + Components(input[end..])
  {
    hide Components, NameLen;
    start := p;
    while start < |input| && input[start] == '/'
      invariant p <= start <= |input| && Components(input[start..]) == Components(input[p..])
    {
      SkipSlash(input, start);
      start := start + 1;
    }
    end := start;
    while end < |input| && input[end] != '/'
      invariant start <= end <= |input| && forall i :: start <= i < end ==> input[i] != '/'
    {
      end := end + 1;
    }
    NameFound(input, start, end);
  }

  lemma SkipSlash(input: string, p: nat)
    requires p < |input| && input[p] == '/'
    ensures Components(input[p..]) == Components(input[p + 1..])
  {
    assert input[p..][1..] == input[p + 1..];
  }

  lemma NameFound(input: string, start: nat, end: nat)
    requires start <= end <= |input| && forall i :: start <= i < end ==> input[i] != '/'
    requires end < |input| ==> input[end] == '/'
    requires start < |input| ==> input[start] != '/'
    ensures start == end ==> Components(input[start..]) == []
    ensures start < end ==>
      && IsName(input[start..end]) && Components(input[start..]) == [input[start..end]] + Components(input[end..])
  {
    var rest := input[start..];
    if start < end {
      NameLenIs(rest, end - start);
      assert rest[..end - start] == input[start..end] && rest[end - start..] == input[end..];
    } else {
      assert rest == [];
    }
  }

  lemma {:induction false} NameLenIs(s: string, n: nat)
    requires n <= |s| && (forall i :: 0 <= i < n ==> s[i] != '/') && (n < |s| ==> s[n] == '/')
    ensures NameLen(s) == n
    decreases n
  {
    if n > 0 { NameLenIs(s[1..], n - 1); }
  }

  /** Normalises in place. The buffer ends up with the rendering of the folded
      components; the call fails exactly when a name does not fit when pushed,
      or the input is not absolute. */
  method NormalizeAbsolutePath(input: string, out: array<char>) returns (ok: bool, len: nat)
    modifies out
    ensures ok <==> out.Length >= 2 && input != [] && input[0] == '/' && FitsAll([], Components(input), out.Length)
    ensures ok ==> Holds(out[..], len, Normalize(input))
  {
    hide Components, Fold, FitsAll, Render;
    if out.Length < 2 || |input| == 0 || input[0] != '/' {
      return false, 0;
    }
    StartsAtRoot();
    out[0], out[1], len := '/', NUL, 1;
    var p := 0;
    ghost var stack, names := [], Components(input);
    assert input[0..] == input;
    assert out[..1] == "/";
    while p < |input|
      invariant p <= |input| && Clean(stack) && Holds(out[..], len, Render(stack))
      invariant Fold([], names) == Fold(stack, Components(input[p..]))
      invariant FitsAll([], names, out.Length) <==> FitsAll(stack, Components(input[p..]), out.Length)
      decreases |input| - p
    {
      var start, end := NextName(input, p);
      if start == end {
        p := |input|;
        NoMoreNames(input, stack, out.Length);
        break;
      }
      var name := input[start..end];
      ghost var rest := Components(input[end..]);
      FoldStep(stack, name, rest, out.Length);
      p := end;
      if name == "." {
        continue;
      }
      if name == ".." {
        len := PathPop(out, len, stack);
        stack := Step(stack, "..");
        continue;
      }
      ok, len := PathPush(out, len, name, stack);
      if !ok {
        return false, len;
      }
      stack := stack + [name];
    }
    NoMoreNames(input, stack, out.Length);
    ok := true;
  }

  lemma StartsAtRoot()
    ensures Render([]) == "/"
  {}

  lemma NoMoreNames(input: string, stack: seq<string>, cap: nat)
    ensures input[|input|..] == [] && Components([]) == [] && Fold(stack, []) == stack && FitsAll(stack, [], cap)
  {}

  lemma FoldStep(stack: seq<string>, name: string, rest: seq<string>, cap: nat)
    ensures Fold(stack, [name] + rest) == Fold(Step(stack, name), rest)
    ensures FitsAll(stack, [name] + rest, cap) <==>
      (|Step(stack, name)| > |stack| ==> |Render(Step(stack, name))| < cap) && FitsAll(Step(stack, name), rest, cap)
  {
    assert ([name] + rest)[0] == name && ([name] + rest)[1..] == rest;
  }

  /** Renderings grow with the stack, so a canonical path that fits can be normalised again. */
  lemma {:induction false} FitsSelf(done: seq<string>, rest: seq<string>, cap: nat)
    requires Clean(done) && Clean(rest) && |Render(done + rest)| < cap
    ensures FitsAll(done, rest, cap)
    decreases |rest|
  {
    if rest != [] {
      var done', rest' := done + [rest[0]], rest[1..];
      assert done + rest == done' + rest';
      RenderGrows(done', rest');
      FitsSelf(done', rest', cap);
    }
  }

  lemma {:induction false} RenderGrows(done: seq<string>, rest: seq<string>)
    requires done != []
    ensures |Render(done)| <= |Render(done + rest)|
    decreases |rest|
  {
    if rest == [] {
      assert done + rest == done;
    } else {
      var shorter := rest[..|rest| - 1];
      RenderGrows(done, shorter);
      assert (done + rest)[..|done + rest| - 1] == done + shorter;
    }
  }

  /** A path that has been normalised into a buffer normalises into that buffer again, to itself. */
  lemma NormalizeAgain(s: string, cap: nat)
    requires |Normalize(s)| < cap
    ensures FitsAll([], Components(Normalize(s)), cap)
  {
    ComponentsAreNames(s);
    var stack := Fold([], Components(s));
    FoldClean([], Components(s));
    ComponentsRender(stack);
    assert [] + stack == stack;
    FitsSelf([], stack, cap);
  }

  /** A canonical path: the rendering of a clean stack. */
  ghost predicate Canonical(path: string, stack: seq<string>)
  {
    Clean(stack) && path == Render(stack)
  }

  /** Resolves a path against the working directory: an absolute path alone, a
      relative one as if its names went on from the directory's own. */
  method ResolvePath(cwd: string, path: string, out: array<char>, ghost dir: seq<string>) returns (ok: bool, len: nat)
    requires Canonical(cwd, dir)
    modifies out
    ensures path == [] ==> !ok
    ensures path != [] && path[0] == '/' ==>
      && (ok <==> out.Length >= 2 && FitsAll([], Components(path), out.Length))
      && (ok ==> Holds(out[..], len, Render(Fold([], Components(path)))))
    ensures path != [] && path[0] != '/' ==>
      && (ok <==> |cwd| + (if dir == [] then 0 else 1) + |path| < MAX_PATH && out.Length >= 2
                  && FitsAll([], dir + Components(path), out.Length))
      && (ok ==> Holds(out[..], len, Render(Fold(dir, Components(path)))))
  {
    hide Components, Fold, FitsAll, Tail, Holds;
    if |path| == 0 {
      return false, 0;
    }
    if path[0] == '/' {
      ok, len := NormalizeAbsolutePath(path, out);
      return;
    }
    RootOnly(dir);
    RelativeFold(dir, path);
    var need := |cwd| + (if |cwd| > 1 then 1 else 0) + |path| + 1;
    if need > MAX_PATH {
      return false, 0;
    }
    var combined := if |cwd| > 1 then cwd + "/" + path else cwd + path;
    ok, len := NormalizeAbsolutePath(combined, out);
  }

  lemma RootOnly(stack: seq<string>)
    requires Clean(stack)
    ensures (|Render(stack)| > 1 <==> stack != []) && Render(stack) != [] && Render(stack)[0] == '/'
  {
    RenderPlus(stack, "");
    TailStarts(stack);
  }

  lemma {:induction false} TailStarts(stack: seq<string>)
    ensures stack != [] ==> Tail(stack) != [] && Tail(stack)[0] == '/'
    decreases |stack|
  {
    if stack != [] {
      TailStarts(stack[..|stack| - 1]);
    }
  }

  /** An input that is shorter than the buffer never overflows it: each name that is
      pushed has been read, with its slash, from the input. */
  lemma {:induction false} ShortInputFits(stack: seq<string>, s: string, cap: nat)
    requires (s == [] || s[0] == '/') && |Tail(stack)| + |s| < cap
    ensures FitsAll(stack, Components(s), cap)
    decreases |s|
  {
    if s == [] {
      return;
    }
    var t := s[1..];
    assert Components(s) == Components(t);
    if t == [] || t[0] == '/' {
      ShortInputFits(stack, t, cap);
    } else {
      var n := NameLen(t);
      var name, rest := t[..n], t[n..];
      assert (stack + [name])[..|stack|] == stack;
      assert |Tail(Step(stack, name))| <= |Tail(stack)| + 1 + n;
      ShortInputFits(Step(stack, name), rest, cap);
      FoldStep(stack, name, Components(rest), cap);
    }
  }

  /** So a relative path that fits when joined to the working directory can be resolved. */
  lemma JoinedFits(dir: seq<string>, path: string, cap: nat)
    requires Clean(dir) && |Render(dir)| + (if dir == [] then 0 else 1) + |path| < cap
    ensures FitsAll([], dir + Components(path), cap)
  {
    RootOnly(dir);
    RelativeFold(dir, path);
    ShortInputFits([], if dir == [] then "/" + path else Render(dir) + "/" + path, cap);
  }

  /** Alone, the normaliser can fail on a short result: by a detour through a name that does not fit. */
  lemma DetourMustFit(name: string, cap: nat)
    requires Clean([name]) && cap >= 2
    ensures Normalize("/" + name + "/..") == "/" && |"/"| < cap
    ensures FitsAll([], Components("/" + name + "/.."), cap) <==> |name| + 1 < cap
  {
    var s := "/" + name + "/..";
    assert IsName([name][0]);
    NameAlone(name);
    NameAlone("..");
    assert s == ("/" + name) + "/..";
    ComponentsCat("/" + name, "/..");
    assert "/.." == "/" + "..";
    var names := Components(s);
    assert names == [name, ".."];
    assert [name][0] == name && [name] != [] && Step([], name) == [name] && Step([name], "..") == [];
    assert names[1..] == [".."] && names[1..][1..] == [];
    FoldStep([], name, [".."], cap);
    FoldStep([name], "..", [], cap);
    assert [".."] + [] == [".."];
    RenderPlus([], name);
    assert [] + [name] == [name];
  }
}
