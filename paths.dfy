/**
 * The lexical part of Python's `posixpath` that the sandbox check and the
 * trash interception use: `isabs`, `join`, `normpath`, `abspath`,
 * `commonpath` and `basename`. Nothing here consults a file system: like
 * `abspath`, it does not resolve symbolic links.
 */
module Paths {
  import opened Text

  /** `posixpath.isabs`. */
  predicate IsAbs(p: string) {
    "/" <= p
  }

  /** `posixpath.join(a, b)`: an absolute `b` replaces `a`. */
  function JoinPath(a: string, b: string): string {
    if IsAbs(b) then b
    else if a == [] || a[|a| - 1] == '/' then a + b
    else a + "/" + b
  }

  /** A component that survives `normpath`: not empty, not ".", not "..", no separator. */
  predicate IsName(c: string) {
    c != "" && c != "." && c != ".." && '/' !in c
  }

  predicate AllNames(cs: seq<string>) {
    forall k | 0 <= k < |cs| :: IsName(cs[k])
  }

  predicate NoSlashes(cs: seq<string>) {
    forall k | 0 <= k < |cs| :: '/' !in cs[k]
  }

  /**
   * The component loop of `normpath` for an absolute path: empty and "."
   * components vanish, ".." drops the last kept component and is itself
   * dropped at the root.
   */
  function Resolve(kept: seq<string>, cs: seq<string>): seq<string>
    decreases |cs|
  {
    if cs == [] then kept
    else if cs[0] == "" || cs[0] == "." then Resolve(kept, cs[1..])
    else if cs[0] == ".." then Resolve(if kept == [] then [] else kept[..|kept| - 1], cs[1..])
    else Resolve(kept + [cs[0]], cs[1..])
  }

  /** The absolute path with the given components: "/" followed by "/".join(cs). */
  function Render(cs: seq<string>): string {
    "/" + Join(cs, "/")
  }

  /** The components of `normpath(p)` for an absolute path `p`. */
  function NormComponents(p: string): seq<string> {
    Resolve([], Split(p, "/"))
  }

  /** The components of `abspath(p)`; `processDir` is what `os.getcwd()` returns. */
  function AbsComponents(p: string, processDir: string): seq<string>
    requires IsAbs(processDir)
  {
    NormComponents(if IsAbs(p) then p else JoinPath(processDir, p))
  }

  /** `posixpath.abspath(p)`. */
  function Abspath(p: string, processDir: string): string
    requires IsAbs(processDir)
  {
    Render(AbsComponents(p, processDir))
  }

  function DropTrivial(cs: seq<string>): seq<string> {
    if cs == [] then []
    else (if cs[0] == "" || cs[0] == "." then [] else [cs[0]]) + DropTrivial(cs[1..])
  }

  /** The components `commonpath` compares: the pieces between separators, without "" and ".". */
  function Components(p: string): seq<string> {
    DropTrivial(Split(p, "/"))
  }

  /** The longest common prefix of two component lists. */
  function CommonPrefix(a: seq<string>, b: seq<string>): (c: seq<string>)
    ensures c <= a && c <= b
    ensures |c| < |a| && |c| < |b| ==> a[|c|] != b[|c|]
  {
    if a != [] && b != [] && a[0] == b[0] then [a[0]] + CommonPrefix(a[1..], b[1..]) else []
  }

  /** `posixpath.commonpath([a, b])` for two absolute paths. */
  function Commonpath(a: string, b: string): string
    requires IsAbs(a) && IsAbs(b)
  {
    Render(CommonPrefix(Components(a), Components(b)))
  }

  /** `posixpath.basename(p)`: everything after the last "/". */
  function Basename(p: string): (r: string)
    ensures '/' !in r
    ensures |r| <= |p| && r == p[|p| - |r|..]
    ensures |r| < |p| ==> p[|p| - |r| - 1] == '/'
  {
    if p == [] || p[|p| - 1] == '/' then "" else Basename(p[..|p| - 1]) + [p[|p| - 1]]
  }

  lemma CommonPrefixIsWhole(a: seq<string>, b: seq<string>)
    ensures CommonPrefix(a, b) == b <==> b <= a
  {
    var c := CommonPrefix(a, b);
  }

  lemma SlashFreeNotContains(c: string)
    requires '/' !in c
    ensures !Contains(c, "/")
  {
    forall i | 0 <= i <= |c| ensures !("/" <= c[i..]) {
      if i < |c| {
        assert c[i..][0] == c[i];
      }
    }
  }

  /** No piece of `p.split("/")` holds a separator. */
  lemma SplitSlashFree(p: string)
    ensures NoSlashes(Split(p, "/"))
  {
    var parts := Split(p, "/");
    SplitPiecesFree(p, "/");
    forall k, i | 0 <= k < |parts| && 0 <= i < |parts[k]| ensures parts[k][i] != '/' {
      assert !("/" <= parts[k][i..]);
    }
  }

  lemma {:induction false} SplitJoin(cs: seq<string>)
    requires cs != [] && NoSlashes(cs)
    ensures Split(Join(cs, "/"), "/") == cs
    decreases |cs|
  {
    SlashFreeNotContains(cs[0]);
    if |cs| == 1 {
      SplitWithout(cs[0], "/");
    } else {
      var rest := Join(cs[1..], "/");
      assert Join(cs, "/") == cs[0] + "/" + rest;
      forall i | 0 <= i < |cs[0]| ensures !("/" <= (cs[0] + "/" + rest)[i..]) {
        assert (cs[0] + "/" + rest)[i..][0] == cs[0][i];
      }
      SplitAtFirst(cs[0], "/", rest);
      SplitJoin(cs[1..]);
    }
  }

  /** Splitting a rendered path gives back its components after a leading empty piece. */
  lemma SplitRender(cs: seq<string>)
    requires NoSlashes(cs)
    ensures Split(Render(cs), "/") == [""] + (if cs == [] then [""] else cs)
  {
    assert Render(cs) == [] + ['/'] + Join(cs, "/");
    SplitCharConcat([], '/', Join(cs, "/"));
    if cs != [] {
      SplitJoin(cs);
    }
  }

  lemma {:induction false} DropNames(cs: seq<string>)
    requires AllNames(cs)
    ensures DropTrivial(cs) == cs
    decreases |cs|
  {
    if cs != [] {
      DropNames(cs[1..]);
    }
  }

  lemma {:induction false} ResolveNames(kept: seq<string>, cs: seq<string>)
    requires AllNames(cs)
    ensures Resolve(kept, cs) == kept + cs
    decreases |cs|
  {
    if cs != [] {
      ResolveNames(kept + [cs[0]], cs[1..]);
      assert kept + [cs[0]] + cs[1..] == kept + cs;
    }
  }

  /** `commonpath` sees exactly the components a path was rendered from. */
  lemma ComponentsRender(cs: seq<string>)
    requires AllNames(cs)
    ensures Components(Render(cs)) == cs
  {
    SplitRender(cs);
    DropNames(cs);
    if cs == [] {
      assert DropTrivial(["", ""]) == DropTrivial([""]) == [];
    } else {
      assert ([""] + cs)[1..] == cs;
    }
  }

  /** `normpath` of a rendered path changes nothing. */
  lemma NormRender(cs: seq<string>)
    requires AllNames(cs)
    ensures NormComponents(Render(cs)) == cs
  {
    SplitRender(cs);
    ResolveNames([], cs);
    if cs == [] {
      assert Resolve([], ["", ""]) == Resolve([], [""]) == [];
    } else {
      assert ([""] + cs)[1..] == cs;
    }
  }

  lemma RenderInjective(a: seq<string>, b: seq<string>)
    requires AllNames(a) && AllNames(b) && Render(a) == Render(b)
    ensures a == b
  {
    ComponentsRender(a);
    ComponentsRender(b);
  }

  lemma {:induction false} ResolveAppend(kept: seq<string>, xs: seq<string>, ys: seq<string>)
    ensures Resolve(kept, xs + ys) == Resolve(Resolve(kept, xs), ys)
    decreases |xs|
  {
    if xs != [] {
      assert (xs + ys)[0] == xs[0] && (xs + ys)[1..] == xs[1..] + ys;
      var next := if xs[0] == "" || xs[0] == "." then kept
                  else if xs[0] == ".." then (if kept == [] then [] else kept[..|kept| - 1])
                  else kept + [xs[0]];
      ResolveAppend(next, xs[1..], ys);
    } else {
      assert xs + ys == ys;
    }
  }

  /** Resolution keeps only names when it starts from names and reads separator-free pieces. */
  lemma {:induction false} ResolveKeepsNames(kept: seq<string>, cs: seq<string>)
    requires AllNames(kept) && NoSlashes(cs)
    ensures AllNames(Resolve(kept, cs))
    decreases |cs|
  {
    if cs != [] {
      var next := if cs[0] == "" || cs[0] == "." then kept
                  else if cs[0] == ".." then (if kept == [] then [] else kept[..|kept| - 1])
                  else kept + [cs[0]];
      ResolveKeepsNames(next, cs[1..]);
    }
  }

  /** Without "..", resolution only ever adds components. */
  lemma {:induction false} ResolveExtends(kept: seq<string>, cs: seq<string>)
    requires forall k | 0 <= k < |cs| :: cs[k] != ".."
    ensures kept <= Resolve(kept, cs)
    decreases |cs|
  {
    if cs != [] {
      var next := if cs[0] == "" || cs[0] == "." then kept else kept + [cs[0]];
      ResolveExtends(next, cs[1..]);
    }
  }

  lemma NormNames(p: string)
    ensures AllNames(NormComponents(p))
  {
    SplitSlashFree(p);
    ResolveKeepsNames([], Split(p, "/"));
  }

  /** `normpath(join(a, b))` for a relative `b` continues from the components of `a`. */
  lemma NormJoin(a: string, b: string)
    requires !IsAbs(b)
    ensures NormComponents(JoinPath(a, b)) == Resolve(NormComponents(a), Split(b, "/"))
  {
    if a == [] {
      assert Split(a, "/") == [""];
      assert Resolve([], [""]) == [];
      assert JoinPath(a, b) == b;
    } else if a[|a| - 1] == '/' {
      var a' := a[..|a| - 1];
      assert a == a' + ['/'] + "";
      assert a + b == a' + ['/'] + b;
      SplitCharConcat(a', '/', "");
      SplitCharConcat(a', '/', b);
      ResolveAppend([], Split(a', "/"), [""]);
      ResolveAppend([], Split(a', "/"), Split(b, "/"));
    } else {
      assert a + "/" + b == a + ['/'] + b;
      SplitCharConcat(a, '/', b);
      ResolveAppend([], Split(a, "/"), Split(b, "/"));
    }
  }
}
