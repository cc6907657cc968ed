/** The parts of Go's path and path/filepath packages the program calls, on a
    Unix host where the separator is '/': filepath.Base, filepath.Ext and
    path.Join with its lexical cleaning (path.Clean). */
module GoPath {
  import opened Text

  /** A single path element as a directory listing yields it: not empty, no
      separator, and neither "." nor "..". */
  predicate IsName(e: string)
  {
    e != [] && e != "." && e != ".." && '/' !in e
  }

  /** `s` with every trailing '/' removed. */
  function TrimTrailingSlashes(s: string): (t: string)
    ensures |t| <= |s| && t == s[..|t|]
    ensures t == [] || t[|t| - 1] != '/'
  {
    if s != [] && s[|s| - 1] == '/' then TrimTrailingSlashes(s[..|s| - 1]) else s
  }

  /** filepath.Base: the last element of `p`; "." for the empty path and "/"
      for a path of slashes only. */
  function Base(p: string): (b: string)
    ensures b != []
    ensures b == "/" || '/' !in b
  {
    if p == [] then "."
    else
      var t := TrimTrailingSlashes(p);
      if t == [] then "/" else t[LastIndexOf(t, '/') + 1..]
  }

  /** Base of a name, and of a name placed under any directory, is the name. */
  lemma BaseOfName(dir: string, name: string)
    requires IsName(name)
    ensures Base(name) == name
    ensures Base(dir + "/" + name) == name
  {
    LastIndexOfAppend(dir, '/', name);
    assert LastIndexOf(name, '/') == -1;
    var p := dir + "/" + name;
    assert p[|p| - 1] == name[|name| - 1];
    assert p[|dir| + 1..] == name;
  }

  /** filepath.Ext scanning down from index n: the suffix starting at the last
      '.' that no '/' follows, or "" when a '/' or the start comes first. */
  function ExtScan(p: string, n: nat): (e: string)
    requires n <= |p|
    requires forall k :: n <= k < |p| ==> p[k] != '/' && p[k] != '.'
    ensures |e| <= |p| && e == p[|p| - |e|..]
    ensures e == [] || (e[0] == '.' && '/' !in e && '.' !in e[1..])
  {
    if n == 0 || p[n - 1] == '/' then []
    else if p[n - 1] == '.' then p[n - 1..]
    else ExtScan(p, n - 1)
  }

  /** filepath.Ext: the extension of the last element, including its dot. */
  function Ext(p: string): (e: string)
    ensures |e| <= |p| && e == p[|p| - |e|..]
    ensures e == [] || (e[0] == '.' && '/' !in e && '.' !in e[1..])
  {
    ExtScan(p, |p|)
  }

  /** A name has an empty extension exactly when it holds no dot. */
  lemma {:induction false} ExtEmptyScan(p: string, n: nat)
    requires n <= |p| && '/' !in p
    requires forall k :: n <= k < |p| ==> p[k] != '.'
    ensures ExtScan(p, n) == [] <==> forall k :: 0 <= k < n ==> p[k] != '.'
  {
    if n > 0 && p[n - 1] != '.' {
      ExtEmptyScan(p, n - 1);
    }
  }

  lemma ExtEmptyIffNoDot(name: string)
    requires '/' !in name
    ensures Ext(name) == [] <==> '.' !in name
  {
    ExtEmptyScan(name, |name|);
  }

  /** A name ending in ".cfg" has the extension ".cfg". */
  lemma ExtOfCfg(name: string)
    requires |name| >= 4 && name[|name| - 4..] == ".cfg"
    ensures Ext(name) == ".cfg"
  {
    var n := |name|;
    var tail := name[n - 4..];
    assert name[n - 1] == tail[3] == 'g';
    assert name[n - 2] == tail[2] == 'f';
    assert name[n - 3] == tail[1] == 'c';
    assert name[n - 4] == tail[0] == '.';
    assert ExtScan(name, n - 3) == name[n - 4..];
    assert ExtScan(name, n - 2) == ExtScan(name, n - 3);
    assert ExtScan(name, n - 1) == ExtScan(name, n - 2);
  }

  /** The path without the extension of its last element. */
  function StripExt(p: string): (stem: string)
    ensures stem + Ext(p) == p
  {
    p[..|p| - |Ext(p)|]
  }

  /** One step of path.Clean's element processing over the names kept so far:
      "" and "." vanish; ".." removes the last kept name, or is dropped at the
      root, or is kept when a relative path has nothing left to remove. */
  function Step(kept: seq<string>, e: string, rooted: bool): seq<string>
  {
    if e == [] || e == "." then kept
    else if e == ".." then
      if kept != [] && kept[|kept| - 1] != ".." then kept[..|kept| - 1]
      else if rooted then kept
      else kept + [".."]
    else kept + [e]
  }

  /** True for every element path.Clean can keep. */
  predicate IsKept(e: string)
  {
    e != [] && e != "." && '/' !in e
  }

  /** The elements path.Clean keeps, processing `elems` from left to right. */
  function Resolve(elems: seq<string>, rooted: bool): (kept: seq<string>)
    requires forall k :: 0 <= k < |elems| ==> '/' !in elems[k]
    ensures forall k :: 0 <= k < |kept| ==> IsKept(kept[k])
  {
    if elems == [] then []
    else Step(Resolve(elems[..|elems| - 1], rooted), elems[|elems| - 1], rooted)
  }

  /** The path path.Clean writes for the kept elements. */
  function Assemble(kept: seq<string>, rooted: bool): (c: string)
    requires forall k :: 0 <= k < |kept| ==> IsKept(kept[k])
    ensures c != []
  {
    if rooted then "/" + Join(kept, '/')
    else if kept == [] then "."
    else JoinOfKept(kept); Join(kept, '/')
  }

  /** path.Clean: the shortest lexically equivalent path. */
  function Clean(p: string): (c: string)
    ensures c != []
  {
    if p == [] then "."
    else Assemble(Resolve(Split(p, '/'), p[0] == '/'), p[0] == '/')
  }

  /** path.Join of two elements: the non-empty ones joined by '/', then
      cleaned; "" when both are empty. */
  function JoinPath(dir: string, elem: string): string
  {
    if dir == [] && elem == [] then []
    else if dir == [] then Clean(elem)
    else Clean(dir + "/" + elem)
  }

  /** `name` placed under the clean directory `dir`. */
  function Under(dir: string, name: string): string
  {
    if dir == "." then name else if dir == "/" then "/" + name else dir + "/" + name
  }

  /** A join of kept elements is neither ".", "/" nor empty. */
  lemma JoinOfKept(kept: seq<string>)
    requires kept != []
    requires forall k :: 0 <= k < |kept| ==> IsKept(kept[k])
    ensures Join(kept, '/') != [] && Join(kept, '/') != "." && Join(kept, '/') != "/"
  {
    if |kept| > 1 {
      JoinLength(kept, '/');
      JoinLength(kept[..|kept| - 1], '/');
    }
  }

  /** Joining a name to a directory puts the name under the cleaned
      directory. */
  lemma JoinName(dir: string, name: string)
    requires IsName(name)
    ensures JoinPath(dir, name) == Under(Clean(dir), name)
  {
    if dir == [] {
      assert LastIndexOf(name, '/') == -1;
      assert Split(name, '/') == [name];
      ResolveName([], name, false);
      AssembleName([], name, false);
    } else {
      var p := dir + "/" + name;
      var rooted := dir[0] == '/';
      assert p[0] == dir[0];
      SplitAppend(dir, '/', name);
      var elems := Split(dir, '/');
      ResolveName(elems, name, rooted);
      AssembleName(Resolve(elems, rooted), name, rooted);
    }
  }

  /** Assembling one more kept name puts it under the assembled path. */
  lemma AssembleName(kept: seq<string>, name: string, rooted: bool)
    requires IsName(name)
    requires forall k :: 0 <= k < |kept| ==> IsKept(kept[k])
    ensures Assemble(kept + [name], rooted) == Under(Assemble(kept, rooted), name)
  {
    JoinAppend(kept, name, '/');
    if kept != [] {
      JoinOfKept(kept);
    }
  }

  /** A name at the end of the elements is kept after the others. */
  lemma ResolveName(elems: seq<string>, name: string, rooted: bool)
    requires IsName(name)
    requires forall k :: 0 <= k < |elems| ==> '/' !in elems[k]
    ensures Resolve(elems + [name], rooted) == Resolve(elems, rooted) + [name]
  {
    assert (elems + [name])[..|elems|] == elems;
  }

  /** A directory spelled "./<name>", as the program's two directories are,
      cleans to the bare name. */
  lemma CleanDotName(name: string)
    requires IsName(name)
    ensures Clean("./" + name) == name
  {
    var p := "./" + name;
    assert p == "." + ['/'] + name;
    SplitAppend(".", '/', name);
    assert LastIndexOf(".", '/') == -1;
    assert Split(".", '/') == ["."];
    ResolveName(["."], name, false);
    assert ["."][..0] == [];
    assert Resolve(["."], false) == [];
    AssembleName([], name, false);
  }
}
