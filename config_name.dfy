/** The config-file name pattern `autoexec_(.+)_([^_]+)\.cfg$`: which file
    names it accepts and the executable name and server id it captures, under
    Go's regexp semantics (the leftmost match wins, `.` matches anything but a
    newline, `[^_]` matches a newline too, `$` is the end of the text). */
module ConfigName {
  import opened Wrappers
  import opened Text

  const Marker := "autoexec_"
  const CfgExt := ".cfg"

  /** The two captures: the executable name and the server id. */
  datatype NameParts = NameParts(exec: string, id: string)

  /** What `.+` matches. */
  predicate ValidExec(e: string)
  {
    e != [] && '\n' !in e
  }

  /** What `[^_]+` matches. */
  predicate ValidId(i: string)
  {
    i != [] && '_' !in i
  }

  /** The text the pattern matches for the given captures. */
  function Render(p: NameParts): string
  {
    Marker + (p.exec + ("_" + (p.id + CfgExt)))
  }

  predicate EndsWith(s: string, suffix: string)
  {
    |suffix| <= |s| && s[|s| - |suffix|..] == suffix
  }

  /** A match can start at `p` when the last '_' is at `u`: "autoexec_" is
      at `p` and a newline-free, non-empty executable name follows up to `u`. */
  predicate StartsMatch(s: string, p: int, u: int)
  {
    0 <= p && p + |Marker| < u <= |s| && OccursAt(s, Marker, p) && '\n' !in s[p + |Marker|..u]
  }

  /** The leftmost start at or after `p`. */
  function FirstStart(s: string, p: nat, u: nat): (r: Option<nat>)
    requires u <= |s|
    ensures r.Some? ==> p <= r.value && StartsMatch(s, r.value, u)
    ensures forall m :: p <= m && StartsMatch(s, m, u) ==> r.Some? && r.value <= m
    decreases u - p
  {
    if p + |Marker| >= u then None
    else if StartsMatch(s, p, u) then Some(p)
    else FirstStart(s, p + 1, u)
  }

  /** cfgSplitRegex.FindStringSubmatch: the captures of the leftmost match,
      or None when the name does not match. The match must end at the end of
      the name, so its '_' is the last '_' of the name. */
  function SplitConfigName(name: string): (r: Option<NameParts>)
    ensures r.Some? ==> ValidExec(r.value.exec) && ValidId(r.value.id)
    ensures r.Some? ==> EndsWith(name, Render(r.value))
  {
    if !EndsWith(name, CfgExt) then None
    else SplitAt(name, LastIndexOf(name, '_'))
  }

  /** The captures of the leftmost match whose '_' is at `u`, the last '_'
      of the name. */
  function SplitAt(name: string, u: int): (r: Option<NameParts>)
    requires EndsWith(name, CfgExt) && u == LastIndexOf(name, '_')
    ensures r.Some? ==> ValidExec(r.value.exec) && ValidId(r.value.id)
    ensures r.Some? ==> EndsWith(name, Render(r.value))
  {
    if u < 0 || u + 1 >= |name| - |CfgExt| then None
    else match FirstStart(name, 0, u)
      case None => None
      case Some(p) =>
        var parts := NameParts(name[p + |Marker|..u], name[u + 1..|name| - |CfgExt|]);
        MatchEndsName(name, p, u);
        Some(parts)
  }

  /** The text from a match start to the end of the name renders the
      captures taken from it. */
  lemma MatchEndsName(name: string, p: nat, u: nat)
    requires EndsWith(name, CfgExt) && p + |Marker| < u < |name| - |CfgExt|
    requires OccursAt(name, Marker, p) && name[u] == '_'
    ensures EndsWith(name, Render(NameParts(name[p + |Marker|..u], name[u + 1..|name| - |CfgExt|])))
  {
    var parts := NameParts(name[p + |Marker|..u], name[u + 1..|name| - |CfgExt|]);
    UnderscoreTail(name, u);
    SliceSplit(name, p + |Marker|, u);
    SliceSplit(name, p, p + |Marker|);
    assert name[p..] == Render(parts);
  }

  /** The name from its '_' at `u` on: the '_', the id and the extension. */
  lemma UnderscoreTail(name: string, u: nat)
    requires EndsWith(name, CfgExt) && u < |name| - |CfgExt| && name[u] == '_'
    ensures name[u..] == "_" + (name[u + 1..|name| - |CfgExt|] + CfgExt)
  {
    SliceSplit(name, u + 1, |name| - |CfgExt|);
    SliceSplit(name, u, u + 1);
    assert name[u..u + 1] == "_";
  }

  /** A suffix of `s` is the slice up to `j` followed by the rest. */
  lemma SliceSplit(s: string, i: nat, j: nat)
    requires i <= j <= |s|
    ensures s[i..] == s[i..j] + s[j..]
  {
  }

  /** Every name that ends in a match is split, with the same id and an
      executable name that ends in the given one (the leftmost match may
      start earlier). */
  lemma SplitComplete(name: string, parts: NameParts)
    requires ValidExec(parts.exec) && ValidId(parts.id)
    requires EndsWith(name, Render(parts))
    ensures SplitConfigName(name).Some?
    ensures SplitConfigName(name).value.id == parts.id
    ensures EndsWith(SplitConfigName(name).value.exec, parts.exec)
  {
    var p0 := |name| - |Render(parts)|;
    var u0 := p0 + |Marker| + |parts.exec|;
    var p := SplitOfRendered(name, parts);
    var exec := name[p + |Marker|..u0];
    assert exec[|exec| - |parts.exec|..] == name[p0 + |Marker|..u0];
  }

  /** The match found in a name ending with rendered parts starts no later
      than they do and shares their last '_'. */
  lemma SplitOfRendered(name: string, parts: NameParts) returns (p: nat)
    requires ValidExec(parts.exec) && ValidId(parts.id)
    requires EndsWith(name, Render(parts))
    ensures var p0 := |name| - |Render(parts)|;
      var u0 := p0 + |Marker| + |parts.exec|;
      && p <= p0
      && name[p0 + |Marker|..u0] == parts.exec
      && SplitConfigName(name) == Some(NameParts(name[p + |Marker|..u0], parts.id))
  {
    var p0 := |name| - |Render(parts)|;
    var u0 := p0 + |Marker| + |parts.exec|;
    RenderedAt(name, parts);
    p := FirstStart(name, 0, u0).value;
    SplitAtLastUnderscore(name, u0, p, parts.id);
  }

  /** The split a name gets from its last '_' and the leftmost match start
      before it. */
  lemma SplitAtLastUnderscore(name: string, u: nat, p: nat, id: string)
    requires EndsWith(name, CfgExt) && u + 1 < |name| - |CfgExt|
    requires LastIndexOf(name, '_') == u && FirstStart(name, 0, u) == Some(p)
    requires name[u + 1..|name| - |CfgExt|] == id
    ensures SplitConfigName(name) == Some(NameParts(name[p + |Marker|..u], id))
  {
    assert SplitConfigName(name) == SplitAt(name, u);
  }

  /** Where the rendered parts sit in a name that ends with them: the
      marker, the executable name, the last '_', the id and the extension. */
  lemma RenderedAt(name: string, parts: NameParts)
    requires ValidExec(parts.exec) && ValidId(parts.id)
    requires EndsWith(name, Render(parts))
    ensures var p0 := |name| - |Render(parts)|;
      var u0 := p0 + |Marker| + |parts.exec|;
      && name[|name| - |CfgExt|..] == CfgExt
      && name[p0..p0 + |Marker|] == Marker
      && name[p0 + |Marker|..u0] == parts.exec
      && name[u0] == '_'
      && name[u0 + 1..|name| - |CfgExt|] == parts.id
      && LastIndexOf(name, '_') == u0
      && StartsMatch(name, p0, u0)
  {
    var r := Render(parts);
    var p0 := |name| - |r|;
    var u0 := p0 + |Marker| + |parts.exec|;
    assert name[p0..] == r;
    assert name[|name| - |CfgExt|..] == r[|r| - |CfgExt|..] == CfgExt;
    forall k | u0 < k < |name|
      ensures name[k] != '_'
    {
      if k < |name| - |CfgExt| {
        assert name[k] == parts.id[k - u0 - 1];
      } else {
        assert name[k] == CfgExt[k - (|name| - |CfgExt|)];
      }
    }
    LastIndexOfAt(name, '_', u0);
  }

  /** Splitting a rendered name gives back its parts. */
  lemma SplitRender(parts: NameParts)
    requires ValidExec(parts.exec) && ValidId(parts.id)
    ensures SplitConfigName(Render(parts)) == Some(parts)
  {
    var name := Render(parts);
    assert EndsWith(name, name);
    SplitComplete(name, parts);
  }

  /** A config named for the zcatch_srv executable and server 01. */
  lemma SplitExample()
    ensures SplitConfigName("autoexec_zcatch_srv_01.cfg") == Some(NameParts("zcatch_srv", "01"))
  {
    assert "autoexec_zcatch_srv_01.cfg" == Render(NameParts("zcatch_srv", "01"));
    SplitRender(NameParts("zcatch_srv", "01"));
  }
}
