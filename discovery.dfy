/** constructConfigs: pairs the executables found in one directory listing
    with the autoexec_<exec>_<id>.cfg files of another. The two user
    patterns are predicates on names; the listings are sequences of entries
    in the order the directory read returned them. */
module Discovery {
  import opened Wrappers
  import opened GoPath
  import opened ConfigName
  import opened Configs

  /** One directory entry: its name and whether it is a directory. */
  datatype DirEntry = DirEntry(name: string, isDir: bool)

  /** Step 1's test: a non-directory whose extension is "" or "exe" and whose
      base name matches the executable pattern. */
  predicate IsExecutable(e: DirEntry, execMatch: string -> bool)
  {
    var ext := Ext(e.name);
    !e.isDir && (ext == [] || ext == "exe") && execMatch(Base(e.name))
  }

  /** The name step 1 records for an entry, if it records one. */
  function ExecutableName(e: DirEntry, execMatch: string -> bool): Option<string>
  {
    if IsExecutable(e, execMatch) then Some(Base(e.name)) else None
  }

  /** The values `f` gives for the elements of `xs`, in order, skipping None. */
  function FilterMap<T, U>(xs: seq<T>, f: T -> Option<U>): seq<U>
  {
    if xs == [] then []
    else
      FilterMap(xs[..|xs| - 1], f)
        + match f(xs[|xs| - 1])
          case None => []
          case Some(y) => [y]
  }

  lemma {:induction false} FilterMapAppend<T, U>(a: seq<T>, b: seq<T>, f: T -> Option<U>)
    ensures FilterMap(a + b, f) == FilterMap(a, f) + FilterMap(b, f)
  {
    if b == [] {
      assert a + b == a;
    } else {
      var init := b[..|b| - 1];
      FilterMapAppend(a, init, f);
      assert (a + b)[..|a + b| - 1] == a + init;
      assert (a + b)[|a + b| - 1] == b[|b| - 1];
    }
  }

  lemma {:induction false} FilterMapMembers<T, U>(xs: seq<T>, f: T -> Option<U>, y: U)
    ensures |FilterMap(xs, f)| <= |xs|
    ensures y in FilterMap(xs, f) <==> exists k :: 0 <= k < |xs| && f(xs[k]) == Some(y)
  {
    if xs != [] {
      var init := xs[..|xs| - 1];
      FilterMapMembers(init, f, y);
      if exists k :: 0 <= k < |init| && f(init[k]) == Some(y) {
        var k :| 0 <= k < |init| && f(init[k]) == Some(y);
        assert xs[k] == init[k];
      }
      if exists k :: 0 <= k < |xs| && f(xs[k]) == Some(y) {
        var k :| 0 <= k < |xs| && f(xs[k]) == Some(y);
        if k < |init| {
          assert init[k] == xs[k];
        }
      }
    }
  }

  /** The values `f` gives for the elements of `xs`, as a set. */
  function CollectSet<T, U>(xs: seq<T>, f: T -> Option<U>): set<U>
  {
    if xs == [] then {}
    else
      CollectSet(xs[..|xs| - 1], f)
        + match f(xs[|xs| - 1])
          case None => {}
          case Some(y) => {y}
  }

  lemma {:induction false} CollectSetMembers<T, U>(xs: seq<T>, f: T -> Option<U>, y: U)
    ensures y in CollectSet(xs, f) <==> exists k :: 0 <= k < |xs| && f(xs[k]) == Some(y)
  {
    if xs != [] {
      var init := xs[..|xs| - 1];
      CollectSetMembers(init, f, y);
      if exists k :: 0 <= k < |init| && f(init[k]) == Some(y) {
        var k :| 0 <= k < |init| && f(init[k]) == Some(y);
        assert xs[k] == init[k];
      }
      if exists k :: 0 <= k < |xs| && f(xs[k]) == Some(y) {
        var k :| 0 <= k < |xs| && f(xs[k]) == Some(y);
        if k < |init| {
          assert init[k] == xs[k];
        }
      }
    }
  }

  /** The executables map's keys after step 1 has seen `entries`. */
  function Executables(entries: seq<DirEntry>, execMatch: string -> bool): set<string>
  {
    CollectSet(entries, e => ExecutableName(e, execMatch))
  }

  /** The executable set holds the base names of the non-directory entries
      with an empty extension that match the pattern: the "exe" alternative
      never applies, since an extension starts with its dot. */
  lemma ExecutablesMembers(entries: seq<DirEntry>, execMatch: string -> bool, x: string)
    ensures x in Executables(entries, execMatch) <==>
      exists k :: 0 <= k < |entries| && !entries[k].isDir && Ext(entries[k].name) == []
                  && execMatch(Base(entries[k].name)) && Base(entries[k].name) == x
  {
    CollectSetMembers(entries, e => ExecutableName(e, execMatch), x);
  }

  /** With the names a directory listing gives, an executable is an entry
      that is not a directory, has no dot in its name, and matches. */
  lemma ExecutablesOfNames(entries: seq<DirEntry>, execMatch: string -> bool, x: string)
    requires forall k :: 0 <= k < |entries| ==> IsName(entries[k].name)
    ensures x in Executables(entries, execMatch) <==>
      exists k :: 0 <= k < |entries| && entries[k].name == x && !entries[k].isDir
                  && '.' !in x && execMatch(x)
  {
    forall k | 0 <= k < |entries|
      ensures Base(entries[k].name) == entries[k].name
      ensures Ext(entries[k].name) == [] <==> '.' !in entries[k].name
    {
      BaseOfName("", entries[k].name);
      ExtEmptyIffNoDot(entries[k].name);
    }
    ExecutablesMembers(entries, execMatch, x);
  }

  /** Step 2 for one entry: the Config it contributes, if any. */
  function ConfigFor(e: DirEntry, executables: set<string>, execPath: string, cfgPath: string,
                     cfgMatch: string -> bool): Option<Config>
  {
    if e.isDir then None
    else
      var fileName := Base(e.name);
      match SplitConfigName(fileName)
      case None => None
      case Some(parts) =>
        if parts.exec !in executables then None
        else if !cfgMatch(fileName) then None
        else Some(Config(JoinPath(cfgPath, fileName), JoinPath(execPath, parts.exec), parts.id))
  }

  /** The configFiles slice after step 2 has seen `entries`. */
  function SelectConfigs(entries: seq<DirEntry>, executables: set<string>, execPath: string,
                         cfgPath: string, cfgMatch: string -> bool): seq<Config>
  {
    FilterMap(entries, e => ConfigFor(e, executables, execPath, cfgPath, cfgMatch))
  }

  /** Configs come out in listing order: the configs of a listing are those
      of its first part followed by those of its second part. */
  lemma SelectConfigsOrder(a: seq<DirEntry>, b: seq<DirEntry>, executables: set<string>,
                           execPath: string, cfgPath: string, cfgMatch: string -> bool)
    ensures SelectConfigs(a + b, executables, execPath, cfgPath, cfgMatch)
         == SelectConfigs(a, executables, execPath, cfgPath, cfgMatch)
            + SelectConfigs(b, executables, execPath, cfgPath, cfgMatch)
  {
    FilterMapAppend(a, b, e => ConfigFor(e, executables, execPath, cfgPath, cfgMatch));
  }

  /** At most one config per entry, and a config is in the result exactly
      when some entry contributes it. */
  lemma SelectConfigsMembers(entries: seq<DirEntry>, executables: set<string>, execPath: string,
                             cfgPath: string, cfgMatch: string -> bool, c: Config)
    ensures |SelectConfigs(entries, executables, execPath, cfgPath, cfgMatch)| <= |entries|
    ensures c in SelectConfigs(entries, executables, execPath, cfgPath, cfgMatch) <==>
      exists k :: 0 <= k < |entries| && ConfigFor(entries[k], executables, execPath, cfgPath, cfgMatch) == Some(c)
  {
    FilterMapMembers(entries, e => ConfigFor(e, executables, execPath, cfgPath, cfgMatch), c);
  }

  /** Which config entry becomes a Config, and with which fields, once the
      executables come from a listing of names: the entry is not a
      directory, its name splits, an executable entry named like the split's
      executable part exists, and the name matches the config pattern. The
      config file and executable are placed under the cleaned directories. */
  lemma ConfigOfEntry(execEntries: seq<DirEntry>, e: DirEntry, execPath: string, cfgPath: string,
                      execMatch: string -> bool, cfgMatch: string -> bool)
    requires forall k :: 0 <= k < |execEntries| ==> IsName(execEntries[k].name)
    requires IsName(e.name)
    ensures var r := ConfigFor(e, Executables(execEntries, execMatch), execPath, cfgPath, cfgMatch);
      && (r.Some? <==>
          && !e.isDir
          && SplitConfigName(e.name).Some?
          && (exists k :: 0 <= k < |execEntries| && execEntries[k].name == SplitConfigName(e.name).value.exec
                          && !execEntries[k].isDir && '.' !in execEntries[k].name && execMatch(execEntries[k].name))
          && cfgMatch(e.name))
      && (r.Some? ==>
          r.value == Config(Under(Clean(cfgPath), e.name),
                            Under(Clean(execPath), SplitConfigName(e.name).value.exec),
                            SplitConfigName(e.name).value.id))
  {
    BaseOfName("", e.name);
    var r := ConfigFor(e, Executables(execEntries, execMatch), execPath, cfgPath, cfgMatch);
    if !e.isDir && SplitConfigName(e.name).Some? {
      var x := SplitConfigName(e.name).value.exec;
      ExecutablesOfNames(execEntries, execMatch, x);
      JoinName(cfgPath, e.name);
      if x in Executables(execEntries, execMatch) {
        var k :| 0 <= k < |execEntries| && execEntries[k].name == x && !execEntries[k].isDir
                 && '.' !in x && execMatch(x);
        JoinName(execPath, x);
      }
    }
  }

  /** A name joined to a directory spelled "./<dir>", as the program's two
      directories are, lands in <dir>/<name>. */
  lemma JoinUnderDotDir(dir: string, name: string)
    requires IsName(dir) && IsName(name)
    ensures JoinPath("./" + dir, name) == dir + "/" + name
  {
    CleanDotName(dir);
    JoinName("./" + dir, name);
  }

  /** constructConfigs over the two listings. */
  method ConstructConfigs(execPath: string, cfgPath: string, execEntries: seq<DirEntry>,
                          cfgEntries: seq<DirEntry>, execMatch: string -> bool, cfgMatch: string -> bool)
    returns (configFiles: seq<Config>)
    ensures configFiles
         == SelectConfigs(cfgEntries, Executables(execEntries, execMatch), execPath, cfgPath, cfgMatch)
  {
    var executables := FindExecutables(execEntries, execMatch);
    configFiles := MatchConfigFiles(execPath, cfgPath, cfgEntries, executables, cfgMatch);
  }

  /** Step 1 of constructConfigs: fills the executables map from the first
      listing. */
  method FindExecutables(execEntries: seq<DirEntry>, execMatch: string -> bool)
    returns (executables: set<string>)
    ensures executables == Executables(execEntries, execMatch)
  {
    executables := {};
    for i := 0 to |execEntries|
      invariant executables == Executables(execEntries[..i], execMatch)
    {
      var file := execEntries[i];
      assert execEntries[..i + 1][..i] == execEntries[..i];
      if file.isDir {
        continue;
      }
      var fileName := file.name;
      var ext := Ext(fileName);
      if ext == [] || ext == "exe" {
        var executable := Base(fileName);
        if !execMatch(executable) {
          continue;
        }
        executables := executables + {executable};
      }
    }
    assert execEntries[..|execEntries|] == execEntries;
  }

  /** Step 2 of constructConfigs: appends a Config for each entry of the
      second listing that names a known executable and matches. */
  method MatchConfigFiles(execPath: string, cfgPath: string, cfgEntries: seq<DirEntry>,
                          executables: set<string>, cfgMatch: string -> bool)
    returns (configFiles: seq<Config>)
    ensures configFiles == SelectConfigs(cfgEntries, executables, execPath, cfgPath, cfgMatch)
  {
    configFiles := [];
    for i := 0 to |cfgEntries|
      invariant configFiles == SelectConfigs(cfgEntries[..i], executables, execPath, cfgPath, cfgMatch)
    {
      var file := cfgEntries[i];
      assert cfgEntries[..i + 1][..i] == cfgEntries[..i];
      if file.isDir {
        continue;
      }
      var fileName := Base(file.name);
      var matches := SplitConfigName(fileName);
      if matches.Some? {
        var exec := matches.value.exec;
        if exec !in executables {
          continue;
        } else if !cfgMatch(fileName) {
          continue;
        }
        configFiles := configFiles + [Config(JoinPath(cfgPath, fileName), JoinPath(execPath, exec), matches.value.id)];
      }
    }
    assert cfgEntries[..|cfgEntries|] == cfgEntries;
  }
}
