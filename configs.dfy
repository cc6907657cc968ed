/** Config, one server to supervise, with the strings the program derives
    from it: the command line it logs, the argument vector it executes, the
    path of each run's log file, and the PATH value it sets. */
module Configs {
  import opened Wrappers
  import opened Text
  import opened GoPath
  import opened Errors

  /** An executable/config pair with the server id from the config name.
      (The Config struct's Log field is never set or read and is left out.) */
  datatype Config = Config(configFile: string, executable: string, id: string)

  const LogDir := "./logs/"
  const LogExt := ".log"

  /** The argument vector exec.CommandContext is given. */
  function Argv(c: Config): (argv: seq<string>)
    ensures |argv| == 3 && argv[0] == c.executable && argv[1] == "-f" && argv[2] == c.configFile
  {
    [c.executable, "-f", c.configFile]
  }

  /** Config.Cmd: the command as the log messages show it, which is the
      executed argument vector, space-separated, behind "./". */
  function Cmd(c: Config): (cmd: string)
    ensures cmd == "./" + Join(Argv(c), ' ')
  {
    var argv := Argv(c);
    assert argv[..2] == [c.executable, "-f"];
    assert argv[..2][..1] == [c.executable];
    assert Join(argv[..2], ' ') == c.executable + " -f";
    "./" + c.executable + " -f " + c.configFile
  }

  /** The path Config.LogFile opens for a run started at `timestamp`: the
      config file's base name without its extension, then '-', the timestamp
      and ".log", in ./logs. */
  function LogFilePath(c: Config, timestamp: string): (path: string)
    ensures path == LogDir + StripExt(Base(c.configFile)) + "-" + timestamp + LogExt
    ensures StripExt(Base(c.configFile)) + Ext(Base(c.configFile)) == Base(c.configFile)
  {
    var fileName := Base(c.configFile);
    var fileNameWithoutExt := fileName[..|fileName| - |Ext(fileName)|];
    LogDir + fileNameWithoutExt + "-" + timestamp + LogExt
  }

  /** Two runs of one config with different timestamps never share a log
      file. */
  lemma LogFilePathInjective(c: Config, t1: string, t2: string)
    requires LogFilePath(c, t1) == LogFilePath(c, t2)
    ensures t1 == t2
  {
    var head := LogDir + StripExt(Base(c.configFile)) + "-";
    var p1, p2 := LogFilePath(c, t1), LogFilePath(c, t2);
    assert p1 == head + t1 + LogExt && p2 == head + t2 + LogExt;
    assert |t1| == |t2|;
    assert p1[|head|..|head| + |t1|] == t1;
    assert p2[|head|..|head| + |t2|] == t2;
  }

  /** The log of a config found as <dir>/<name>.cfg is ./logs/<name>-<timestamp>.log. */
  lemma LogFileOfDiscovered(c: Config, dir: string, name: string, timestamp: string)
    requires IsName(name) && |name| >= 4 && name[|name| - 4..] == ".cfg"
    requires c.configFile == Under(dir, name)
    ensures LogFilePath(c, timestamp) == LogDir + name[..|name| - 4] + "-" + timestamp + LogExt
  {
    BaseOfName(dir, name);
    BaseOfName("", name);
    assert "" + "/" + name == "/" + name;
    assert Base(c.configFile) == name;
    ExtOfCfg(name);
  }

  /** Config.LogFile: the opened log file's path, or the wrapped open error;
      `openFailure` is the text of the error os.OpenFile returned, if any. */
  function LogFile(c: Config, timestamp: string, openFailure: Option<string>): (r: Result<string, Error>)
    ensures r.Success? <==> openFailure.None?
    ensures r.Success? ==> r.value == LogFilePath(c, timestamp)
    ensures r.Failure? ==> r.error.Message() == "failed to create log file: " + openFailure.value
  {
    match openFailure
    case Some(cause) => Failure(LogFileError(cause))
    case None => Success(LogFilePath(c, timestamp))
  }

  /** buildPathEnv: the directories joined by ':'. A PATH value splits back
      into the directories it was built from, when there is at least one and
      none holds a ':'. */
  function BuildPathEnv(directories: seq<string>): (path: string)
    ensures directories != [] && (forall k :: 0 <= k < |directories| ==> ':' !in directories[k])
            ==> Split(path, ':') == directories
  {
    if directories != [] && (forall k :: 0 <= k < |directories| ==> ':' !in directories[k]) then
      SplitJoin(directories, ':');
      Join(directories, ':')
    else Join(directories, ':')
  }

  /** The value main sets: the inherited PATH, then the executables directory. */
  lemma MainPathEnv(inherited: string)
    ensures BuildPathEnv([inherited, "./executables"]) == inherited + ":./executables"
  {
    var dirs := [inherited, "./executables"];
    assert dirs[..1] == [inherited];
    assert Join(dirs, ':') == inherited + [':'] + "./executables";
  }
}
