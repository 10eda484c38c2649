/** The configuration-file search of file_collector.py: system files first
    (the XDG directories on Unix, `PROGRAMDATA` on Windows), the user's file
    last, so that when the files are read in order the user's file wins.
    The platform, the environment, the home directory and which files exist
    are parameters. A path is its sequence of components. */
module FileCollector {
  import opened Wrappers
  import opened Text
  import opened Environ

  datatype Path = Path(parts: seq<string>)

  /** `Path(s)`: a directory taken from the environment is one component;
      `Path("")` is the current directory, with no component. */
  function PathOf(s: string): Path
  {
    if s == "" then Path([]) else Path([s])
  }

  /** `path / name`: an empty name adds nothing. */
  function Join(p: Path, name: string): Path
  {
    if name == "" then p else Path(p.parts + [name])
  }

  /** `dir / subdir / file_name`. */
  function ConfigPath(dir: Path, subdir: string, fileName: string): Path
  {
    Join(Join(dir, subdir), fileName)
  }

  /** `_log_and_return_if_exists`. */
  function LogAndReturnIfExists(p: Path, existing: set<Path>): (r: Option<Path>)
    ensures r.Some? <==> p in existing
    ensures r.Some? ==> r.value == p
  {
    if p in existing then Some(p) else None
  }

  /** A value of `os.getenv` that Python treats as true: set and non-empty. */
  predicate Truthy(v: Option<string>)
  {
    v.Some? && v.value != ""
  }

  // -----------------------------------------------------------------------
  // Unix

  /** `os.getenv("XDG_CONFIG_HOME", home / ".config")`: the default applies
      only when the variable is unset. */
  function UnixConfigHome(env: Env, home: Path): Path
  {
    match Lookup(env, "XDG_CONFIG_HOME")
    case Some(dir) => PathOf(dir)
    case None => Join(home, ".config")
  }

  /** `_unix_collect_home_config`. */
  function UnixCollectHomeConfig(env: Env, home: Path, existing: set<Path>, subdir: string, fileName: string): (r: Option<Path>)
    ensures r.Some? <==> ConfigPath(UnixConfigHome(env, home), subdir, fileName) in existing
    ensures r.Some? ==> r.value == ConfigPath(UnixConfigHome(env, home), subdir, fileName)
  {
    LogAndReturnIfExists(ConfigPath(UnixConfigHome(env, home), subdir, fileName), existing)
  }

  const Etc: Path := PathOf("/etc")

  /** `os.getenv("XDG_CONFIG_DIRS", "/etc/xdg").split(":")`. */
  function XdgConfigDirs(env: Env): seq<string>
  {
    Split(Lookup(env, "XDG_CONFIG_DIRS").GetOr("/etc/xdg"), ':')
  }

  /** With `XDG_CONFIG_DIRS` unset the one directory searched is /etc/xdg. */
  lemma XdgDefault(env: Env)
    requires Lookup(env, "XDG_CONFIG_DIRS").None?
    ensures XdgConfigDirs(env) == ["/etc/xdg"]
  {
    SplitNoSeparator("/etc/xdg", ':');
  }

  /** The candidates of `dirs` that exist, in directory order. */
  function ExistingCandidates(dirs: seq<string>, existing: set<Path>, subdir: string, fileName: string): seq<Path>
    decreases |dirs|
  {
    if dirs == [] then []
    else
      var prev := ExistingCandidates(dirs[..|dirs| - 1], existing, subdir, fileName);
      match LogAndReturnIfExists(ConfigPath(PathOf(dirs[|dirs| - 1]), subdir, fileName), existing)
      case Some(p) => prev + [p]
      case None => prev
  }

  function Reverse<T>(s: seq<T>): (r: seq<T>)
    ensures |r| == |s| && forall i :: 0 <= i < |s| ==> r[i] == s[|s| - 1 - i]
    decreases |s|
  {
    if s == [] then [] else [s[|s| - 1]] + Reverse(s[..|s| - 1])
  }

  /** What `_unix_collect_system_config` returns. */
  function UnixSystemConfig(env: Env, existing: set<Path>, subdir: string, fileName: string, bareEtc: bool): seq<Path>
  {
    if bareEtc then
      match LogAndReturnIfExists(ConfigPath(Etc, subdir, fileName), existing)
      case Some(p) => [p]
      case None => []
    else Reverse(ExistingCandidates(XdgConfigDirs(env), existing, subdir, fileName))
  }

  /** `_unix_collect_system_config`: append the existing candidates in
      directory order, then reverse the list. */
  method UnixCollectSystemConfig(env: Env, existing: set<Path>, subdir: string, fileName: string, bareEtc: bool)
    returns (files: seq<Path>)
    ensures files == UnixSystemConfig(env, existing, subdir, fileName, bareEtc)
  {
    files := [];
    if bareEtc {
      var found := LogAndReturnIfExists(ConfigPath(Etc, subdir, fileName), existing);
      return if found.Some? then [found.value] else [];
    }
    var dirs := XdgConfigDirs(env);
    var i := 0;
    while i < |dirs|
      invariant 0 <= i <= |dirs|
      invariant files == ExistingCandidates(dirs[..i], existing, subdir, fileName)
    {
      assert dirs[..i + 1][..i] == dirs[..i];
      var found := LogAndReturnIfExists(ConfigPath(PathOf(dirs[i]), subdir, fileName), existing);
      if found.Some? {
        files := files + [found.value];
      }
      i := i + 1;
    }
    assert dirs[..i] == dirs;
    files := Reverse(files);
  }

  /** With `bare_etc` the result is /etc/subdir/file_name when it exists and
      nothing otherwise, whatever the XDG directories are. */
  lemma BareEtcRule(env: Env, otherEnv: Env, existing: set<Path>, subdir: string, fileName: string)
    ensures UnixSystemConfig(env, existing, subdir, fileName, true) ==
      (if ConfigPath(Etc, subdir, fileName) in existing then [ConfigPath(Etc, subdir, fileName)] else [])
    ensures UnixSystemConfig(env, existing, subdir, fileName, true) == UnixSystemConfig(otherEnv, existing, subdir, fileName, true)
  {
  }

  /** The existing candidates are exactly the candidate paths of the
      directories that exist. */
  lemma {:induction false} ExistingCandidatesMembers(dirs: seq<string>, existing: set<Path>, subdir: string, fileName: string, p: Path)
    ensures p in ExistingCandidates(dirs, existing, subdir, fileName) <==>
      p in existing && exists i :: 0 <= i < |dirs| && p == ConfigPath(PathOf(dirs[i]), subdir, fileName)
    decreases |dirs|
  {
    if dirs != [] {
      var init := dirs[..|dirs| - 1];
      ExistingCandidatesMembers(init, existing, subdir, fileName, p);
      assert forall i :: 0 <= i < |init| ==> init[i] == dirs[i];
      if p in existing && exists i :: 0 <= i < |dirs| && p == ConfigPath(PathOf(dirs[i]), subdir, fileName) {
        var i :| 0 <= i < |dirs| && p == ConfigPath(PathOf(dirs[i]), subdir, fileName);
        if i < |init| {
          assert p == ConfigPath(PathOf(init[i]), subdir, fileName);
        }
      }
    }
  }

  /** Without `bare_etc`, a path is returned iff it exists and is the
      candidate of some XDG directory. */
  lemma SystemConfigMembers(env: Env, existing: set<Path>, subdir: string, fileName: string, p: Path)
    ensures p in UnixSystemConfig(env, existing, subdir, fileName, false) <==>
      p in existing && exists i :: 0 <= i < |XdgConfigDirs(env)| && p == ConfigPath(PathOf(XdgConfigDirs(env)[i]), subdir, fileName)
  {
    var found := ExistingCandidates(XdgConfigDirs(env), existing, subdir, fileName);
    ExistingCandidatesMembers(XdgConfigDirs(env), existing, subdir, fileName, p);
    ReverseMembers(found, p);
  }

  /** Reversing keeps the elements. */
  lemma ReverseMembers<T>(s: seq<T>, x: T)
    ensures x in Reverse(s) <==> x in s
  {
    var r := Reverse(s);
    if x in s {
      var k :| 0 <= k < |s| && s[k] == x;
      assert r[|s| - 1 - k] == x;
    }
  }

  /** The first candidate found is the first element of the existing
      candidates. */
  lemma {:induction false} FirstExistingCandidate(dirs: seq<string>, existing: set<Path>, subdir: string, fileName: string)
    requires dirs != [] && ConfigPath(PathOf(dirs[0]), subdir, fileName) in existing
    ensures var found := ExistingCandidates(dirs, existing, subdir, fileName);
      found != [] && found[0] == ConfigPath(PathOf(dirs[0]), subdir, fileName)
    decreases |dirs|
  {
    if |dirs| > 1 {
      var init := dirs[..|dirs| - 1];
      assert init[0] == dirs[0];
      FirstExistingCandidate(init, existing, subdir, fileName);
    }
  }

  /** The list is reversed, so the first XDG directory, the most important
      one, gives the last file. */
  lemma FirstListedDirComesLast(env: Env, existing: set<Path>, subdir: string, fileName: string)
    requires ConfigPath(PathOf(XdgConfigDirs(env)[0]), subdir, fileName) in existing
    ensures var r := UnixSystemConfig(env, existing, subdir, fileName, false);
      r != [] && r[|r| - 1] == ConfigPath(PathOf(XdgConfigDirs(env)[0]), subdir, fileName)
  {
    FirstExistingCandidate(XdgConfigDirs(env), existing, subdir, fileName);
  }

  // -----------------------------------------------------------------------
  // Windows

  /** `_windows_collect_home_config`: nothing when `APPDATA` is unset or
      empty. */
  function WindowsCollectHomeConfig(env: Env, existing: set<Path>, subdir: string, fileName: string): (r: Option<Path>)
    ensures !Truthy(Lookup(env, "APPDATA")) ==> r.None?
    ensures Truthy(Lookup(env, "APPDATA")) ==>
      r == LogAndReturnIfExists(ConfigPath(PathOf(Lookup(env, "APPDATA").value), subdir, fileName), existing)
  {
    var appdata := Lookup(env, "APPDATA");
    if Truthy(appdata) then LogAndReturnIfExists(ConfigPath(PathOf(appdata.value), subdir, fileName), existing)
    else None
  }

  /** `_windows_collect_system_config`: at most the one file under
      `PROGRAMDATA`, nothing when it is unset or empty. */
  function WindowsCollectSystemConfig(env: Env, existing: set<Path>, subdir: string, fileName: string): (r: seq<Path>)
    ensures |r| <= 1
    ensures !Truthy(Lookup(env, "PROGRAMDATA")) ==> r == []
    ensures r != [] ==> r[0] in existing && r[0] == ConfigPath(PathOf(Lookup(env, "PROGRAMDATA").value), subdir, fileName)
    ensures Truthy(Lookup(env, "PROGRAMDATA")) && ConfigPath(PathOf(Lookup(env, "PROGRAMDATA").value), subdir, fileName) in existing ==>
      r == [ConfigPath(PathOf(Lookup(env, "PROGRAMDATA").value), subdir, fileName)]
  {
    var programdata := Lookup(env, "PROGRAMDATA");
    if Truthy(programdata) then
      match LogAndReturnIfExists(ConfigPath(PathOf(programdata.value), subdir, fileName), existing)
      case Some(p) => [p]
      case None => []
    else []
  }

  // -----------------------------------------------------------------------
  // config_file_collector

  datatype CollectorError = NoConfigFilesFound(fileName: string, appName: string)

  /** What a search on `system` finds: its system files, then its home file. */
  datatype Found = Found(system: seq<Path>, home: Option<Path>)
  {
    function Files(): seq<Path>
    {
      if home.Some? then system + [home.value] else system
    }
  }

  function Search(system: string, env: Env, home: Path, existing: set<Path>, appName: string, fileName: string, bareEtc: bool): Found
  {
    if system == "Windows" then
      Found(WindowsCollectSystemConfig(env, existing, appName, fileName), WindowsCollectHomeConfig(env, existing, appName, fileName))
    else
      Found(UnixSystemConfig(env, existing, appName, fileName, bareEtc), UnixCollectHomeConfig(env, home, existing, appName, fileName))
  }

  /** `config_file_collector`: the found files, system files first and the
      home file last; an empty result raises NoConfigFilesFoundError unless
      allowed; without merging only the last, most important file is
      returned. */
  method ConfigFileCollector(system: string, env: Env, home: Path, existing: set<Path>, fileName: string,
                             appName: string, mergeFiles: bool, allowNoFoundFiles: bool, bareEtc: bool)
    returns (r: Result<seq<Path>, CollectorError>)
    ensures var files := Search(system, env, home, existing, appName, fileName, bareEtc).Files();
      && (r.Failure? <==> files == [] && !allowNoFoundFiles)
      && (r.Failure? ==> r.error == NoConfigFilesFound(fileName, appName))
      && (r.Success? && mergeFiles ==> r.value == files)
      && (r.Success? && !mergeFiles ==> r.value == if files == [] then [] else [files[|files| - 1]])
  {
    var configFiles: seq<Path>;
    var homeConfig: Option<Path>;
    if system == "Windows" {
      configFiles := WindowsCollectSystemConfig(env, existing, appName, fileName);
      homeConfig := WindowsCollectHomeConfig(env, existing, appName, fileName);
    } else {
      configFiles := UnixCollectSystemConfig(env, existing, appName, fileName, bareEtc);
      homeConfig := UnixCollectHomeConfig(env, home, existing, appName, fileName);
    }
    if homeConfig.Some? {
      configFiles := configFiles + [homeConfig.value];
    }
    if configFiles == [] && !allowNoFoundFiles {
      return Failure(NoConfigFilesFound(fileName, appName));
    }
    if configFiles != [] && !mergeFiles {
      var last := configFiles[|configFiles| - 1];
      configFiles := configFiles[..|configFiles| - 1];
      r := Success([last]);
    } else {
      r := Success(configFiles);
    }
  }

  /** The home file, when found, comes after every system file; the result
      is empty only when nothing was found at all. */
  lemma HomeFileLast(system: string, env: Env, home: Path, existing: set<Path>, appName: string, fileName: string, bareEtc: bool)
    ensures var f := Search(system, env, home, existing, appName, fileName, bareEtc);
      && (f.home.Some? ==> f.Files() == f.system + [f.home.value] && f.Files()[|f.Files()| - 1] == f.home.value)
      && (f.Files() == [] <==> f.system == [] && f.home.None?)
      && (forall p :: p in f.Files() ==> p in existing)
  {
    var f := Search(system, env, home, existing, appName, fileName, bareEtc);
    if system != "Windows" && !bareEtc {
      forall p | p in f.system ensures p in existing {
        SystemConfigMembers(env, existing, appName, fileName, p);
      }
    }
  }
}
