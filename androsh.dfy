/**
 * The decision logic of main.py (class AndroSH): the machine table, the
 * asset table and where its files go, the command sequence of the sandbox
 * setup with its abort policy, the download retry, the setup steps and the
 * start-up choice between launching and setting up.
 *
 * The outside world is a parameter: the machine id, the storage check, the
 * download attempts, the command runner and the file system are given as an
 * `Env`; the registry is the `DB` class.
 */
module AndroSH {
  import opened Wrappers
  import opened Values
  import opened Registry
  import opened Template

  // ---------------------------------------------------------------------------
  // Paths
  // ---------------------------------------------------------------------------

  predicate Absolute(p: string) {
    |p| > 0 && p[0] == '/'
  }

  /** os.path.join(a, b) on POSIX: an absolute b wins, otherwise one "/" separates the parts. */
  function Join(a: string, b: string): string {
    if Absolute(b) then b
    else if a == "" || a[|a| - 1] == '/' then a + b
    else a + "/" + b
  }

  /**
   * An absolute second part replaces the first; otherwise the result starts
   * with a, ends with b and adds at most the one separator.
   */
  lemma JoinParts(a: string, b: string)
    ensures Absolute(b) ==> Join(a, b) == b
    ensures !Absolute(b) ==> |a| + |b| <= |Join(a, b)| <= |a| + |b| + 1
    ensures !Absolute(b) ==> Join(a, b)[..|a|] == a && Join(a, b)[|Join(a, b)| - |b|..] == b
    ensures !Absolute(b) && |a| > 0 && a[|a| - 1] != '/' ==> Join(a, b) == a + "/" + b
  {
  }

  // ---------------------------------------------------------------------------
  // Settings and errors
  // ---------------------------------------------------------------------------

  /** The attributes AndroSH.__init__ sets before anything else runs. */
  datatype Config = Config(
    root: string, resources: string, assetsPath: string, alpineFile: string,
    alpineDir: string, proot: string, talloc: string, sandboxScript: string)

  /** The defaults of AndroSH.__init__ for the project name `name`. */
  function Defaults(name: string): Config {
    Config("/data/local/tmp", "/sdcard/Download/" + name, "Assets", "alpine.tar.gz",
           "Alpine", "proot", "libtalloc.so.2", "proot.sh")
  }

  /** The exceptions that end the program (AndroSH_err, FileNotFoundError from open). */
  datatype AppError =
    | UnknownArchitecture
    | VersionNotDetected
    | FileNotFound(path: string)

  // ---------------------------------------------------------------------------
  // architecture() and assets()
  // ---------------------------------------------------------------------------

  /** The four distribution tags architecture() can return. */
  datatype Tag = Aarch64 | Armhf | X86 | X86_64

  /** The tag as the string used in URLs. */
  function TagName(t: Tag): string {
    match t
    case Aarch64 => "aarch64"
    case Armhf => "armhf"
    case X86 => "x86"
    case X86_64 => "x86_64"
  }

  /** architecture(): the tag of the machine id, or AndroSH_err("Unknown architecture."). */
  function Architecture(machine: string): (r: Result<Tag, AppError>)
    ensures r.Success? <==> machine in {"arm64-v8a", "aarch64", "armeabi", "armeabi-v7a", "armhf", "x86", "x86_64"}
    ensures r.Failure? ==> r.error == UnknownArchitecture
  {
    if machine == "arm64-v8a" || machine == "aarch64" then Success(Aarch64)
    else if machine == "armeabi" || machine == "armeabi-v7a" || machine == "armhf" then Success(Armhf)
    else if machine == "x86" then Success(X86)
    else if machine == "x86_64" then Success(X86_64)
    else Failure(UnknownArchitecture)
  }

  /** Each tag's name is a machine id that maps to the tag itself. */
  lemma TagIsOwnAlias(t: Tag)
    ensures Architecture(TagName(t)) == Success(t)
  {
  }

  /** The aliases of each tag. */
  lemma ArchitectureAliases(machine: string)
    ensures machine in {"arm64-v8a", "aarch64"} <==> Architecture(machine) == Success(Aarch64)
    ensures machine in {"armeabi", "armeabi-v7a", "armhf"} <==> Architecture(machine) == Success(Armhf)
    ensures machine == "x86" <==> Architecture(machine) == Success(X86)
    ensures machine == "x86_64" <==> Architecture(machine) == Success(X86_64)
  {
  }

  const PackagesRepo := "https://raw.githubusercontent.com/Xed-Editor/Karbon-PackagesX/main/"

  /**
   * Tag to the URLs of the two binaries, under the names "proot" and "talloc"
   * (every URL of the table starts with the same repository prefix).
   */
  function AssetTable(): map<Tag, map<string, string>> {
    map[
      Armhf := map[
        "proot" := PackagesRepo + "arm" + "/proot",
        "talloc" := PackagesRepo + "arm" + "/libtalloc.so.2"],
      Aarch64 := map[
        "proot" := PackagesRepo + "aarch64" + "/proot",
        "talloc" := PackagesRepo + "aarch64" + "/libtalloc.so.2"],
      X86 := map[
        "proot" := PackagesRepo + "x86" + "/proot",
        "talloc" := PackagesRepo + "x86" + "/libtalloc.so.2"],
      X86_64 := map[
        "proot" := PackagesRepo + "x86_64" + "/proot",
        "talloc" := PackagesRepo + "x86_64" + "/libtalloc.so.2"]]
  }

  /** The repository directory of a tag: "arm" for armhf, the tag's name otherwise. */
  function RepoDir(t: Tag): string {
    if t == Armhf then "arm" else TagName(t)
  }

  /**
   * The table has both URLs for every tag, so assets[architecture()] never
   * misses, and each URL is the repository directory of its tag plus the file name.
   */
  lemma AssetUrlLayout(t: Tag)
    ensures t in AssetTable() && AssetTable()[t].Keys == {"proot", "talloc"}
    ensures AssetTable()[t]["proot"] == PackagesRepo + RepoDir(t) + "/proot"
    ensures AssetTable()[t]["talloc"] == PackagesRepo + RepoDir(t) + "/libtalloc.so.2"
  {
  }

  /**
   * assets(): the (URL, destination) pairs given to download_multiple: the
   * URLs in the table's order (proot, talloc) and the destinations
   * resources/proot and resources/talloc.
   */
  function Assets(cfg: Config, machine: string): (r: Result<seq<(string, string)>, AppError>)
    ensures r.Failure? <==> Architecture(machine).Failure?
    ensures r.Failure? ==> r.error == UnknownArchitecture
    ensures r.Success? ==> |r.value| == 2
    ensures r.Success? ==> r.value[0].0 == PackagesRepo + RepoDir(Architecture(machine).value) + "/proot"
    ensures r.Success? ==> r.value[1].0 == PackagesRepo + RepoDir(Architecture(machine).value) + "/libtalloc.so.2"
    ensures r.Success? ==> r.value[0].1 == Join(cfg.resources, cfg.proot) && r.value[1].1 == Join(cfg.resources, cfg.talloc)
  {
    match Architecture(machine)
    case Failure(e) => Failure(e)
    case Success(tag) =>
      AssetUrlLayout(tag);
      var urls := AssetTable()[tag];
      Success([(urls["proot"], Join(cfg.resources, cfg.proot)), (urls["talloc"], Join(cfg.resources, cfg.talloc))])
  }

  // ---------------------------------------------------------------------------
  // setup_sandbox()
  // ---------------------------------------------------------------------------

  /** What Rish.run returns: the exit status and the captured standard error. */
  datatype Completed = Completed(returncode: int, stderr: string)

  /** The argument handed to Rish.run for a command c. */
  function Wrap(c: string): string {
    "-c \"" + c + "\""
  }

  const TarMissing := "[blue]Tar[/blue] isn't available in your system."

  function MakeDir(dir: string): string {
    "mkdir -p " + dir
  }

  function MakeExecutable(path: string): string {
    "chmod +x " + path
  }

  function Extract(archive: string, dir: string): string {
    "tar -xf " + archive + " -C " + dir
  }

  /** cp resources/file root/name: one step of the copy loop of setup_sandbox. */
  function CopyCommand(cfg: Config, name: string, file: string): string {
    "cp " + Join(cfg.resources, file) + " " + Join(cfg.root, name)
  }

  /** The six commands setup_sandbox issues after "which tar", in order. */
  function LaterCommands(cfg: Config, name: string): (cmds: seq<string>)
    ensures |cmds| == 6
  {
    var mainProot := Join(cfg.root, name);
    var alpineDir := Join(mainProot, cfg.alpineDir);
    [ MakeDir(mainProot),
      CopyCommand(cfg, name, cfg.proot),
      CopyCommand(cfg, name, cfg.talloc),
      MakeExecutable(Join(mainProot, cfg.proot)),
      MakeDir(alpineDir),
      Extract(Join(cfg.resources, cfg.alpineFile), alpineDir) ]
  }

  /** Each directory is created before a later command copies or extracts into it. */
  lemma DirectoriesBeforeUse(cfg: Config, name: string)
    ensures var cmds := LaterCommands(cfg, name);
      var m, a := Join(cfg.root, name), Join(Join(cfg.root, name), cfg.alpineDir);
      && cmds[0] == "mkdir -p " + m
      && (forall i :: 1 <= i < 3 ==> cmds[i][|cmds[i]| - |m|..] == m)
      && cmds[4] == "mkdir -p " + a
      && cmds[5][|cmds[5]| - |a|..] == a
  {
  }

  /** The stderr of every command of cmds that exits non-zero, in order. */
  function Failures(run: string -> Completed, cmds: seq<string>): (errs: seq<string>)
    ensures |errs| <= |cmds|
    decreases |cmds|
  {
    if |cmds| == 0 then []
    else
      var n := |cmds| - 1;
      Failures(run, cmds[..n]) + FailureOf(run, cmds[n])
  }

  /** What checking the result of one command prints: its stderr when it exits non-zero. */
  function FailureOf(run: string -> Completed, c: string): seq<string> {
    var res := run(Wrap(c));
    if res.returncode != 0 then [res.stderr] else []
  }

  /** The command strings as cmd() passes them to the shell, in order. */
  function Wrapped(cmds: seq<string>): (w: seq<string>)
    ensures |w| == |cmds|
    decreases |cmds|
  {
    if |cmds| == 0 then []
    else
      var n := |cmds| - 1;
      Wrapped(cmds[..n]) + [Wrap(cmds[n])]
  }

  /** Nothing is reported exactly when every command exits with status 0. */
  lemma {:induction false} NoFailuresIff(run: string -> Completed, cmds: seq<string>)
    ensures Failures(run, cmds) == [] <==> forall i :: 0 <= i < |cmds| ==> run(Wrap(cmds[i])).returncode == 0
    decreases |cmds|
  {
    if |cmds| > 0 {
      var n := |cmds| - 1;
      NoFailuresIff(run, cmds[..n]);
      assert forall i :: 0 <= i < n ==> cmds[..n][i] == cmds[i];
    }
  }

  /** Issuing command k after the first k extends both the issued list and the failures by it. */
  lemma SandboxStep(run: string -> Completed, cmds: seq<string>, k: nat, c: string)
    requires k < |cmds| && cmds[k] == c
    ensures Wrapped(cmds[..k + 1]) == Wrapped(cmds[..k]) + [Wrap(c)]
    ensures Failures(run, cmds[..k + 1]) == Failures(run, cmds[..k]) + FailureOf(run, c)
  {
    assert cmds[..k + 1][..k] == cmds[..k];
  }

  /** The commands run, what was printed as an error, and the exit status when the run stops. */
  datatype SandboxRun = SandboxRun(issued: seq<string>, errors: seq<string>, exit: Option<int>)

  /** cmd(c) followed by its check: a non-zero exit prints stderr and nothing stops. */
  method Issue(run: string -> Completed, c: string, issued: seq<string>, errors: seq<string>)
    returns (issued': seq<string>, errors': seq<string>)
    ensures issued' == issued + [Wrap(c)]
    ensures errors' == errors + FailureOf(run, c)
  {
    var r := run(Wrap(c));
    issued' := issued + [Wrap(c)];
    errors' := errors;
    if r.returncode != 0 {
      errors' := errors' + [r.stderr];
    }
  }

  /** The first part of setup_sandbox after the tar check: the main directory and the copy loop. */
  method IssueCopies(cfg: Config, name: string, run: string -> Completed)
    returns (issued: seq<string>, errors: seq<string>)
    ensures issued == Wrapped(LaterCommands(cfg, name)[..3])
    ensures errors == Failures(run, LaterCommands(cfg, name)[..3])
  {
    var cmds := LaterCommands(cfg, name);
    issued, errors := [], [];
    assert cmds[..0] == [];
    var c := MakeDir(Join(cfg.root, name));
    issued, errors := Issue(run, c, issued, errors);
    SandboxStep(run, cmds, 0, c);
    var files := [cfg.proot, cfg.talloc];
    for k := 0 to 2
      invariant issued == Wrapped(cmds[..1 + k])
      invariant errors == Failures(run, cmds[..1 + k])
    {
      c := CopyCommand(cfg, name, files[k]);
      issued, errors := Issue(run, c, issued, errors);
      SandboxStep(run, cmds, 1 + k, c);
    }
  }

  /**
   * The part of setup_sandbox after the tar check: the six commands in order,
   * each checked, none stopping the sequence.
   */
  method IssueLaterCommands(cfg: Config, name: string, run: string -> Completed)
    returns (issued: seq<string>, errors: seq<string>)
    ensures issued == Wrapped(LaterCommands(cfg, name))
    ensures errors == Failures(run, LaterCommands(cfg, name))
  {
    var cmds := LaterCommands(cfg, name);
    issued, errors := IssueCopies(cfg, name, run);
    var mainProot := Join(cfg.root, name);
    var c := MakeExecutable(Join(mainProot, cfg.proot));
    issued, errors := Issue(run, c, issued, errors);
    SandboxStep(run, cmds, 3, c);
    var alpine := Join(cfg.resources, cfg.alpineFile);
    var alpineDir := Join(mainProot, cfg.alpineDir);
    c := MakeDir(alpineDir);
    issued, errors := Issue(run, c, issued, errors);
    SandboxStep(run, cmds, 4, c);
    c := Extract(alpine, alpineDir);
    issued, errors := Issue(run, c, issued, errors);
    SandboxStep(run, cmds, 5, c);
    assert cmds[..6] == cmds;
  }

  /**
   * setup_sandbox(): "which tar" failing is the only abort (exit(1)); after it
   * all six commands are issued whatever they return, and the stderr of each
   * failing one is printed.
   */
  method SetupSandbox(cfg: Config, name: string, run: string -> Completed) returns (r: SandboxRun)
    ensures r.exit.Some? <==> run(Wrap("which tar")).returncode != 0
    ensures r.exit.Some? ==> r == SandboxRun([Wrap("which tar")], [TarMissing], Some(1))
    ensures r.exit.None? ==> r.issued == [Wrap("which tar")] + Wrapped(LaterCommands(cfg, name))
    ensures r.exit.None? ==> r.errors == Failures(run, LaterCommands(cfg, name))
  {
    var first := run(Wrap("which tar"));
    if first.returncode != 0 {
      return SandboxRun([Wrap("which tar")], [TarMissing], Some(1));
    }
    var issued, errors := IssueLaterCommands(cfg, name, run);
    return SandboxRun([Wrap("which tar")] + issued, errors, None);
  }

  // ---------------------------------------------------------------------------
  // alpine_downloader() and its checksum retry
  // ---------------------------------------------------------------------------

  /**
   * One round of alpine_downloader as the outside world answers it: the
   * "version" field of the release metadata, the "sha512" it publishes and
   * the digest of the file that was downloaded.
   */
  datatype Attempt = Attempt(version: Option<string>, sha512: string, digest: string)

  /** Why setup did not reach its end. */
  datatype Stop =
    | Raised(err: AppError)
    | Exited(code: int)
    | StillDownloading

  datatype Download = Verified(url: string, dest: string) | Halted(stop: Stop)

  const Releases := "http://dl-cdn.alpinelinux.org/alpine/latest-stable/releases/"

  /** The default `file` argument of alpine_downloader: the name setup downloads to. */
  const AlpineArchive := "alpine.tar.gz"

  /** The minirootfs URL for a tag and a version. */
  function RootfsUrl(tag: Tag, version: string): string {
    Releases + TagName(tag) + "/alpine-minirootfs-" + version + "-" + TagName(tag) + ".tar.gz"
  }

  /**
   * alpine_downloader(): check the storage (exit(1) when it fails), resolve the
   * architecture, read the version, download and compare the digest; on a
   * mismatch start again. The attempts the environment answers are finite;
   * running out of them leaves the download still going.
   */
  function AlpineDownload(cfg: Config, storageOk: bool, machine: string, attempts: seq<Attempt>): (d: Download)
    ensures d.Verified? ==> Architecture(machine).Success? && storageOk
    ensures d.Verified? ==> d.dest == Join(cfg.resources, AlpineArchive)
    ensures d.Verified? ==>
      exists i, v :: (0 <= i < |attempts| && attempts[i].version == Some(v)
        && attempts[i].digest == attempts[i].sha512 && d.url == RootfsUrl(Architecture(machine).value, v))
    ensures !storageOk ==> d == Halted(Exited(1))
    ensures storageOk && Architecture(machine).Failure? ==> d == Halted(Raised(UnknownArchitecture))
    decreases |attempts|
  {
    if !storageOk then Halted(Exited(1))
    else if Architecture(machine).Failure? then Halted(Raised(UnknownArchitecture))
    else if |attempts| == 0 then Halted(StillDownloading)
    else
      var a := attempts[0];
      if a.version.None? then Halted(Raised(VersionNotDetected))
      else if a.digest == a.sha512 then
        Verified(RootfsUrl(Architecture(machine).value, a.version.value), Join(cfg.resources, AlpineArchive))
      else
        var d := AlpineDownload(cfg, storageOk, machine, attempts[1..]);
        assert d.Verified? ==>
          exists i, v :: (0 <= i < |attempts| - 1 && attempts[1..][i].version == Some(v)
            && attempts[1..][i].digest == attempts[1..][i].sha512 && d.url == RootfsUrl(Architecture(machine).value, v));
        d
  }

  /**
   * There is no attempt bound: any number of corrupt downloads followed by a
   * good one ends verified, with the version of the good one.
   */
  lemma {:induction false} RetryIsUnbounded(cfg: Config, machine: string, bad: seq<Attempt>, good: Attempt)
    requires Architecture(machine).Success?
    requires forall i :: 0 <= i < |bad| ==> bad[i].version.Some? && bad[i].digest != bad[i].sha512
    requires good.version.Some? && good.digest == good.sha512
    ensures AlpineDownload(cfg, true, machine, bad + [good])
      == Verified(RootfsUrl(Architecture(machine).value, good.version.value), Join(cfg.resources, AlpineArchive))
    decreases |bad|
  {
    if |bad| > 0 {
      assert (bad + [good])[1..] == bad[1..] + [good];
      RetryIsUnbounded(cfg, machine, bad[1..], good);
    }
  }

  /** A metadata file without a version stops the retry, whatever came before it. */
  lemma {:induction false} MissingVersionRaises(cfg: Config, machine: string, bad: seq<Attempt>, last: Attempt, rest: seq<Attempt>)
    requires Architecture(machine).Success?
    requires forall i :: 0 <= i < |bad| ==> bad[i].version.Some? && bad[i].digest != bad[i].sha512
    requires last.version.None?
    ensures AlpineDownload(cfg, true, machine, bad + [last] + rest) == Halted(Raised(VersionNotDetected))
    decreases |bad|
  {
    if |bad| > 0 {
      assert (bad + [last] + rest)[1..] == bad[1..] + [last] + rest;
      MissingVersionRaises(cfg, machine, bad[1..], last, rest);
    } else {
      assert (bad + [last] + rest)[0] == last;
    }
  }

  // ---------------------------------------------------------------------------
  // setup() and the start-up choice in __init__
  // ---------------------------------------------------------------------------

  /** The outside world setup and launch see. */
  datatype Env = Env(
    machine: string, storageOk: bool, attempts: seq<Attempt>,
    run: string -> Completed, files: map<string, string>)

  datatype SetupResult =
    | Finished(downloads: seq<(string, string)>, sandbox: SandboxRun, files: map<string, string>)
    | Stopped(stop: Stop)

  /** The replacements setup passes to template: name=name, distro=alpine_dir, in that order. */
  function ScriptReplacements(cfg: Config, name: string): seq<(string, string)> {
    [("name", name), ("distro", cfg.alpineDir)]
  }

  /**
   * setup(): download the distribution, then the assets, set up the sandbox,
   * render the launch script from the assets directory into the resources
   * directory, and only then mark the registry done. Any step that raises or
   * exits ends the program before the registry is touched.
   */
  method Setup(db: DB, cfg: Config, name: string, env: Env) returns (r: SetupResult)
    requires db.Valid()
    modifies db
    ensures db.Valid()
    ensures r.Finished? ==> db.data == old(db.data)["done" := Bool(true)] && db.subdata == old(db.subdata)
    ensures r.Finished? ==> db.Check()
    ensures r.Stopped? ==> db.data == old(db.data) && db.subdata == old(db.subdata)
    ensures AlpineDownload(cfg, env.storageOk, env.machine, env.attempts).Halted? ==>
      r == Stopped(AlpineDownload(cfg, env.storageOk, env.machine, env.attempts).stop)
    ensures r.Finished? ==> AlpineDownload(cfg, env.storageOk, env.machine, env.attempts).Verified?
    ensures r.Finished? ==>
      r.downloads == [(AlpineDownload(cfg, env.storageOk, env.machine, env.attempts).url,
                       Join(cfg.resources, AlpineArchive))] + Assets(cfg, env.machine).value
    ensures r.Finished? ==> r.sandbox.exit.None? && r.sandbox.issued == [Wrap("which tar")] + Wrapped(LaterCommands(cfg, name))
    ensures r.Finished? <==>
      (AlpineDownload(cfg, env.storageOk, env.machine, env.attempts).Verified?
       && env.run(Wrap("which tar")).returncode == 0 && Join(cfg.assetsPath, cfg.sandboxScript) in env.files)
    ensures r.Finished? ==> r.files == env.files[Join(cfg.resources, cfg.sandboxScript) :=
      ApplyAll(env.files[Join(cfg.assetsPath, cfg.sandboxScript)], ScriptReplacements(cfg, name))]
  {
    var alpine := AlpineDownload(cfg, env.storageOk, env.machine, env.attempts);
    if alpine.Halted? {
      return Stopped(alpine.stop);
    }
    var assets := Assets(cfg, env.machine);
    var sandbox := SetupSandbox(cfg, name, env.run);
    if sandbox.exit.Some? {
      return Stopped(Exited(sandbox.exit.value));
    }
    var script := Join(cfg.assetsPath, cfg.sandboxScript);
    var rendered := Template.Template(env.files, script, Some(Join(cfg.resources, cfg.sandboxScript)),
                                      ScriptReplacements(cfg, name));
    if rendered.Failure? {
      return Stopped(Raised(FileNotFound(script)));
    }
    db.Setup(true);
    return Finished([(alpine.url, alpine.dest)] + assets.value, sandbox, rendered.value);
  }

  /** What the program ends up doing at start-up. */
  datatype Startup = Launched(script: string) | SetUp(result: SetupResult)

  /**
   * AndroSH(): with the registry marked done, launch the rendered script from
   * the resources directory; otherwise run setup, which marks it done when it
   * finishes, so the next start launches.
   */
  method Start(db: DB, name: string, env: Env) returns (s: Startup)
    requires db.Valid()
    modifies db
    ensures db.Valid()
    ensures old(db.Check()) <==> s.Launched?
    ensures s.Launched? ==> s.script == Join("/sdcard/Download/" + name, "proot.sh")
    ensures s.Launched? ==> db.data == old(db.data) && db.subdata == old(db.subdata)
    ensures s.SetUp? && s.result.Finished? ==> db.Check()
    ensures s.SetUp? && s.result.Stopped? ==> !db.Check()
  {
    var cfg := Defaults(name);
    if db.Check() {
      return Launched(Join(cfg.resources, cfg.sandboxScript));
    }
    var r := Setup(db, cfg, name, env);
    return SetUp(r);
  }
}
