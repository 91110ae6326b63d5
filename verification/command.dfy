/** Building the pip command line and its execution options (which_pip,
    install_package, upgrade_package, remove_package and pip_cmd in
    providers/pip.rb). Lookups on the host are passed in as a `Host`. */
module PipCommand {
  import opened Wrappers
  import opened Text
  import opened PipResource
  import opened Decision

  /** What the provider asks of the machine it runs on: the configured pip
      location (`node['python']['pip_location']`), whether a path exists on
      disk, and a user's home directory (`Dir.home`). */
  datatype Host = Host(pipLocation: string, fileExists: string -> bool, homeOf: string -> string)

  /** How the command is run: time limit, identity and environment. */
  datatype ShellOptions = ShellOptions(
    timeout: nat,
    user: Option<string>,
    group: Option<string>,
    environment: map<string, string>)

  /** One shell command: its text and how it is run. */
  datatype Command = Command(line: string, options: ShellOptions)

  // ---------------------------------------------------------------------
  // Which pip

  /** `p` without its trailing run of `/` characters. */
  function StripTrailingSlashes(p: string): (r: string)
    ensures |r| <= |p| && r == p[..|r|]
    ensures r == [] || r[|r| - 1] != '/'
    ensures forall j :: |r| <= j < |p| ==> p[j] == '/'
  {
    if p == [] || p[|p| - 1] != '/' then p else StripTrailingSlashes(p[..|p| - 1])
  }

  /** `File.join(dir, '/bin/pip')`: the separators at the junction collapse
      into one, so the trailing run of `/` in `dir` gives way to `/bin/pip`. */
  function VirtualenvPip(dir: string): (pip: string)
    ensures |pip| >= 8 && pip[|pip| - 8..] == "/bin/pip"
    ensures |pip| - 8 <= |dir| && pip[..|pip| - 8] == dir[..|pip| - 8]
    ensures |pip| == 8 || pip[|pip| - 9] != '/'
    ensures forall j :: |pip| - 8 <= j < |dir| ==> dir[j] == '/'
  {
    StripTrailingSlashes(dir) + "/bin/pip"
  }

  /** The pip executable: the virtualenv's own, else the configured location
      when it exists, else `pip` from the search path. */
  function WhichPip(d: Descriptor, host: Host): (exe: string)
    ensures d.virtualenv.Some? ==> exe == VirtualenvPip(d.virtualenv.value)
    ensures d.virtualenv.None? && host.fileExists(host.pipLocation) ==> exe == host.pipLocation
    ensures d.virtualenv.None? && !host.fileExists(host.pipLocation) ==> exe == "pip"
  {
    match d.virtualenv
    case Some(dir) => VirtualenvPip(dir)
    case None => if host.fileExists(host.pipLocation) then host.pipLocation else "pip"
  }

  /** A configured virtualenv decides the executable whatever the host says,
      and a directory written without a trailing `/` just gets `/bin/pip`. */
  lemma VirtualenvDecides(d: Descriptor, host: Host, other: Host)
    requires d.virtualenv.Some?
    ensures WhichPip(d, host) == WhichPip(d, other)
    ensures StartsWith(WhichPip(d, host), StripTrailingSlashes(d.virtualenv.value))
    ensures EndsWith(WhichPip(d, host), "/bin/pip")
    ensures d.virtualenv.value == [] || d.virtualenv.value[|d.virtualenv.value| - 1] != '/' ==>
      WhichPip(d, host) == d.virtualenv.value + "/bin/pip"
  {
    var r := StripTrailingSlashes(d.virtualenv.value);
    assert (r + "/bin/pip")[..|r|] == r;
  }

  // ---------------------------------------------------------------------
  // Version pin

  /** The text before the first `+` (Ruby's `split('+')[0]`; where Ruby gives
      `nil` or `""` this gives `""`, which no scheme equals). */
  function FirstSegment(s: string): (seg: string)
    ensures '+' !in seg
    ensures StartsWith(s, seg)
  {
    s[..IndexOf(s, '+')]
  }

  /** The first `+`-segment is `w` exactly when `s` is `w` or starts `w+`. */
  lemma FirstSegmentIs(s: string, w: string)
    requires '+' !in w
    ensures FirstSegment(s) == w <==> s == w || StartsWith(s, w + "+")
  {
    var k := IndexOf(s, '+');
    if FirstSegment(s) == w {
      if k < |s| {
        assert s[..|w| + 1] == w + "+";
      } else {
        assert s == s[..k];
      }
    }
    if s == w {
      assert k == |s|;
      assert s[..k] == s;
    } else if StartsWith(s, w + "+") {
      assert s[|w|] == '+';
      assert forall j :: 0 <= j < |w| ==> s[j] == w[j];
      assert k == |w|;
    }
  }

  const VcsSchemes: set<string> := {"git", "hg", "svn"}

  /** A package given as a source archive URL. */
  predicate IsArchiveUrl(packageName: string) {
    StartsWith(Lower(packageName), "http:") || StartsWith(Lower(packageName), "https:")
  }

  /** A package given as a version-control reference such as `git+https://…`. */
  predicate IsVcsReference(packageName: string) {
    FirstSegment(Lower(packageName)) in VcsSchemes
  }

  /** What follows the package name in an install command: nothing for the
      latest version or a package given as a URL or VCS reference (a pin would
      break the link), otherwise `==version`. */
  function PinSuffix(packageName: string, version: string): (suffix: string)
    ensures suffix == "" || suffix == "==" + version
  {
    if version == Latest || IsArchiveUrl(packageName) || IsVcsReference(packageName) then ""
    else "==" + version
  }

  /** The pin is left out exactly when the version is `latest`, or the
      lower-cased package name starts with `http:` or `https:`, or it is `git`,
      `hg` or `svn` alone or followed by `+`. It depends on the package name,
      not on the version string, apart from `latest`. */
  lemma PinOmittedExactly(packageName: string, version: string)
    ensures PinSuffix(packageName, version) == "" <==>
      || version == Latest
      || StartsWith(Lower(packageName), "http:")
      || StartsWith(Lower(packageName), "https:")
      || Lower(packageName) in VcsSchemes
      || StartsWith(Lower(packageName), "git+")
      || StartsWith(Lower(packageName), "hg+")
      || StartsWith(Lower(packageName), "svn+")
  {
    var s := Lower(packageName);
    FirstSegmentIs(s, "git");
    FirstSegmentIs(s, "hg");
    FirstSegmentIs(s, "svn");
  }

  // ---------------------------------------------------------------------
  // pip_cmd

  /** The environment of a pip command: `HOME` is the user's home directory
      when a user is set, and the resource's own entries are laid over it. */
  function CommandEnvironment(d: Descriptor, host: Host): (env: map<string, string>)
    ensures env.Keys == d.environment.Keys + (if d.user.Some? then {"HOME"} else {})
    ensures forall k :: k in d.environment ==> env[k] == d.environment[k]
    ensures d.user.Some? && "HOME" !in d.environment ==> env["HOME"] == host.homeOf(d.user.value)
  {
    var base: map<string, string> := if d.user.Some? then map["HOME" := host.homeOf(d.user.value)] else map[];
    base + d.environment
  }

  /** `<pip> <subcommand> <options> <package><suffix>`, run with the
      resource's timeout, user, group and environment. */
  function PipCmd(d: Descriptor, host: Host, subcommand: string, suffix: string): (c: Command)
    ensures StartsWith(c.line, WhichPip(d, host) + " " + subcommand + " ")
    ensures EndsWith(c.line, " " + d.packageName + suffix)
    ensures var head, tail := WhichPip(d, host) + " " + subcommand + " ", " " + d.packageName + suffix;
      |c.line| == |head| + |d.options| + |tail| && c.line[|head|..|head| + |d.options|] == d.options
    ensures c.options.timeout == d.timeout && c.options.user == d.user && c.options.group == d.group
    ensures c.options.environment == CommandEnvironment(d, host)
  {
    var head := WhichPip(d, host) + " " + subcommand + " ";
    var tail := " " + d.packageName + suffix;
    var line := head + d.options + tail;
    assert line[..|head|] == head;
    assert line[|line| - |tail|..] == tail;
    assert line[|head|..|head| + |d.options|] == d.options;
    Command(line, ShellOptions(d.timeout, d.user, d.group, CommandEnvironment(d, host)))
  }

  /** The command line grouped from the right, as the word lemmas take it. */
  lemma PipCmdLine(d: Descriptor, host: Host, subcommand: string, suffix: string)
    ensures PipCmd(d, host, subcommand, suffix).line ==
      WhichPip(d, host) + " " + (subcommand + " " + (d.options + " " + (d.packageName + suffix)))
  {
    var exe, last := WhichPip(d, host), d.packageName + suffix;
    assert " " + d.packageName + suffix == " " + last;
    ConcatRegroup(exe, subcommand, d.options, last);
  }

  /** The two groupings of a command line's text. */
  lemma ConcatRegroup(exe: string, sub: string, options: string, last: string)
    ensures (exe + " " + sub + " ") + options + (" " + last) == exe + " " + (sub + " " + (options + " " + last))
  {
  }

  /** The words of `exe sub options last` for single words `exe`, `sub` and
      `last`. */
  lemma LineWords(exe: string, sub: string, options: string, last: string)
    requires IsWord(exe) && IsWord(sub) && IsWord(last)
    ensures Words(exe + " " + (sub + " " + (options + " " + last))) == [exe, sub] + Words(options) + [last]
  {
    var rest1 := sub + " " + (options + " " + last);
    SubcommandWords(sub, options, last);
    WordBefore(exe, rest1);
    Regroup(exe, sub, Words(options), last);
  }

  /** Prepending a word to `[b] + m + [z]`. */
  lemma Regroup(a: string, b: string, m: seq<string>, z: string)
    ensures [a] + ([b] + m + [z]) == [a, b] + m + [z]
  {
  }

  /** The words after the executable: the subcommand, the options' words and
      the last word. */
  lemma SubcommandWords(sub: string, options: string, last: string)
    requires IsWord(sub) && IsWord(last)
    ensures Words(sub + " " + (options + " " + last)) == [sub] + Words(options) + [last]
  {
    WordsAppendWord(options, last);
    WordBefore(sub, options + " " + last);
  }

  /** A word followed by a space is the first word. */
  lemma WordBefore(w: string, s: string)
    requires IsWord(w)
    ensures Words(w + " " + s) == [w] + Words(s)
  {
    WordsAppend(w, s);
    WordsOfWord(w);
  }

  /** A word as a shell splits it: non-empty and free of spaces. */
  predicate IsWord(w: string) {
    w != [] && ' ' !in w
  }

  /** The argument vector of a pip command: executable, subcommand, the words
      of the options, then the package with its suffix. Empty options leave a
      double space in the text that adds no argument. */
  lemma PipCmdWords(d: Descriptor, host: Host, subcommand: string, suffix: string)
    requires IsWord(WhichPip(d, host)) && IsWord(subcommand) && IsWord(d.packageName + suffix)
    ensures Words(PipCmd(d, host, subcommand, suffix).line) ==
      [WhichPip(d, host), subcommand] + Words(d.options) + [d.packageName + suffix]
  {
    PipCmdLine(d, host, subcommand, suffix);
    LineWords(WhichPip(d, host), subcommand, d.options, d.packageName + suffix);
  }

  // ---------------------------------------------------------------------
  // install, upgrade and remove commands

  /** `pip install` of the package at `version`, with the resource's options
      between the subcommand and the package. */
  function InstallPackage(d: Descriptor, host: Host, version: string): (c: Command)
    ensures StartsWith(c.line, WhichPip(d, host) + " install ")
    ensures EndsWith(c.line, " " + d.packageName + PinSuffix(d.packageName, version))
    ensures var head, tail := WhichPip(d, host) + " install ", " " + d.packageName + PinSuffix(d.packageName, version);
      |c.line| == |head| + |d.options| + |tail| && c.line[|head|..|head| + |d.options|] == d.options
    ensures c.options == ShellOptions(d.timeout, d.user, d.group, CommandEnvironment(d, host))
  {
    PipCmd(d, host, "install", PinSuffix(d.packageName, version))
  }

  /** Upgrading adds ` --upgrade` to the resource's options (the resource keeps
      the change) and then installs with them. */
  function UpgradePackage(d: Descriptor, host: Host, version: string): (r: (Descriptor, Command))
    ensures r.0 == d.(options := d.options + " --upgrade")
    ensures r.1 == InstallPackage(r.0, host, version)
  {
    var upgraded := d.(options := d.options + " --upgrade");
    (upgraded, InstallPackage(upgraded, host, version))
  }

  /** Removing adds ` --yes` to the resource's options (the resource keeps the
      change) and uninstalls the bare package name; the requested version
      plays no part. */
  function RemovePackage(d: Descriptor, host: Host): (r: (Descriptor, Command))
    ensures r.0 == d.(options := d.options + " --yes")
    ensures r.1 == PipCmd(r.0, host, "uninstall", "")
    ensures EndsWith(r.1.line, " --yes " + d.packageName)
  {
    var confirmed := d.(options := d.options + " --yes");
    var c := PipCmd(confirmed, host, "uninstall", "");
    assert c.line == (WhichPip(confirmed, host) + " uninstall " + d.options) + (" --yes " + d.packageName);
    (confirmed, c)
  }

  /** The arguments of an install: a pinned version travels with the package
      as `name==version`, an omitted pin leaves the bare name. */
  lemma InstallWords(d: Descriptor, host: Host, version: string)
    requires IsWord(WhichPip(d, host)) && IsWord(d.packageName) && ' ' !in version
    ensures Words(InstallPackage(d, host, version).line) ==
      [WhichPip(d, host), "install"] + Words(d.options) + [d.packageName + PinSuffix(d.packageName, version)]
  {
    PipCmdWords(d, host, "install", PinSuffix(d.packageName, version));
  }

  /** The arguments of an upgrade: the install arguments with `--upgrade`
      after the resource's options. */
  lemma UpgradeWords(d: Descriptor, host: Host, version: string)
    requires IsWord(WhichPip(d, host)) && IsWord(d.packageName) && ' ' !in version
    ensures Words(UpgradePackage(d, host, version).1.line) ==
      [WhichPip(d, host), "install"] + Words(d.options) + ["--upgrade", d.packageName + PinSuffix(d.packageName, version)]
  {
    assert " --upgrade" == " " + "--upgrade";
    assert UpgradePackage(d, host, version).0 == d.(options := d.options + " " + "--upgrade");
    FlaggedInstallWords(d, host, version, "--upgrade");
  }

  /** The arguments of a pip command on a resource whose options gained
      ` <flag>`: the flag comes last among the options. */
  lemma FlaggedCmdWords(d: Descriptor, host: Host, subcommand: string, suffix: string, flag: string)
    requires IsWord(WhichPip(d, host)) && IsWord(subcommand) && IsWord(d.packageName + suffix) && IsWord(flag)
    ensures Words(PipCmd(d.(options := d.options + " " + flag), host, subcommand, suffix).line) ==
      [WhichPip(d, host), subcommand] + Words(d.options) + [flag, d.packageName + suffix]
  {
    var flagged := d.(options := d.options + " " + flag);
    var exe, lastArg := WhichPip(d, host), d.packageName + suffix;
    assert WhichPip(flagged, host) == exe;
    PipCmdWords(flagged, host, subcommand, suffix);
    var opts := Words(d.options);
    WordsAppendWord(d.options, flag);
    assert [exe, subcommand] + (opts + [flag]) + [lastArg] == [exe, subcommand] + opts + [flag, lastArg];
  }

  /** The arguments of an install on a resource whose options gained
      ` <flag>`: the flag comes last among the options. */
  lemma FlaggedInstallWords(d: Descriptor, host: Host, version: string, flag: string)
    requires IsWord(WhichPip(d, host)) && IsWord(d.packageName) && ' ' !in version && IsWord(flag)
    ensures Words(InstallPackage(d.(options := d.options + " " + flag), host, version).line) ==
      [WhichPip(d, host), "install"] + Words(d.options) + [flag, d.packageName + PinSuffix(d.packageName, version)]
  {
    var flagged := d.(options := d.options + " " + flag);
    var suffix := PinSuffix(d.packageName, version);
    assert InstallPackage(flagged, host, version) == PipCmd(flagged, host, "install", suffix);
    FlaggedCmdWords(d, host, "install", suffix, flag);
  }

  /** The arguments of a removal: `uninstall`, the resource's options, `--yes`
      and the bare package name. */
  lemma RemoveWords(d: Descriptor, host: Host)
    requires IsWord(WhichPip(d, host)) && IsWord(d.packageName)
    ensures Words(RemovePackage(d, host).1.line) ==
      [WhichPip(d, host), "uninstall"] + Words(d.options) + ["--yes", d.packageName]
  {
    UninstallWords(d, host);
  }

  /** The words of `pip_cmd('uninstall')` once ` --yes` is in the options. */
  lemma UninstallWords(d: Descriptor, host: Host)
    requires IsWord(WhichPip(d, host)) && IsWord(d.packageName)
    ensures Words(PipCmd(d.(options := d.options + " --yes"), host, "uninstall", "").line) ==
      [WhichPip(d, host), "uninstall"] + Words(d.options) + ["--yes", d.packageName]
  {
    assert d.options + " --yes" == d.options + " " + "--yes";
    assert d.packageName + "" == d.packageName;
    FlaggedCmdWords(d, host, "uninstall", "", "--yes");
  }
}
