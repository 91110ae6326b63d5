/** The `python_pip` provider's actions (providers/pip.rb): read the installed
    version from `pip list`, decide, and issue at most one pip command. A
    command either exits successfully, and the resource is reported updated,
    or raises, and it is not. */
module PipProvider {
  import opened Wrappers
  import opened Text
  import opened PipResource
  import opened Decision
  import opened Listing
  import opened PipCommand

  /** The actions the provider implements. */
  datatype Handler = HandleInstall | HandleUpgrade | HandleRemove

  /** The provider's handler for a declared action. The resource declares
      `purge` but the provider defines no such action, so it has none. */
  function HandlerFor(a: Action): (h: Option<Handler>)
    ensures h.None? <==> a == Purge
    ensures a == Install ==> h == Some(HandleInstall)
    ensures a == Upgrade ==> h == Some(HandleUpgrade)
    ensures a == Remove ==> h == Some(HandleRemove)
  {
    match a
    case Install => Some(HandleInstall)
    case Upgrade => Some(HandleUpgrade)
    case Remove => Some(HandleRemove)
    case Purge => None
  }

  /** What one action did. `resource` is the resource after the action: upgrade
      and remove append to its options before running their command, so the
      change stays even when the command fails. */
  datatype Outcome =
    | Unchanged
    | Updated(resource: Descriptor, command: Command)
    | Failed(resource: Descriptor, command: Command)

  /** The command whose standard output is the listing: `<pip> list`. */
  function ListCommand(d: Descriptor, host: Host): (line: string)
    ensures StartsWith(line, WhichPip(d, host)) && EndsWith(line, " list")
    ensures |line| == |WhichPip(d, host)| + 5
  {
    var exe := WhichPip(d, host);
    assert (exe + " list")[..|exe|] == exe;
    exe + " list"
  }

  /** The installed version, read from the listing `ListCommand` printed:
      absent exactly when no line of the listing is one for the package name
      (not the resource name), and otherwise a version token. */
  function CurrentVersion(d: Descriptor, listing: string): (v: Option<string>)
    ensures v.None? <==> Unlisted(d.packageName, Lines(listing))
    ensures v.Some? ==> IsVersionToken(v.value) && '\n' !in v.value
    ensures forall j :: FirstMatchAt(d.packageName, Lines(listing), j) ==> v == ParseLine(d.packageName, Lines(listing)[j])
  {
    InstalledVersion(d.packageName, listing)
  }

  /** Running `command`: updated when it exits successfully, failed otherwise. */
  function Issue(resource: Descriptor, command: Command, exitOk: bool): (o: Outcome)
    ensures o.Updated? <==> exitOk
    ensures !o.Unchanged? && o.resource == resource && o.command == command
  {
    if exitOk then Updated(resource, command) else Failed(resource, command)
  }

  /** `action :install`. */
  function InstallAction(d: Descriptor, installed: Option<string>, host: Host, exitOk: bool): (o: Outcome)
    ensures o.Unchanged? <==> installed.Some? && (d.version.None? || d.version == installed)
    ensures !o.Unchanged? ==> (o.Updated? <==> exitOk)
    ensures !o.Unchanged? ==> o.resource == d && o.command == InstallPackage(d, host, CandidateVersion(d.version))
  {
    match InstallTarget(d.version, installed)
    case None => Unchanged
    case Some(target) => Issue(d, InstallPackage(d, host, target), exitOk)
  }

  /** `action :upgrade`. */
  function UpgradeAction(d: Descriptor, installed: Option<string>, host: Host, exitOk: bool): (o: Outcome)
    ensures o.Unchanged? <==> installed == Some(CandidateVersion(d.version))
    ensures !o.Unchanged? ==> (o.Updated? <==> exitOk)
    ensures !o.Unchanged? ==>
      o.resource == d.(options := d.options + " --upgrade")
      && o.command == InstallPackage(o.resource, host, CandidateVersion(d.version))
  {
    match UpgradeTarget(d.version, installed)
    case None => Unchanged
    case Some(target) =>
      var (upgraded, command) := UpgradePackage(d, host, target);
      Issue(upgraded, command, exitOk)
  }

  /** `action :remove`. */
  function RemoveAction(d: Descriptor, installed: Option<string>, host: Host, exitOk: bool): (o: Outcome)
    ensures o.Unchanged? <==> installed.None? || (d.version.Some? && d.version != installed)
    ensures !o.Unchanged? ==> (o.Updated? <==> exitOk)
    ensures !o.Unchanged? ==> (o.resource, o.command) == RemovePackage(d, host)
  {
    if RemovingPackage(d.version, installed) then
      var (confirmed, command) := RemovePackage(d, host);
      Issue(confirmed, command, exitOk)
    else Unchanged
  }

  /** One action on one resource, given the text `ListCommand` printed and
      whether the command it issues (if any) exits successfully. `None` when
      the provider has no such action. */
  function Run(a: Action, d: Descriptor, host: Host, listing: string, exitOk: bool): (o: Option<Outcome>)
    ensures o.None? <==> a == Purge
    ensures o.Some? && !o.value.Unchanged? ==> (o.value.Updated? <==> exitOk)
    ensures a == Install ==> o == Some(InstallAction(d, CurrentVersion(d, listing), host, exitOk))
    ensures a == Upgrade ==> o == Some(UpgradeAction(d, CurrentVersion(d, listing), host, exitOk))
    ensures a == Remove ==> o == Some(RemoveAction(d, CurrentVersion(d, listing), host, exitOk))
  {
    var installed := CurrentVersion(d, listing);
    match HandlerFor(a)
    case None => None
    case Some(HandleInstall) => Some(InstallAction(d, installed, host, exitOk))
    case Some(HandleUpgrade) => Some(UpgradeAction(d, installed, host, exitOk))
    case Some(HandleRemove) => Some(RemoveAction(d, installed, host, exitOk))
  }

  /** Installing again after pip reports what install aimed at changes
      nothing: the requested version, or any version when none was requested. */
  lemma InstallTwiceIsNoOp(d: Descriptor, host: Host, before: string, after: string, exitOk: bool, exitOk': bool)
    requires Run(Install, d, host, before, exitOk).value.Updated?
    requires CurrentVersion(d, after).Some?
    requires d.version.Some? ==> CurrentVersion(d, after) == d.version
    ensures Run(Install, d, host, after, exitOk') == Some(Unchanged)
  {
    InstallIdempotent(d.version, CurrentVersion(d, after).value);
  }

  /** On the same listing, remove acts exactly when install does nothing. */
  lemma RemoveActsExactlyWhenInstallIdle(d: Descriptor, host: Host, listing: string, exitOk: bool)
    ensures Run(Remove, d, host, listing, exitOk) == Some(Unchanged) <==>
            Run(Install, d, host, listing, exitOk) != Some(Unchanged)
  {
    RemoveExactlyWhenInstallIdle(d.version, CurrentVersion(d, listing));
  }

  /** The resource keeps what remove added to its options: an install run on
      it afterwards passes `--yes` to `pip install` as well. */
  lemma RemoveLeavesYesBehind(d: Descriptor, host: Host, installed: Option<string>, version: string)
    requires RemoveAction(d, installed, host, true).Updated?
    requires IsWord(WhichPip(d, host)) && IsWord(d.packageName) && ' ' !in version
    ensures var after := RemoveAction(d, installed, host, true).resource;
      Words(InstallPackage(after, host, version).line) ==
        [WhichPip(d, host), "install"] + Words(d.options) + ["--yes", d.packageName + PinSuffix(d.packageName, version)]
  {
    assert " --yes" == " " + "--yes";
    assert RemoveAction(d, installed, host, true).resource == d.(options := d.options + " " + "--yes");
    FlaggedInstallWords(d, host, version, "--yes");
  }
}
