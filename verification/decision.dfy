/** What each provider action decides from the requested version and the
    version pip reports as installed (providers/pip.rb). Versions are compared
    as strings only; there is no notion of one version being newer. */
module Decision {
  import opened Wrappers

  /** Stands for "no particular version": it is never turned into a pin. */
  const Latest: string := "latest"

  /** The version an install or upgrade aims at: the requested one, or
      `Latest` when none is requested. */
  function CandidateVersion(desired: Option<string>): (v: string)
    ensures desired.Some? ==> v == desired.value
    ensures desired.None? ==> v == Latest
  {
    desired.GetOr(Latest)
  }

  /** The install action's target: a requested version that differs from the
      installed one, or the candidate when nothing is installed. `None` means
      the action does nothing. */
  function InstallTarget(desired: Option<string>, installed: Option<string>): (t: Option<string>)
    ensures t.Some? <==> installed.None? || (desired.Some? && desired != installed)
    ensures t.Some? ==> t.value == CandidateVersion(desired)
  {
    if desired.Some? && desired != installed then desired
    else if installed.None? then Some(CandidateVersion(desired))
    else None
  }

  /** The upgrade action's target: the candidate, whenever the installed
      version is not literally that candidate. */
  function UpgradeTarget(desired: Option<string>, installed: Option<string>): (t: Option<string>)
    ensures t.Some? <==> installed != Some(CandidateVersion(desired))
    ensures t.Some? ==> t.value == CandidateVersion(desired)
  {
    var candidate := CandidateVersion(desired);
    if installed != Some(candidate) then Some(candidate) else None
  }

  /** Whether the remove action uninstalls anything: something is installed,
      and it is the requested version or no version is requested. */
  function RemovingPackage(desired: Option<string>, installed: Option<string>): (b: bool)
    ensures b <==> installed.Some? && (desired.None? || desired == installed)
  {
    if installed.None? then false
    else if desired.None? then true
    else desired == installed
  }

  /** Removal's four cases: nothing installed, no version requested, the
      requested version installed, another version installed. */
  lemma RemoveTruthTable(desired: Option<string>, installed: Option<string>)
    ensures installed.None? ==> !RemovingPackage(desired, installed)
    ensures installed.Some? && desired.None? ==> RemovingPackage(desired, installed)
    ensures installed.Some? && desired == installed ==> RemovingPackage(desired, installed)
    ensures installed.Some? && desired.Some? && desired != installed ==> !RemovingPackage(desired, installed)
  {
  }

  /** Install does nothing when the requested version is the installed one,
      and when something is installed and no version is requested. */
  lemma InstallIdempotent(desired: Option<string>, v: string)
    requires desired.None? || desired == Some(v)
    ensures InstallTarget(desired, Some(v)).None?
  {
  }

  /** Once pip reports what install aimed at (the requested version, or any
      version at all when none was requested), a second install does nothing. */
  lemma InstallConverges(desired: Option<string>, installed: Option<string>, after: string)
    requires InstallTarget(desired, installed).Some?
    requires desired.Some? ==> after == InstallTarget(desired, installed).value
    ensures InstallTarget(desired, Some(after)).None?
  {
    InstallIdempotent(desired, after);
  }

  /** Remove acts exactly when install would not: both ask whether the
      package is present in the requested state. */
  lemma RemoveExactlyWhenInstallIdle(desired: Option<string>, installed: Option<string>)
    ensures RemovingPackage(desired, installed) <==> InstallTarget(desired, installed).None?
  {
  }

  /** Wherever install acts, upgrade acts too, and aims at the same version. */
  lemma UpgradeCoversInstall(desired: Option<string>, installed: Option<string>)
    requires InstallTarget(desired, installed).Some?
    ensures UpgradeTarget(desired, installed) == InstallTarget(desired, installed)
  {
  }

  /** With no version requested, upgrade runs whatever is installed (unless
      pip reports the literal version "latest"), so it never settles. */
  lemma UnpinnedUpgradeAlwaysActs(installed: Option<string>)
    requires installed != Some(Latest)
    ensures UpgradeTarget(None, installed) == Some(Latest)
  {
  }
}
