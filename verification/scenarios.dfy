/** Concrete runs of the provider: a fresh resource, a pinned version, a
    removal, version-control and archive package names, a virtualenv, and
    reading versions out of `pip list` text. */
module Scenarios {
  import opened Wrappers
  import opened Text
  import opened PipResource
  import opened Decision
  import opened Listing
  import opened PipCommand
  import opened PipProvider

  /** A host where the configured pip location does not exist. */
  function PlainHost(): Host {
    Host("/usr/local/bin/pip", p => false, u => "/home/" + u)
  }

  /** A name with no upper-case letter is its own lower-case form. */
  lemma LowerOfLowerCase(s: string)
    requires forall i :: 0 <= i < |s| ==> !('A' <= s[i] <= 'Z')
    ensures Lower(s) == s
  {
  }

  /** `requests` at `version` as the only line of a listing. */
  lemma RequestsListed(version: string)
    requires IsVersionToken(version) && '\n' !in version
    ensures InstalledVersion("requests", "requests (" + version + ")\n") == Some(version)
  {
    LowerOfLowerCase("requests");
    assert NormalizeName("requests") == "requests";
    assert "requests (" + version + ")\n" == Unlines([] + [ListingLine("requests", version)] + []);
    VersionFromListing("requests", [], "requests", version, []);
  }

  lemma FreshResourceInstallsLatest(exitOk: bool)
    ensures Run(Install, Declare("requests"), PlainHost(), "", exitOk) ==
      Some(Issue(Declare("requests"), Command("pip install  requests", ShellOptions(900, None, None, map[])), exitOk))
  {
    var d := Declare("requests");
    assert Lines("") == [];
    assert CurrentVersion(d, "").None?;
    RequestsCommand(d, Latest);
    RequestsIsPlain(Latest);
    assert "pip install  requests" + "" == "pip install  requests";
    assert InstallTarget(None, None) == Some(Latest);
  }

  /** `requests` is a plain package name: only `latest` drops the pin. */
  lemma RequestsIsPlain(version: string)
    ensures PinSuffix("requests", version) == if version == Latest then "" else "==" + version
  {
    LowerOfLowerCase("requests");
    assert !StartsWith("requests", "http:") && !StartsWith("requests", "https:");
    FirstSegmentIs("requests", "git");
    FirstSegmentIs("requests", "hg");
    FirstSegmentIs("requests", "svn");
    assert !IsVcsReference("requests");
  }

  lemma PinnedVersionIsPinned(exitOk: bool)
    ensures var d := Declare("requests").(version := Some("2.0"));
      InstallAction(d, Some("1.0"), PlainHost(), exitOk) ==
        Issue(d, Command("pip install  requests==2.0", ShellOptions(900, None, None, map[])), exitOk)
  {
    var d := Declare("requests").(version := Some("2.0"));
    var c := Command("pip install  requests==2.0", ShellOptions(900, None, None, map[]));
    RequestsCommand(d, "2.0");
    RequestsIsPlain("2.0");
    assert "pip install  requests" + ("==" + "2.0") == "pip install  requests==2.0";
    assert InstallPackage(d, PlainHost(), "2.0") == c;
  }

  /** Installing `requests` at `v` with a resource that sets nothing but its
      version, on the plain host. */
  lemma RequestsCommand(d: Descriptor, v: string)
    requires d == Declare("requests").(version := d.version)
    ensures InstallPackage(d, PlainHost(), v) ==
      Command("pip install  requests" + PinSuffix("requests", v), ShellOptions(900, None, None, map[]))
  {
    var suffix := PinSuffix(d.packageName, v);
    assert d.packageName == "requests" && d.options == "";
    assert WhichPip(d, PlainHost()) == "pip";
    assert CommandEnvironment(d, PlainHost()) == map[];
    var c := PipCmd(d, PlainHost(), "install", suffix);
    assert InstallPackage(d, PlainHost(), v) == c;
    SuffixLast(d, PlainHost(), "install", suffix);
    assert "pip" + " " + "install" + " " + "" + " " + "requests" == "pip install  requests";
    assert c.options == ShellOptions(900, None, None, map[]);
  }

  /** The suffix is the last thing on the command line. */
  lemma SuffixLast(d: Descriptor, host: Host, subcommand: string, suffix: string)
    ensures PipCmd(d, host, subcommand, suffix).line ==
      (WhichPip(d, host) + " " + subcommand + " " + d.options + " " + d.packageName) + suffix
  {
  }

  lemma RemovalIsConfirmed()
    ensures var d := Declare("requests");
      RemoveAction(d, Some("1.0"), PlainHost(), true) ==
        Updated(d.(options := " --yes"), Command("pip uninstall  --yes requests", ShellOptions(900, None, None, map[])))
  {
    var d := Declare("requests");
    var confirmed := d.(options := " --yes");
    assert "" + " --yes" == " --yes";
    assert WhichPip(confirmed, PlainHost()) == "pip";
    assert CommandEnvironment(confirmed, PlainHost()) == map[];
    assert "pip" + " " + "uninstall" + " " + " --yes" + " " + "requests" + "" == "pip uninstall  --yes requests";
    var c := Command("pip uninstall  --yes requests", ShellOptions(900, None, None, map[]));
    assert PipCmd(confirmed, PlainHost(), "uninstall", "") == c;
    assert RemovePackage(d, PlainHost()) == (confirmed, c);
    assert RemovingPackage(None, Some("1.0"));
    assert RemoveAction(d, Some("1.0"), PlainHost(), true) == Updated(confirmed, c);
  }

  /** A package named by an `http:` or `https:` URL, in any case, is never
      pinned. */
  lemma ArchiveUrlIsNotPinned(rest: string, version: string)
    ensures PinSuffix("http:" + rest, version) == ""
    ensures PinSuffix("HTTPS:" + rest, version) == ""
  {
    LowerAppend("http:", rest);
    assert Lower("http:") == "http:";
    assert StartsWith(Lower("http:" + rest), "http:");
    LowerAppend("HTTPS:", rest);
    assert Lower("HTTPS:") == "https:";
    assert StartsWith(Lower("HTTPS:" + rest), "https:");
  }

  /** A package named by a `git+` reference, in any case, is never pinned. */
  lemma VcsReferenceIsNotPinned(rest: string, version: string)
    ensures PinSuffix("git+" + rest, version) == ""
    ensures PinSuffix("Git+" + rest, version) == ""
  {
    LowerAppend("git+", rest);
    assert Lower("git+") == "git+";
    FirstSegmentIs(Lower("git+" + rest), "git");
    LowerAppend("Git+", rest);
    assert Lower("Git+") == "git+";
    FirstSegmentIs(Lower("Git+" + rest), "git");
  }

  lemma VirtualenvPipIsUsed(host: Host)
    ensures WhichPip(Declare("requests").(virtualenv := Some("/env")), host) == "/env/bin/pip"
    ensures WhichPip(Declare("requests").(virtualenv := Some("/env/")), host) == "/env/bin/pip"
  {
    assert StripTrailingSlashes("/env/") == StripTrailingSlashes("/env");
    assert "/env" + "/bin/pip" == "/env/bin/pip";
  }

  lemma ListingIsParsed()
    ensures InstalledVersion("Flask", "Flask (1.2.3)\n") == Some("1.2.3")
  {
    assert NormalizeName("Flask") == "Flask";
    assert "Flask (1.2.3)\n" == Unlines([] + [ListingLine("Flask", "1.2.3")] + []);
    VersionFromListing("Flask", [], "Flask", "1.2.3", []);
  }

  lemma ListingCaseIsIgnored()
    ensures InstalledVersion("flask", "FLASK (1.2.3)\n") == Some("1.2.3")
  {
    assert NormalizeName("flask") == "flask";
    assert Lower("FLASK") == "flask";
    LowerOfLowerCase("flask");
    assert "FLASK (1.2.3)\n" == Unlines([] + [ListingLine("FLASK", "1.2.3")] + []);
    VersionFromListing("flask", [], "FLASK", "1.2.3", []);
  }

  lemma ListingUnderscoreIsHyphen()
    ensures InstalledVersion("my_pkg", "my-pkg (0.1)\n") == Some("0.1")
  {
    assert NormalizeName("my_pkg") == "my-pkg";
    assert "my-pkg (0.1)\n" == Unlines([] + [ListingLine("my-pkg", "0.1")] + []);
    VersionFromListing("my_pkg", [], "my-pkg", "0.1", []);
  }

  /** Only the searched-for name is normalised, not the listing. */
  lemma ListingIsNotNormalised()
    ensures InstalledVersion("my-pkg", "my_pkg (0.1)\n") == None
  {
    var line := "my_pkg (0.1)";
    assert NormalizeName("my-pkg") == "my-pkg";
    assert Lower(line[..6])[2] == '_';
    assert ParseLine("my-pkg", line) == None;
    assert "my_pkg (0.1)\n" == Unlines([line]);
    AbsentFromListing("my-pkg", [line]);
  }
}
