# python_pip provider: a Dafny model

The `python_pip` resource of the Chef `python` cookbook declares a Python package that
pip should install, upgrade or remove. Its provider reads the installed version out of
`pip list`, decides whether the requested action has anything to do, and builds exactly
one pip command line with its execution options. This project models that decision and
command-building logic as pure functions over strings and option values, and proves what
they promise.

Modules, one per part of the provider:

- `Wrappers`: `Option`, which stands for Ruby's `nil`-or-value attributes.
- `Text`: ASCII lower-casing, prefixes, Ruby's `String#lines`, and the space-separated words of a command line.
- `PipResource` (resources/pip.rb): the descriptor record, its defaults and the declared actions.
- `Decision`: the install and upgrade targets, the candidate version and `removing_package?`.
- `Listing`: `current_installed_version`. The name is normalised, each line is matched, and the first match wins.
- `PipCommand`: `which_pip`, the version pin, the environment, `pip_cmd`, and the install, upgrade and remove commands.
- `PipProvider`: the three actions and the outcome they report.
- `Scenarios`: concrete runs of the above.

Host lookups are parameters. A `Host` holds the configured pip location
(`node['python']['pip_location']`), a file-existence oracle and a home-directory oracle
(`Dir.home`). The output of `<pip> list` is a string parameter. Whether the issued command
exits successfully is a boolean parameter: `shell_out!` either returns, and the resource
is marked updated, or raises, and it is not.

Behaviour of the code that is easy to miss (the model follows the code throughout):

- Whether the `==version` pin is left out depends on the **package name**, not on the version string. The pin is left out for a name that starts with `http:`/`https:` or whose first `+`-segment is `git`, `hg` or `svn`, and for the version `latest`.
- The command text is `<pip> <sub> <options> <name><suffix>`. With the default empty options it therefore holds two spaces in a row, e.g. `pip install  requests` or `pip uninstall  --yes requests`. The argument vector is still the expected one (`PipCommand.InstallWords`, `PipCommand.RemoveWords`).
- The resource declares `purge`, but the provider defines no purge action. Nothing is modelled for it (`PipProvider.HandlerFor` returns `None`).
- The listing is read with the non-raising `shell_out`. A `pip list` that exits non-zero is parsed like any other output, usually as "not installed", and is not treated as an error.
- With no version requested, upgrade compares the installed version with the string `latest`. So it acts on every run unless pip reports the literal version `latest` (`Decision.UnpinnedUpgradeAlwaysActs`).
- `File.join(virtualenv, '/bin/pip')` removes trailing slashes of the virtualenv path, so `/env/` and `/env` both give `/env/bin/pip`.
- Install and upgrade mark the resource updated only `if status`, and remove marks it unconditionally. The value `shell_out!` returns is always truthy, though, and a failing command raises instead. So all three report an update exactly when their command ran and succeeded (`PipProvider.Issue`, and the `Updated?`/`exitOk` clause of each action).
- `upgrade_package` and `remove_package` append `--upgrade` / `--yes` to the resource's own options, and the resource keeps that change. The model returns the changed resource (`PipProvider.Outcome`). A later action on the same resource object therefore also carries the flag (`PipProvider.RemoveLeavesYesBehind`).

## Model

| member | source | states |
|---|---|---|
| PipResource.Declare | resources/pip.rb:30-37 | a freshly declared resource uses its name as package name, has no version, virtualenv, user or group, a 900 s timeout, empty options and an empty environment |
| PipResource.ActionsDeclared | resources/pip.rb:21-28 | the default action is install, one of the declared actions; the four declared actions are the constructors of `Action` |
| Decision.CandidateVersion | providers/pip.rb:115-122 | the candidate is the requested version, or `latest` when none is requested |
| Decision.InstallTarget | providers/pip.rb:33-40 | install acts exactly when nothing is installed or a requested version differs from the installed one, and then always aims at the candidate version |
| Decision.RemovingPackage | providers/pip.rb:75-85 | removal acts if and only if something is installed and it is the requested version, or no version is requested |
| Decision.RemoveTruthTable | providers/pip.rb:75-85 | removal's four cases: nothing installed gives no, no version requested gives yes, the requested version installed gives yes, another version installed gives no |
| Decision.InstallIdempotent | providers/pip.rb:33-42 | install does nothing when the installed version is the requested one, or when something is installed and no version is requested |
| Decision.InstallConverges | providers/pip.rb:33-42 | after pip reports the version install aimed at (or any version, when none was requested), a second install does nothing |
| Decision.RemoveExactlyWhenInstallIdle | providers/pip.rb:33-85 | for the same request and installed version, remove acts if and only if install does nothing |
| Decision.UpgradeTarget | providers/pip.rb:52-58 | upgrade acts if and only if the installed version differs from the candidate, and then aims at the candidate |
| Decision.UpgradeCoversInstall | providers/pip.rb:33-58 | whenever install acts, upgrade acts too and aims at the same version |
| Decision.UnpinnedUpgradeAlwaysActs | providers/pip.rb:52-53 | with no version requested, upgrade acts whatever is installed unless pip reports the literal version `latest` |
| Text.Lines | providers/pip.rb:108 | `String#lines` with each line's newline dropped: no line it returns contains a newline |
| Text.LinesOfUnlines | providers/pip.rb:108 | joining newline-free lines with newline terminators and splitting again gives back the same lines |
| Text.UnlinesOfLines | providers/pip.rb:108 | splitting a text into lines and joining them again restores the text, adding a final newline only when one was missing |
| Listing.NormalizeName | providers/pip.rb:106 | the search name has the same length as the package name, contains no `_`, and is the package name itself when that has no `_` |
| Listing.SameNormalForm | providers/pip.rb:106 | two package names are searched for identically if and only if they differ only where both hold `_` or `-` |
| Listing.ParseListingLine | providers/pip.rb:107 | a line `<shown> (<v>)` yields `v` if and only if `shown` equals the search name up to case and `v` is non-empty without `)` |
| Listing.ParseLine | providers/pip.rb:107 | any line that yields a version is exactly `<name> (<version>)`, with the name matching up to case and the version non-empty without `)` |
| Listing.FindVersion | providers/pip.rb:108-111 | the result is absent if and only if no line matches; otherwise it is the version of the first matching line, whatever follows it, and some line yields it |
| Listing.InstalledVersion | providers/pip.rb:103-113 | the installed version is absent if and only if no line of the `pip list` output matches; otherwise it is the version on the first matching line, non-empty and without `)` or a newline |
| Listing.VersionFromListing | providers/pip.rb:103-113 | in `pip list` output whose first matching line is `<name> (<v>)`, the installed version is `v` |
| Listing.AbsentFromListing | providers/pip.rb:103-113 | `pip list` output with no matching line means the package is not installed |
| PipCommand.StripTrailingSlashes | providers/pip.rb:158 | the result is the path with exactly its trailing run of `/` removed |
| PipCommand.VirtualenvPip | providers/pip.rb:158 | the result is the virtualenv path with its trailing run of `/` replaced by `/bin/pip` |
| PipCommand.WhichPip | providers/pip.rb:156-164 | the executable is the virtualenv's `bin/pip` when a virtualenv is set; otherwise the configured pip location if it exists, else the bare `pip` |
| PipCommand.VirtualenvDecides | providers/pip.rb:156-158 | with a virtualenv set, the executable is that virtualenv's `bin/pip` whatever the host says, and is `<virtualenv>/bin/pip` for a path without a trailing slash |
| PipCommand.FirstSegment | providers/pip.rb:127 | the first `+`-separated segment contains no `+` and is a prefix of the name |
| PipCommand.FirstSegmentIs | providers/pip.rb:127 | the first segment equals a `+`-free word `w` if and only if the name is `w` or starts with `w+` |
| PipCommand.PinSuffix | providers/pip.rb:124-131 | the text after the package name is either empty or `==` followed by the version |
| PipCommand.PinOmittedExactly | providers/pip.rb:124-131 | the pin is empty if and only if the version is `latest`, or the lower-cased package name starts with `http:`/`https:`, or it is `git`/`hg`/`svn` alone or followed by `+` |
| PipCommand.CommandEnvironment | providers/pip.rb:146-150 | the environment holds `HOME` exactly when a user is set, plus the resource's entries; the resource's entries win, and otherwise `HOME` is the user's home directory |
| PipCommand.PipCmd | providers/pip.rb:145-152 | the command is `<pip> <subcommand> `, then exactly the resource's options, then ` <package><suffix>`; it runs with the resource's timeout, user, group and computed environment |
| PipCommand.PipCmdWords | providers/pip.rb:151 | split into words, the command is the executable, the subcommand, the words of the options, then `<package><suffix>` |
| PipCommand.InstallPackage | providers/pip.rb:124-133 | the install command is `<pip> install `, then exactly the resource's options, then ` <package>` followed by its pin suffix, run with the resource's execution options |
| PipCommand.InstallWords | providers/pip.rb:124-133 | the install command's arguments end with `name==version`, or with the bare name when the pin is left out |
| PipCommand.UpgradePackage | providers/pip.rb:135-138 | upgrading changes only the resource's options, appending ` --upgrade`, and then issues the install command with them |
| PipCommand.UpgradeWords | providers/pip.rb:135-138 | the upgrade command's arguments are the install arguments with `--upgrade` after the resource's options |
| PipCommand.RemovePackage | providers/pip.rb:140-143 | removing changes only the resource's options, appending ` --yes`, and issues `pip_cmd('uninstall')` with them, which ends with ` --yes <package>`; the requested version is ignored |
| PipCommand.RemoveWords | providers/pip.rb:140-151 | the uninstall command's arguments are the executable, `uninstall`, the options' words, `--yes` and the bare package name |
| PipCommand.FlaggedInstallWords | providers/pip.rb:135-143 | an install on a resource whose options gained ` <flag>` has the install arguments with the flag after the options' words |
| Text.WordsAppendWord | providers/pip.rb:136-141 | appending ` <flag>` to the options adds exactly one last option word |
| PipProvider.HandlerFor | providers/pip.rb:33-73 | install, upgrade and remove have handlers, and purge has none |
| PipProvider.ListCommand | providers/pip.rb:108 | the listing command is exactly `<pip> list`, with the same executable resolution as the other commands |
| PipProvider.CurrentVersion | providers/pip.rb:91-101 | the current version is looked up under the package name: absent if and only if no listing line matches it, otherwise the version on the first matching line, a version token |
| PipProvider.Issue | providers/pip.rb:44-48 | an issued command reports the resource updated if and only if it exits successfully |
| PipProvider.InstallAction | providers/pip.rb:33-50 | install issues nothing exactly when something is installed and either no version is requested or the requested one is installed; otherwise it installs the candidate version with the resource unchanged, and reports updated if and only if the command succeeds |
| PipProvider.UpgradeAction | providers/pip.rb:52-62 | upgrade issues nothing exactly when the installed version is the candidate; otherwise it installs the candidate with ` --upgrade` added to the resource's options, and reports updated if and only if the command succeeds |
| PipProvider.RemoveAction | providers/pip.rb:64-73 | remove issues nothing exactly when nothing is installed or another version than the requested one is installed; otherwise it runs the uninstall command, and reports updated if and only if the command succeeds (once the removal runs, the update is unconditional) |
| PipProvider.Run | providers/pip.rb:33-101 | install, upgrade and remove go to their own action, each given the version `load_current_resource` reads from the listing under the package name; purge has no outcome; whenever a command is issued, an update is reported if and only if it succeeded |
| PipProvider.InstallTwiceIsNoOp | providers/pip.rb:33-50 | once install has run and pip reports what it aimed at, running install again changes nothing |
| PipProvider.RemoveActsExactlyWhenInstallIdle | providers/pip.rb:64-85 | on the same `pip list` output, remove does something if and only if install does nothing |
| PipProvider.RemoveLeavesYesBehind | providers/pip.rb:140-143 | after a removal, an install on the same resource passes `--yes` to `pip install` as well |
| Scenarios.RequestsListed | providers/pip.rb:103-113 | a listing whose only line is `requests (<v>)` gives `v` for package `requests` |
| Scenarios.RequestsCommand | providers/pip.rb:124-152 | on a host without the configured pip, a `requests` resource with default attributes installs with `pip install  requests<suffix>`, no environment and a 900 s timeout |
| Scenarios.FreshResourceInstallsLatest | providers/pip.rb:33-50 | a fresh `requests` resource with nothing installed runs `pip install  requests` with no pin and no environment |
| Scenarios.PinnedVersionIsPinned | providers/pip.rb:124-133 | requesting `2.0` of `requests` with `1.0` installed runs `pip install  requests==2.0` |
| Scenarios.RemovalIsConfirmed | providers/pip.rb:140-151 | removing an installed `requests` runs `pip uninstall  --yes requests` and leaves ` --yes` in the options |
| Scenarios.ArchiveUrlIsNotPinned | providers/pip.rb:127 | a package named by an `http:` or `HTTPS:` URL is never pinned, whatever the version |
| Scenarios.VcsReferenceIsNotPinned | providers/pip.rb:127 | a package named `git+…` or `Git+…` is never pinned, whatever the version |
| Scenarios.VirtualenvPipIsUsed | providers/pip.rb:156-158 | a virtualenv `/env` or `/env/` gives `/env/bin/pip` on any host |
| Scenarios.ListingIsParsed | providers/pip.rb:103-113 | `Flask (1.2.3)` gives `1.2.3` for package `Flask` |
| Scenarios.ListingCaseIsIgnored | providers/pip.rb:107 | `FLASK (1.2.3)` gives `1.2.3` for package `flask` |
| Scenarios.ListingUnderscoreIsHyphen | providers/pip.rb:106 | `my-pkg (0.1)` gives `0.1` for package `my_pkg` |
| Scenarios.ListingIsNotNormalised | providers/pip.rb:106-107 | `my_pkg (0.1)` does not match package `my-pkg`: only the search name is normalised |

## Left out

- Running commands: `shell_out`/`shell_out!` execution, exit codes, the timeout itself, and running as another user or group are operating-system effects. The model builds the command and its options. Success is the `exitOk` parameter, and the listing text is a parameter.
- `converge_by`, why-run mode, `Chef::Log` messages and the description strings belong to the host engine. Under why-run no command runs, and that is not modelled.
- Memoisation of `current_installed_version` and `candidate_version` with `||=` cannot be observed in a pure model.
- The user and group regex validation depends on `Chef::Config` values that are not part of this model.
- Purge has no provider action, so no behaviour is modelled for it.
- Versions are compared as strings only. There is no "newer version available" check, matching the code.
- Listing.ParseListingLine: the case-insensitive name match, and `downcase` in the pin test, are modelled for ASCII letters only. Ruby's Unicode case folding (e.g. the Kelvin sign matching `k`) is not modelled.
- PipCommand.CommandEnvironment: environment keys are strings. A Ruby Hash with Symbol keys, which would sit beside a string `HOME`, is not modelled.
- PipCommand.CommandEnvironment: `homeOf` is total. `Dir.home` raising for an unknown user is not modelled.
- PipCommand.WhichPip: the file-existence check is an oracle. `File.exist?(nil)` raising for an unset pip location is not modelled.
- PipCommand.VirtualenvDecides: only `/` is a separator. Windows `\` separators and `File.join` rejecting a path with a NUL byte are not modelled.
- PipCommand.PipCmdWords: the argument vector is the space-separated words of the line. Shell quoting, metacharacters and tabs are not modelled.
- The listing query itself raising is not modelled: the non-raising `shell_out` still raises when the executable cannot be started (a virtualenv without `bin/pip`) or runs past its default timeout, and the model always receives listing text.
- PipResource.Declare: the timeout attribute is a natural number. Ruby accepts any value there (a Float timeout is passed through to `shell_out!`), and that is not modelled.
- PipResource.Declare: the version attribute is a string or absent. Ruby accepts any value there (an Integer `2` would differ from the string `"2"`), and that is not modelled.
