/** The `python_pip` resource: the desired-state record a recipe declares, its
    attribute defaults and the actions it accepts (resources/pip.rb). */
module PipResource {
  import opened Wrappers

  /** The actions the resource declares. */
  datatype Action = Install | Upgrade | Remove | Purge

  const Actions: set<Action> := {Install, Upgrade, Remove, Purge}

  /** The action taken when a recipe names none. */
  const DefaultAction: Action := Install

  /** Seconds a pip command may run before it is abandoned. */
  const DefaultTimeout: nat := 900

  /** One declared resource. `name` is the resource's identity; `packageName`
      is what is handed to pip. An absent optional attribute is `None`. */
  datatype Descriptor = Descriptor(
    name: string,
    packageName: string,
    version: Option<string>,
    timeout: nat,
    virtualenv: Option<string>,
    user: Option<string>,
    group: Option<string>,
    options: string,
    environment: map<string, string>)

  /** A resource declared as `python_pip name` with no attribute set: the
      package name is the resource name, nothing else is configured. */
  function Declare(name: string): (d: Descriptor)
    ensures d.name == name && d.packageName == name
    ensures d.version.None? && d.timeout == 900
    ensures d.virtualenv.None? && d.user.None? && d.group.None?
    ensures d.options == "" && d.environment == map[]
  {
    Descriptor(name, name, None, DefaultTimeout, None, None, None, "", map[])
  }

  /** The default action is install, one of the declared actions. The
      declared actions themselves are the constructors of `Action`. */
  lemma ActionsDeclared()
    ensures DefaultAction in Actions && DefaultAction == Install
  {
  }
}
