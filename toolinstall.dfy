/**
 * installer/src/com/cloudera/distribution/toolinstall.py: the base of every
 * installable component.  A tool has a name and the names of the tools that
 * must run before it; its phases either succeed with a verbose message
 * (precheck, verify) or raise because a subclass must override them
 * (install, configure, postInstall).
 */
module ToolInstall {

  import opened Common

  datatype InstallError = InstallError(msg: string)

  /** The state `__init__` sets up: the tool's name and its dependency list. */
  datatype Tool = Tool(name: string, deps: seq<string>)

  datatype Phase = Precheck | Install | Configure | PostInstall | Verify

  /** `ToolInstall(toolName)`: a tool with no dependencies. */
  function NewTool(toolName: string): (t: Tool)
    ensures GetName(t) == toolName
    ensures GetDependencies(t) == []
  {
    Tool(toolName, [])
  }

  /** `getName`. */
  function GetName(t: Tool): string
  {
    t.name
  }

  /** `getDependencies`: the names of the tools that must run first. */
  function GetDependencies(t: Tool): seq<string>
  {
    t.deps
  }

  function PhaseName(p: Phase): string
  {
    match p
    case Precheck => "precheck"
    case Install => "install"
    case Configure => "configure"
    case PostInstall => "postInstall"
    case Verify => "verify"
  }

  /**
   * A phase of the base class: precheck and verify log that there is
   * nothing to check and succeed; the other three raise InstallError naming
   * the abstract method.  No phase changes the tool (a `Tool` is a value).
   */
  function RunBasePhase(t: Tool, p: Phase): (r: Result<string, InstallError>)
    ensures r.Success? <==> p == Precheck || p == Verify
    ensures r.Failure? ==> r.error == InstallError("Called " + PhaseName(p) + "() on abstract ToolInstall")
    ensures r.Success? ==> |r.value| > |GetName(t)|
  {
    match p
    case Precheck => Success("No preconditions for " + GetName(t) + "; (ok)")
    case Verify => Success("No verification tests for " + GetName(t) + "; (ok)")
    case _ => Failure(InstallError("Called " + PhaseName(p) + "() on abstract ToolInstall"))
  }
}
