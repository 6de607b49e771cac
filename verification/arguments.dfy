/** The argument resolver at the top of the script (sbml.py:34-63): from the user
    arguments it picks the configuration path, the optional GUI module ("companion")
    path and the two row colours, or stops the script. */
module Arguments {
  import opened Wrappers
  import opened Errors

  const DefaultConfig := "config.xml"
  const DefaultColor1 := "lightgreen"
  const DefaultColor2 := "tan"

  /** What the resolver settles on. `gui` is Python's unset `gui_file`. */
  datatype Settings = Settings(config: string, gui: Option<string>, color1: string, color2: string)

  const Defaults := Settings(DefaultConfig, None, DefaultColor1, DefaultColor2)

  /** The positional meaning of zero to four user arguments, row by row as the
      usage line `<config-file.xml> [<gui-file.py>] [<colorname1> <colorname2>]` lays it out. */
  function Table(args: seq<string>): Settings
    requires |args| <= 4
  {
    match |args|
    case 0 => Settings(DefaultConfig, None, DefaultColor1, DefaultColor2)
    case 1 => Settings(args[0], None, DefaultColor1, DefaultColor2)
    case 2 => Settings(args[0], Some(args[1]), DefaultColor1, DefaultColor2)
    case 3 => Settings(args[0], None, args[1], args[2])
    case 4 => Settings(args[0], Some(args[1]), args[2], args[3])
  }

  /** The resolver as the script runs it: `args` is `sys.argv[1:]`, so `num_args` is one
      more than its length, and `isFile` stands for `os.path.isfile`. The existence test
      of an explicit configuration path comes before the argument count is examined. */
  function Resolve(args: seq<string>, isFile: string -> bool): (r: Result<Settings, Error>)
    ensures r.Failure? <==> (|args| >= 1 && !isFile(args[0])) || |args| > 4
    ensures |args| >= 1 && !isFile(args[0]) ==> r == Failure(ConfigNotFound(args[0]))
    ensures |args| > 4 && isFile(args[0]) ==> r == Failure(Usage)
    ensures r.Success? ==> r.value == Table(args)
  {
    var numArgs := |args| + 1;
    if numArgs >= 2 && !isFile(args[0]) then
      Failure(ConfigNotFound(args[0]))
    else
      var s := if numArgs < 2 then Defaults else Defaults.(config := args[0]);
      if numArgs == 3 then Success(s.(gui := Some(args[1])))
      else if numArgs == 4 then Success(s.(color1 := args[1], color2 := args[2]))
      else if numArgs == 5 then Success(s.(gui := Some(args[1]), color1 := args[2], color2 := args[3]))
      else if numArgs > 5 then Failure(Usage)
      else Success(s)
  }

  /** The companion file is rewritten only when `num_args == 3` (sbml.py:71), that is,
      for exactly two user arguments. */
  predicate RewritesCompanion(args: seq<string>) {
    |args| + 1 == 3
  }

  /** With no argument nothing is checked on disk and every default applies. */
  lemma NoArgumentsUseDefaults(isFile: string -> bool)
    ensures Resolve([], isFile) == Success(Settings("config.xml", None, "lightgreen", "tan"))
  {
  }

  /** A companion path is resolved for both two and four arguments, but only the
      two-argument call rewrites it. */
  lemma CompanionRewrittenOnlyForTwoArguments(args: seq<string>, isFile: string -> bool)
    requires Resolve(args, isFile).Success?
    ensures Resolve(args, isFile).value.gui.Some? <==> |args| == 2 || |args| == 4
    ensures RewritesCompanion(args) <==> Resolve(args, isFile).value.gui.Some? && |args| == 2
  {
  }
}
