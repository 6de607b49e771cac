/** The script end to end (sbml.py:34-298): resolve the arguments, rewrite the companion
    module when asked to, parse the configuration, generate, and write `sbml_def.py`. */
module Script {
  import opened Wrappers
  import opened Errors
  import opened Arguments
  import opened Companion
  import opened Generator

  /** The static template texts, taken as given: `sbml_tab_header` before any entry is
      appended (sbml.py:86-129), `fill_gui_str` (155-167) and `fill_xml_str` (169-179). */
  datatype Templates = Templates(header: string, fillGui: string, fillXml: string)

  const OutputFile := "sbml_def.py"

  /** `box_str` (sbml.py:201); `desc_buttons_str` and `row_str` are a bare newline each. */
  const BoxLayout := "\n" + Indent + "box_layout = Layout(display='flex', flex_flow='row', align_items='stretch', width='100%')\n"

  /** The generated module: the writes of sbml.py:291-298, in order. */
  function Output(t: Templates, g: Generated): string {
    t.header + g.decls + "\n" + "\n" + BoxLayout + g.vbox + t.fillGui + t.fillXml
  }

  /** What ElementTree makes of the configuration file: a parse error, or the children
      of the first `intracellular` element (`None` when there is none). */
  datatype Xml = Malformed | Parsed(intracellular: Option<seq<Element>>)

  /** A file written by the run: where it goes and its new contents. */
  datatype FileWrite = FileWrite(path: string, text: string)

  /** The observable outcome of one run: the companion rewrite, if any, happens before the
      configuration is parsed; `output` is the generated module written afterwards. */
  datatype Execution = Execution(gui: Option<FileWrite>, output: Option<FileWrite>, failure: Option<Error>)

  /** The process exit status: every modelled failure, handled or not, exits with 1. */
  function ExitStatus(e: Execution): int {
    if e.failure.None? then 0 else 1
  }

  /** One run. `companion` is the text read from the GUI module, used only when two user
      arguments are given; the rewrite uses the corrected splice. */
  function Run(args: seq<string>, isFile: string -> bool, companion: string, xml: Xml, t: Templates): (e: Execution)
    ensures e.output.Some? <==> e.failure.None?
    ensures ExitStatus(e) == 0 <==> e.output.Some?
    ensures |args| >= 1 && !isFile(args[0]) ==> e == Execution(None, None, Some(ConfigNotFound(args[0])))
    ensures |args| > 4 && isFile(args[0]) ==> e == Execution(None, None, Some(Usage))
    ensures e.gui.Some? <==> |args| == 2 && isFile(args[0]) && Splice(companion, args[0]).Some?
    ensures e.gui.Some? ==> e.gui.value == FileWrite(args[1], Splice(companion, args[0]).value)
    ensures xml.Malformed? && |args| <= 4 && (|args| == 0 || isFile(args[0])) ==>
      e.failure == Some(XmlParseError(if |args| == 0 then DefaultConfig else args[0]))
    ensures xml.Malformed? ==> e.output.None?
    ensures e.output.Some? ==> e.output.value.path == OutputFile
  {
    match Resolve(args, isFile)
    case Failure(err) => Execution(None, None, Some(err))
    case Success(s) =>
      var rewritten := if RewritesCompanion(args) then Splice(companion, s.config) else None;
      var gui := if rewritten.Some? then Some(FileWrite(args[1], rewritten.value)) else None;
      match xml
      case Malformed => Execution(gui, None, Some(XmlParseError(s.config)))
      case Parsed(uep) =>
        match Generate(uep)
        case Failure(err) => Execution(gui, None, Some(err))
        case Success(g) => Execution(gui, Some(FileWrite(OutputFile, Output(t, g))), None)
  }

  /** With accepted arguments and a parsed configuration, `sbml_def.py` is written exactly
      when every `map` child carries both attributes, and it then holds the header, one
      block per `map` child numbered in document order, the two blank separators, the box
      layout, the `VBox` over `box0`..`boxN`, and the two method templates. */
  lemma RunWritesGeneratedModule(args: seq<string>, isFile: string -> bool, companion: string,
                                 children: seq<Element>, t: Templates)
    requires Resolve(args, isFile).Success?
    ensures var e := Run(args, isFile, companion, Parsed(Some(children)), t);
      var ms := MapEntries(children);
      && (e.output.Some? <==> AllComplete(ms))
      && (e.output.Some? ==>
            && AllComplete(ms)
            && e.output.value == FileWrite(OutputFile, t.header + Declarations(ms) + "\n" + "\n"
                                 + BoxLayout + VBoxText(VBoxNames(|ms|)) + t.fillGui + t.fillXml))
  {
  }

  /** A configuration without an `intracellular` element stops the run after any companion
      rewrite, and nothing is generated. */
  lemma RunWithoutEntryPoint(args: seq<string>, isFile: string -> bool, companion: string, t: Templates)
    requires Resolve(args, isFile).Success?
    ensures Run(args, isFile, companion, Parsed(None), t).failure == Some(NoEntryPoint)
  {
  }
}
