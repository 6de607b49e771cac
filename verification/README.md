# sbml.py generator, modelled in Dafny

`sbml.py` reads a PhysiCell configuration file (XML) and writes `sbml_def.py`, a
Jupyter widget module with one row of text widgets per species-to-substrate `map`
under the `intracellular` element. This project models the script's logic:

- the argument resolver, which turns zero to four user arguments into a
  configuration path, an optional GUI ("companion") module and two colour names,
  or stops the script;
- the rewrite of the companion module's `main_xml_filename` line;
- the code generator, which numbers the `map` children and builds the widget
  declarations and the `VBox` listing;
- the order in which the output module is assembled;
- one whole run, with its exit status.

Modules:

- `Wrappers` and `Errors` (`wrappers.dfy`): `Option`, `Result`, and the ways a run
  stops.
- `PyStr` (`pystr.dfy`): the Python string operations the script relies on, with
  CPython's semantics written out. These are `str.find`, slicing with negative
  bounds, ASCII `lower()`, and `str(n)`.
- `Arguments` (`arguments.dfy`): sbml.py lines 34-63.
- `Companion` (`companion.dfy`): sbml.py lines 71-83, both as written and corrected.
- `Generator` (`generator.dfy`): sbml.py lines 190-283.
- `Script` (`script.dfy`): the output order (lines 290-298) and one run end to end.

The file-existence test is the input `isFile`. The XML parser's result is the input
`Xml`. The companion module's text is an input string. The template texts are the
input `Templates`. Everything else is a pure function, so running twice on the same
inputs gives the same output.

Behaviour of the code worth stating up front:

- Tags are lower-cased before they are compared with `map` (line 228). So `MAP` and
  `Map` count too: the match is not case-sensitive.
- When there is no `intracellular` element, `root.find` returns `None` (line 215). The
  loop at line 224 then iterates `None` and raises. The model reports `NoEntryPoint`.
- A GUI path is resolved for both two and four user arguments (lines 53 and 58), but
  only the two-argument call rewrites the companion module (line 71).
- The existence test on an explicit configuration path (line 47) comes before the
  argument count is checked (line 61). So five arguments naming a missing file report
  the missing file, not the usage error.

## Model

| member | source | states |
|---|---|---|
| Arguments.Resolve | sbml.py:34-63 | Fails exactly when an explicit config path is not a file, or when there are more than four user arguments. The missing file is reported first, whatever the count. Otherwise the result is the positional table row: config, companion and both colours for 0 to 4 arguments. |
| Arguments.NoArgumentsUseDefaults | sbml.py:35-44 | With no user argument, nothing is checked on disk. The config is `config.xml`, there is no companion, and the colours are `lightgreen`/`tan`. |
| Arguments.CompanionRewrittenOnlyForTwoArguments | sbml.py:52-71 | A companion path is resolved for two or four arguments. Only the two-argument case triggers the rewrite. |
| PyStr.Find | sbml.py:75-77 | `str.find` returns -1 exactly when the pattern occurs nowhere. Otherwise it returns the first index where the pattern occurs. |
| PyStr.ParseDecOfDec | sbml.py:242-249 | Reading back the numeral `str(map_count)` gives the counter back. |
| PyStr.DecInjective | sbml.py:242-249 | Distinct counters give distinct numerals, so numbered widget names never collide. |
| Companion.SpliceReplacesMarkerLine | sbml.py:74-83 | If a newline follows the first marker, the result has three parts in order. First, the text before the marker. Then `main_xml_filename = '<config>'`. Then the original text from that newline to the end. |
| Companion.SpliceOnLastLine | sbml.py:77-78 | As written, when no newline follows the first marker, the result depends on where the marker is. For a marker at index 1 or later, the kept tail starts one character before the marker, so the old binding line survives. For a marker at index 0, only the last character of the text is kept after the assignment. |
| Companion.LastLineKept | sbml.py:76-83 | As written, when the marker opens an unterminated last line, that whole line is written again after the new binding, preceded by the character before the marker. |
| Companion.StaleBindingExample | sbml.py:74-83 | As written, `"x\nmain_xml_filename = 'old.xml'"` becomes the new binding, a newline, and the old binding again. |
| Companion.SpliceWithoutMarker | sbml.py:75-78 | As written, text without the marker is still rewritten, with the assignment inserted before the last character. Empty text becomes the assignment alone. A final newline moves after the assignment. A one-character text that is not a newline follows the assignment whole. Otherwise the last character is written after the assignment together with the character before it, which thus appears twice. |
| Companion.MissingMarkerExample | sbml.py:75-83 | As written, `"import os\n"` becomes `import os` with the assignment glued on, followed by the newline. |
| Companion.Splice | sbml.py:71-83 | The corrected splice returns no rewrite exactly when the marker is absent. Otherwise it replaces the text from the first marker to the end of its line (the next newline or the end of the text). It keeps everything before the marker, including any text earlier on the same line, and everything from that line end on. |
| Companion.SpliceAgreesWithScript | sbml.py:74-83 | When a newline follows the marker, the corrected splice returns the script's result. |
| Companion.SpliceIdempotent | sbml.py:74-83 | Rewriting an already rewritten module with the same newline-free path changes nothing. |
| Generator.Generate | sbml.py:190-283 | With no entry point, the run fails. Otherwise it succeeds exactly when every `map` child has `species` and `substrate`. On success, block k is built from the k-th `map` child, and the `VBox` lists the file-name field, `box0`, then `box1`..`boxN`. On failure, it reports the first incomplete child's number and its first missing key. |
| Generator.WalkFollowsMapEntries | sbml.py:224-272 | The loop, run child by child, agrees with the reference definition over the filtered `map` entries, both in its state and in its failure. |
| Generator.NonMapChildIgnored | sbml.py:224-228 | Inserting a child whose tag is not `map` anywhere changes neither buffer nor the failure. |
| Generator.IsMapSpelling | sbml.py:228 | A child counts as a map exactly when its tag is m, a, p with each letter in either case. |
| Generator.VBoxNamesShape | sbml.py:194-283 | The `VBox` for N entries lists N+2 pairwise distinct names. The first is `self.sbml_filename`, then `box0`..`boxN` in order. |
| Generator.BlockLineCount | sbml.py:242-249 | Each map entry adds exactly four lines. Attribute values are copied verbatim, so a newline inside a value adds a line. |
| Generator.TwoMapScenario | sbml.py:224-283 | Two complete `map` children give blocks 1 and 2 in order, and a `VBox` listing `box0, box1, box2`. |
| Script.Run | sbml.py:39-298 | A missing config file or a usage error stops the run before anything is written. The companion is rewritten only for two arguments and only when its marker is present. A malformed configuration writes no output. The output exists exactly when the run succeeds, which is exactly when the exit status is 0. |
| Script.RunWritesGeneratedModule | sbml.py:290-298 | With accepted arguments and parsed XML, `sbml_def.py` is written exactly when all `map` children are complete. Its text is the concatenation, in order, of: the header, the numbered blocks, two newlines, the box layout, the `VBox`, `fill_gui` and `fill_xml`. |
| Script.RunWithoutEntryPoint | sbml.py:215-224 | A configuration without an `intracellular` element fails with `NoEntryPoint`. |

## Left out

- File and process I/O is not modelled. Reading and writing files, `print` diagnostics and `sys.exit` become inputs and the `Execution` record. A companion module that cannot be opened is not modelled.
- Newline translation on read is not modelled. `open()` in text mode turns `"\r\n"` and `"\r"` into `"\n"` when the companion module is read (line 72), so a module with CRLF line endings has every line ending changed on rewrite. `Companion.Splice` and `Companion.SpliceAsWritten` describe the text after that translation.
- XML parsing by ElementTree is not modelled. The parser's outcome is the input `Xml`. A missing default `config.xml` is caught by the bare `except` at line 184, so it appears as `Malformed`.
- The content of the template strings (lines 86-129, 155-179) is not modelled. They are the `Templates` parameter, and no property depends on their text.
- Dead and unused code is not modelled. This covers the unused triple-quoted block (lines 131-153), commented-out code, the `if False` validation branch (lines 234-236), `full_name`, `tag_list`, the unused counters and the unused imports.
- Lower-casing covers ASCII letters only. Full Unicode `str.lower` is not modelled.
- The colour names are resolved and printed but never reach the output. The model resolves them and does nothing else with them.
- The program name `sys.argv[0]` only appears in the printed usage line, which is not modelled.
- Script.Run: rewrites the companion module with the corrected `Companion.Splice`. For a module without the marker, or with the marker on an unterminated last line, it therefore differs from the script (see Findings).

## Findings

| source | as written | input that shows it | evidently intended | confidence | as-written member | corrected member |
|---|---|---|---|---|---|---|
| sbml.py:77-78 | When the marker is on the last line with no newline after it, `find('\n')` returns -1. For a marker at index 1 or later, the kept tail then starts one character before the marker, so the old binding is written again after the new one. For a marker at index 0 (the module is that one unterminated line), only the last character is kept, which for a binding ending in a quote leaves a stray quote after the new one. | companion text `"x\nmain_xml_filename = 'old.xml'"`, config `new.xml` | Replace the text from the marker to the end of the text. | high (not executed) | Companion.StaleBindingExample | Companion.Splice |
| sbml.py:75-78 | When the marker is absent, `find` returns -1 and the script still rewrites the file. It glues the assignment before the last character. A final newline then moves after the assignment; any other last character is written after it together with the character before it, which thus appears twice. | companion text `"import os\n"`, config `new.xml` | Leave the module untouched when the marker is missing, as the comment `# verify > -1` at line 75 asks. | medium (not executed) | Companion.MissingMarkerExample | Companion.Splice |
