/** The code generator of the script (sbml.py:190-283): it walks the direct children of
    the `intracellular` element in document order, numbers the `map` children 1..N, and
    grows two text buffers, the widget declarations and the `VBox` listing. */
module Generator {
  import opened Wrappers
  import opened Errors
  import opened PyStr

  /** One direct child of the `intracellular` element: its tag and its attributes. */
  datatype Element = Element(tag: string, attrib: map<string, string>)

  const Indent := "        "
  const Indent2 := "          "

  /** `child.tag.lower() == 'map'` (sbml.py:228). */
  predicate IsMap(e: Element) {
    LowerAscii(e.tag) == "map"
  }

  /** A `map` child carrying both attributes the generator reads. */
  predicate Complete(e: Element) {
    "species" in e.attrib && "substrate" in e.attrib
  }

  function SpeciesName(k: nat): string { "self.species" + Dec(k) }
  function SubstrateName(k: nat): string { "self.substrate" + Dec(k) }
  function RowName(k: nat): string { "row" + Dec(k) }
  function BoxName(k: nat): string { "box" + Dec(k) }

  /** The four lines, without their newlines, emitted for the `k`-th map entry
      (sbml.py:242-249). The attribute values go between single quotes as they are. */
  function BlockLines(k: nat, species: string, substrate: string): seq<string> {
    [ Indent + SpeciesName(k) + " =  Text(value='" + species + "', layout=text_layout)",
      Indent + SubstrateName(k) + " =  Text(value='" + substrate + "', layout=text_layout)",
      Indent + RowName(k) + " =  [" + SpeciesName(k) + "," + SubstrateName(k) + "]",
      Indent + BoxName(k) + " = Box(children=" + RowName(k) + ", layout=box_layout)" ]
  }

  /** The strings of `ss`, one after the other. */
  function Concat(ss: seq<string>): string {
    if |ss| == 0 then "" else Concat(ss[..|ss| - 1]) + ss[|ss| - 1]
  }

  /** The lines of `ls`, each followed by a newline. */
  function Lines(ls: seq<string>): string {
    Concat(seq(|ls|, i requires 0 <= i < |ls| => ls[i] + "\n"))
  }

  /** The text appended to the declarations for the `k`-th map entry. */
  function Block(k: nat, species: string, substrate: string): string {
    Lines(BlockLines(k, species, substrate))
  }

  /** One line of the `VBox` listing (sbml.py:195-196, 272). */
  function VBoxEntry(name: string): string {
    Indent2 + name + ",\n"
  }

  const VBoxHead := "\n" + Indent + "self.tab = VBox([\n"
  const VBoxClose := Indent + "])"

  /** The names a `VBox` over `n` map entries lists: the file-name field, the column
      headings, then one box per entry in document order. */
  function VBoxNames(n: nat): seq<string> {
    ["self.sbml_filename", "box0"] + seq(n, i requires 0 <= i < n => BoxName(i + 1))
  }

  /** The `VBox` lines listing `names`, in order. */
  function VBoxLines(names: seq<string>): string {
    Concat(seq(|names|, i requires 0 <= i < |names| => VBoxEntry(names[i])))
  }

  /** The finished `VBox` declaration listing `names`. */
  function VBoxText(names: seq<string>): string {
    VBoxHead + VBoxLines(names) + VBoxClose
  }

  /** The generator's variables after some children: the map counter `map_count`, the
      text appended to `sbml_tab_header` so far, and `vbox_str`. */
  datatype State = State(count: nat, decls: string, vbox: string)

  /** The state before the loop (sbml.py:194-196, 210). */
  const Start := State(0, "", VBoxHead + VBoxEntry("self.sbml_filename") + VBoxEntry("box0"))

  /** One iteration of the loop (sbml.py:224-272). A missing attribute raises the
      KeyError after the counter has moved on. */
  function Step(st: State, child: Element): Result<State, Error> {
    if !IsMap(child) then Success(st)
    else
      var k := st.count + 1;
      if "species" !in child.attrib then Failure(MissingAttribute(k, "species"))
      else if "substrate" !in child.attrib then Failure(MissingAttribute(k, "substrate"))
      else Success(State(k,
                         st.decls + Block(k, child.attrib["species"], child.attrib["substrate"]),
                         st.vbox + VBoxEntry(BoxName(k))))
  }

  /** The loop run over `children` in document order, stopping at the first failure. */
  function Walk(children: seq<Element>): Result<State, Error> {
    if |children| == 0 then Success(Start)
    else
      var st :- Walk(children[..|children| - 1]);
      Step(st, children[|children| - 1])
  }

  /** The `map` children, in document order. */
  function MapEntries(children: seq<Element>): (ms: seq<Element>)
    ensures forall i :: 0 <= i < |ms| ==> IsMap(ms[i]) && ms[i] in children
    ensures |ms| <= |children|
  {
    if |children| == 0 then []
    else
      var init := MapEntries(children[..|children| - 1]);
      var last := children[|children| - 1];
      if IsMap(last) then init + [last] else init
  }

  predicate AllComplete(ms: seq<Element>) {
    forall i :: 0 <= i < |ms| ==> Complete(ms[i])
  }

  /** `ms[k]` is the first entry lacking an attribute. */
  predicate FirstIncomplete(ms: seq<Element>, k: int) {
    0 <= k < |ms| && !Complete(ms[k]) && forall i :: 0 <= i < k ==> Complete(ms[i])
  }

  /** The KeyError raised for the incomplete entry `e` numbered `k`: `species` is read first. */
  function MissingError(k: nat, e: Element): Error {
    MissingAttribute(k, if "species" !in e.attrib then "species" else "substrate")
  }

  /** The declarations for `ms`: block number `i + 1` is built from `ms[i]`. */
  function Declarations(ms: seq<Element>): string
    requires AllComplete(ms)
  {
    Concat(seq(|ms|, i requires 0 <= i < |ms| && Complete(ms[i]) =>
      Block(i + 1, ms[i].attrib["species"], ms[i].attrib["substrate"])))
  }

  /** The two buffers the generator hands to the emitter. */
  datatype Generated = Generated(decls: string, vbox: string)

  /** Concatenation is associative over a split of the parts. */
  lemma ConcatSnoc(ss: seq<string>, s: string)
    ensures Concat(ss + [s]) == Concat(ss) + s
  {
    assert (ss + [s])[..|ss|] == ss;
  }

  lemma DeclarationsSnoc(ms: seq<Element>, m: Element)
    requires AllComplete(ms) && Complete(m)
    ensures AllComplete(ms + [m])
    ensures Declarations(ms + [m])
         == Declarations(ms) + Block(|ms| + 1, m.attrib["species"], m.attrib["substrate"])
  {
    var ms' := ms + [m];
    var f := seq(|ms|, i requires 0 <= i < |ms| && Complete(ms[i]) =>
      Block(i + 1, ms[i].attrib["species"], ms[i].attrib["substrate"]));
    var g := seq(|ms'|, i requires 0 <= i < |ms'| && Complete(ms'[i]) =>
      Block(i + 1, ms'[i].attrib["species"], ms'[i].attrib["substrate"]));
    assert g == f + [Block(|ms| + 1, m.attrib["species"], m.attrib["substrate"])];
    ConcatSnoc(f, Block(|ms| + 1, m.attrib["species"], m.attrib["substrate"]));
  }

  lemma VBoxLinesSnoc(names: seq<string>, x: string)
    ensures VBoxLines(names + [x]) == VBoxLines(names) + VBoxEntry(x)
  {
    var a := seq(|names|, i requires 0 <= i < |names| => VBoxEntry(names[i]));
    var names' := names + [x];
    var b := seq(|names'|, i requires 0 <= i < |names'| => VBoxEntry(names'[i]));
    assert b == a + [VBoxEntry(x)];
    ConcatSnoc(a, VBoxEntry(x));
  }

  lemma VBoxNamesSnoc(n: nat)
    ensures VBoxNames(n + 1) == VBoxNames(n) + [BoxName(n + 1)]
  {
  }

  /** The reference reading of the loop's outcome `w` over the entries `ms`: it
      succeeds exactly when every entry is complete, then holds one block per entry
      numbered in document order and lists their boxes; otherwise it reports the first
      incomplete entry. */
  predicate Agrees(ms: seq<Element>, w: Result<State, Error>) {
    && (w.Success? <==> AllComplete(ms))
    && (w.Success? ==> AllComplete(ms) && w.value == State(|ms|, Declarations(ms), VBoxHead + VBoxLines(VBoxNames(|ms|))))
    && (w.Failure? ==> exists k :: 0 <= k < |ms| && FirstIncomplete(ms, k) && w.error == MissingError(k + 1, ms[k]))
  }

  lemma AgreesAtStart()
    ensures Agrees([], Success(Start))
  {
    VBoxLinesSnoc([], "self.sbml_filename");
    VBoxLinesSnoc(["self.sbml_filename"], "box0");
    assert VBoxNames(0) == ["self.sbml_filename"] + ["box0"];
    assert Concat([]) == "";
  }

  /** One more `map` child keeps the loop in agreement with the reference. */
  lemma AgreesAfterMap(ms: seq<Element>, w: Result<State, Error>, m: Element)
    requires IsMap(m) && Agrees(ms, w)
    ensures Agrees(ms + [m], if w.Failure? then w else Step(w.value, m))
  {
    var ms' := ms + [m];
    if w.Failure? {
      var k :| 0 <= k < |ms| && FirstIncomplete(ms, k) && w.error == MissingError(k + 1, ms[k]);
      assert ms'[k] == ms[k];
      assert FirstIncomplete(ms', k);
    } else if !Complete(m) {
      assert FirstIncomplete(ms', |ms|);
    } else {
      DeclarationsSnoc(ms, m);
      VBoxNamesSnoc(|ms|);
      VBoxLinesSnoc(VBoxNames(|ms|), BoxName(|ms| + 1));
    }
  }

  /** The loop computes, from the `map` entries alone, what the reference says. */
  lemma {:induction false} WalkFollowsMapEntries(cs: seq<Element>)
    ensures Agrees(MapEntries(cs), Walk(cs))
    decreases |cs|
  {
    if |cs| == 0 {
      AgreesAtStart();
    } else {
      var init := cs[..|cs| - 1];
      var last := cs[|cs| - 1];
      WalkFollowsMapEntries(init);
      if IsMap(last) {
        AgreesAfterMap(MapEntries(init), Walk(init), last);
      }
    }
  }

  /** The generator: `uep` is the `intracellular` element's children, or `None` when the
      document has no such element (the loop then iterates `None` and raises). On success
      the declarations hold one block per `map` entry, numbered 1..N in document order,
      and the `VBox` lists the file-name field, `box0`, then `box1`..`boxN`. */
  function Generate(uep: Option<seq<Element>>): (r: Result<Generated, Error>)
    ensures uep.None? ==> r == Failure(NoEntryPoint)
    ensures uep.Some? ==> var ms := MapEntries(uep.value);
      && (r.Success? <==> AllComplete(ms))
      && (r.Success? ==> AllComplete(ms) && r.value == Generated(Declarations(ms), VBoxText(VBoxNames(|ms|))))
      && (r.Failure? ==> exists k :: 0 <= k < |ms| && FirstIncomplete(ms, k) && r.error == MissingError(k + 1, ms[k]))
  {
    match uep
    case None => Failure(NoEntryPoint)
    case Some(children) =>
      WalkFollowsMapEntries(children);
      var st :- Walk(children);
      Success(Generated(st.decls, st.vbox + VBoxClose))
  }

  /** Filtering distributes over concatenation. */
  lemma {:induction false} MapEntriesConcat(a: seq<Element>, b: seq<Element>)
    ensures MapEntries(a + b) == MapEntries(a) + MapEntries(b)
    decreases |b|
  {
    if |b| == 0 {
      assert a + b == a;
    } else {
      var b' := b[..|b| - 1];
      assert (a + b)[..|a + b| - 1] == a + b';
      MapEntriesConcat(a, b');
    }
  }

  /** At most one entry is the first incomplete one. */
  lemma FirstIncompleteUnique(ms: seq<Element>, k: int, k': int)
    requires FirstIncomplete(ms, k) && FirstIncomplete(ms, k')
    ensures k == k'
  {
  }

  /** Dropping a child that is not a `map` leaves the `map` entries unchanged. */
  lemma MapEntriesSkip(a: seq<Element>, x: Element, b: seq<Element>)
    requires !IsMap(x)
    ensures MapEntries(a + [x] + b) == MapEntries(a + b)
  {
    MapEntriesConcat(a + [x], b);
    MapEntriesConcat(a, [x]);
    MapEntriesConcat(a, b);
    assert MapEntries([x]) == [] by { assert [x][..0] == []; }
  }

  /** The generator's outcome is a function of the `map` entries alone. */
  lemma GenerateFollowsMapEntries(c1: seq<Element>, c2: seq<Element>)
    requires MapEntries(c1) == MapEntries(c2)
    ensures Generate(Some(c1)) == Generate(Some(c2))
  {
    var ms := MapEntries(c1);
    var r1 := Generate(Some(c1));
    var r2 := Generate(Some(c2));
    if r1.Failure? {
      var k1 :| 0 <= k1 < |ms| && FirstIncomplete(ms, k1) && r1.error == MissingError(k1 + 1, ms[k1]);
      var k2 :| 0 <= k2 < |ms| && FirstIncomplete(ms, k2) && r2.error == MissingError(k2 + 1, ms[k2]);
      FirstIncompleteUnique(ms, k1, k2);
    }
  }

  /** The output depends on the `map` children only: a child of any other tag can be
      inserted anywhere without changing either buffer or the failure. */
  lemma NonMapChildIgnored(a: seq<Element>, x: Element, b: seq<Element>)
    requires !IsMap(x)
    ensures Generate(Some(a + [x] + b)) == Generate(Some(a + b))
  {
    MapEntriesSkip(a, x, b);
    GenerateFollowsMapEntries(a + [x] + b, a + b);
  }

  /** `lower()` makes the match case-insensitive: the tags that count as `map` are the
      eight spellings of m, a, p in either case. */
  lemma IsMapSpelling(e: Element)
    ensures IsMap(e) <==> |e.tag| == 3 && (e.tag[0] == 'm' || e.tag[0] == 'M')
                                       && (e.tag[1] == 'a' || e.tag[1] == 'A')
                                       && (e.tag[2] == 'p' || e.tag[2] == 'P')
  {
    if |e.tag| == 3 {
      LowerCharInverse(e.tag[0], 'm');
      LowerCharInverse(e.tag[1], 'a');
      LowerCharInverse(e.tag[2], 'p');
      var l := LowerAscii(e.tag);
      assert l == "map" <==> l[0] == 'm' && l[1] == 'a' && l[2] == 'p';
    }
  }

  /** The entries of the `VBox`: N + 2 names, the file-name field, then `box0`..`boxN`,
      pairwise distinct. */
  lemma VBoxNamesShape(n: nat)
    ensures |VBoxNames(n)| == n + 2
    ensures VBoxNames(n)[0] == "self.sbml_filename"
    ensures forall i :: 1 <= i <= n + 1 ==> VBoxNames(n)[i] == "box" + Dec(i - 1)
    ensures forall i, j :: 0 <= i < j < n + 2 ==> VBoxNames(n)[i] != VBoxNames(n)[j]
  {
    var v := VBoxNames(n);
    forall i, j | 0 <= i < j < n + 2 ensures v[i] != v[j] {
      if i == 0 {
        assert v[i][0] != v[j][0];
      } else {
        DecInjective(i - 1, j - 1);
        assert v[i][3..] == Dec(i - 1);
        assert v[j][3..] == Dec(j - 1);
      }
    }
  }

  /** The number of newlines in the lines `ls`: one per line plus those inside them. */
  lemma {:induction false} LinesNewlines(ls: seq<string>)
    ensures Count(Lines(ls), '\n') == |ls| + CountAll(ls, '\n')
    decreases |ls|
  {
    var f := seq(|ls|, i requires 0 <= i < |ls| => ls[i] + "\n");
    if |ls| > 0 {
      var init := ls[..|ls| - 1];
      var g := seq(|init|, i requires 0 <= i < |init| => init[i] + "\n");
      assert f == g + [ls[|ls| - 1] + "\n"];
      ConcatSnoc(g, ls[|ls| - 1] + "\n");
      LinesNewlines(init);
      CountConcat(Lines(init), ls[|ls| - 1] + "\n", '\n');
      CountConcat(ls[|ls| - 1], "\n", '\n');
      assert "\n"[..0] == "";
    }
  }

  /** The number of occurrences of `c` in all the strings of `ss`. */
  function CountAll(ss: seq<string>, c: char): nat {
    if |ss| == 0 then 0 else CountAll(ss[..|ss| - 1], c) + Count(ss[|ss| - 1], c)
  }

  predicate SingleLine(s: string) {
    forall i :: 0 <= i < |s| ==> s[i] != '\n'
  }

  lemma SingleLineConcat(a: string, b: string)
    requires SingleLine(a) && SingleLine(b)
    ensures SingleLine(a + b)
  {
    forall i | 0 <= i < |a + b| ensures (a + b)[i] != '\n' {
      if i >= |a| {
        assert (a + b)[i] == b[i - |a|];
      }
    }
  }

  /** Numbered names never contain a newline. */
  lemma NameSingleLine(prefix: string, k: nat)
    requires SingleLine(prefix)
    ensures SingleLine(prefix + Dec(k))
  {
    SingleLineConcat(prefix, Dec(k));
  }

  /** The newlines of a line `pre + v + post` are those of the value `v`. */
  lemma ValueLineCount(pre: string, v: string, post: string)
    requires SingleLine(pre) && SingleLine(post)
    ensures Count(pre + v + post, '\n') == Count(v, '\n')
  {
    CountConcat(pre + v, post, '\n');
    CountConcat(pre, v, '\n');
    CountAbsent(pre, '\n');
    CountAbsent(post, '\n');
  }

  /** Each map entry adds exactly four lines, and the attribute values are copied as they
      are, so a newline inside a value is not escaped but breaks the line. */
  lemma BlockLineCount(k: nat, species: string, substrate: string)
    ensures Count(Block(k, species, substrate), '\n') == 4 + Count(species, '\n') + Count(substrate, '\n')
  {
    var ls := BlockLines(k, species, substrate);
    LinesNewlines(ls);
    assert SingleLine(Indent) && SingleLine("self.species") && SingleLine("self.substrate");
    assert SingleLine("row") && SingleLine("box");
    NameSingleLine("self.species", k);
    NameSingleLine("self.substrate", k);
    NameSingleLine("row", k);
    NameSingleLine("box", k);
    var tail := "', layout=text_layout)";
    assert SingleLine(" =  Text(value='") && SingleLine(tail);
    SingleLineConcat(Indent, SpeciesName(k));
    SingleLineConcat(Indent + SpeciesName(k), " =  Text(value='");
    SingleLineConcat(Indent, SubstrateName(k));
    SingleLineConcat(Indent + SubstrateName(k), " =  Text(value='");
    ValueLineCount(Indent + SpeciesName(k) + " =  Text(value='", species, tail);
    ValueLineCount(Indent + SubstrateName(k) + " =  Text(value='", substrate, tail);
    assert SingleLine(ls[2]) by {
      assert SingleLine(" =  [") && SingleLine(",") && SingleLine("]");
      SingleLineConcat(Indent, RowName(k));
      SingleLineConcat(Indent + RowName(k), " =  [");
      SingleLineConcat(Indent + RowName(k) + " =  [", SpeciesName(k));
      SingleLineConcat(Indent + RowName(k) + " =  [" + SpeciesName(k), ",");
      SingleLineConcat(Indent + RowName(k) + " =  [" + SpeciesName(k) + ",", SubstrateName(k));
      SingleLineConcat(Indent + RowName(k) + " =  [" + SpeciesName(k) + "," + SubstrateName(k), "]");
    }
    assert SingleLine(ls[3]) by {
      assert SingleLine(" = Box(children=") && SingleLine(", layout=box_layout)");
      SingleLineConcat(Indent, BoxName(k));
      SingleLineConcat(Indent + BoxName(k), " = Box(children=");
      SingleLineConcat(Indent + BoxName(k) + " = Box(children=", RowName(k));
      SingleLineConcat(Indent + BoxName(k) + " = Box(children=" + RowName(k), ", layout=box_layout)");
    }
    CountAbsent(ls[2], '\n');
    CountAbsent(ls[3], '\n');
    assert CountAll(ls[..1], '\n') == Count(ls[0], '\n') by {
      assert ls[..1][..0] == [];
    }
    assert CountAll(ls[..2], '\n') == CountAll(ls[..1], '\n') + Count(ls[1], '\n') by {
      assert ls[..2][..1] == ls[..1];
    }
    assert CountAll(ls[..3], '\n') == CountAll(ls[..2], '\n') + Count(ls[2], '\n') by {
      assert ls[..3][..2] == ls[..2];
    }
    assert CountAll(ls, '\n') == CountAll(ls[..3], '\n') + Count(ls[3], '\n');
    assert CountAll(ls, '\n') == Count(ls[0], '\n') + Count(ls[1], '\n') + Count(ls[2], '\n') + Count(ls[3], '\n');
  }

  /** Two `map` children, for instance A/glucose then B/oxygen, give `species1` and
      `substrate1` valued after the first, `species2` and `substrate2` valued after the
      second, and a `VBox` listing `box0, box1, box2` after the file-name field. */
  lemma TwoMapScenario(uep: Option<seq<Element>>, sp1: string, sub1: string, sp2: string, sub2: string)
    requires uep == Some([Element("map", map["species" := sp1, "substrate" := sub1]),
                          Element("map", map["species" := sp2, "substrate" := sub2])])
    ensures Generate(uep).Success?
    ensures Generate(uep).value.decls == Block(1, sp1, sub1) + Block(2, sp2, sub2)
    ensures Generate(uep).value.vbox == VBoxText(VBoxNames(2))
    ensures VBoxNames(2) == ["self.sbml_filename", "box0", "box1", "box2"]
  {
    var cs := uep.value;
    TwoMapEntries(cs, sp1, sub1, sp2, sub2);
    TwoBoxNames();
  }

  lemma TwoBoxNames()
    ensures VBoxNames(2) == ["self.sbml_filename", "box0", "box1", "box2"]
  {
    SmallBoxNames();
    assert VBoxNames(2) == ["self.sbml_filename", "box0"] + [BoxName(1), BoxName(2)];
  }

  lemma TwoMapEntries(cs: seq<Element>, sp1: string, sub1: string, sp2: string, sub2: string)
    requires cs == [Element("map", map["species" := sp1, "substrate" := sub1]),
                    Element("map", map["species" := sp2, "substrate" := sub2])]
    ensures MapEntries(cs) == cs && AllComplete(cs)
    ensures Declarations(cs) == Block(1, sp1, sub1) + Block(2, sp2, sub2)
  {
    assert LowerAscii("map") == "map";
    assert MapEntries(cs[..1]) == [cs[0]] by {
      assert cs[..1][..0] == [];
    }
    assert MapEntries(cs) == cs by {
      assert cs[..2][..1] == cs[..1];
    }
    TwoMapDeclarations(cs, sp1, sub1, sp2, sub2);
  }

  lemma TwoMapDeclarations(cs: seq<Element>, sp1: string, sub1: string, sp2: string, sub2: string)
    requires cs == [Element("map", map["species" := sp1, "substrate" := sub1]),
                    Element("map", map["species" := sp2, "substrate" := sub2])]
    ensures AllComplete(cs)
    ensures Declarations(cs) == Block(1, sp1, sub1) + Block(2, sp2, sub2)
  {
    var blocks := seq(|cs|, i requires 0 <= i < |cs| && Complete(cs[i]) =>
      Block(i + 1, cs[i].attrib["species"], cs[i].attrib["substrate"]));
    assert blocks == [Block(1, sp1, sub1), Block(2, sp2, sub2)];
    assert Concat(blocks[..1]) == Block(1, sp1, sub1) by {
      assert blocks[..1][..0] == [];
    }
  }

  lemma SmallBoxNames()
    ensures BoxName(1) == "box1" && BoxName(2) == "box2"
  {
    assert Dec(1) == [DigitChar(1)] == "1";
    assert Dec(2) == [DigitChar(2)] == "2";
  }
}
