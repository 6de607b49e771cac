/** The rewrite of the companion GUI module (sbml.py:71-83): the line holding the
    first `main_xml_filename` is made to bind the resolved configuration path. */
module Companion {
  import opened Wrappers
  import opened PyStr

  const Marker := "main_xml_filename"

  /** The text written in place of the marker and the rest of its line. */
  function Assignment(config: string): string {
    Marker + " = '" + config + "'"
  }

  /** `j` ends the line that contains index `i`: it is the first newline at or after `i`,
      or the end of the text when no newline follows. */
  predicate LineEnd(text: string, i: int, j: int) {
    0 <= i <= j <= |text|
    && (j < |text| ==> text[j] == '\n')
    && forall k :: i <= k < j ==> text[k] != '\n'
  }

  /** The end of the line that contains index `i`. */
  function LineEndFrom(text: string, i: nat): (j: nat)
    requires i <= |text|
    ensures LineEnd(text, i, j)
    decreases |text| - i
  {
    if i == |text| || text[i] == '\n' then i else LineEndFrom(text, i + 1)
  }

  /** The splice exactly as the script performs it, with Python's `find` (-1 when absent)
      and its negative slice bounds. */
  function SpliceAsWritten(text: string, config: string): string {
    var idx := Find(text, Marker);
    var pre := SliceTo(text, idx);
    var idx2 := Find(SliceFrom(text, idx), "\n");
    var post := SliceFrom(text, idx + idx2);
    pre + Assignment(config) + post
  }

  /** A one-character pattern occurs exactly where that character is. */
  lemma OccursNewline(s: string, k: int)
    ensures OccursAt(s, "\n", k) <==> 0 <= k < |s| && s[k] == '\n'
  {
    if 0 <= k < |s| {
      assert s[k..k + 1] == [s[k]];
    }
  }

  /** The first newline of `text[i..]`, searched with `find`, is where `LineEnd` says. */
  lemma FindNewlineAfter(text: string, i: nat, j: nat)
    requires i <= |text| && LineEnd(text, i, j)
    ensures Find(text[i..], "\n") == if j < |text| then j - i else -1
  {
    var s := text[i..];
    forall k | 0 <= k <= |s|
      ensures OccursAt(s, "\n", k) <==> k < |s| && text[i + k] == '\n'
    {
      OccursNewline(s, k);
    }
    if j < |text| {
      FindIsFirst(s, "\n", j - i);
    }
  }

  /** When the marker is followed by a newline, the script keeps everything before the
      marker and everything from that newline on, and puts the assignment in between. */
  lemma SpliceReplacesMarkerLine(text: string, config: string, i: nat, j: nat)
    requires FirstOccurrence(text, Marker, i)
    requires LineEnd(text, i, j) && j < |text|
    ensures SpliceAsWritten(text, config) == text[..i] + Assignment(config) + text[j..]
  {
    FindIsFirst(text, Marker, i);
    FindNewlineAfter(text, i, j);
  }

  /** As written, a marker on the last line with no newline after it makes `find`
      return -1. For a marker at index 1 or later, the kept tail starts one character
      BEFORE the marker, so the old binding survives after the new one. For a marker
      at index 0, the slice bound is -1 and only the last character is kept. */
  lemma SpliceOnLastLine(text: string, config: string, i: nat)
    requires FirstOccurrence(text, Marker, i)
    requires LineEnd(text, i, |text|)
    ensures i >= 1 ==> SpliceAsWritten(text, config) == text[..i] + Assignment(config) + text[i - 1..]
    ensures i == 0 ==> SpliceAsWritten(text, config) == Assignment(config) + text[|text| - 1..]
  {
    FindIsFirst(text, Marker, i);
    FindNewlineAfter(text, i, |text|);
  }

  /** As written, a text without the marker is still rewritten: `find` gives -1, so the
      assignment is glued in before the last character. A final newline then moves after
      the assignment; any other last character is written after it together with the
      character before it, which thus appears twice. */
  lemma SpliceWithoutMarker(text: string, config: string)
    requires forall i :: 0 <= i <= |text| ==> !OccursAt(text, Marker, i)
    ensures |text| == 0 ==> SpliceAsWritten(text, config) == Assignment(config)
    ensures |text| >= 1 && text[|text| - 1] == '\n' ==>
      SpliceAsWritten(text, config) == text[..|text| - 1] + Assignment(config) + "\n"
    ensures |text| == 1 && text[0] != '\n' ==> SpliceAsWritten(text, config) == Assignment(config) + text
    ensures |text| >= 2 && text[|text| - 1] != '\n' ==>
      SpliceAsWritten(text, config) == text[..|text| - 1] + Assignment(config) + text[|text| - 2..]
  {
    if |text| >= 1 {
      var last := text[|text| - 1..];
      OccursNewline(last, 0);
      if text[|text| - 1] == '\n' {
        FindIsFirst(last, "\n", 0);
      } else {
        forall k | 0 <= k <= |last| ensures !OccursAt(last, "\n", k) {
          OccursNewline(last, k);
        }
      }
    }
  }

  /** The input that shows the stale binding: for the module
      "x\nmain_xml_filename = 'old.xml'" the rewritten module binds the new path and
      then, on its last line, `old.xml` again. */
  lemma StaleBindingExample(text: string, config: string)
    requires text == "x\n" + Assignment("old.xml")
    ensures SpliceAsWritten(text, config) == "x\n" + Assignment(config) + "\n" + Assignment("old.xml")
  {
    StaleBindingShape(text);
    LastLineKept(text, config, "x\n", Assignment("old.xml"));
  }

  /** As written, a marker that opens an unterminated last line `line` is kept after the
      new binding, preceded by the character before it. */
  lemma LastLineKept(text: string, config: string, pre: string, line: string)
    requires text == pre + line && |pre| >= 1
    requires FirstOccurrence(text, Marker, |pre|) && LineEnd(text, |pre|, |text|)
    ensures SpliceAsWritten(text, config) == pre + Assignment(config) + [pre[|pre| - 1]] + line
  {
    SpliceOnLastLine(text, config, |pre|);
    assert text[..|pre|] == pre;
    assert text[|pre| - 1..] == [pre[|pre| - 1]] + line;
  }

  /** In the stale-binding input the marker starts at index 2, on the last line. */
  lemma StaleBindingShape(text: string)
    requires text == "x\n" + Assignment("old.xml")
    ensures FirstOccurrence(text, Marker, 2) && LineEnd(text, 2, |text|)
  {
    var stale := Assignment("old.xml");
    assert OccursAt(text, Marker, 2) by {
      assert text[2..2 + |Marker|] == stale[..|Marker|];
    }
    assert !OccursAt(text, Marker, 0) by { assert text[0] != Marker[0]; }
    assert !OccursAt(text, Marker, 1) by { assert text[1] != Marker[0]; }
    assert forall k :: 0 <= k < |"old.xml"| ==> "old.xml"[k] != '\n';
    AssignmentSingleLine("old.xml");
    forall k | 2 <= k < |text| ensures text[k] != '\n' {
      assert text[k] == stale[k - 2];
    }
  }

  /** The input that shows the corruption of a module without the marker: "import os\n"
      becomes "import os" glued to the assignment, then the newline. */
  lemma MissingMarkerExample()
    ensures SpliceAsWritten("import os\n", "new.xml") == "import os" + Assignment("new.xml") + "\n"
  {
    var text := "import os\n";
    forall i | 0 <= i <= |text| ensures !OccursAt(text, Marker, i) {
    }
    SpliceWithoutMarker(text, "new.xml");
    assert text[..|text| - 1] == "import os";
  }

  /** The assignment is a single line whenever the configuration path is. */
  lemma AssignmentSingleLine(config: string)
    requires forall k :: 0 <= k < |config| ==> config[k] != '\n'
    ensures forall k :: 0 <= k < |Assignment(config)| ==> Assignment(config)[k] != '\n'
  {
    var a := Assignment(config);
    var head := Marker + " = '";
    assert a == head + config + "'";
    forall k | 0 <= k < |a| ensures a[k] != '\n' {
      if k < |head| {
        assert a[k] == head[k];
      } else if k < |head| + |config| {
        assert a[k] == config[k - |head|];
      }
    }
  }

  /** The splice as evidently intended: the text from the first marker to the end of
      its line (the next newline or the end of the text) is replaced, and whatever
      precedes the marker on that line is kept; a text without the marker is left alone
      (`None`, no rewrite), as the `# verify > -1` note at sbml.py:75 asks. */
  function Splice(text: string, config: string): (r: Option<string>)
    ensures r.None? <==> forall i :: 0 <= i <= |text| ==> !OccursAt(text, Marker, i)
    ensures forall i, j :: FirstOccurrence(text, Marker, i) && LineEnd(text, i, j) ==>
      r == Some(text[..i] + Assignment(config) + text[j..])
  {
    var idx := Find(text, Marker);
    if idx < 0 then None
    else
      var j := LineEndFrom(text, idx);
      Some(text[..idx] + Assignment(config) + text[j..])
  }

  /** Wherever the script's splice behaves (a marker followed by a newline), the
      corrected splice agrees with it. */
  lemma SpliceAgreesWithScript(text: string, config: string, i: nat, j: nat)
    requires FirstOccurrence(text, Marker, i)
    requires LineEnd(text, i, j) && j < |text|
    ensures Splice(text, config) == Some(SpliceAsWritten(text, config))
  {
    SpliceReplacesMarkerLine(text, config, i, j);
  }

  /** A text that agrees with `text` up to the end of its first marker has its first
      marker at the same place. */
  lemma FirstMarkerKept(text: string, t: string, i: nat)
    requires FirstOccurrence(text, Marker, i)
    requires |t| >= i + |Marker| && t[..i + |Marker|] == text[..i + |Marker|]
    ensures FirstOccurrence(t, Marker, i)
  {
    var n := i + |Marker|;
    forall p | 0 <= p < i ensures !OccursAt(t, Marker, p) {
      assert p + |Marker| <= n;
      assert t[p..p + |Marker|] == t[..n][p..p + |Marker|];
      assert text[p..p + |Marker|] == text[..n][p..p + |Marker|];
      assert !OccursAt(text, Marker, p);
    }
    assert t[i..n] == t[..n][i..n] == text[..n][i..n] == text[i..n];
  }

  /** After the splice, the assignment runs from the marker's position to the end of
      its line: no newline falls inside it, and a newline or the end of the text
      follows it. */
  lemma SplicedLineEnd(text: string, config: string, i: nat, j: nat)
    requires forall k :: 0 <= k < |config| ==> config[k] != '\n'
    requires LineEnd(text, i, j)
    ensures LineEnd(text[..i] + Assignment(config) + text[j..], i, i + |Assignment(config)|)
  {
    var a := Assignment(config);
    var t := text[..i] + a + text[j..];
    AssignmentSingleLine(config);
    forall k | i <= k < i + |a| ensures t[k] != '\n' {
      assert t[k] == a[k - i];
    }
    if i + |a| < |t| {
      assert t[i + |a|] == text[j];
    }
  }

  /** Rewriting an already rewritten module with the same configuration path changes
      nothing, provided the path holds no newline. */
  lemma SpliceIdempotent(text: string, config: string)
    requires forall k :: 0 <= k < |config| ==> config[k] != '\n'
    requires Splice(text, config).Some?
    ensures Splice(Splice(text, config).value, config) == Splice(text, config)
  {
    var i := Find(text, Marker);
    var j := LineEndFrom(text, i);
    var a := Assignment(config);
    var t := text[..i] + a + text[j..];
    assert Splice(text, config) == Some(t);
    assert t[..i + |Marker|] == text[..i + |Marker|] by {
      assert a[..|Marker|] == Marker;
      assert t[..i + |Marker|] == text[..i] + a[..|Marker|];
      assert text[..i + |Marker|] == text[..i] + text[i..i + |Marker|];
    }
    FirstMarkerKept(text, t, i);
    SplicedLineEnd(text, config, i, j);
    assert t[..i] + a + t[i + |a|..] == t by {
      assert t[..i] == text[..i];
      assert t[i + |a|..] == text[j..];
    }
  }
}
