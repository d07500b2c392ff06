/**
  The text emitter of codegen-utils.js: an append-only line buffer with an
  indentation stack and named sections into which lines can be inserted later.

  The source mutates one object; here a `Writer` value is threaded through pure
  functions. A section remembers the writer's live indentation array (not a
  copy), so the prefix of a line inserted into a section is the writer's
  indentation at the moment of insertion; the `Section` record therefore has no
  indentation of its own.
 */
module CodeWriter {
  import opened Text
  import opened Wrappers

  /** The indentation unit used when the caller supplies an empty one. */
  const DefaultIndent: string := "    "

  datatype Section = Section(
    name: string,
    line: nat,              // anchor: the index at which the next item is inserted
    insertEmptyLine: bool,  // the trailing blank line is still to be reserved
    uniqueItems: bool,
    items: seq<string>)

  datatype Writer = Writer(
    lines: seq<string>,
    indentString: string,
    indentations: seq<string>,
    sections: seq<Section>)

  /** A fresh writer; an empty indentation unit falls back to four spaces. */
  function New(indentString: string): (w: Writer)
    ensures w.lines == [] && w.indentations == [] && w.sections == []
    ensures |w.indentString| > 0
    ensures indentString != "" ==> w.indentString == indentString
  {
    Writer([], if indentString == "" then DefaultIndent else indentString, [], [])
  }

  /** The current indentation: the stack's entries joined without separator. */
  function Prefix(w: Writer): string
  {
    Join(w.indentations, "")
  }

  /** The text of a written line: empty text yields an empty line without indentation. */
  function Render(prefix: string, text: string): string
  {
    if text == "" then "" else prefix + text
  }

  /** The lines `texts` render to under one prefix. */
  function Indented(prefix: string, texts: seq<string>): (r: seq<string>)
    ensures |r| == |texts|
  {
    seq(|texts|, i requires 0 <= i < |texts| => Render(prefix, texts[i]))
  }

  lemma IndentedConcat(prefix: string, a: seq<string>, b: seq<string>)
    ensures Indented(prefix, a + b) == Indented(prefix, a) + Indented(prefix, b)
  {
  }

  /** Push one indentation unit. */
  function Indent(w: Writer): (r: Writer)
    ensures r.indentations == w.indentations + [w.indentString]
    ensures Prefix(r) == Prefix(w) + w.indentString
    ensures r.lines == w.lines && r.sections == w.sections && r.indentString == w.indentString
  {
    JoinAppend(w.indentations, w.indentString, "");
    w.(indentations := w.indentations + [w.indentString])
  }

  /** Pop the last indentation unit; a no-op on an empty stack (`splice(-1, 1)` on `[]`). */
  function Outdent(w: Writer): (r: Writer)
    ensures |w.indentations| > 0 ==> r.indentations == w.indentations[..|w.indentations| - 1]
    ensures |w.indentations| == 0 ==> r == w
    ensures r.lines == w.lines && r.sections == w.sections && r.indentString == w.indentString
  {
    if |w.indentations| == 0 then w
    else w.(indentations := w.indentations[..|w.indentations| - 1])
  }

  /** Indenting and then outdenting gives back the same writer. */
  lemma IndentOutdent(w: Writer)
    ensures Outdent(Indent(w)) == w
  {
    assert (w.indentations + [w.indentString])[..|w.indentations|] == w.indentations;
  }

  /** Append one line. */
  function WriteLine(w: Writer, text: string): (r: Writer)
    ensures r.lines == w.lines + [Render(Prefix(w), text)]
    ensures r.indentations == w.indentations && r.sections == w.sections && r.indentString == w.indentString
  {
    w.(lines := w.lines + [Render(Prefix(w), text)])
  }

  /**
    `writeLine` appends exactly one line and keeps every earlier one: the
    joined indentation followed by the text, or an unindented empty line when
    the text is empty.
   */
  lemma WriteLineAppendsOne(w: Writer, text: string)
    ensures |WriteLine(w, text).lines| == |w.lines| + 1
    ensures WriteLine(w, text).lines[..|w.lines|] == w.lines
    ensures text != "" ==> WriteLine(w, text).lines[|w.lines|] == Join(w.indentations, "") + text
    ensures text == "" ==> WriteLine(w, text).lines[|w.lines|] == ""
  {
  }

  /** Write each text as one line, in order. */
  function WriteLines(w: Writer, texts: seq<string>): (r: Writer)
    ensures r.lines == w.lines + Indented(Prefix(w), texts)
    ensures r.indentations == w.indentations && r.sections == w.sections && r.indentString == w.indentString
    decreases |texts|
  {
    if texts == [] then w
    else
      var r := WriteLines(WriteLine(w, texts[0]), texts[1..]);
      assert Indented(Prefix(w), texts) == [Render(Prefix(w), texts[0])] + Indented(Prefix(w), texts[1..]);
      r
  }

  /** `lines.pop()`: drop the last line, if any. */
  function Pop(w: Writer): (r: Writer)
    ensures |w.lines| > 0 ==> r.lines == w.lines[..|w.lines| - 1]
    ensures |w.lines| == 0 ==> r == w
    ensures r.indentations == w.indentations && r.sections == w.sections && r.indentString == w.indentString
  {
    if |w.lines| == 0 then w else w.(lines := w.lines[..|w.lines| - 1])
  }

  /**
    Register a section anchored at the current end of the buffer. The source's
    duplicate test compares against a fresh object and never succeeds, so a
    second section of the same name is appended too.
   */
  function AddSection(w: Writer, name: string, uniqueItems: bool): (r: Writer)
    ensures r.lines == w.lines && r.indentations == w.indentations && r.indentString == w.indentString
    ensures |r.sections| == |w.sections| + 1 && r.sections[..|w.sections|] == w.sections
    ensures r.sections[|w.sections|] == Section(name, |w.lines|, true, uniqueItems, [])
  {
    w.(sections := w.sections + [Section(name, |w.lines|, true, uniqueItems, [])])
  }

  /** Index of the first section called `name` at or after `from`. */
  function FindFrom(sections: seq<Section>, name: string, from: nat): (r: Option<nat>)
    requires from <= |sections|
    ensures r.Some? ==> from <= r.value < |sections| && sections[r.value].name == name
    ensures r.Some? ==> forall j :: from <= j < r.value ==> sections[j].name != name
    ensures r.None? ==> forall j :: from <= j < |sections| ==> sections[j].name != name
    decreases |sections| - from
  {
    if from == |sections| then None
    else if sections[from].name == name then Some(from)
    else FindFrom(sections, name, from + 1)
  }

  /** Index of the first section called `name`: the lookup `writeLineInSection` intends. */
  function FindSection(sections: seq<Section>, name: string): (r: Option<nat>)
    ensures r.Some? ==> r.value < |sections| && sections[r.value].name == name
    ensures r.Some? ==> forall j :: 0 <= j < r.value ==> sections[j].name != name
    ensures r.None? <==> forall j :: 0 <= j < |sections| ==> sections[j].name != name
  {
    FindFrom(sections, name, 0)
  }

  /**
    The lookup as written: `Array.prototype.find` is handed an object instead
    of a predicate, which throws a TypeError whatever the sections are.
   */
  function FindSectionAsWritten(sections: seq<Section>, name: string): (r: Result<nat, string>)
    ensures r.Failure?
  {
    Failure("TypeError: [object Object] is not a function")
  }

  /** `lines.splice(at, 0, x)`; JavaScript clamps an index past the end to the end. */
  function InsertAt(lines: seq<string>, at: nat, x: string): (r: seq<string>)
    ensures |r| == |lines| + 1
    ensures at <= |lines| ==> r[..at] == lines[..at] && r[at] == x && r[at + 1..] == lines[at..]
    ensures at > |lines| ==> r == lines + [x]
  {
    var k := if at <= |lines| then at else |lines|;
    lines[..k] + [x] + lines[k..]
  }

  /** Whether `text` is recorded as a new item of `s` (rather than written as a blank line). */
  predicate Admits(s: Section, text: string)
  {
    text != "" && (!s.uniqueItems || text !in s.items)
  }

  /**
    Insert `text` at the anchor of the first section called `name`, advance the
    anchor, and on the first insertion reserve one blank line after it.
   */
  function WriteLineInSection(w: Writer, text: string, name: string): (r: Writer)
    ensures FindSection(w.sections, name).None? ==> r == w
    ensures r.indentations == w.indentations && r.indentString == w.indentString
    ensures |r.sections| == |w.sections|
  {
    match FindSection(w.sections, name)
    case None => w
    case Some(k) =>
      var s := w.sections[k];
      var admitted := Admits(s, text);
      var lines1 := InsertAt(w.lines, s.line, if admitted then Prefix(w) + text else "");
      var lines2 := if s.insertEmptyLine then InsertAt(lines1, s.line + 1, "") else lines1;
      var s1 := s.(line := s.line + 1, insertEmptyLine := false,
                   items := if admitted then s.items + [text] else s.items);
      w.(lines := lines2, sections := w.sections[k := s1])
  }

  /**
    An insertion into the section found first: the item (or a blank line
    when the text is empty or, in a unique section, already listed) goes to
    the anchor, one blank line is reserved after it on the first insertion,
    the anchor moves past the item, and no other section changes.
   */
  lemma InsertionShape(w: Writer, text: string, name: string)
    requires FindSection(w.sections, name).Some?
    ensures var r := WriteLineInSection(w, text, name);
      var k := FindSection(w.sections, name).value;
      var s := w.sections[k];
      && |r.lines| == |w.lines| + (if s.insertEmptyLine then 2 else 1)
      && (s.line <= |w.lines| ==> r.lines[..s.line] == w.lines[..s.line])
      && (s.line <= |w.lines| ==> r.lines[s.line] == (if Admits(s, text) then Prefix(w) + text else ""))
      && (s.line <= |w.lines| && s.insertEmptyLine ==> r.lines[s.line + 1] == "")
      && (s.line <= |w.lines| ==> r.lines[s.line + (if s.insertEmptyLine then 2 else 1)..] == w.lines[s.line..])
      && r.sections[k].line == s.line + 1
      && !r.sections[k].insertEmptyLine
      && r.sections[k].uniqueItems == s.uniqueItems
      && r.sections[k].items == (if Admits(s, text) then s.items + [text] else s.items)
      && (forall j :: 0 <= j < |w.sections| && j != k ==> r.sections[j] == w.sections[j])
  {
  }

  /** Insert each text, in order, into the section called `name`. */
  function WriteLinesInSection(w: Writer, texts: seq<string>, name: string): (r: Writer)
    ensures r.indentations == w.indentations && r.indentString == w.indentString
    ensures |r.sections| == |w.sections|
    decreases |texts|
  {
    if texts == [] then w else WriteLinesInSection(WriteLineInSection(w, texts[0], name), texts[1..], name)
  }

  /** The lookup keeps finding the same section after an insertion into it. */
  lemma FindSectionStable(w: Writer, text: string, name: string)
    requires FindSection(w.sections, name).Some?
    ensures FindSection(WriteLineInSection(w, text, name).sections, name) == FindSection(w.sections, name)
  {
    var r := WriteLineInSection(w, text, name);
    var k := FindSection(w.sections, name).value;
    InsertionShape(w, text, name);
    assert r.sections[k].name == name;
    assert forall j :: 0 <= j < k ==> r.sections[j].name != name;
  }

  /** Each of `texts` appears from index `a` on, either as its indented line or as a blank. */
  predicate ItemsAt(lines: seq<string>, a: nat, prefix: string, texts: seq<string>)
  {
    a + |texts| <= |lines|
    && forall i :: 0 <= i < |texts| ==> lines[a + i] == "" || lines[a + i] == prefix + texts[i]
  }

  lemma ItemsAtCons(lines: seq<string>, a: nat, prefix: string, texts: seq<string>)
    requires |texts| >= 1 && a < |lines|
    requires lines[a] == "" || lines[a] == prefix + texts[0]
    requires ItemsAt(lines, a + 1, prefix, texts[1..])
    ensures ItemsAt(lines, a, prefix, texts)
  {
    forall i | 0 <= i < |texts|
      ensures lines[a + i] == "" || lines[a + i] == prefix + texts[i]
    {
      if i > 0 {
        assert texts[1..][i - 1] == texts[i];
        assert a + 1 + (i - 1) == a + i;
      }
    }
  }

  /**
    One item at `a` followed by the items of the rest from `a + 1` on gives
    the items of the whole list from `a` on, with the lines before `a` kept.
   */
  lemma ItemsCompose(wl: seq<string>, l1: seq<string>, rl: seq<string>, a: nat, prefix: string, texts: seq<string>)
    requires |texts| >= 1 && a <= |wl| && a < |l1|
    requires l1[..a] == wl[..a] && (l1[a] == "" || l1[a] == prefix + texts[0])
    requires a + 1 <= |rl| && rl[..a + 1] == l1[..a + 1]
    requires ItemsAt(rl, a + 1, prefix, texts[1..])
    ensures rl[..a] == wl[..a] && ItemsAt(rl, a, prefix, texts)
  {
    assert rl[a] == rl[..a + 1][a];
    assert rl[..a] == rl[..a + 1][..a];
    assert l1[..a] == l1[..a + 1][..a];
    ItemsAtCons(rl, a, prefix, texts);
  }

  /** A section whose blank line is reserved and sits at its anchor. */
  predicate Reserved(w: Writer, k: nat)
  {
    k < |w.sections| && !w.sections[k].insertEmptyLine
    && w.sections[k].line < |w.lines| && w.lines[w.sections[k].line] == ""
  }

  /** One insertion into a reserved section shifts the blank by one and keeps it reserved. */
  lemma ReservedStep(w: Writer, text: string, name: string)
    requires FindSection(w.sections, name).Some?
    requires Reserved(w, FindSection(w.sections, name).value)
    ensures var k := FindSection(w.sections, name).value;
      var a := w.sections[k].line;
      var r := WriteLineInSection(w, text, name);
      && FindSection(r.sections, name) == Some(k)
      && Reserved(r, k)
      && |r.lines| == |w.lines| + 1
      && r.sections[k].line == a + 1
      && r.lines[..a] == w.lines[..a]
      && (r.lines[a] == "" || r.lines[a] == Prefix(w) + text)
      && r.lines[a + 1..] == w.lines[a..]
  {
    FindSectionStable(w, text, name);
    InsertionShape(w, text, name);
    var k := FindSection(w.sections, name).value;
    var a := w.sections[k].line;
    var r := WriteLineInSection(w, text, name);
    assert r.lines[a + 1] == r.lines[a + 1..][0];
  }

  /**
    Once a section has had its blank line reserved and that blank sits at its
    anchor, further insertions keep the items contiguous and the single blank
    line right after them.
   */
  lemma {:induction false} SectionItemsBeforeBlank(w: Writer, texts: seq<string>, name: string)
    requires FindSection(w.sections, name).Some?
    requires Reserved(w, FindSection(w.sections, name).value)
    ensures var k := FindSection(w.sections, name).value;
      var a := w.sections[k].line;
      var r := WriteLinesInSection(w, texts, name);
      && FindSection(r.sections, name) == Some(k)
      && Reserved(r, k)
      && Inserted(w.lines, r.lines, a, Prefix(w), texts)
      && r.sections[k].line == a + |texts|
    decreases |texts|
  {
    if texts != [] {
      var k := FindSection(w.sections, name).value;
      var a := w.sections[k].line;
      var w1 := WriteLineInSection(w, texts[0], name);
      ReservedStep(w, texts[0], name);
      assert FindSection(w1.sections, name) == Some(k) && w1.sections[k].line == a + 1;
      var rest := texts[1..];
      SectionItemsBeforeBlank(w1, rest, name);
      var r := WriteLinesInSection(w1, rest, name);
      assert r == WriteLinesInSection(w, texts, name);
      assert Prefix(w1) == Prefix(w);
      assert a + 1 + |rest| == a + |texts|;
      ItemsCompose(w.lines, w1.lines, r.lines, a, Prefix(w), texts);
    }
  }

  /** The first insertion into a fresh section reserves the blank line right after the item. */
  lemma FirstInsertion(w: Writer, text: string, name: string)
    requires FindSection(w.sections, name).Some?
    requires var s := w.sections[FindSection(w.sections, name).value];
      s.insertEmptyLine && s.line <= |w.lines|
    ensures var k := FindSection(w.sections, name).value;
      var a := w.sections[k].line;
      var r := WriteLineInSection(w, text, name);
      && FindSection(r.sections, name) == Some(k)
      && Reserved(r, k)
      && |r.lines| == |w.lines| + 2
      && r.sections[k].line == a + 1
      && r.lines[..a] == w.lines[..a]
      && (r.lines[a] == "" || r.lines[a] == Prefix(w) + text)
      && r.lines[a + 2..] == w.lines[a..]
  {
    FindSectionStable(w, text, name);
    InsertionShape(w, text, name);
  }

  /**
    Writing one or more items into a fresh section places them at its anchor,
    followed by exactly one blank line, and leaves the lines before and after
    in place.
   */
  lemma SectionBlock(w: Writer, texts: seq<string>, name: string)
    requires FindSection(w.sections, name).Some?
    requires var s := w.sections[FindSection(w.sections, name).value];
      s.insertEmptyLine && s.line <= |w.lines|
    requires |texts| >= 1
    ensures var k := FindSection(w.sections, name).value;
      var a := w.sections[k].line;
      var r := WriteLinesInSection(w, texts, name);
      && Block(w.lines, r.lines, a, Prefix(w), texts)
      && r.sections[k].line == a + |texts|
  {
    var k := FindSection(w.sections, name).value;
    var w1 := FirstStep(w, texts, name);
    SectionItemsBeforeBlank(w1, texts[1..], name);
    BlockFromSteps(w.lines, w1.lines, WriteLinesInSection(w1, texts[1..], name).lines, w.sections[k].line, Prefix(w), texts);
  }

  /** The writer after the first of several insertions into a fresh section, and what it looks like. */
  lemma FirstStep(w: Writer, texts: seq<string>, name: string) returns (w1: Writer)
    requires FindSection(w.sections, name).Some?
    requires var s := w.sections[FindSection(w.sections, name).value];
      s.insertEmptyLine && s.line <= |w.lines|
    requires |texts| >= 1
    ensures WriteLinesInSection(w, texts, name) == WriteLinesInSection(w1, texts[1..], name)
    ensures var k := FindSection(w.sections, name).value;
      var a := w.sections[k].line;
      && FindSection(w1.sections, name) == Some(k)
      && Reserved(w1, k)
      && Prefix(w1) == Prefix(w)
      && w1.sections[k].line == a + 1
      && Block(w.lines, w1.lines, a, Prefix(w), [texts[0]])
  {
    w1 := WriteLineInSection(w, texts[0], name);
    FirstInsertion(w, texts[0], name);
    var a := w.sections[FindSection(w.sections, name).value].line;
    assert w1.lines[a + 1] == w1.lines[a + 2 - 1];
  }

  /**
    `rl` is `wl` with the items of `texts` (each indented or blank) inserted
    at index `a`, followed by exactly one blank line; the lines before and
    after stay in place.
   */
  predicate Block(wl: seq<string>, rl: seq<string>, a: nat, prefix: string, texts: seq<string>)
  {
    && a <= |wl|
    && |rl| == |wl| + |texts| + 1
    && rl[..a] == wl[..a]
    && rl[a + |texts|] == ""
    && rl[a + |texts| + 1..] == wl[a..]
    && ItemsAt(rl, a, prefix, texts)
  }

  /**
    `rl` is `wl` with the items of `texts` (each indented or blank) inserted
    at index `a`; the lines before and after stay in place.
   */
  predicate Inserted(wl: seq<string>, rl: seq<string>, a: nat, prefix: string, texts: seq<string>)
  {
    && a <= |wl|
    && |rl| == |wl| + |texts|
    && rl[..a] == wl[..a]
    && rl[a + |texts|..] == wl[a..]
    && ItemsAt(rl, a, prefix, texts)
  }

  /** The line-level composition of the first insertion and the insertions after it. */
  lemma BlockFromSteps(wl: seq<string>, l1: seq<string>, rl: seq<string>, a: nat, prefix: string, texts: seq<string>)
    requires |texts| >= 1
    requires Block(wl, l1, a, prefix, [texts[0]])
    requires Inserted(l1, rl, a + 1, prefix, texts[1..])
    ensures Block(wl, rl, a, prefix, texts)
  {
    assert l1[a + 0] == "" || l1[a + 0] == prefix + [texts[0]][0];
    assert l1[a + 1 + 1..] == wl[a..];
    assert a + 1 + |texts[1..]| == a + |texts|;
    ItemsCompose(wl, l1, rl, a, prefix, texts);
    TailAfterBlank(wl, l1, rl, a, |texts|);
  }

  /** The blank reserved at `a + 1` and the lines after it, shifted behind `n` items. */
  lemma TailAfterBlank(wl: seq<string>, l1: seq<string>, rl: seq<string>, a: nat, n: nat)
    requires n >= 1 && a + 2 <= |l1| && a <= |wl|
    requires l1[a + 1] == "" && l1[a + 2..] == wl[a..]
    requires a + n <= |rl| && rl[a + n..] == l1[a + 1..]
    ensures rl[a + n] == "" && rl[a + n + 1..] == wl[a..]
  {
    assert rl[a + n] == rl[a + n..][0];
    assert rl[a + n + 1..] == rl[a + n..][1..];
    assert l1[a + 1..][1..] == l1[a + 2..];
  }

  /** `getData`: the lines joined with line feeds. */
  function GetData(w: Writer): string
  {
    Join(w.lines, "\n")
  }

  /**
    Splitting the serialised text on line feeds gives back the lines, provided
    no line contains a line feed itself; an empty buffer serialises to the
    empty string, which splits into one empty line.
   */
  lemma GetDataSplit(w: Writer)
    requires forall i :: 0 <= i < |w.lines| ==> '\n' !in w.lines[i]
    ensures Split(GetData(w), '\n') == if w.lines == [] then [""] else w.lines
  {
    if w.lines != [] {
      SplitJoin(w.lines, '\n');
    }
  }
}
