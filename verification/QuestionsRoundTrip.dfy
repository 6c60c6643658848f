// Which question documents the parser accepts: exactly the printed forms of
// valid lists of definitions come back unchanged, and everything accepted is
// valid.
module QuestionsRoundTrip {
  import opened Domain
  import opened Text
  import opened QuestionsMd

  // ----- Valid lists -----

  /** Every allowed name occurs exactly once, and no other name does. */
  ghost predicate EachOnce(names: seq<string>, allowed: seq<string>) {
    && (forall i, k :: 0 <= i < k < |names| ==> names[i] != names[k])
    && forall x :: x in names <==> x in allowed
  }

  ghost predicate ValidCriteria(criteria: seq<Criterion>) {
    forall c :: c in criteria ==> c.value != [] && '\n' !in c.value
  }

  ghost predicate ValidDefinition(d: Definition) {
    && (d.kind.Noul? ==> d.criteria == [])
    && (d.kind.Choice? ==> EachOnce(Names(d.criteria), CRITERIA_IDS))
    && ValidCriteria(d.criteria)
    && (Contains(d.instructions, PLACEHOLDER) <==> UsesPrice(d.id))
  }

  ghost predicate ValidList(definitions: seq<Definition>) {
    && EachOnce(Ids(definitions), QUESTION_IDS)
    && forall d :: d in definitions ==> ValidDefinition(d)
  }

  // ----- Checking names -----

  lemma {:induction false} AbsentIff(names: seq<string>, allowed: seq<string>, k: nat)
    requires k <= |allowed|
    ensures FirstAbsent(names, allowed, k) == None <==> forall i :: k <= i < |allowed| ==> allowed[i] in names
    decreases |allowed| - k
  {
    if k < |allowed| {
      AbsentIff(names, allowed, k + 1);
    }
  }

  lemma {:induction false} ScanIffFrom(names: seq<string>, allowed: seq<string>, k: nat)
    requires k <= |names|
    ensures ScanNames(names, allowed, k) == None
            <==> && (forall i :: k <= i < |names| ==> names[i] in allowed && names[i] !in names[..i])
                 && forall x :: x in allowed ==> x in names
    decreases |names| - k
  {
    if k == |names| {
      AbsentIff(names, allowed, 0);
    } else {
      ScanIffFrom(names, allowed, k + 1);
    }
  }

  /** The validators find no fault exactly with lists of each allowed name once. */
  lemma ScanIff(names: seq<string>, allowed: seq<string>)
    ensures ScanNames(names, allowed, 0) == None <==> EachOnce(names, allowed)
  {
    ScanIffFrom(names, allowed, 0);
    assert (forall i :: 0 <= i < |names| ==> names[i] !in names[..i])
      <==> forall i, k :: 0 <= i < k < |names| ==> names[i] != names[k] by {
      forall i, k | 0 <= i < k < |names| && names[i] == names[k] ensures names[k] in names[..k] {
        assert names[..k][i] == names[k];
      }
    }
  }

  function Members(names: seq<string>): set<string> {
    set x | x in names
  }

  lemma {:induction false} DistinctCount(names: seq<string>)
    requires forall i, k :: 0 <= i < k < |names| ==> names[i] != names[k]
    ensures |Members(names)| == |names|
  {
    if names != [] {
      DistinctCount(names[1..]);
      assert names == [names[0]] + names[1..];
      assert Members(names) == Members(names[1..]) + {names[0]};
    }
  }

  lemma SameCount(names: seq<string>, allowed: seq<string>)
    requires EachOnce(names, allowed) && forall i, k :: 0 <= i < k < |allowed| ==> allowed[i] != allowed[k]
    ensures |names| == |allowed|
  {
    DistinctCount(names);
    DistinctCount(allowed);
    assert Members(names) == Members(allowed);
  }

  /** The final length check of `validate_sections` never fails: once every id has
      been seen and none repeated, there are eight sections. */
  lemma LengthCheckDead(sections: seq<Definition>)
    ensures ValidateSections(sections) == Ok(sections) <==> EachOnce(Ids(sections), QUESTION_IDS)
    ensures ScanNames(Ids(sections), QUESTION_IDS, 0) == None ==> |sections| == |QUESTION_IDS|
  {
    ScanIff(Ids(sections), QUESTION_IDS);
    if EachOnce(Ids(sections), QUESTION_IDS) {
      SameCount(Ids(sections), QUESTION_IDS);
    }
  }

  // ----- Everything accepted is valid -----

  ghost predicate OneLiners(lines: seq<string>) {
    forall i :: 0 <= i < |lines| ==> '\n' !in lines[i]
  }

  lemma {:induction false} LinesHaveNoNewline(document: string)
    ensures OneLiners(Lines(document))
    decreases |document|
  {
    if document != [] {
      var parts := SplitOnce(document, '\n');
      if parts.Some? {
        LinesHaveNoNewline(parts.value.1);
      }
    }
  }

  /** Splitting takes the first occurrence of the separator. */
  lemma {:induction false} FirstSeparator(s: string, separator: string)
    ensures match SplitOnceAtText(s, separator)
            case None => true
            case Some((a, b)) => s == a + separator + b && forall i :: 0 <= i < |a| ==> !(separator <= s[i..])
  {
    if separator <= s {
      assert s == [] + separator + s[|separator|..];
    } else if s != [] {
      FirstSeparator(s[1..], separator);
      forall i | 0 < i <= |s| ensures s[i..] == s[1..][i - 1..] {}
      assert s[0..] == s;
    }
  }

  lemma CriterionValid(line: string, n: nat)
    requires "  " <= line && '\n' !in line
    ensures ParseCriterion(line, n).Ok? ==> ValidCriteria([ParseCriterion(line, n).value])
  {
    FirstSeparator(line[2..], ": ");
    forall i | 0 <= i < |line[2..]| ensures line[2..][i] != '\n' {}
    assert '\n' !in line[2..];
  }

  lemma {:induction false} TakenCriteriaValid(lines: seq<string>, n: nat, found: seq<Criterion>)
    requires n <= |lines| && OneLiners(lines) && ValidCriteria(found)
    ensures TakeCriteria(lines, n, found).Ok? ==> ValidCriteria(TakeCriteria(lines, n, found).value.0)
    decreases |lines| - n
  {
    if Indented(lines, n) && ParseCriterion(lines[n], n).Ok? {
      CriterionValid(lines[n], n);
      TakenCriteriaValid(lines, n + 1, found + [ParseCriterion(lines[n], n).value]);
    }
  }

  /** What holds of a section while it is read. */
  ghost predicate ValidRaw(raw: Raw) {
    ValidCriteria(raw.criteria) && (!raw.criteriaDeclared ==> raw.criteria == [])
  }

  lemma FieldValid(raw: Raw, lines: seq<string>, n: nat)
    requires n < |lines| && OneLiners(lines) && ValidRaw(raw)
    ensures Field(raw, lines, n).Ok? ==> ValidRaw(Field(raw, lines, n).value.0)
  {
    if lines[n] == "criteria:" {
      TakenCriteriaValid(lines, n + 1, raw.criteria);
    }
  }

  lemma FinishValid(raw: Raw)
    requires ValidRaw(raw)
    ensures Finish(raw).Ok? ==> ValidDefinition(Finish(raw).value)
  {
    ScanIff(Names(raw.criteria), CRITERIA_IDS);
  }

  ghost predicate AllValid(sections: seq<Definition>) {
    forall i :: 0 <= i < |sections| ==> ValidDefinition(sections[i])
  }

  lemma CloseValid(current: Option<Raw>, sections: seq<Definition>)
    requires AllValid(sections) && (current.Some? ==> ValidRaw(current.value))
    ensures Close(current, sections).Ok? ==> AllValid(Close(current, sections).value)
  {
    if current.Some? {
      FinishValid(current.value);
    }
  }

  lemma {:induction false} ParsedValid(lines: seq<string>, n: nat, current: Option<Raw>, sections: seq<Definition>)
    requires n <= |lines| && OneLiners(lines)
    requires AllValid(sections) && (current.Some? ==> ValidRaw(current.value))
    ensures ParseFrom(lines, n, current, sections).Ok? ==> AllValid(ParseFrom(lines, n, current, sections).value)
    decreases |lines| - n
  {
    CloseValid(current, sections);
    if n < |lines| {
      if "## " <= lines[n] {
        if Close(current, sections).Ok? {
          ParsedValid(lines, n + 1, Some(Raw(lines[n][3..], None, None, [], false)), Close(current, sections).value);
        }
      } else if current.None? {
        ParsedValid(lines, n + 1, None, sections);
      } else {
        FieldValid(current.value, lines, n);
        var field := Field(current.value, lines, n);
        if field.Ok? {
          ParsedValid(lines, field.value.1, Some(field.value.0), sections);
        }
      }
    }
  }

  /** Every accepted document holds each of the eight ids exactly once, and only
      valid definitions. */
  lemma AcceptedIsValid(document: string)
    ensures Parse(document).Ok? ==> ValidList(Parse(document).value)
  {
    var lines := Lines(document);
    LinesHaveNoNewline(document);
    ParsedValid(lines, 0, None, []);
    if Parse(document).Ok? {
      LengthCheckDead(Parse(document).value);
    }
  }

  // ----- Printing -----

  function Indent(lines: seq<string>): (out: seq<string>)
    ensures |out| == |lines| && forall i :: 0 <= i < |out| ==> out[i] == "  " + lines[i]
  {
    seq(|lines|, i requires 0 <= i < |lines| => "  " + lines[i])
  }

  function CriterionLines(criteria: seq<Criterion>): (out: seq<string>)
    ensures |out| == |criteria|
    ensures forall i :: 0 <= i < |out| ==> out[i] == "  " + (criteria[i].name + ": " + criteria[i].value)
  {
    seq(|criteria|, i requires 0 <= i < |criteria| => "  " + (criteria[i].name + ": " + criteria[i].value))
  }

  function Paragraphs(d: Definition): seq<string> {
    Split(d.instructions, '\n')
  }

  function Head(d: Definition): seq<string> {
    ["## " + d.id, if d.kind.Noul? then "type: noul" else "type: choice", "instructions: |"]
  }

  function CriteriaBlock(d: Definition): seq<string> {
    if d.kind.Noul? then [] else ["criteria:"] + CriterionLines(d.criteria)
  }

  /** A section as the document writes it, closed by an empty line. */
  function SectionLines(d: Definition): seq<string> {
    Head(d) + Indent(Paragraphs(d)) + CriteriaBlock(d) + [""]
  }

  function DocumentLines(definitions: seq<Definition>): seq<string> {
    if definitions == [] then [] else SectionLines(definitions[0]) + DocumentLines(definitions[1..])
  }

  /** The lines of a document, each closed by a line ending. */
  function TextOf(lines: seq<string>, ending: string): string {
    if lines == [] then [] else lines[0] + ending + TextOf(lines[1..], ending)
  }

  /** The lines the reader sees: under bare newlines each loses one carriage return
      at its end. */
  function Received(lines: seq<string>, ending: string): (out: seq<string>)
    ensures |out| == |lines|
    ensures forall i :: 0 <= i < |out| ==> out[i] == if ending == "\n" then StripReturn(lines[i]) else lines[i]
  {
    seq(|lines|, i requires 0 <= i < |lines| => if ending == "\n" then StripReturn(lines[i]) else lines[i])
  }

  lemma {:induction false} LinesOfText(lines: seq<string>, ending: string)
    requires OneLiners(lines) && (ending == "\r\n" || ending == "\n")
    ensures Lines(TextOf(lines, ending)) == Received(lines, ending)
  {
    if lines != [] {
      var rest := TextOf(lines[1..], ending);
      var line := if ending == "\n" then lines[0] else lines[0] + ['\r'];
      assert TextOf(lines, ending) == line + ['\n'] + rest;
      SplitOnceAt(line, '\n', rest);
      assert StripReturn(line) == Received(lines, ending)[0];
      LinesOfText(lines[1..], ending);
      assert Received(lines, ending)[1..] == Received(lines[1..], ending);
    }
  }

  lemma {:induction false} JoinSplit(s: string)
    ensures Join(Split(s, '\n')) == s && OneLiners(Split(s, '\n'))
    decreases |s|
  {
    match SplitOnce(s, '\n')
    case None =>
    case Some((a, b)) =>
      JoinSplit(b);
      assert Split(s, '\n') == [a] + Split(b, '\n');
      assert Split(s, '\n')[1..] == Split(b, '\n');
  }

  // ----- Reading a printed section -----

  ghost predicate BlockAt(lines: seq<string>, n: nat, block: seq<string>) {
    n + |block| <= |lines| && forall i :: 0 <= i < |block| ==> lines[n + i] == block[i]
  }

  lemma {:induction false} TextTaken(lines: seq<string>, n: nat, block: seq<string>, found: seq<string>)
    requires BlockAt(lines, n, Indent(block)) && !Indented(lines, n + |block|)
    ensures TakeText(lines, n, found) == (found + block, n + |block|)
    decreases |block|
  {
    if block == [] {
      assert found + block == found;
    } else {
      assert lines[n] == Indent(block)[0] == "  " + block[0];
      forall i | 0 <= i < |block| - 1 ensures lines[n + 1 + i] == Indent(block[1..])[i] {
        assert lines[n + (i + 1)] == Indent(block)[i + 1];
      }
      TextTaken(lines, n + 1, block[1..], found + [block[0]]);
      assert found + [block[0]] + block[1..] == found + block;
    }
  }

  lemma {:induction false} SplitAtFirst(a: string, separator: string, b: string)
    requires forall i :: 0 <= i < |a| ==> !(separator <= (a + separator + b)[i..])
    ensures SplitOnceAtText(a + separator + b, separator) == Some((a, b))
    decreases |a|
  {
    var s := a + separator + b;
    if a == [] {
      assert s == separator + b;
    } else {
      assert s[0..] == s && s[1..] == a[1..] + separator + b;
      forall i | 0 <= i < |a| - 1 ensures !(separator <= (a[1..] + separator + b)[i..]) {
        assert s[i + 1..] == (a[1..] + separator + b)[i..];
      }
      SplitAtFirst(a[1..], separator, b);
      assert [a[0]] + a[1..] == a;
    }
  }

  lemma SplitNamed(name: string, value: string)
    requires ':' !in name
    ensures SplitOnceAtText(name + ": " + value, ": ") == Some((name, value))
  {
    forall i | 0 <= i < |name| ensures !(": " <= (name + ": " + value)[i..]) {
      assert (name + ": " + value)[i..][0] == name[i];
    }
    SplitAtFirst(name, ": ", value);
  }

  lemma CriterionRead(c: Criterion, n: nat)
    requires c.name in CRITERIA_IDS && c.value != []
    ensures ParseCriterion("  " + (c.name + ": " + c.value), n) == Ok(c)
  {
    var line := "  " + (c.name + ": " + c.value);
    assert line[2..] == c.name + ": " + c.value;
    NamesHaveNoNewline(c.name);
    SplitNamed(c.name, c.value);
  }

  lemma {:induction false} CriteriaTaken(lines: seq<string>, n: nat, criteria: seq<Criterion>, found: seq<Criterion>)
    requires BlockAt(lines, n, CriterionLines(criteria)) && !Indented(lines, n + |criteria|)
    requires forall c :: c in criteria ==> c.name in CRITERIA_IDS && c.value != []
    ensures TakeCriteria(lines, n, found) == Ok((found + criteria, n + |criteria|))
    decreases |criteria|
  {
    if criteria == [] {
      assert found + criteria == found;
    } else {
      assert criteria[0] in criteria;
      CriterionRead(criteria[0], n);
      NextCriterion(lines, n, criteria);
      CriteriaTaken(lines, n + 1, criteria[1..], found + [criteria[0]]);
      assert found + [criteria[0]] + criteria[1..] == found + criteria;
    }
  }

  lemma NextCriterion(lines: seq<string>, n: nat, criteria: seq<Criterion>)
    requires BlockAt(lines, n, CriterionLines(criteria)) && criteria != []
    ensures lines[n] == "  " + (criteria[0].name + ": " + criteria[0].value)
    ensures BlockAt(lines, n + 1, CriterionLines(criteria[1..]))
  {
    assert lines[n + 0] == CriterionLines(criteria)[0];
    forall i | 0 <= i < |criteria| - 1 ensures lines[n + 1 + i] == CriterionLines(criteria[1..])[i] {
      assert lines[n + (i + 1)] == CriterionLines(criteria)[i + 1];
    }
  }

  /** The section in memory once its printed lines are read. */
  function RawOf(d: Definition): Raw {
    Raw(d.id, Some(d.kind), Some(d.instructions), d.criteria, d.kind.Choice?)
  }

  lemma FinishRaw(d: Definition)
    requires ValidDefinition(d)
    ensures Finish(RawOf(d)) == Ok(d)
  {
    ScanIff(Names(d.criteria), CRITERIA_IDS);
  }

  /** Closing a section succeeds exactly when it holds all the fields of a valid
      definition and nothing else; the result is that definition. */
  lemma FinishIff(raw: Raw, d: Definition)
    requires ValidRaw(raw)
    ensures Finish(raw) == Ok(d) <==> raw == RawOf(d) && ValidDefinition(d)
  {
    FinishValid(raw);
    if ValidDefinition(d) {
      FinishRaw(d);
    }
  }

  lemma NamesAllowed(d: Definition)
    requires ValidDefinition(d)
    ensures forall c :: c in d.criteria ==> c.name in CRITERIA_IDS && c.value != []
  {
    forall c | c in d.criteria ensures c.name in CRITERIA_IDS && c.value != [] {
      var i :| 0 <= i < |d.criteria| && d.criteria[i] == c;
      assert Names(d.criteria)[i] == c.name;
    }
  }

  /** A line inside a section, read on. */
  lemma FieldStep(lines: seq<string>, n: nat, raw: Raw, raw': Raw, next: nat, closed: seq<Definition>)
    requires n < |lines| && !("## " <= lines[n]) && Field(raw, lines, n) == Ok((raw', next))
    ensures n < next <= |lines|
    ensures ParseFrom(lines, n, Some(raw), closed) == ParseFrom(lines, next, Some(raw'), closed)
  {}

  lemma HeadRead(lines: seq<string>, n: nat, d: Definition, current: Option<Raw>, sections: seq<Definition>,
                 closed: seq<Definition>)
    requires BlockAt(lines, n, Head(d)) && n + 3 < |lines| && d.id != [] && Close(current, sections) == Ok(closed)
    ensures ParseFrom(lines, n, current, sections)
            == ParseFrom(lines, n + 2, Some(Raw(d.id, Some(d.kind), None, [], false)), closed)
  {
    assert lines[n + 0] == Head(d)[0] == "## " + d.id;
    assert lines[n][3..] == d.id;
    var raw := Raw(d.id, None, None, [], false);
    assert ParseFrom(lines, n, current, sections) == ParseFrom(lines, n + 1, Some(raw), closed);
    KindRead(lines, n + 1, d, raw);
  }

  lemma KindRead(lines: seq<string>, n: nat, d: Definition, raw: Raw)
    requires n < |lines| && lines[n] == Head(d)[1] && raw.kind == None
    ensures !("## " <= lines[n]) && Field(raw, lines, n) == Ok((raw.(kind := Some(d.kind)), n + 1))
  {
    var line := lines[n];
    if d.kind.Noul? {
      assert line == "type: noul" && line[6..] == "noul";
    } else {
      assert line == "type: choice" && line[6..] == "choice";
    }
    assert line[0] == 't';
  }

  lemma InstructionsRead(lines: seq<string>, n: nat, d: Definition, raw: Raw)
    requires n < |lines| && lines[n] == "instructions: |" && raw.instructions == None
    requires BlockAt(lines, n + 1, Indent(Paragraphs(d))) && !Indented(lines, n + 1 + |Paragraphs(d)|)
    ensures Field(raw, lines, n) == Ok((raw.(instructions := Some(d.instructions)), n + 1 + |Paragraphs(d)|))
  {
    TextTaken(lines, n + 1, Paragraphs(d), []);
    JoinSplit(d.instructions);
    assert [] + Paragraphs(d) == Paragraphs(d);
  }

  lemma CriteriaRead(lines: seq<string>, n: nat, d: Definition, raw: Raw)
    requires n < |lines| && lines[n] == "criteria:" && raw.criteria == [] && !raw.criteriaDeclared
    requires ValidDefinition(d)
    requires BlockAt(lines, n + 1, CriterionLines(d.criteria)) && !Indented(lines, n + 1 + |d.criteria|)
    ensures Field(raw, lines, n)
            == Ok((raw.(criteria := d.criteria, criteriaDeclared := true), n + 1 + |d.criteria|))
  {
    NamesAllowed(d);
    CriteriaTaken(lines, n + 1, d.criteria, []);
    assert [] + d.criteria == d.criteria;
  }

  /** Where the parts of a printed section lie. */
  lemma SectionLayout(lines: seq<string>, n: nat, d: Definition)
    requires BlockAt(lines, n, SectionLines(d))
    ensures var k, e := n + 3 + |Paragraphs(d)|, n + |SectionLines(d)| - 1;
            && BlockAt(lines, n, Head(d)) && BlockAt(lines, n + 3, Indent(Paragraphs(d)))
            && BlockAt(lines, k, CriteriaBlock(d)) && e == k + |CriteriaBlock(d)| < |lines| && lines[e] == ""
  {
    var section := SectionLines(d);
    var h, p, c := Head(d), Indent(Paragraphs(d)), CriteriaBlock(d);
    forall i | 0 <= i < |h| ensures lines[n + i] == h[i] { assert section[i] == h[i]; }
    forall i | 0 <= i < |p| ensures lines[n + 3 + i] == p[i] { assert section[3 + i] == p[i]; }
    forall i | 0 <= i < |c| ensures lines[n + 3 + |p| + i] == c[i] { assert section[3 + |p| + i] == c[i]; }
    var e := |section| - 1;
    assert section[e] == "" && lines[n + e] == section[e];
  }

  lemma {:induction false} SectionRead(lines: seq<string>, n: nat, d: Definition, current: Option<Raw>,
                                       sections: seq<Definition>, closed: seq<Definition>)
    requires BlockAt(lines, n, SectionLines(d)) && ValidDefinition(d) && d.id != []
    requires Close(current, sections) == Ok(closed)
    ensures ParseFrom(lines, n, current, sections) == ParseFrom(lines, n + |SectionLines(d)|, Some(RawOf(d)), closed)
  {
    HeadAt(lines, n, d);
    HeadRead(lines, n, d, current, sections, closed);
    BodyAt(lines, n, d);
    BodyRead(lines, n + 2, d, closed);
    SectionLength(d);
  }

  lemma SectionLength(d: Definition)
    ensures |SectionLines(d)| == 4 + |Paragraphs(d)| + |CriteriaBlock(d)|
  {}

  lemma HeadAt(lines: seq<string>, n: nat, d: Definition)
    requires BlockAt(lines, n, SectionLines(d))
    ensures BlockAt(lines, n, Head(d)) && n + 3 < |lines|
  {
    SectionLayout(lines, n, d);
  }

  lemma BodyAt(lines: seq<string>, n: nat, d: Definition)
    requires BlockAt(lines, n, SectionLines(d))
    ensures n + 2 < |lines| && lines[n + 2] == "instructions: |"
    ensures BlockAt(lines, n + 2 + 1, Indent(Paragraphs(d)))
    ensures var k := n + 2 + 1 + |Paragraphs(d)|;
            var e := k + |CriteriaBlock(d)|;
            BlockAt(lines, k, CriteriaBlock(d)) && e < |lines| && lines[e] == ""
  {
    SectionLayout(lines, n, d);
    ThirdLine(lines, n, d);
  }

  lemma ThirdLine(lines: seq<string>, n: nat, d: Definition)
    requires BlockAt(lines, n, Head(d))
    ensures n + 2 < |lines| && lines[n + 2] == "instructions: |"
  {
    assert lines[n + 2] == Head(d)[2];
  }

  lemma BodyRead(lines: seq<string>, n: nat, d: Definition, closed: seq<Definition>)
    requires n < |lines| && lines[n] == "instructions: |"
    requires ValidDefinition(d) && BlockAt(lines, n + 1, Indent(Paragraphs(d)))
    requires var k := n + 1 + |Paragraphs(d)|;
             var e := k + |CriteriaBlock(d)|;
             BlockAt(lines, k, CriteriaBlock(d)) && e < |lines| && lines[e] == ""
    ensures ParseFrom(lines, n, Some(Raw(d.id, Some(d.kind), None, [], false)), closed)
            == ParseFrom(lines, n + 2 + |Paragraphs(d)| + |CriteriaBlock(d)|, Some(RawOf(d)), closed)
  {
    var raw := Raw(d.id, Some(d.kind), None, [], false);
    var k := n + 1 + |Paragraphs(d)|;
    var e := k + |CriteriaBlock(d)|;
    assert lines[k] == if d.kind.Noul? then "" else "criteria:" by {
      if d.kind.Choice? { assert lines[k + 0] == CriteriaBlock(d)[0]; }
    }
    assert lines[k] == [] || lines[k][0] != ' ';
    InstructionsRead(lines, n, d, raw);
    var raw' := raw.(instructions := Some(d.instructions));
    FieldStep(lines, n, raw, raw', k, closed);
    TailRead(lines, k, d, raw', closed);
  }

  lemma TailRead(lines: seq<string>, k: nat, d: Definition, raw: Raw, closed: seq<Definition>)
    requires ValidDefinition(d) && raw == Raw(d.id, Some(d.kind), Some(d.instructions), [], false)
    requires BlockAt(lines, k, CriteriaBlock(d)) && k + |CriteriaBlock(d)| < |lines|
            && lines[k + |CriteriaBlock(d)|] == ""
    ensures ParseFrom(lines, k, Some(raw), closed)
            == ParseFrom(lines, k + |CriteriaBlock(d)| + 1, Some(RawOf(d)), closed)
  {
    var e := k + |CriteriaBlock(d)|;
    if d.kind.Choice? {
      assert lines[k + 0] == CriteriaBlock(d)[0] == "criteria:";
      forall i | 0 <= i < |d.criteria| ensures lines[k + 1 + i] == CriterionLines(d.criteria)[i] {
        assert lines[k + (i + 1)] == CriteriaBlock(d)[i + 1];
      }
      CriteriaRead(lines, k, d, raw);
      FieldStep(lines, k, raw, RawOf(d), e, closed);
    }
    FieldStep(lines, e, RawOf(d), RawOf(d), e + 1, closed);
  }

  // ----- Reading a printed document -----

  lemma {:induction false} DefinitionsRead(lines: seq<string>, n: nat, definitions: seq<Definition>,
                                           current: Option<Raw>,
                                           sections: seq<Definition>, closed: seq<Definition>)
    requires BlockAt(lines, n, DocumentLines(definitions)) && n + |DocumentLines(definitions)| == |lines|
    requires AllValid(definitions) && forall i :: 0 <= i < |definitions| ==> definitions[i].id != []
    requires Close(current, sections) == Ok(closed)
    ensures ParseFrom(lines, n, current, sections) == Ok(closed + definitions)
    decreases |definitions|
  {
    if definitions == [] {
      assert closed + definitions == closed;
    } else {
      var d, rest := definitions[0], definitions[1..];
      SectionTaken(lines, n, d, DocumentLines(rest), current, sections, closed);
      DefinitionsRead(lines, n + |SectionLines(d)|, rest, Some(RawOf(d)), closed, closed + [d]);
      OneMore(closed, definitions);
    }
  }

  lemma SectionTaken(lines: seq<string>, n: nat, d: Definition, others: seq<string>, current: Option<Raw>,
                     sections: seq<Definition>, closed: seq<Definition>)
    requires BlockAt(lines, n, SectionLines(d) + others) && ValidDefinition(d) && d.id != []
    requires Close(current, sections) == Ok(closed)
    ensures BlockAt(lines, n + |SectionLines(d)|, others)
    ensures ParseFrom(lines, n, current, sections) == ParseFrom(lines, n + |SectionLines(d)|, Some(RawOf(d)), closed)
    ensures Close(Some(RawOf(d)), closed) == Ok(closed + [d])
  {
    BlocksSplit(lines, n, SectionLines(d), others);
    SectionRead(lines, n, d, current, sections, closed);
    FinishRaw(d);
  }

  lemma OneMore(closed: seq<Definition>, definitions: seq<Definition>)
    requires definitions != []
    ensures closed + [definitions[0]] + definitions[1..] == closed + definitions
  {}

  lemma BlocksSplit(lines: seq<string>, n: nat, first: seq<string>, others: seq<string>)
    requires BlockAt(lines, n, first + others)
    ensures BlockAt(lines, n, first) && BlockAt(lines, n + |first|, others)
  {
    forall i | 0 <= i < |first| ensures lines[n + i] == first[i] { assert (first + others)[i] == first[i]; }
    forall i | 0 <= i < |others| ensures lines[n + |first| + i] == others[i] {
      assert (first + others)[|first| + i] == others[i];
    }
  }

  /** Lines in front of the first section are skipped. */
  lemma {:induction false} PreambleSkipped(lines: seq<string>, n: nat, k: nat)
    requires n <= k <= |lines| && forall i :: n <= i < k ==> !("## " <= lines[i])
    ensures ParseFrom(lines, n, None, []) == ParseFrom(lines, k, None, [])
    decreases k - n
  {
    if n < k {
      PreambleSkipped(lines, n + 1, k);
    }
  }

  lemma SectionOneLiners(d: Definition)
    requires ValidDefinition(d) && d.id in QUESTION_IDS
    ensures OneLiners(SectionLines(d))
  {
    JoinSplit(d.instructions);
    HeadOneLiners(d);
    CriteriaOneLiners(d);
    IndentOneLiners(Paragraphs(d));
  }

  lemma HeadOneLiners(d: Definition)
    requires d.id in QUESTION_IDS
    ensures OneLiners(Head(d))
  {
    IdsHaveNoNewline(d.id);
    NoNewlineJoin("## ", d.id);
  }

  lemma NoNewlineJoin(a: string, b: string)
    requires '\n' !in a && '\n' !in b
    ensures '\n' !in a + b
  {}

  lemma IdsHaveNoNewline(id: string)
    requires id in QUESTION_IDS
    ensures id != [] && '\n' !in id
  {
    if id == QUESTION_IDS[0] || id == QUESTION_IDS[1] {
    } else if id == QUESTION_IDS[2] || id == QUESTION_IDS[3] {
    } else if id == QUESTION_IDS[4] || id == QUESTION_IDS[5] {
    } else {
      assert id == QUESTION_IDS[6] || id == QUESTION_IDS[7];
    }
  }

  lemma NamesHaveNoNewline(name: string)
    requires name in CRITERIA_IDS
    ensures '\n' !in name && ':' !in name
  {
    if name == CRITERIA_IDS[0] || name == CRITERIA_IDS[1] {
    } else if name == CRITERIA_IDS[2] || name == CRITERIA_IDS[3] {
    } else {
      assert name == CRITERIA_IDS[4] || name == CRITERIA_IDS[5] || name == CRITERIA_IDS[6];
    }
  }

  lemma IndentOneLiners(block: seq<string>)
    requires OneLiners(block)
    ensures OneLiners(Indent(block))
  {}

  lemma CriteriaOneLiners(d: Definition)
    requires ValidDefinition(d)
    ensures OneLiners(CriteriaBlock(d))
  {
    NamesAllowed(d);
    forall i | 0 <= i < |d.criteria| ensures '\n' !in CriterionLines(d.criteria)[i] {
      var c := d.criteria[i];
      assert c in d.criteria;
      NamesHaveNoNewline(c.name);
      NoNewlineJoin(c.name, ": ");
      NoNewlineJoin(c.name + ": ", c.value);
      NoNewlineJoin("  ", c.name + ": " + c.value);
    }
  }

  lemma {:induction false} DocumentOneLiners(definitions: seq<Definition>)
    requires AllValid(definitions) && forall i :: 0 <= i < |definitions| ==> definitions[i].id in QUESTION_IDS
    ensures OneLiners(DocumentLines(definitions))
  {
    if definitions != [] {
      SectionOneLiners(definitions[0]);
      DocumentOneLiners(definitions[1..]);
    }
  }

  /** A document: some lines of introduction and one section a definition. */
  function Print(preamble: seq<string>, definitions: seq<Definition>, ending: string): string {
    TextOf(preamble + DocumentLines(definitions), ending)
  }

  ghost predicate NoHeader(lines: seq<string>) {
    forall i :: 0 <= i < |lines| ==> !("## " <= lines[i])
  }

  predicate EndsInReturn(line: string) {
    line != [] && line[|line| - 1] == '\r'
  }

  /** Round trip: every valid list, in any order of sections and criteria and with
      any instructions, is read back from its printed form. Closing lines by a bare
      newline needs that no printed line ends in a carriage return, since the reader
      takes one off; closing them by carriage return and newline needs nothing. */
  lemma RoundTrip(preamble: seq<string>, definitions: seq<Definition>, ending: string)
    requires ValidList(definitions) && OneLiners(preamble) && NoHeader(preamble)
    requires || ending == "\r\n"
             || (ending == "\n" && forall line :: line in DocumentLines(definitions) ==> !EndsInReturn(line))
    ensures Parse(Print(preamble, definitions, ending)) == Ok(definitions)
  {
    ListedIds(definitions);
    ReceivedDocument(preamble, definitions, ending);
    var lines := DocumentLines(definitions);
    forall i | 0 <= i < |lines| ensures Received(lines, ending)[i] == lines[i] {
      assert lines[i] in lines;
    }
    assert Received(lines, ending) == lines;
    LinesRead(Received(preamble, ending), definitions);
    LengthCheckDead(definitions);
  }

  lemma ReceivedDocument(preamble: seq<string>, definitions: seq<Definition>, ending: string)
    requires ValidList(definitions) && OneLiners(preamble) && NoHeader(preamble)
    requires ending == "\r\n" || ending == "\n"
    ensures Lines(Print(preamble, definitions, ending))
            == Received(preamble, ending) + Received(DocumentLines(definitions), ending)
    ensures NoHeader(Received(preamble, ending))
  {
    PrintedOneLiners(preamble, definitions);
    LinesOfText(preamble + DocumentLines(definitions), ending);
    ReceivedJoin(preamble, DocumentLines(definitions), ending);
    forall i | 0 <= i < |preamble| ensures !("## " <= Received(preamble, ending)[i]) {
      StripKeepsHeader(preamble[i]);
    }
  }

  lemma PrintedOneLiners(preamble: seq<string>, definitions: seq<Definition>)
    requires ValidList(definitions) && OneLiners(preamble)
    ensures OneLiners(preamble + DocumentLines(definitions))
  {
    ListedIds(definitions);
    DocumentOneLiners(definitions);
  }

  lemma ReceivedJoin(a: seq<string>, b: seq<string>, ending: string)
    ensures Received(a + b, ending) == Received(a, ending) + Received(b, ending)
  {}

  lemma StripKeepsHeader(line: string)
    ensures "## " <= StripReturn(line) ==> "## " <= line
  {}

  lemma ListedIds(definitions: seq<Definition>)
    requires ValidList(definitions)
    ensures AllValid(definitions) && forall i :: 0 <= i < |definitions| ==> definitions[i].id in QUESTION_IDS
  {
    forall i | 0 <= i < |definitions| ensures definitions[i].id in QUESTION_IDS && ValidDefinition(definitions[i]) {
      assert Ids(definitions)[i] == definitions[i].id;
    }
  }

  lemma LinesRead(preamble: seq<string>, definitions: seq<Definition>)
    requires NoHeader(preamble)
    requires AllValid(definitions) && forall i :: 0 <= i < |definitions| ==> definitions[i].id in QUESTION_IDS
    ensures ParseFrom(preamble + DocumentLines(definitions), 0, None, []) == Ok(definitions)
  {
    var lines := preamble + DocumentLines(definitions);
    PreambleSkipped(lines, 0, |preamble|);
    forall i | 0 <= i < |definitions| ensures definitions[i].id != [] {
      IdsHaveNoNewline(definitions[i].id);
    }
    DefinitionsRead(lines, |preamble|, definitions, None, [], []);
    assert [] + definitions == definitions;
  }

  /** The valid lists are exactly the lists some document parses to. */
  lemma ParsedIffValid(definitions: seq<Definition>)
    ensures ValidList(definitions) <==> exists document :: Parse(document) == Ok(definitions)
  {
    if ValidList(definitions) {
      RoundTrip([], definitions, "\r\n");
    }
    if document :| Parse(document) == Ok(definitions) {
      AcceptedIsValid(document);
    }
  }
}
