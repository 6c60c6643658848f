// Exactly when a question document closed by bare newlines is read back: when
// none of its section lines ends in a carriage return. Each line a parse uses
// is as long as the line the result prints, so a line cut short cannot give the
// printed list back.
module QuestionsLineEndings {
  import opened Domain
  import opened Text
  import opened QuestionsMd
  import opened QuestionsRoundTrip

  // ----- Lengths -----

  function Weight(lines: seq<string>): nat {
    if lines == [] then 0 else |lines[0]| + Weight(lines[1..])
  }

  lemma {:induction false} WeightJoin(a: seq<string>, b: seq<string>)
    ensures Weight(a + b) == Weight(a) + Weight(b)
  {
    if a == [] {
      assert a + b == b;
    } else {
      assert (a + b)[1..] == a[1..] + b;
      WeightJoin(a[1..], b);
    }
  }

  /** The printed length of what a section holds so far. */
  function RawWeight(raw: Raw): nat {
    |"## "| + |raw.id|
    + (match raw.kind case None => 0 case Some(Noul) => |"type: noul"| case Some(Choice) => |"type: choice"|)
    + (match raw.instructions case None => 0 case Some(text) => |"instructions: |"| + Weight(Indent(Split(text, '\n'))))
    + (if raw.criteriaDeclared then |"criteria:"| + Weight(CriterionLines(raw.criteria)) else 0)
  }

  function OpenWeight(current: Option<Raw>): nat {
    match current case None => 0 case Some(raw) => RawWeight(raw)
  }

  lemma SectionWeight(d: Definition)
    ensures Weight(SectionLines(d)) == RawWeight(RawOf(d))
  {
    var h, p, c := Head(d), Indent(Paragraphs(d)), CriteriaBlock(d);
    WeightJoin(h + p + c, [""]);
    WeightJoin(h + p, c);
    WeightJoin(h, p);
    HeadWeight(d);
    CriteriaWeight(d);
  }

  lemma HeadWeight(d: Definition)
    ensures Weight(Head(d)) == RawWeight(Raw(d.id, Some(d.kind), None, [], false)) + |"instructions: |"|
  {
    var h := Head(d);
    WeightOfThree(h[0], h[1], h[2]);
  }

  lemma WeightOfThree(a: string, b: string, c: string)
    ensures Weight([a, b, c]) == |a| + |b| + |c|
  {
    WeightOfOne(a);
    WeightOfOne(b);
    WeightOfOne(c);
    WeightJoin([a], [b]);
    WeightJoin([a] + [b], [c]);
    assert [a, b, c] == [a] + [b] + [c];
  }

  lemma WeightOfOne(a: string)
    ensures Weight([a]) == |a|
  {
    assert [a][1..] == [];
  }

  lemma CriteriaWeight(d: Definition)
    ensures Weight(CriteriaBlock(d)) == if d.kind.Noul? then 0 else |"criteria:"| + Weight(CriterionLines(d.criteria))
  {
    if d.kind.Choice? {
      assert CriteriaBlock(d)[1..] == CriterionLines(d.criteria);
    }
  }

  lemma {:induction false} DocumentGrows(sections: seq<Definition>, d: Definition)
    ensures Weight(DocumentLines(sections + [d])) == Weight(DocumentLines(sections)) + Weight(SectionLines(d))
  {
    if sections == [] {
      assert DocumentLines([d]) == SectionLines(d) + [] == SectionLines(d);
    } else {
      assert (sections + [d])[1..] == sections[1..] + [d];
      DocumentGrows(sections[1..], d);
      WeightJoin(SectionLines(sections[0]), DocumentLines(sections[1..]));
      WeightJoin(SectionLines(sections[0]), DocumentLines(sections[1..] + [d]));
    }
  }

  // ----- No result is longer than what it was read from -----

  lemma FinishWeight(raw: Raw)
    requires ValidRaw(raw) && Finish(raw).Ok?
    ensures Weight(SectionLines(Finish(raw).value)) == RawWeight(raw)
  {
    SectionWeight(Finish(raw).value);
  }

  lemma CloseWeight(current: Option<Raw>, sections: seq<Definition>)
    requires (current.Some? ==> ValidRaw(current.value)) && Close(current, sections).Ok?
    ensures Weight(DocumentLines(Close(current, sections).value))
            == Weight(DocumentLines(sections)) + OpenWeight(current)
  {
    if current.Some? {
      FinishWeight(current.value);
      DocumentGrows(sections, Finish(current.value).value);
    }
  }

  lemma RestWeight(lines: seq<string>, n: nat)
    requires n < |lines|
    ensures Weight(lines[n..]) == |lines[n]| + Weight(lines[n + 1..])
  {
    assert lines[n..][1..] == lines[n + 1..];
  }

  lemma {:induction false} TextWeight(lines: seq<string>, n: nat, found: seq<string>)
    requires n <= |lines| && OneLiners(lines) && OneLiners(found)
    ensures var (texts, next) := TakeText(lines, n, found);
            && OneLiners(texts) && |found| <= |texts|
            && Weight(Indent(texts)) + Weight(lines[next..]) == Weight(Indent(found)) + Weight(lines[n..])
    decreases |lines| - n
  {
    if Indented(lines, n) {
      var text := lines[n][2..];
      assert lines[n] == "  " + text;
      assert '\n' !in text;
      TextWeight(lines, n + 1, found + [text]);
      assert Indent(found + [text]) == Indent(found) + [lines[n]];
      WeightJoin(Indent(found), [lines[n]]);
      RestWeight(lines, n);
    }
  }

  lemma CriterionWeight(line: string, n: nat)
    requires "  " <= line && ParseCriterion(line, n).Ok?
    ensures var c := ParseCriterion(line, n).value; line == "  " + (c.name + ": " + c.value)
  {
    FirstSeparator(line[2..], ": ");
    assert line == "  " + line[2..];
  }

  lemma {:induction false} CriteriaTakenWeight(lines: seq<string>, n: nat, found: seq<Criterion>)
    requires n <= |lines| && TakeCriteria(lines, n, found).Ok?
    ensures var (criteria, next) := TakeCriteria(lines, n, found).value;
            Weight(CriterionLines(criteria)) + Weight(lines[next..])
                == Weight(CriterionLines(found)) + Weight(lines[n..])
    decreases |lines| - n
  {
    if Indented(lines, n) {
      var c := ParseCriterion(lines[n], n).value;
      CriterionWeight(lines[n], n);
      CriteriaTakenWeight(lines, n + 1, found + [c]);
      assert CriterionLines(found + [c]) == CriterionLines(found) + [lines[n]];
      WeightJoin(CriterionLines(found), [lines[n]]);
      RestWeight(lines, n);
    }
  }

  lemma {:induction false} SplitJoin(texts: seq<string>)
    requires texts != [] && OneLiners(texts)
    ensures Split(Join(texts), '\n') == texts
  {
    if |texts| == 1 {
      SplitOnceNone(texts[0], '\n');
    } else {
      SplitOnceAt(texts[0], '\n', Join(texts[1..]));
      SplitJoin(texts[1..]);
      assert [texts[0]] + texts[1..] == texts;
    }
  }

  lemma FieldWeight(raw: Raw, lines: seq<string>, n: nat)
    requires n < |lines| && OneLiners(lines) && ValidRaw(raw) && Field(raw, lines, n).Ok?
    ensures var (raw', next) := Field(raw, lines, n).value;
            RawWeight(raw') + Weight(lines[next..]) <= RawWeight(raw) + Weight(lines[n..])
  {
    var line := lines[n];
    RestWeight(lines, n);
    if line == "instructions: |" {
      InstructionsWeight(raw, lines, n);
    } else if line == "criteria:" {
      CriteriaTakenWeight(lines, n + 1, []);
    } else if "type: " <= line {
      assert line == "type: " + line[6..];
    }
  }

  lemma InstructionsWeight(raw: Raw, lines: seq<string>, n: nat)
    requires n < |lines| && OneLiners(lines) && lines[n] == "instructions: |" && Field(raw, lines, n).Ok?
    ensures var (raw', next) := Field(raw, lines, n).value;
            RawWeight(raw') + Weight(lines[next..]) == RawWeight(raw) + |lines[n]| + Weight(lines[n + 1..])
  {
    TextWeight(lines, n + 1, []);
    SplitJoin(TakeText(lines, n + 1, []).0);
  }

  lemma {:induction false} ParsedWeight(lines: seq<string>, n: nat, current: Option<Raw>, sections: seq<Definition>)
    requires n <= |lines| && OneLiners(lines) && (current.Some? ==> ValidRaw(current.value))
    requires ParseFrom(lines, n, current, sections).Ok?
    ensures Weight(DocumentLines(ParseFrom(lines, n, current, sections).value))
         <= Weight(DocumentLines(sections)) + OpenWeight(current) + Weight(lines[n..])
    decreases |lines| - n
  {
    if n == |lines| {
      CloseWeight(current, sections);
    } else if "## " <= lines[n] {
      CloseWeight(current, sections);
      RestWeight(lines, n);
      ParsedWeight(lines, n + 1, Some(Raw(lines[n][3..], None, None, [], false)), Close(current, sections).value);
    } else if current.None? {
      RestWeight(lines, n);
      ParsedWeight(lines, n + 1, None, sections);
    } else {
      FieldWeight(current.value, lines, n);
      FieldValid(current.value, lines, n);
      var (raw, next) := Field(current.value, lines, n).value;
      ParsedWeight(lines, next, Some(raw), sections);
    }
  }

  // ----- Bare newlines -----

  lemma {:induction false} ReceivedWeight(lines: seq<string>)
    ensures Weight(Received(lines, "\n")) <= Weight(lines)
    ensures (exists line :: line in lines && EndsInReturn(line)) ==> Weight(Received(lines, "\n")) < Weight(lines)
  {
    if lines != [] {
      ReceivedWeight(lines[1..]);
      assert Received(lines, "\n")[1..] == Received(lines[1..], "\n");
      assert lines == [lines[0]] + lines[1..];
    }
  }

  /** Under bare newlines a valid list is read back from its printed form exactly
      when none of its lines ends in a carriage return. */
  lemma BareNewlinesIff(preamble: seq<string>, definitions: seq<Definition>)
    requires ValidList(definitions) && OneLiners(preamble) && NoHeader(preamble)
    ensures Parse(Print(preamble, definitions, "\n")) == Ok(definitions)
       <==> forall line :: line in DocumentLines(definitions) ==> !EndsInReturn(line)
  {
    var lines := DocumentLines(definitions);
    if forall line :: line in lines ==> !EndsInReturn(line) {
      RoundTrip(preamble, definitions, "\n");
    } else if Parse(Print(preamble, definitions, "\n")) == Ok(definitions) {
      ReadBackWeight(preamble, definitions);
      ReceivedWeight(lines);
      assert false;
    }
  }

  lemma ReadBackWeight(preamble: seq<string>, definitions: seq<Definition>)
    requires ValidList(definitions) && OneLiners(preamble) && NoHeader(preamble)
    requires Parse(Print(preamble, definitions, "\n")) == Ok(definitions)
    ensures Weight(DocumentLines(definitions)) <= Weight(Received(DocumentLines(definitions), "\n"))
  {
    var intro, rest := Received(preamble, "\n"), Received(DocumentLines(definitions), "\n");
    ReceivedDocument(preamble, definitions, "\n");
    LinesHaveNoNewline(Print(preamble, definitions, "\n"));
    assert ParseFrom(intro + rest, 0, None, []) == Ok(definitions);
    IntroductionWeight(intro, rest);
  }

  lemma IntroductionWeight(intro: seq<string>, rest: seq<string>)
    requires OneLiners(intro + rest) && NoHeader(intro) && ParseFrom(intro + rest, 0, None, []).Ok?
    ensures Weight(DocumentLines(ParseFrom(intro + rest, 0, None, []).value)) <= Weight(rest)
  {
    PreambleSkipped(intro + rest, 0, |intro|);
    ParsedWeight(intro + rest, |intro|, None, []);
    assert (intro + rest)[|intro|..] == rest;
  }

  /** A list whose instructions end in a carriage return. */
  function ReturnList(): (definitions: seq<Definition>)
    ensures |definitions| == 8
  {
    seq(8, i requires 0 <= i < 8 =>
      Definition(QUESTION_IDS[i], Noul, if UsesPrice(QUESTION_IDS[i]) then PLACEHOLDER + "\r" else "\r", []))
  }

  lemma ReturnListValid()
    ensures ValidList(ReturnList())
  {
    assert Ids(ReturnList()) == QUESTION_IDS;
    forall d | d in ReturnList() ensures ValidDefinition(d) {
      var i :| 0 <= i < 8 && ReturnList()[i] == d;
    }
  }

  /** A valid list that is not read back under bare newlines. */
  lemma ReturnIsLost()
    ensures ValidList(ReturnList()) && Parse(Print([], ReturnList(), "\n")) != Ok(ReturnList())
  {
    ReturnListValid();
    BareNewlinesIff([], ReturnList());
    FirstReturn();
  }

  lemma FirstReturn()
    ensures exists line :: line in DocumentLines(ReturnList()) && EndsInReturn(line)
  {
    var d := ReturnList()[0];
    SplitOnceNone("\r", '\n');
    assert Paragraphs(d) == ["\r"];
    assert SectionLines(d)[3] == Indent(Paragraphs(d))[0];
    FirstSectionLine(ReturnList(), 3);
  }

  lemma FirstSectionLine(definitions: seq<Definition>, i: nat)
    requires definitions != [] && i < |SectionLines(definitions[0])|
    ensures SectionLines(definitions[0])[i] in DocumentLines(definitions)
  {
    assert DocumentLines(definitions)[i] == SectionLines(definitions[0])[i];
  }
}
