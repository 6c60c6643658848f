// Why a question document is rejected: the fault each error names, in the order
// the program looks for faults, and the line a syntax error points at.
module QuestionsErrors {
  import opened Domain
  import opened Text
  import opened QuestionsMd
  import opened QuestionsRoundTrip

  // ----- Names -----

  /** The first `k` names are allowed and differ from each other. */
  ghost predicate SoundUpTo(names: seq<string>, allowed: seq<string>, k: nat) {
    && k <= |names|
    && (forall i :: 0 <= i < k ==> names[i] in allowed)
    && forall i, j :: 0 <= i < j < k ==> names[i] != names[j]
  }

  /** `x` is the first fault: a name that is not allowed. */
  ghost predicate FirstForeign(names: seq<string>, allowed: seq<string>, x: string) {
    exists k: nat :: k < |names| && SoundUpTo(names, allowed, k) && names[k] == x && x !in allowed
  }

  /** `x` is the first fault: an allowed name that occurred before. */
  ghost predicate FirstTwice(names: seq<string>, allowed: seq<string>, x: string) {
    exists k: nat :: k < |names| && SoundUpTo(names, allowed, k) && names[k] == x && x in allowed && x in names[..k]
  }

  /** The names are sound, and `x` is the first allowed one that is missing. */
  ghost predicate FirstMissing(names: seq<string>, allowed: seq<string>, x: string) {
    && SoundUpTo(names, allowed, |names|)
    && exists k: nat :: && k < |allowed| && allowed[k] == x && x !in names
                        && forall i :: 0 <= i < k ==> allowed[i] in names
  }

  lemma {:induction false} AbsentMeans(names: seq<string>, allowed: seq<string>, k: nat)
    requires k <= |allowed| && SoundUpTo(names, allowed, |names|)
    requires forall i :: 0 <= i < k ==> allowed[i] in names
    ensures match FirstAbsent(names, allowed, k)
            case None => EachOnce(names, allowed)
            case Some(Absent(x)) => FirstMissing(names, allowed, x)
            case _ => false
    decreases |allowed| - k
  {
    if k < |allowed| && allowed[k] in names {
      AbsentMeans(names, allowed, k + 1);
    }
  }

  lemma {:induction false} ScanMeans(names: seq<string>, allowed: seq<string>, k: nat)
    requires SoundUpTo(names, allowed, k)
    ensures match ScanNames(names, allowed, k)
            case None => EachOnce(names, allowed)
            case Some(Unexpected(x)) => FirstForeign(names, allowed, x)
            case Some(Repeated(x)) => FirstTwice(names, allowed, x)
            case Some(Absent(x)) => FirstMissing(names, allowed, x)
    decreases |names| - k
  {
    if k == |names| {
      AbsentMeans(names, allowed, 0);
    } else if names[k] in allowed && names[k] !in names[..k] {
      forall i | 0 <= i < k ensures names[i] != names[k] {
        assert names[..k][i] == names[i];
      }
      ScanMeans(names, allowed, k + 1);
    }
  }

  /** A list has at most one first fault. */
  lemma OneFault(names: seq<string>, allowed: seq<string>, x: string, y: string)
    ensures FirstForeign(names, allowed, x) && FirstForeign(names, allowed, y) ==> x == y
    ensures FirstTwice(names, allowed, x) && FirstTwice(names, allowed, y) ==> x == y
    ensures FirstMissing(names, allowed, x) && FirstMissing(names, allowed, y) ==> x == y
    ensures !(FirstForeign(names, allowed, x) && FirstTwice(names, allowed, y))
    ensures FirstForeign(names, allowed, x) || FirstTwice(names, allowed, x) ==> !SoundUpTo(names, allowed, |names|)
  {}

  lemma ScanFaultIff(names: seq<string>, allowed: seq<string>, x: string)
    ensures ScanNames(names, allowed, 0) == Some(Unexpected(x)) <==> FirstForeign(names, allowed, x)
    ensures ScanNames(names, allowed, 0) == Some(Repeated(x)) <==> FirstTwice(names, allowed, x)
    ensures ScanNames(names, allowed, 0) == Some(Absent(x)) <==> FirstMissing(names, allowed, x)
  {
    ScanMeans(names, allowed, 0);
    var found := ScanNames(names, allowed, 0);
    if found.Some? {
      OneFault(names, allowed, x, found.value.name);
      OneFault(names, allowed, found.value.name, x);
    }
  }

  /** Why a list of sections is rejected, exactly. */
  lemma SectionsRejected(sections: seq<Definition>, x: string)
    ensures var r, ids := ValidateSections(sections), Ids(sections);
            && (r == Err(UnknownQuestionId(x)) <==> FirstForeign(ids, QUESTION_IDS, x))
            && (r == Err(DuplicateQuestionId(x)) <==> FirstTwice(ids, QUESTION_IDS, x))
            && (r == Err(MissingField(x, "section")) <==> FirstMissing(ids, QUESTION_IDS, x))
  {
    ScanFaultIff(Ids(sections), QUESTION_IDS, x);
  }

  /** Why the criteria of a choice are rejected, exactly. */
  lemma CriteriaRejected(id: string, criteria: seq<Criterion>, x: string)
    ensures var r, names := ValidateCriteria(id, criteria), Names(criteria);
            && (r == Err(UnexpectedCriterion(id, x)) <==> FirstForeign(names, CRITERIA_IDS, x))
            && (r == Err(DuplicateCriterion(id, x)) <==> FirstTwice(names, CRITERIA_IDS, x))
            && (r == Err(MissingCriterion(id, x)) <==> FirstMissing(names, CRITERIA_IDS, x))
  {
    ScanFaultIff(Names(criteria), CRITERIA_IDS, x);
  }

  // ----- Sections -----

  /** The fault found when a section is closed, in this order: no type, no
      instructions, criteria of a question that is no choice, a choice without
      criteria, criteria that are not the seven names once each, and a price
      placeholder missing from a fill question or present in another. */
  lemma SectionFaults(raw: Raw)
    ensures var r, id := Finish(raw), raw.id;
            var complete := raw.kind.Some? && raw.instructions.Some?;
            var declared := complete && (raw.kind == Some(Choice) <==> raw.criteriaDeclared);
            var named := declared && (raw.kind == Some(Choice) ==> EachOnce(Names(raw.criteria), CRITERIA_IDS));
            var aboutFill := id == "fill_before_decay" || id == "fill_toxic";
            && (r == Err(MissingField(id, "type")) <==> raw.kind.None?)
            && (r == Err(MissingField(id, "instructions")) <==> raw.kind.Some? && raw.instructions.None?)
            && (r == Err(UnexpectedCriteria(id)) <==> complete && raw.kind == Some(Noul) && raw.criteriaDeclared)
            && (r == Err(MissingField(id, "criteria")) <==>
                  complete && raw.kind == Some(Choice) && !raw.criteriaDeclared)
            && (declared && !named ==>
                  ValidateCriteria(id, raw.criteria).Err? && r == Err(ValidateCriteria(id, raw.criteria).error))
            && (r == Err(MissingCandidatePricePlaceholder(id)) <==>
                  named && aboutFill && !Contains(raw.instructions.value, "{candidate_price}"))
            && (r == Err(UnexpectedCandidatePricePlaceholder(id)) <==>
                  named && !aboutFill && Contains(raw.instructions.value, "{candidate_price}"))
  {
    ScanIff(Names(raw.criteria), CRITERIA_IDS);
    assert PLACEHOLDER == "{candidate_price}";
  }

  // ----- Lines -----

  /** A syntax error names a line of the document, by its number and content. */
  predicate Located(lines: seq<string>, e: DocumentError) {
    e.InvalidSyntax? ==> 1 <= e.line <= |lines| && lines[e.line - 1] == e.content
  }

  lemma FinishLocated(raw: Raw, lines: seq<string>)
    ensures Finish(raw).Err? ==> Located(lines, Finish(raw).error)
  {}

  lemma {:induction false} CriteriaLocated(lines: seq<string>, n: nat, found: seq<Criterion>)
    requires n <= |lines|
    ensures TakeCriteria(lines, n, found).Err? ==> Located(lines, TakeCriteria(lines, n, found).error)
    decreases |lines| - n
  {
    if Indented(lines, n) && ParseCriterion(lines[n], n).Ok? {
      CriteriaLocated(lines, n + 1, found + [ParseCriterion(lines[n], n).value]);
    }
  }

  lemma FieldLocated(raw: Raw, lines: seq<string>, n: nat)
    requires n < |lines|
    ensures Field(raw, lines, n).Err? ==> Located(lines, Field(raw, lines, n).error)
  {
    CriteriaLocated(lines, n + 1, raw.criteria);
  }

  lemma {:induction false} ParsedLocated(lines: seq<string>, n: nat, current: Option<Raw>, sections: seq<Definition>)
    requires n <= |lines|
    ensures var r := ParseFrom(lines, n, current, sections); r.Err? ==> Located(lines, r.error)
    decreases |lines| - n
  {
    if current.Some? {
      FinishLocated(current.value, lines);
    }
    if n < |lines| {
      if "## " <= lines[n] {
        if Close(current, sections).Ok? {
          ParsedLocated(lines, n + 1, Some(Raw(lines[n][3..], None, None, [], false)), Close(current, sections).value);
        }
      } else if current.None? {
        ParsedLocated(lines, n + 1, None, sections);
      } else {
        FieldLocated(current.value, lines, n);
        var field := Field(current.value, lines, n);
        if field.Ok? {
          ParsedLocated(lines, field.value.1, Some(field.value.0), sections);
        }
      }
    }
  }

  /** Every syntax error of every document quotes the line whose number it gives. */
  lemma SyntaxErrorsLocated(document: string)
    ensures Parse(document).Err? ==> Located(Lines(document), Parse(document).error)
  {
    ParsedLocated(Lines(document), 0, None, []);
    var r := ParseFrom(Lines(document), 0, None, []);
    if r.Ok? {
      LengthCheckDead(r.value);
      ScanIff(Ids(r.value), QUESTION_IDS);
    }
  }

  /** What is wrong with a line inside a section: a second type, instructions or
      criteria line, or a line of no known form; an unsupported type; and an
      instructions line without an indented line below it. */
  lemma LineFaults(raw: Raw, lines: seq<string>, n: nat)
    requires n < |lines|
    ensures var r, line := Field(raw, lines, n), lines[n];
            var skipped := line == "" || line[0] == '#';
            var typed, texted, listed := "type: " <= line, line == "instructions: |", line == "criteria:";
            var again := || (typed && raw.kind.Some?)
                         || (texted && raw.instructions.Some?)
                         || (listed && raw.criteriaDeclared);
            && (skipped ==> r == Ok((raw, n + 1)))
            && (again || !(skipped || typed || texted || listed) ==> r == Err(InvalidSyntax(n + 1, line)))
            && (typed && !again && line != "type: noul" && line != "type: choice" ==>
                  r == Err(InvalidType(raw.id, line[6..])))
            && (line == "type: noul" && !again ==> r == Ok((raw.(kind := Some(Noul)), n + 1)))
            && (line == "type: choice" && !again ==> r == Ok((raw.(kind := Some(Choice)), n + 1)))
            && (texted && !again && (n + 1 == |lines| || !("  " <= lines[n + 1])) ==>
                  r == Err(MissingField(raw.id, "instructions")))
  {
    var line := lines[n];
    if "type: " <= line {
      assert line == "type: " + line[6..];
    }
    if line == "instructions: |" && Indented(lines, n + 1) {
      TextFound(lines, n + 2, [lines[n + 1][2..]]);
    }
  }

  lemma {:induction false} TextFound(lines: seq<string>, n: nat, found: seq<string>)
    requires n <= |lines| && found != []
    ensures TakeText(lines, n, found).0 != []
    decreases |lines| - n
  {
    if Indented(lines, n) {
      TextFound(lines, n + 1, found + [lines[n][2..]]);
    }
  }

  /** A criterion line has a name, a colon, a blank and a value, split at the first
      place where a colon and a blank follow each other. */
  lemma CriterionLineIff(line: string, n: nat, c: Criterion)
    requires "  " <= line
    ensures ParseCriterion(line, n) == Ok(c)
       <==> && c.name != [] && c.value != [] && line == "  " + c.name + ": " + c.value
            && forall i :: 0 <= i < |c.name| ==> !(": " <= (c.name + ": " + c.value)[i..])
    ensures ParseCriterion(line, n).Err? ==> ParseCriterion(line, n) == Err(InvalidSyntax(n + 1, line))
  {
    if ParseCriterion(line, n) == Ok(c) {
      FirstSeparator(line[2..], ": ");
    }
    if line == "  " + c.name + ": " + c.value
       && forall i :: 0 <= i < |c.name| ==> !(": " <= (c.name + ": " + c.value)[i..]) {
      assert line[2..] == c.name + ": " + c.value;
      SplitAtFirst(c.name, ": ", c.value);
    }
  }
}
