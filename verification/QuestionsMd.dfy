// The parser of the versioned question document (src/jev/questions_md.rs).
//
// The methods read the document line by line, as the program does. They are
// proved against the functions of this module; the theorems are in
// QuestionsRoundTrip.
module QuestionsMd {
  import opened Domain
  import opened Text

  const QUESTION_IDS: seq<string> := [
    "yes_pressure_5s", "no_pressure_5s", "move_persists", "underreact_up",
    "underreact_down", "repricing_ticks", "fill_before_decay", "fill_toxic"]

  /** The questions looked up before and after the repricing criteria. */
  const FRONT_IDS: seq<string> := QUESTION_IDS[..6]
  const BACK_IDS: seq<string> := QUESTION_IDS[6..]

  const CRITERIA_IDS: seq<string> := [
    "UP_3_PLUS_TICKS", "UP_2_TICKS", "UP_1_TICK", "FLAT",
    "DOWN_1_TICK", "DOWN_2_TICKS", "DOWN_3_PLUS_TICKS"]

  const PLACEHOLDER: string := "{candidate_price}"

  datatype QuestionType = Noul | Choice

  datatype Criterion = Criterion(name: string, value: string)

  datatype Definition = Definition(id: string, kind: QuestionType, instructions: string, criteria: seq<Criterion>)

  datatype Raw = Raw(
    id: string,
    kind: Option<QuestionType>,
    instructions: Option<string>,
    criteria: seq<Criterion>,
    criteriaDeclared: bool)

  datatype DocumentError =
    | InvalidSyntax(line: nat, content: string)
    | MissingField(id: string, field: string)
    | UnknownQuestionId(id: string)
    | DuplicateQuestionId(id: string)
    | InvalidType(id: string, kind: string)
    | UnexpectedCriteria(id: string)
    | MissingCriterion(id: string, criterion: string)
    | UnexpectedCriterion(id: string, criterion: string)
    | DuplicateCriterion(id: string, criterion: string)
    | MissingCandidatePricePlaceholder(id: string)
    | UnexpectedCandidatePricePlaceholder(id: string)

  // ----- Lines -----

  function StripReturn(line: string): string {
    if line != [] && line[|line| - 1] == '\r' then line[..|line| - 1] else line
  }

  /** `str::lines`: a line ends at a newline, which takes one carriage return in
      front of it along. */
  function Lines(document: string): seq<string>
    decreases |document|
  {
    if document == [] then []
    else
      match SplitOnce(document, '\n')
      case None => [document]
      case Some((line, rest)) => [StripReturn(line)] + Lines(rest)
  }

  /** The lines of a block joined by newlines. */
  function Join(lines: seq<string>): string {
    if lines == [] then []
    else if |lines| == 1 then lines[0]
    else lines[0] + ['\n'] + Join(lines[1..])
  }

  function SplitOnceAtText(s: string, separator: string): Option<(string, string)> {
    if separator <= s then Some(([], s[|separator|..]))
    else if s == [] then None
    else
      match SplitOnceAtText(s[1..], separator)
      case None => None
      case Some((a, b)) => Some(([s[0]] + a, b))
  }

  predicate Contains(s: string, needle: string) {
    needle <= s || (s != [] && Contains(s[1..], needle))
  }

  // ----- Checking a list of names -----

  datatype NameProblem = Unexpected(name: string) | Repeated(name: string) | Absent(name: string)

  /** The first name that is not allowed or occurs again, otherwise the first
      allowed name that does not occur. */
  function ScanNames(names: seq<string>, allowed: seq<string>, k: nat): Option<NameProblem>
    requires k <= |names|
    decreases |names| - k
  {
    if k == |names| then FirstAbsent(names, allowed, 0)
    else if names[k] !in allowed then Some(Unexpected(names[k]))
    else if names[k] in names[..k] then Some(Repeated(names[k]))
    else ScanNames(names, allowed, k + 1)
  }

  function FirstAbsent(names: seq<string>, allowed: seq<string>, k: nat): Option<NameProblem>
    requires k <= |allowed|
    decreases |allowed| - k
  {
    if k == |allowed| then None
    else if allowed[k] !in names then Some(Absent(allowed[k]))
    else FirstAbsent(names, allowed, k + 1)
  }

  /** The loops of `validate_sections` and `validate_criteria` over a growing set. */
  method CheckNames(names: seq<string>, allowed: seq<string>) returns (problem: Option<NameProblem>)
    ensures problem == ScanNames(names, allowed, 0)
  {
    var seen: set<string> := {};
    var k := 0;
    while k < |names|
      invariant 0 <= k <= |names|
      invariant forall x :: x in seen <==> x in names[..k]
      invariant ScanNames(names, allowed, k) == ScanNames(names, allowed, 0)
    {
      if names[k] !in allowed {
        return Some(Unexpected(names[k]));
      }
      if names[k] in seen {
        return Some(Repeated(names[k]));
      }
      assert names[..k + 1] == names[..k] + [names[k]];
      seen := seen + {names[k]};
      k := k + 1;
    }
    assert names[..k] == names;
    k := 0;
    while k < |allowed|
      invariant 0 <= k <= |allowed|
      invariant FirstAbsent(names, allowed, k) == ScanNames(names, allowed, 0)
    {
      if allowed[k] !in seen {
        return Some(Absent(allowed[k]));
      }
      k := k + 1;
    }
    return None;
  }

  function Ids(sections: seq<Definition>): (ids: seq<string>)
    ensures |ids| == |sections| && forall i :: 0 <= i < |ids| ==> ids[i] == sections[i].id
  {
    seq(|sections|, i requires 0 <= i < |sections| => sections[i].id)
  }

  function Names(criteria: seq<Criterion>): (names: seq<string>)
    ensures |names| == |criteria| && forall i :: 0 <= i < |names| ==> names[i] == criteria[i].name
  {
    seq(|criteria|, i requires 0 <= i < |criteria| => criteria[i].name)
  }

  function SectionsVerdict(problem: Option<NameProblem>, sections: seq<Definition>)
      : Result<seq<Definition>, DocumentError> {
    match problem
    case Some(Unexpected(id)) => Err(UnknownQuestionId(id))
    case Some(Repeated(id)) => Err(DuplicateQuestionId(id))
    case Some(Absent(id)) => Err(MissingField(id, "section"))
    case None =>
      if |sections| != |QUESTION_IDS| then Err(InvalidSyntax(0, "expected exactly eight question sections"))
      else Ok(sections)
  }

  function CriteriaVerdict(problem: Option<NameProblem>, id: string): Result<(), DocumentError> {
    match problem
    case Some(Unexpected(name)) => Err(UnexpectedCriterion(id, name))
    case Some(Repeated(name)) => Err(DuplicateCriterion(id, name))
    case Some(Absent(name)) => Err(MissingCriterion(id, name))
    case None => Ok(())
  }

  /** `validate_sections`. */
  function ValidateSections(sections: seq<Definition>): Result<seq<Definition>, DocumentError> {
    SectionsVerdict(ScanNames(Ids(sections), QUESTION_IDS, 0), sections)
  }

  /** `validate_criteria`. */
  function ValidateCriteria(id: string, criteria: seq<Criterion>): Result<(), DocumentError> {
    CriteriaVerdict(ScanNames(Names(criteria), CRITERIA_IDS, 0), id)
  }

  // ----- Closing a section -----

  predicate UsesPrice(id: string) {
    id == "fill_before_decay" || id == "fill_toxic"
  }

  /** `finish`. */
  function Finish(raw: Raw): Result<Definition, DocumentError> {
    if raw.kind.None? then Err(MissingField(raw.id, "type"))
    else if raw.instructions.None? then Err(MissingField(raw.id, "instructions"))
    else if raw.kind.value.Noul? && raw.criteriaDeclared then Err(UnexpectedCriteria(raw.id))
    else if raw.kind.value.Choice? && !raw.criteriaDeclared then Err(MissingField(raw.id, "criteria"))
    else
      var _ :- if raw.kind.value.Choice? then ValidateCriteria(raw.id, raw.criteria) else Ok(());
      if UsesPrice(raw.id) && !Contains(raw.instructions.value, PLACEHOLDER) then
        Err(MissingCandidatePricePlaceholder(raw.id))
      else if !UsesPrice(raw.id) && Contains(raw.instructions.value, PLACEHOLDER) then
        Err(UnexpectedCandidatePricePlaceholder(raw.id))
      else Ok(Definition(raw.id, raw.kind.value, raw.instructions.value, raw.criteria))
  }

  /** The sections once the open one, if any, is finished. */
  function Close(current: Option<Raw>, sections: seq<Definition>): Result<seq<Definition>, DocumentError> {
    match current
    case None => Ok(sections)
    case Some(raw) =>
      var d :- Finish(raw);
      Ok(sections + [d])
  }

  // ----- Reading lines -----

  predicate Indented(lines: seq<string>, n: nat) {
    n < |lines| && "  " <= lines[n]
  }

  /** The indented block from line `n` on, appended to `found`. */
  function TakeText(lines: seq<string>, n: nat, found: seq<string>): (r: (seq<string>, nat))
    requires n <= |lines|
    ensures n <= r.1 <= |lines|
    decreases |lines| - n
  {
    if !Indented(lines, n) then (found, n) else TakeText(lines, n + 1, found + [lines[n][2..]])
  }

  function ParseCriterion(line: string, n: nat): Result<Criterion, DocumentError>
    requires "  " <= line
  {
    match SplitOnceAtText(line[2..], ": ")
    case None => Err(InvalidSyntax(n + 1, line))
    case Some((name, value)) =>
      if name == [] || value == [] then Err(InvalidSyntax(n + 1, line)) else Ok(Criterion(name, value))
  }

  function TakeCriteria(lines: seq<string>, n: nat, found: seq<Criterion>)
      : (r: Result<(seq<Criterion>, nat), DocumentError>)
    requires n <= |lines|
    ensures r.Ok? ==> n <= r.value.1 <= |lines|
    decreases |lines| - n
  {
    if !Indented(lines, n) then Ok((found, n))
    else
      var c :- ParseCriterion(lines[n], n);
      TakeCriteria(lines, n + 1, found + [c])
  }

  function KindOf(id: string, kind: string): Result<QuestionType, DocumentError> {
    if kind == "noul" then Ok(Noul) else if kind == "choice" then Ok(Choice) else Err(InvalidType(id, kind))
  }

  /** One line inside a section, with the block below it; the new section and the
      next line to read. */
  function Field(raw: Raw, lines: seq<string>, n: nat): (r: Result<(Raw, nat), DocumentError>)
    requires n < |lines|
    ensures r.Ok? ==> n < r.value.1 <= |lines|
  {
    var line := lines[n];
    if line == [] || line[0] == '#' then Ok((raw, n + 1))
    else if "type: " <= line then
      if raw.kind.Some? then Err(InvalidSyntax(n + 1, line))
      else
        var kind :- KindOf(raw.id, line[6..]);
        Ok((raw.(kind := Some(kind)), n + 1))
    else if line == "instructions: |" then
      if raw.instructions.Some? then Err(InvalidSyntax(n + 1, line))
      else
        var (texts, next) := TakeText(lines, n + 1, []);
        if texts == [] then Err(MissingField(raw.id, "instructions"))
        else Ok((raw.(instructions := Some(Join(texts))), next))
    else if line == "criteria:" then
      if raw.criteriaDeclared then Err(InvalidSyntax(n + 1, line))
      else
        var (criteria, next) :- TakeCriteria(lines, n + 1, raw.criteria);
        Ok((raw.(criteria := criteria, criteriaDeclared := true), next))
    else Err(InvalidSyntax(n + 1, line))
  }

  /** The parse of the lines from `n` on, given the open section and the finished ones. */
  function ParseFrom(lines: seq<string>, n: nat, current: Option<Raw>, sections: seq<Definition>)
      : Result<seq<Definition>, DocumentError>
    requires n <= |lines|
    decreases |lines| - n
  {
    if n == |lines| then Close(current, sections)
    else if "## " <= lines[n] then
      var closed :- Close(current, sections);
      if lines[n][3..] == [] then Err(InvalidSyntax(n + 1, lines[n]))
      else ParseFrom(lines, n + 1, Some(Raw(lines[n][3..], None, None, [], false)), closed)
    else if current.None? then ParseFrom(lines, n + 1, None, sections)
    else
      var (raw, next) :- Field(current.value, lines, n);
      ParseFrom(lines, next, Some(raw), sections)
  }

  function Parse(document: string): Result<seq<Definition>, DocumentError> {
    var sections :- ParseFrom(Lines(document), 0, None, []);
    ValidateSections(sections)
  }

  // ----- The parser -----

  method FinishSection(raw: Raw) returns (r: Result<Definition, DocumentError>)
    ensures r == Finish(raw)
  {
    if raw.kind == None {
      return Err(MissingField(raw.id, "type"));
    }
    if raw.instructions == None {
      return Err(MissingField(raw.id, "instructions"));
    }
    match raw.kind.value {
      case Noul =>
        if raw.criteriaDeclared {
          return Err(UnexpectedCriteria(raw.id));
        }
      case Choice =>
        if !raw.criteriaDeclared {
          return Err(MissingField(raw.id, "criteria"));
        }
        var problem := CheckNames(Names(raw.criteria), CRITERIA_IDS);
        var verdict := CriteriaVerdict(problem, raw.id);
        if verdict.Err? {
          return Err(verdict.error);
        }
    }
    if UsesPrice(raw.id) && !Contains(raw.instructions.value, PLACEHOLDER) {
      return Err(MissingCandidatePricePlaceholder(raw.id));
    }
    if !UsesPrice(raw.id) && Contains(raw.instructions.value, PLACEHOLDER) {
      return Err(UnexpectedCandidatePricePlaceholder(raw.id));
    }
    return Ok(Definition(raw.id, raw.kind.value, raw.instructions.value, raw.criteria));
  }

  method ReadInstructions(lines: seq<string>, start: nat) returns (texts: seq<string>, n: nat)
    requires start <= |lines|
    ensures (texts, n) == TakeText(lines, start, [])
  {
    texts, n := [], start;
    while n < |lines| && "  " <= lines[n]
      invariant start <= n <= |lines|
      invariant TakeText(lines, n, texts) == TakeText(lines, start, [])
    {
      texts := texts + [lines[n][2..]];
      n := n + 1;
    }
  }

  method ReadCriteria(lines: seq<string>, start: nat, criteria: seq<Criterion>)
      returns (r: Result<(seq<Criterion>, nat), DocumentError>)
    requires start <= |lines|
    ensures r == TakeCriteria(lines, start, criteria)
  {
    var found, n := criteria, start;
    while n < |lines| && "  " <= lines[n]
      invariant start <= n <= |lines|
      invariant TakeCriteria(lines, n, found) == TakeCriteria(lines, start, criteria)
    {
      var entry := ParseCriterion(lines[n], n);
      if entry.Err? {
        return Err(entry.error);
      }
      found := found + [entry.value];
      n := n + 1;
    }
    return Ok((found, n));
  }

  method ReadField(raw: Raw, lines: seq<string>, n: nat) returns (r: Result<(Raw, nat), DocumentError>)
    requires n < |lines|
    ensures r == Field(raw, lines, n)
  {
    var line := lines[n];
    if line == [] || line[0] == '#' {
      return Ok((raw, n + 1));
    }
    if "type: " <= line {
      if raw.kind.Some? {
        return Err(InvalidSyntax(n + 1, line));
      }
      var kind := KindOf(raw.id, line[6..]);
      return if kind.Err? then Err(kind.error) else Ok((raw.(kind := Some(kind.value)), n + 1));
    }
    if line == "instructions: |" {
      if raw.instructions.Some? {
        return Err(InvalidSyntax(n + 1, line));
      }
      var texts, next := ReadInstructions(lines, n + 1);
      if texts == [] {
        return Err(MissingField(raw.id, "instructions"));
      }
      return Ok((raw.(instructions := Some(Join(texts))), next));
    }
    if line == "criteria:" {
      if raw.criteriaDeclared {
        return Err(InvalidSyntax(n + 1, line));
      }
      var read := ReadCriteria(lines, n + 1, raw.criteria);
      return if read.Err? then Err(read.error)
             else Ok((raw.(criteria := read.value.0, criteriaDeclared := true), read.value.1));
    }
    return Err(InvalidSyntax(n + 1, line));
  }

  /** `parse_document`. */
  method ParseDocument(document: string) returns (r: Result<seq<Definition>, DocumentError>)
    ensures r == Parse(document)
  {
    var lines := Lines(document);
    var sections: seq<Definition> := [];
    var current: Option<Raw> := None;
    var n := 0;
    while n < |lines|
      invariant 0 <= n <= |lines|
      invariant ParseFrom(lines, n, current, sections) == ParseFrom(lines, 0, None, [])
      decreases |lines| - n
    {
      var line := lines[n];
      if "## " <= line {
        if current.Some? {
          var d := FinishSection(current.value);
          if d.Err? {
            return Err(d.error);
          }
          sections := sections + [d.value];
        }
        if line[3..] == [] {
          return Err(InvalidSyntax(n + 1, line));
        }
        current := Some(Raw(line[3..], None, None, [], false));
        n := n + 1;
      } else if current.None? {
        n := n + 1;
      } else {
        var field := ReadField(current.value, lines, n);
        if field.Err? {
          return Err(field.error);
        }
        current, n := Some(field.value.0), field.value.1;
      }
    }
    if current.Some? {
      var d := FinishSection(current.value);
      if d.Err? {
        return Err(d.error);
      }
      sections := sections + [d.value];
    }
    var problem := CheckNames(Ids(sections), QUESTION_IDS);
    return SectionsVerdict(problem, sections);
  }

  // ----- Building the questions -----

  /** `str::replace`, leftmost and without overlaps. */
  function Replace(s: string, needle: string, text: string): string
    requires needle != []
    decreases |s|
  {
    if needle <= s then text + Replace(s[|needle|..], needle, text)
    else if s == [] then []
    else [s[0]] + Replace(s[1..], needle, text)
  }

  /** `render_instructions`; `price` is the candidate price's text. */
  function Render(d: Definition, price: string): string {
    Replace(d.instructions, PLACEHOLDER, price)
  }

  datatype RepricingCriteria = RepricingCriteria(
    up3PlusTicks: string, up2Ticks: string, up1Tick: string, flat: string,
    down1Tick: string, down2Ticks: string, down3PlusTicks: string)

  datatype V1Questions = V1Questions(
    yesPressure5s: string, noPressure5s: string, movePersists: string,
    underreactUp: string, underreactDown: string,
    repricingTicks: string, repricingCriteria: RepricingCriteria,
    fillBeforeDecay: string, fillToxic: string)

  function Find(definitions: seq<Definition>, id: string): (r: Result<Definition, DocumentError>)
    ensures r.Ok? ==> r.value in definitions && r.value.id == id
    ensures r.Err? ==> r.error == UnknownQuestionId(id) && forall d :: d in definitions ==> d.id != id
  {
    if definitions == [] then Err(UnknownQuestionId(id))
    else if definitions[0].id == id then Ok(definitions[0])
    else Find(definitions[1..], id)
  }

  function Instruction(definitions: seq<Definition>, id: string, price: string): Result<string, DocumentError> {
    var d :- Find(definitions, id);
    Ok(Render(d, price))
  }

  function CriterionValue(id: string, criteria: seq<Criterion>, name: string): (r: Result<string, DocumentError>)
    ensures r.Ok? ==> Criterion(name, r.value) in criteria
    ensures r.Err? ==> r.error == MissingCriterion(id, name) && forall c :: c in criteria ==> c.name != name
  {
    if criteria == [] then Err(MissingCriterion(id, name))
    else if criteria[0].name == name then Ok(criteria[0].value)
    else CriterionValue(id, criteria[1..], name)
  }

  /** The instructions of some questions, up to the first that is missing. */
  function Instructions(definitions: seq<Definition>, ids: seq<string>, price: string)
      : (r: Result<seq<string>, DocumentError>)
    ensures r.Ok? ==> |r.value| == |ids|
  {
    if ids == [] then Ok([])
    else
      var first :- Instruction(definitions, ids[0], price);
      var rest :- Instructions(definitions, ids[1..], price);
      Ok([first] + rest)
  }

  /** The values of some criteria, up to the first that is missing. */
  function CriterionValues(id: string, criteria: seq<Criterion>, names: seq<string>)
      : (r: Result<seq<string>, DocumentError>)
    ensures r.Ok? ==> |r.value| == |names|
  {
    if names == [] then Ok([])
    else
      var first :- CriterionValue(id, criteria, names[0]);
      var rest :- CriterionValues(id, criteria, names[1..]);
      Ok([first] + rest)
  }

  /** `build_questions`: the lookups in the program's order. */
  function BuildQuestions(definitions: seq<Definition>, price: string): Result<V1Questions, DocumentError> {
    var repricing :- Find(definitions, "repricing_ticks");
    var front :- Instructions(definitions, FRONT_IDS, price);
    var values :- CriterionValues(repricing.id, repricing.criteria, CRITERIA_IDS);
    var back :- Instructions(definitions, BACK_IDS, price);
    Ok(FromParts(front, values, back))
  }

  /** `V1Questions::from_parts`. */
  function FromParts(front: seq<string>, values: seq<string>, back: seq<string>): V1Questions
    requires |front| == 6 && |values| == 7 && |back| == 2
  {
    V1Questions(front[0], front[1], front[2], front[3], front[4], front[5],
                RepricingCriteria(values[0], values[1], values[2], values[3], values[4], values[5], values[6]),
                back[0], back[1])
  }
}
