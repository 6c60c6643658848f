// Building the eight questions from an accepted document (build_questions in
// src/jev/questions_md.rs).
module QuestionsBuild {
  import opened Domain
  import opened Text
  import opened QuestionsMd
  import opened QuestionsRoundTrip

  /** The built texts, in the order of QUESTION_IDS. */
  function Texts(q: V1Questions): (texts: seq<string>)
    ensures |texts| == |QUESTION_IDS|
  {
    [q.yesPressure5s, q.noPressure5s, q.movePersists, q.underreactUp,
     q.underreactDown, q.repricingTicks, q.fillBeforeDecay, q.fillToxic]
  }

  /** The built criteria, in the order of CRITERIA_IDS. */
  function Values(q: RepricingCriteria): (values: seq<string>)
    ensures |values| == |CRITERIA_IDS|
  {
    [q.up3PlusTicks, q.up2Ticks, q.up1Tick, q.flat, q.down1Tick, q.down2Ticks, q.down3PlusTicks]
  }

  /** An id finds its one definition. */
  lemma FindUnique(definitions: seq<Definition>, d: Definition)
    requires ValidList(definitions) && d in definitions
    ensures Find(definitions, d.id) == Ok(d)
  {
    var found := Find(definitions, d.id);
    var i :| 0 <= i < |definitions| && definitions[i] == d;
    var k :| 0 <= k < |definitions| && definitions[k] == found.value;
    assert Ids(definitions)[i] == Ids(definitions)[k];
  }

  lemma EveryIdFound(definitions: seq<Definition>, id: string)
    requires ValidList(definitions) && id in QUESTION_IDS
    ensures Find(definitions, id).Ok?
  {
    assert id in Ids(definitions);
    var i :| 0 <= i < |definitions| && Ids(definitions)[i] == id;
    assert definitions[i] in definitions;
  }

  /** Lookups that all succeed give their results in order. */
  lemma {:induction false} InstructionsFound(definitions: seq<Definition>, ids: seq<string>, price: string)
    ensures Instructions(definitions, ids, price).Ok? <==> forall k :: 0 <= k < |ids| ==> Find(definitions, ids[k]).Ok?
    ensures Instructions(definitions, ids, price).Ok? ==>
              forall k :: 0 <= k < |ids| ==>
                Instruction(definitions, ids[k], price) == Ok(Instructions(definitions, ids, price).value[k])
  {
    if ids != [] {
      InstructionsFound(definitions, ids[1..], price);
      assert ids == [ids[0]] + ids[1..];
    }
  }

  lemma {:induction false} ValuesFound(id: string, criteria: seq<Criterion>, names: seq<string>)
    ensures CriterionValues(id, criteria, names).Ok?
            <==> forall k :: 0 <= k < |names| ==> CriterionValue(id, criteria, names[k]).Ok?
    ensures CriterionValues(id, criteria, names).Ok? ==>
              forall k :: 0 <= k < |names| ==>
                CriterionValue(id, criteria, names[k]) == Ok(CriterionValues(id, criteria, names).value[k])
  {
    if names != [] {
      ValuesFound(id, criteria, names[1..]);
      assert names == [names[0]] + names[1..];
    }
  }

  lemma CriterionUnique(d: Definition, c: Criterion)
    requires ValidDefinition(d) && d.kind.Choice? && c in d.criteria
    ensures CriterionValue(d.id, d.criteria, c.name) == Ok(c.value)
  {
    var found := CriterionValue(d.id, d.criteria, c.name);
    var i :| 0 <= i < |d.criteria| && d.criteria[i] == c;
    var k :| 0 <= k < |d.criteria| && d.criteria[k] == Criterion(c.name, found.value);
    assert Names(d.criteria)[i] == Names(d.criteria)[k];
  }

  lemma EveryCriterionFound(d: Definition, name: string)
    requires ValidDefinition(d) && d.kind.Choice? && name in CRITERIA_IDS
    ensures CriterionValue(d.id, d.criteria, name).Ok?
  {
    assert name in Names(d.criteria);
    var i :| 0 <= i < |d.criteria| && Names(d.criteria)[i] == name;
    assert d.criteria[i] in d.criteria;
  }

  lemma CriteriaBuilt(d: Definition)
    requires ValidDefinition(d)
    ensures d.kind.Choice? ==> CriterionValues(d.id, d.criteria, CRITERIA_IDS).Ok?
    ensures d.kind.Noul? ==>
              CriterionValues(d.id, d.criteria, CRITERIA_IDS) == Err(MissingCriterion(d.id, "UP_3_PLUS_TICKS"))
  {
    if d.kind.Choice? {
      forall k | 0 <= k < |CRITERIA_IDS| ensures CriterionValue(d.id, d.criteria, CRITERIA_IDS[k]).Ok? {
        EveryCriterionFound(d, CRITERIA_IDS[k]);
      }
      ValuesFound(d.id, d.criteria, CRITERIA_IDS);
    } else {
      assert CRITERIA_IDS[0] == "UP_3_PLUS_TICKS";
    }
  }

  lemma AllFound(definitions: seq<Definition>, ids: seq<string>, price: string)
    requires ValidList(definitions) && forall k :: 0 <= k < |ids| ==> ids[k] in QUESTION_IDS
    ensures Instructions(definitions, ids, price).Ok?
  {
    forall k | 0 <= k < |ids| ensures Find(definitions, ids[k]).Ok? {
      EveryIdFound(definitions, ids[k]);
    }
    InstructionsFound(definitions, ids, price);
  }

  /** An accepted document builds its questions exactly when repricing is a
      choice; otherwise the first criterion is reported missing. */
  lemma BuildIff(definitions: seq<Definition>, price: string, repricing: Definition)
    requires ValidList(definitions) && repricing in definitions && repricing.id == "repricing_ticks"
    ensures BuildQuestions(definitions, price).Ok? <==> repricing.kind.Choice?
    ensures repricing.kind.Noul? ==>
              BuildQuestions(definitions, price) == Err(MissingCriterion("repricing_ticks", "UP_3_PLUS_TICKS"))
  {
    FindUnique(definitions, repricing);
    IdsKnown();
    AllFound(definitions, FRONT_IDS, price);
    AllFound(definitions, BACK_IDS, price);
    CriteriaBuilt(repricing);
  }

  /** What a built question is made of. */
  lemma BuiltParts(definitions: seq<Definition>, price: string, repricing: Definition)
    requires Find(definitions, "repricing_ticks") == Ok(repricing) && BuildQuestions(definitions, price).Ok?
    ensures Instructions(definitions, FRONT_IDS, price).Ok? && Instructions(definitions, BACK_IDS, price).Ok?
    ensures CriterionValues(repricing.id, repricing.criteria, CRITERIA_IDS).Ok?
    ensures var q := BuildQuestions(definitions, price).value;
            && Texts(q) == Instructions(definitions, FRONT_IDS, price).value
                           + Instructions(definitions, BACK_IDS, price).value
            && Values(q.repricingCriteria) == CriterionValues(repricing.id, repricing.criteria, CRITERIA_IDS).value
  {
    PartsKept(Instructions(definitions, FRONT_IDS, price).value,
              CriterionValues(repricing.id, repricing.criteria, CRITERIA_IDS).value,
              Instructions(definitions, BACK_IDS, price).value);
  }

  lemma PartsKept(front: seq<string>, values: seq<string>, back: seq<string>)
    requires |front| == 6 && |values| == 7 && |back| == 2
    ensures Texts(FromParts(front, values, back)) == front + back
    ensures Values(FromParts(front, values, back).repricingCriteria) == values
  {}

  lemma TextsAreInstructions(definitions: seq<Definition>, price: string, k: nat)
    requires BuildQuestions(definitions, price).Ok? && k < |QUESTION_IDS|
    ensures Instruction(definitions, QUESTION_IDS[k], price) == Ok(Texts(BuildQuestions(definitions, price).value)[k])
  {
    BuiltParts(definitions, price, Find(definitions, "repricing_ticks").value);
    var ids := if k < 6 then FRONT_IDS else BACK_IDS;
    InstructionsFound(definitions, ids, price);
    assert QUESTION_IDS[k] == ids[if k < 6 then k else k - 6];
  }

  /** Each built question carries the instructions of the one section with its id. */
  lemma BuiltFromSections(definitions: seq<Definition>, price: string, d: Definition, k: nat)
    requires ValidList(definitions) && d in definitions && k < |QUESTION_IDS| && d.id == QUESTION_IDS[k]
    requires BuildQuestions(definitions, price).Ok?
    ensures Texts(BuildQuestions(definitions, price).value)[k] == Render(d, price)
  {
    TextsAreInstructions(definitions, price, k);
    FindUnique(definitions, d);
  }

  /** Each repricing criterion carries the value the document gives it. */
  lemma BuiltCriteria(definitions: seq<Definition>, price: string, d: Definition, c: Criterion, k: nat)
    requires ValidList(definitions) && d in definitions && d.id == "repricing_ticks"
    requires c in d.criteria && k < |CRITERIA_IDS| && c.name == CRITERIA_IDS[k]
    requires BuildQuestions(definitions, price).Ok?
    ensures Values(BuildQuestions(definitions, price).value.repricingCriteria)[k] == c.value
  {
    FindUnique(definitions, d);
    BuildIff(definitions, price, d);
    BuiltParts(definitions, price, d);
    ValuesFound(d.id, d.criteria, CRITERIA_IDS);
    CriterionUnique(d, c);
  }

  /** The questions field by field: each is rendered from the section named after it. */
  lemma BuiltByName(definitions: seq<Definition>, price: string, d: Definition)
    requires ValidList(definitions) && d in definitions && BuildQuestions(definitions, price).Ok?
    ensures var q, text := BuildQuestions(definitions, price).value, Render(d, price);
            && (d.id == "yes_pressure_5s" ==> q.yesPressure5s == text)
            && (d.id == "no_pressure_5s" ==> q.noPressure5s == text)
            && (d.id == "move_persists" ==> q.movePersists == text)
            && (d.id == "underreact_up" ==> q.underreactUp == text)
            && (d.id == "underreact_down" ==> q.underreactDown == text)
            && (d.id == "repricing_ticks" ==> q.repricingTicks == text)
            && (d.id == "fill_before_decay" ==> q.fillBeforeDecay == text)
            && (d.id == "fill_toxic" ==> q.fillToxic == text)
  {
    var texts := Texts(BuildQuestions(definitions, price).value);
    forall k | 0 <= k < 8 && d.id == QUESTION_IDS[k] ensures texts[k] == Render(d, price) {
      BuiltFromSections(definitions, price, d, k);
    }
    assert QUESTION_IDS[0] == "yes_pressure_5s" && QUESTION_IDS[1] == "no_pressure_5s";
    assert QUESTION_IDS[2] == "move_persists" && QUESTION_IDS[3] == "underreact_up";
    assert QUESTION_IDS[4] == "underreact_down" && QUESTION_IDS[5] == "repricing_ticks";
    assert QUESTION_IDS[6] == "fill_before_decay" && QUESTION_IDS[7] == "fill_toxic";
  }

  /** The repricing criteria field by field. */
  lemma CriteriaByName(definitions: seq<Definition>, price: string, d: Definition, c: Criterion)
    requires ValidList(definitions) && d in definitions && d.id == "repricing_ticks" && c in d.criteria
    requires BuildQuestions(definitions, price).Ok?
    ensures var values := BuildQuestions(definitions, price).value.repricingCriteria;
            && (c.name == "UP_3_PLUS_TICKS" ==> values.up3PlusTicks == c.value)
            && (c.name == "UP_2_TICKS" ==> values.up2Ticks == c.value)
            && (c.name == "UP_1_TICK" ==> values.up1Tick == c.value)
            && (c.name == "FLAT" ==> values.flat == c.value)
            && (c.name == "DOWN_1_TICK" ==> values.down1Tick == c.value)
            && (c.name == "DOWN_2_TICKS" ==> values.down2Ticks == c.value)
            && (c.name == "DOWN_3_PLUS_TICKS" ==> values.down3PlusTicks == c.value)
  {
    var values := Values(BuildQuestions(definitions, price).value.repricingCriteria);
    forall k | 0 <= k < 7 && c.name == CRITERIA_IDS[k] ensures values[k] == c.value {
      BuiltCriteria(definitions, price, d, c, k);
    }
    assert CRITERIA_IDS[0] == "UP_3_PLUS_TICKS" && CRITERIA_IDS[1] == "UP_2_TICKS";
    assert CRITERIA_IDS[2] == "UP_1_TICK" && CRITERIA_IDS[3] == "FLAT" && CRITERIA_IDS[4] == "DOWN_1_TICK";
    assert CRITERIA_IDS[5] == "DOWN_2_TICKS" && CRITERIA_IDS[6] == "DOWN_3_PLUS_TICKS";
  }

  /** The order of sections is irrelevant to the questions. */
  lemma BuildIgnoresOrder(a: seq<Definition>, b: seq<Definition>, price: string)
    requires ValidList(a) && ValidList(b) && forall d :: d in a <==> d in b
    ensures BuildQuestions(a, price) == BuildQuestions(b, price)
  {
    IdsKnown();
    SameInstructions(a, b, FRONT_IDS, price);
    SameInstructions(a, b, BACK_IDS, price);
    FindSame(a, b, "repricing_ticks");
    SameLookups(a, b, price);
  }

  lemma IdsKnown()
    ensures forall k :: 0 <= k < |FRONT_IDS| ==> FRONT_IDS[k] in QUESTION_IDS
    ensures forall k :: 0 <= k < |BACK_IDS| ==> BACK_IDS[k] in QUESTION_IDS
    ensures "repricing_ticks" in QUESTION_IDS
  {
    assert QUESTION_IDS[5] == "repricing_ticks";
  }

  lemma SameLookups(a: seq<Definition>, b: seq<Definition>, price: string)
    requires Find(a, "repricing_ticks") == Find(b, "repricing_ticks")
    requires Instructions(a, FRONT_IDS, price) == Instructions(b, FRONT_IDS, price)
    requires Instructions(a, BACK_IDS, price) == Instructions(b, BACK_IDS, price)
    ensures BuildQuestions(a, price) == BuildQuestions(b, price)
  {}

  lemma FindSame(a: seq<Definition>, b: seq<Definition>, id: string)
    requires ValidList(a) && ValidList(b) && (forall d :: d in a <==> d in b) && id in QUESTION_IDS
    ensures Find(a, id) == Find(b, id)
  {
    EveryIdFound(a, id);
    FindUnique(b, Find(a, id).value);
  }

  lemma {:induction false} SameInstructions(a: seq<Definition>, b: seq<Definition>, ids: seq<string>, price: string)
    requires ValidList(a) && ValidList(b) && forall d :: d in a <==> d in b
    requires forall k :: 0 <= k < |ids| ==> ids[k] in QUESTION_IDS
    ensures Instructions(a, ids, price) == Instructions(b, ids, price)
  {
    if ids != [] {
      FindSame(a, b, ids[0]);
      SameInstructions(a, b, ids[1..], price);
    }
  }

  // ----- Substituting the price -----

  /** The program's `contains`: the needle occurs at some position. */
  lemma {:induction false} ContainsIff(s: string, needle: string)
    ensures Contains(s, needle) <==> exists i :: 0 <= i <= |s| && needle <= s[i..]
  {
    assert s[0..] == s;
    if s != [] {
      ContainsIff(s[1..], needle);
      forall i | 0 < i <= |s| ensures s[i..] == s[1..][i - 1..] {}
      if i :| 0 <= i <= |s[1..]| && needle <= s[1..][i..] {
        assert s[i + 1..] == s[1..][i..];
      }
    }
  }

  /** Replacing puts the text in place of the first occurrence and goes on behind it. */
  lemma {:induction false} ReplaceFirst(a: string, needle: string, b: string, text: string)
    requires needle != [] && forall i :: 0 <= i < |a| ==> !(needle <= (a + needle + b)[i..])
    ensures Replace(a + needle + b, needle, text) == a + text + Replace(b, needle, text)
    decreases |a|
  {
    var s := a + needle + b;
    if a == [] {
      assert s == needle + b;
      assert s[|needle|..] == b;
      assert [] + text == text;
    } else {
      assert s[0..] == s && s[1..] == a[1..] + needle + b;
      forall i | 0 <= i < |a| - 1 ensures !(needle <= (a[1..] + needle + b)[i..]) {
        assert s[i + 1..] == (a[1..] + needle + b)[i..];
      }
      ReplaceFirst(a[1..], needle, b, text);
      assert [a[0]] + (a[1..] + text + Replace(b, needle, text)) == a + text + Replace(b, needle, text);
    }
  }

  lemma {:induction false} ReplaceNothing(s: string, needle: string, text: string)
    requires needle != [] && !Contains(s, needle)
    ensures Replace(s, needle, text) == s
  {
    if s != [] {
      ReplaceNothing(s[1..], needle, text);
      assert [s[0]] + s[1..] == s;
    }
  }

  /** Only the two fill questions depend on the price; the others keep their wording. */
  lemma OnlyFillQuestionsUsePrice(d: Definition, price: string)
    requires ValidDefinition(d)
    ensures !UsesPrice(d.id) ==> Render(d, price) == d.instructions
  {
    if !UsesPrice(d.id) {
      ReplaceNothing(d.instructions, PLACEHOLDER, price);
    }
  }

  /** The text of a price: digits and a decimal point. */
  predicate PriceText(price: string) {
    price != [] && forall i :: 0 <= i < |price| ==> IsDigit(price[i]) || price[i] == '.'
  }

  /** Neither the start of a placeholder nor part of a price. */
  predicate Plain(w: string) {
    forall i :: 0 <= i < |w| ==> w[i] != '{' && w[i] != '.' && !IsDigit(w[i])
  }

  lemma {:induction false} PlainPrefixKept(s: string, w: string, price: string)
    requires PriceText(price) && Plain(w) && w <= Replace(s, PLACEHOLDER, price)
    ensures w <= s
    decreases |w|
  {
    if w != [] {
      var out := Replace(s, PLACEHOLDER, price);
      PriceFirst(s, price);
      assert out[0] == w[0] && !(PLACEHOLDER <= s);
      assert out[1..] == Replace(s[1..], PLACEHOLDER, price);
      assert w[1..] <= out[1..];
      PlainPrefixKept(s[1..], w[1..], price);
      assert w == [w[0]] + w[1..] && s == [s[0]] + s[1..];
    }
  }

  lemma PriceFirst(s: string, price: string)
    requires price != []
    ensures PLACEHOLDER <= s ==> Replace(s, PLACEHOLDER, price) != [] && Replace(s, PLACEHOLDER, price)[0] == price[0]
  {}

  lemma {:induction false} PriceHidesNothing(price: string, s: string)
    requires (forall i :: 0 <= i < |price| ==> price[i] != '{') && !Contains(s, PLACEHOLDER)
    ensures !Contains(price + s, PLACEHOLDER)
    decreases |price|
  {
    if price == [] {
      assert price + s == s;
    } else {
      assert (price + s)[0] == price[0] != PLACEHOLDER[0];
      assert (price + s)[1..] == price[1..] + s;
      PriceHidesNothing(price[1..], s);
    }
  }

  /** No placeholder is left in a built question. */
  lemma {:induction false} NoPlaceholderLeft(s: string, price: string)
    requires PriceText(price)
    ensures !Contains(Replace(s, PLACEHOLDER, price), PLACEHOLDER)
    decreases |s|
  {
    if PLACEHOLDER <= s {
      NoPlaceholderLeft(s[|PLACEHOLDER|..], price);
      PriceHidesNothing(price, Replace(s[|PLACEHOLDER|..], PLACEHOLDER, price));
    } else if s != [] {
      NoPlaceholderLeft(s[1..], price);
      var tail := Replace(s[1..], PLACEHOLDER, price);
      if PLACEHOLDER <= [s[0]] + tail {
        PlaceholderTail(s[0], tail);
        PlainPrefixKept(s[1..], PLACEHOLDER[1..], price);
        PlaceholderBack(s);
        assert false;
      }
      assert ([s[0]] + tail)[1..] == tail;
    }
  }

  lemma PlaceholderBack(s: string)
    requires s != [] && s[0] == PLACEHOLDER[0] && PLACEHOLDER[1..] <= s[1..]
    ensures PLACEHOLDER <= s
  {
    assert PLACEHOLDER == [PLACEHOLDER[0]] + PLACEHOLDER[1..] && s == [s[0]] + s[1..];
  }

  lemma PlaceholderTail(c: char, tail: string)
    requires PLACEHOLDER <= [c] + tail
    ensures c == PLACEHOLDER[0] && PLACEHOLDER[1..] <= tail && Plain(PLACEHOLDER[1..])
  {
    var s := [c] + tail;
    assert s[0] == PLACEHOLDER[0] && tail == s[1..];
    assert s[..|PLACEHOLDER|][1..] == tail[..|PLACEHOLDER| - 1];
  }
}
