/**
 * Auto-grading of an exam attempt: the question-type rule applied when an
 * exam is created, one verdict per question type, and the loop that adds up
 * the score and collects the answer records to store.
 */
module ExamGrading {
  import opened Wrappers
  import opened JsText

  // ---------------------------------------------------------------------------
  // Data model
  // ---------------------------------------------------------------------------

  datatype QuestionType =
    MultipleChoice | MultiSelect | TrueFalse | FillBlank | FillBlankClue | Matching

  datatype Choice = Choice(id: string, isCorrect: bool)

  /**
   * A stored question with the type-specific record it was created with; each
   * record may be missing. `matching` holds the ids of the pairs: a pair's
   * right-hand option carries the pair's own id.
   */
  datatype Question = Question(
    id: string,
    qtype: QuestionType,
    points: int,
    mcq: Option<seq<Choice>>,
    trueFalse: Option<bool>,
    fillBlank: Option<seq<string>>,
    matching: Option<seq<string>>)

  /**
   * One submitted answer entry. `matchingAnswer` is None for every falsy JSON
   * value; a truthy value is represented by the string values its lookups give.
   */
  datatype Answer = Answer(
    questionId: string,
    selectedChoiceId: Option<string>,
    selectedChoiceIds: Option<seq<string>>,
    textAnswer: Option<string>,
    booleanAnswer: Option<bool>,
    matchingAnswer: Option<map<string, string>>)

  /** One stored answer row of the attempt. */
  datatype AnswerRecord = AnswerRecord(
    questionId: string,
    selectedChoiceIds: seq<string>,
    textAnswer: Option<string>,
    booleanAnswer: Option<bool>,
    matchingAnswer: Option<map<string, string>>)

  /**
   * `JSON.parse` where fill-blank grading uses it: the list of strings the text
   * encodes, or None when the text does not parse or is not an array of
   * strings (every such case ends in the `catch` or fails the comparison).
   */
  type JsonDecoder = string -> Option<seq<string>>

  predicate DecodesEmptyArray(decode: JsonDecoder) {
    decode("[]") == Some([])
  }

  // ---------------------------------------------------------------------------
  // Question type at creation
  // ---------------------------------------------------------------------------

  /** A choice as the author submits it. */
  datatype NewChoice = NewChoice(text: string, isCorrect: bool)

  function CountCorrect(cs: seq<NewChoice>): (n: nat)
    ensures n <= |cs|
  {
    if cs == [] then 0 else (if cs[0].isCorrect then 1 else 0) + CountCorrect(cs[1..])
  }

  predicate TwoCorrect(cs: seq<NewChoice>) {
    exists i, j :: 0 <= i < j < |cs| && cs[i].isCorrect && cs[j].isCorrect
  }

  predicate SomeCorrect(cs: seq<NewChoice>) {
    exists i :: 0 <= i < |cs| && cs[i].isCorrect
  }

  /** Some correct choice means a position flagged correct. */
  lemma {:induction false} CountCorrectAboveZero(cs: seq<NewChoice>)
    ensures CountCorrect(cs) > 0 <==> SomeCorrect(cs)
  {
    if cs != [] {
      CountCorrectAboveZero(cs[1..]);
      if SomeCorrect(cs) {
        var i :| 0 <= i < |cs| && cs[i].isCorrect;
        if i > 0 { assert cs[1..][i - 1].isCorrect; }
      }
      if CountCorrect(cs[1..]) > 0 {
        var i :| 0 <= i < |cs[1..]| && cs[1..][i].isCorrect;
        assert cs[i + 1].isCorrect;
      }
    }
  }

  /** More than one correct choice means two distinct positions flagged correct. */
  lemma {:induction false} CountCorrectAboveOne(cs: seq<NewChoice>)
    ensures CountCorrect(cs) > 1 <==> TwoCorrect(cs)
  {
    if cs != [] {
      CountCorrectAboveOne(cs[1..]);
      CountCorrectAboveZero(cs[1..]);
      if TwoCorrect(cs) {
        var i, j :| 0 <= i < j < |cs| && cs[i].isCorrect && cs[j].isCorrect;
        if i > 0 {
          assert cs[1..][i - 1].isCorrect && cs[1..][j - 1].isCorrect;
        } else {
          assert cs[1..][j - 1].isCorrect;
        }
      }
      if CountCorrect(cs[1..]) > 1 {
        var i, j :| 0 <= i < j < |cs[1..]| && cs[1..][i].isCorrect && cs[1..][j].isCorrect;
        assert cs[i + 1].isCorrect && cs[j + 1].isCorrect;
      }
      if cs[0].isCorrect && CountCorrect(cs[1..]) > 0 {
        var i :| 0 <= i < |cs[1..]| && cs[1..][i].isCorrect;
        assert 0 < i + 1 && cs[0].isCorrect && cs[i + 1].isCorrect;
      }
    }
  }

  /**
   * The type stored for a new question: a declared multiple-choice or
   * multi-select question is re-typed by its number of correct choices
   * (`choices?.filter(c => c.isCorrect).length || 0`).
   */
  function StoredType(declared: QuestionType, choices: Option<seq<NewChoice>>): (r: QuestionType)
    ensures declared != MultipleChoice && declared != MultiSelect ==> r == declared
  {
    if declared == MultipleChoice || declared == MultiSelect then
      var correctCount := if choices.Some? then CountCorrect(choices.value) else 0;
      if correctCount > 1 then MultiSelect else MultipleChoice
    else declared
  }

  /**
   * A question declared multiple-choice or multi-select is stored as
   * multi-select iff more than one choice is correct, and as multiple-choice
   * otherwise, also when no choice is correct or the choices are missing.
   */
  lemma StoredTypeRule(declared: QuestionType, choices: Option<seq<NewChoice>>)
    requires declared == MultipleChoice || declared == MultiSelect
    ensures StoredType(declared, choices) == MultiSelect <==> choices.Some? && TwoCorrect(choices.value)
    ensures StoredType(declared, choices) == MultipleChoice <==> choices.None? || !TwoCorrect(choices.value)
  {
    if choices.Some? {
      CountCorrectAboveOne(choices.value);
    }
  }

  // ---------------------------------------------------------------------------
  // Verdicts
  // ---------------------------------------------------------------------------

  /** `choices.find(c => c.id === id)`. */
  function FindChoice(cs: seq<Choice>, id: string): (r: Option<Choice>)
    ensures r.None? <==> forall i :: 0 <= i < |cs| ==> cs[i].id != id
    ensures r.Some? ==> r.value in cs && r.value.id == id
    ensures cs != [] && cs[0].id == id ==> r == Some(cs[0])
    ensures r.Some? ==> exists i :: 0 <= i < |cs| && cs[i] == r.value && forall j :: 0 <= j < i ==> cs[j].id != id
  {
    if cs == [] then None
    else if cs[0].id == id then Some(cs[0])
    else FindChoice(cs[1..], id)
  }

  /** MULTIPLE_CHOICE: the first choice with the selected id is a correct one. */
  function ChoiceCorrect(cs: seq<Choice>, selected: Option<string>): (r: bool)
    ensures selected.None? ==> !r
    ensures r ==> selected.Some? && exists i :: 0 <= i < |cs| && cs[i].id == selected.value && cs[i].isCorrect
    ensures selected.Some? && cs != [] && cs[0].id == selected.value ==> (r <==> cs[0].isCorrect)
    ensures selected.Some? && (forall i :: 0 <= i < |cs| ==> cs[i].id != selected.value) ==> !r
  {
    selected.Some? && FindChoice(cs, selected.value).Some? && FindChoice(cs, selected.value).value.isCorrect
  }

  predicate DistinctIds(cs: seq<Choice>) {
    forall i, j :: 0 <= i < j < |cs| ==> cs[i].id != cs[j].id
  }

  /** With distinct choice ids: correct iff the selected id names a correct choice; no selection is wrong. */
  lemma ChoiceCorrectIff(cs: seq<Choice>, selected: Option<string>)
    requires DistinctIds(cs)
    ensures ChoiceCorrect(cs, selected) <==>
      selected.Some? && exists i :: 0 <= i < |cs| && cs[i].id == selected.value && cs[i].isCorrect
    ensures selected.None? ==> !ChoiceCorrect(cs, selected)
  {
    if selected.Some? && (exists i :: 0 <= i < |cs| && cs[i].id == selected.value && cs[i].isCorrect) {
      var i :| 0 <= i < |cs| && cs[i].id == selected.value && cs[i].isCorrect;
      var c := FindChoice(cs, selected.value);
      var k :| 0 <= k < |cs| && cs[k] == c.value;
      assert k == i;
    }
  }

  /** The ids of the correct choices, in order. */
  function CorrectIds(cs: seq<Choice>): (r: seq<string>)
    ensures |r| <= |cs|
    ensures forall id :: id in r <==> exists i :: 0 <= i < |cs| && cs[i].id == id && cs[i].isCorrect
    ensures r == [] <==> forall i :: 0 <= i < |cs| ==> !cs[i].isCorrect
    ensures DistinctIds(cs) ==> NoDuplicates(r)
  {
    if cs == [] then []
    else
      var rest := CorrectIds(cs[1..]);
      assert forall i :: 0 < i < |cs| ==> cs[i] == cs[1..][i - 1];
      assert DistinctIds(cs) ==> DistinctIds(cs[1..]) && cs[0].id !in rest;
      if cs[0].isCorrect then [cs[0].id] + rest else rest
  }

  /**
   * MULTI_SELECT as written: the selection (missing counts as empty) is as
   * long as the list of correct ids and holds only correct ids.
   */
  function SelectionCorrect(cs: seq<Choice>, selected: Option<seq<string>>): (r: bool)
    ensures selected == Some(CorrectIds(cs)) ==> r
    ensures r ==> |selected.GetOr([])| == |CorrectIds(cs)|
    ensures r ==> forall k :: 0 <= k < |selected.GetOr([])| ==>
      exists i :: 0 <= i < |cs| && cs[i].id == selected.GetOr([])[k] && cs[i].isCorrect
    ensures |selected.GetOr([])| == |CorrectIds(cs)|
            && (forall k :: 0 <= k < |selected.GetOr([])| ==>
                  exists i :: 0 <= i < |cs| && cs[i].id == selected.GetOr([])[k] && cs[i].isCorrect)
            ==> r
  {
    var ids := selected.GetOr([]);
    var correct := CorrectIds(cs);
    |ids| == |correct| && forall i :: 0 <= i < |ids| ==> ids[i] in correct
  }

  predicate NoDuplicates(s: seq<string>) {
    forall i, j :: 0 <= i < j < |s| ==> s[i] != s[j]
  }

  function Elems(s: seq<string>): (r: set<string>)
    ensures forall x :: x in r <==> x in s
  {
    if s == [] then {} else {s[0]} + Elems(s[1..])
  }

  lemma {:induction false} ElemsCard(s: seq<string>)
    requires NoDuplicates(s)
    ensures |Elems(s)| == |s|
  {
    if s != [] {
      ElemsCard(s[1..]);
      assert s[0] !in Elems(s[1..]);
    }
  }

  lemma SubsetCard(a: set<string>, b: set<string>)
    requires a <= b
    ensures |a| <= |b|
    decreases b
  {
    if b != {} {
      var y :| y in b;
      SubsetCard(a - {y}, b - {y});
    }
  }

  lemma SubsetSameSize(a: set<string>, b: set<string>)
    requires a <= b && |a| == |b|
    ensures a == b
  {
    if a != b {
      var x :| x in b && x !in a;
      SubsetCard(a, b - {x});
    }
  }

  /**
   * For a duplicate-free selection and distinct choice ids, MULTI_SELECT is
   * correct exactly when the selected set equals the set of correct ids; so a
   * strict subset or a superset of it is wrong.
   */
  lemma SelectionCorrectIffSameSet(cs: seq<Choice>, ids: seq<string>)
    requires DistinctIds(cs) && NoDuplicates(ids)
    ensures SelectionCorrect(cs, Some(ids)) <==> Elems(ids) == Elems(CorrectIds(cs))
    ensures Elems(ids) < Elems(CorrectIds(cs)) ==> !SelectionCorrect(cs, Some(ids))
    ensures Elems(ids) > Elems(CorrectIds(cs)) ==> !SelectionCorrect(cs, Some(ids))
  {
    var correct := CorrectIds(cs);
    ElemsCard(ids);
    ElemsCard(correct);
    if SelectionCorrect(cs, Some(ids)) {
      assert Elems(ids) <= Elems(correct);
      SubsetSameSize(Elems(ids), Elems(correct));
    }
    if Elems(ids) == Elems(correct) {
      assert forall i :: 0 <= i < |ids| ==> ids[i] in Elems(correct);
    }
  }

  /** A missing selection is right only when no choice is correct. */
  lemma NoSelection(cs: seq<Choice>)
    ensures SelectionCorrect(cs, None) <==> forall i :: 0 <= i < |cs| ==> !cs[i].isCorrect
  {
  }

  /** Repeating a correct id passes: ["a", "a"] against correct {"a", "b"}. */
  lemma DuplicateSelectionPasses()
    ensures SelectionCorrect([Choice("a", true), Choice("b", true)], Some(["a", "a"]))
  {
    var cs := [Choice("a", true), Choice("b", true)];
    assert CorrectIds(cs[1..]) == ["b"];
    assert CorrectIds(cs) == ["a", "b"];
  }

  /** TRUE_FALSE: the submitted boolean equals the stored one; a missing one is wrong. */
  function BooleanCorrect(correct: bool, given: Option<bool>): (r: bool)
    ensures r <==> given == Some(correct)
  {
    given.Some? && given.value == correct
  }

  /** `a.trim().toLowerCase()`. */
  function Normalize(s: string): string {
    ToLower(Trim(s))
  }

  /** `textAnswer || "[]"`: a missing or empty text stands for the empty list. */
  function BlankText(text: Option<string>): (r: string)
    ensures text.None? || text == Some("") ==> r == "[]"
    ensures text.Some? && text.value != "" ==> r == text.value
  {
    if text.Some? && text.value != "" then text.value else "[]"
  }

  /** FILL_BLANK: as many answers as stored, each equal to its stored answer after trim and lower-case. */
  function BlanksCorrect(stored: seq<string>, given: Option<seq<string>>): (r: bool)
    ensures r ==> given.Some? && |given.value| == |stored|
    ensures given == Some(stored) ==> r
    ensures r && stored != [] ==> Normalize(given.value[0]) == Normalize(stored[0])
    ensures r ==> forall i :: 0 <= i < |stored| ==> Normalize(given.value[i]) == Normalize(stored[i])
    ensures given.Some? && |given.value| == |stored|
            && (forall i :: 0 <= i < |stored| ==> Normalize(given.value[i]) == Normalize(stored[i]))
            ==> r
  {
    given.Some? && |given.value| == |stored|
    && forall i :: 0 <= i < |stored| ==> Normalize(given.value[i]) == Normalize(stored[i])
  }

  /** All or nothing: one blank that differs from its stored answer, after trim and lower-case, fails the answer. */
  lemma BlanksAllOrNothing(stored: seq<string>, given: seq<string>, j: int)
    requires 0 <= j < |stored| && j < |given|
    requires Normalize(given[j]) != Normalize(stored[j])
    ensures !BlanksCorrect(stored, Some(given))
  {
  }

  /** An answer that does not decode is wrong, never an error. */
  lemma MalformedBlanksWrong(stored: seq<string>, text: Option<string>, decode: JsonDecoder)
    requires decode(BlankText(text)).None?
    ensures !BlanksCorrect(stored, decode(BlankText(text)))
  {
  }

  /** A missing or empty text is the empty list: right exactly when no answers are stored. */
  lemma EmptyBlankText(stored: seq<string>, text: Option<string>, decode: JsonDecoder)
    requires DecodesEmptyArray(decode)
    requires text.None? || text == Some("")
    ensures BlanksCorrect(stored, decode(BlankText(text))) <==> stored == []
  {
  }

  /**
   * Case and surrounding white space do not matter: blanks typed with the same
   * letters up to ASCII case, padded with white space, are all accepted.
   */
  lemma BlanksIgnoreCaseAndSpace(stored: seq<string>, typed: seq<string>, pre: string, post: string)
    requires Spaces(pre) && Spaces(post) && |typed| == |stored|
    requires forall i :: 0 <= i < |stored| ==>
      Trimmed(stored[i]) && Trimmed(typed[i]) && ToLower(typed[i]) == ToLower(stored[i])
    ensures BlanksCorrect(stored, Some(seq(|typed|, i requires 0 <= i < |typed| => pre + typed[i] + post)))
  {
    var given := seq(|typed|, i requires 0 <= i < |typed| => pre + typed[i] + post);
    forall i | 0 <= i < |stored| ensures Normalize(given[i]) == Normalize(stored[i]) {
      NormalizePadded(pre, typed[i], post, stored[i]);
    }
  }

  lemma NormalizePadded(pre: string, t: string, post: string, s: string)
    requires Spaces(pre) && Spaces(post) && Trimmed(t) && Trimmed(s) && ToLower(t) == ToLower(s)
    ensures Normalize(pre + t + post) == Normalize(s)
  {
    TrimPadded(pre, t, post);
    TrimPadded([], s, []);
    assert [] + s + [] == s;
  }

  /** MATCHING: a map was submitted and it sends every pair id to itself. */
  function PairsCorrect(pairIds: seq<string>, matches: Option<map<string, string>>): (r: bool)
    ensures matches.None? ==> !r
    ensures r ==> forall id :: id in pairIds ==> id in matches.value && matches.value[id] == id
    ensures matches.Some? && (forall id :: id in pairIds ==> id in matches.value)
            && (forall k :: k in matches.value ==> matches.value[k] == k)
            ==> r
  {
    matches.Some? && forall i :: 0 <= i < |pairIds| ==>
      pairIds[i] in matches.value && matches.value[pairIds[i]] == pairIds[i]
  }

  /** Keys other than pair ids are ignored; with no pairs any submitted map is right; no map is wrong. */
  lemma PairsCorrectLocal(pairIds: seq<string>, m: map<string, string>, m': map<string, string>)
    requires forall i :: 0 <= i < |pairIds| ==>
      (pairIds[i] in m <==> pairIds[i] in m') && (pairIds[i] in m ==> m[pairIds[i]] == m'[pairIds[i]])
    ensures PairsCorrect(pairIds, Some(m)) == PairsCorrect(pairIds, Some(m'))
    ensures pairIds == [] ==> PairsCorrect(pairIds, Some(m))
    ensures !PairsCorrect(pairIds, None)
  {
  }

  /** All or nothing: three pairs with two of them swapped score nothing. */
  lemma SwappedPairsWrong()
    ensures !PairsCorrect(["p1", "p2", "p3"], Some(map["p1" := "p1", "p2" := "p3", "p3" := "p2"]))
  {
    var ids := ["p1", "p2", "p3"];
    assert ids[1] == "p2";
  }

  /** The matching check as the source runs it: a loop over the pairs that stops at the first mismatch. */
  method GradeMatching(pairIds: seq<string>, matches: Option<map<string, string>>) returns (allCorrect: bool)
    ensures allCorrect == PairsCorrect(pairIds, matches)
  {
    allCorrect := true;
    if matches.None? {
      allCorrect := false;
    } else {
      var m := matches.value;
      var i := 0;
      while i < |pairIds|
        invariant 0 <= i <= |pairIds|
        invariant allCorrect
        invariant forall k :: 0 <= k < i ==> pairIds[k] in m && m[pairIds[k]] == pairIds[k]
      {
        var id := pairIds[i];
        if id !in m || m[id] != id {
          allCorrect := false;
          break;
        }
        i := i + 1;
      }
    }
  }

  /** Whether the question carries the record its type is graded from. */
  predicate HasTypeRecord(q: Question) {
    match q.qtype
    case MultipleChoice => q.mcq.Some?
    case MultiSelect => q.mcq.Some?
    case TrueFalse => q.trueFalse.Some?
    case FillBlank => q.fillBlank.Some?
    case FillBlankClue => q.fillBlank.Some?
    case Matching => q.matching.Some?
  }

  /** The verdict for one answer to one question. */
  function IsCorrect(q: Question, a: Answer, decode: JsonDecoder): (r: bool)
    ensures !HasTypeRecord(q) ==> !r
    ensures q.qtype == MultipleChoice && q.mcq.Some? ==> (r <==> ChoiceCorrect(q.mcq.value, a.selectedChoiceId))
    ensures q.qtype == MultiSelect && q.mcq.Some? ==> (r <==> SelectionCorrect(q.mcq.value, a.selectedChoiceIds))
    ensures q.qtype == TrueFalse && q.trueFalse.Some? ==> (r <==> a.booleanAnswer == q.trueFalse)
    ensures (q.qtype == FillBlank || q.qtype == FillBlankClue) && q.fillBlank.Some? ==>
      (r <==> BlanksCorrect(q.fillBlank.value, decode(BlankText(a.textAnswer))))
    ensures q.qtype == Matching && q.matching.Some? ==> (r <==> PairsCorrect(q.matching.value, a.matchingAnswer))
  {
    if q.qtype == MultipleChoice && q.mcq.Some? then ChoiceCorrect(q.mcq.value, a.selectedChoiceId)
    else if q.qtype == MultiSelect && q.mcq.Some? then SelectionCorrect(q.mcq.value, a.selectedChoiceIds)
    else if q.qtype == TrueFalse && q.trueFalse.Some? then BooleanCorrect(q.trueFalse.value, a.booleanAnswer)
    else if (q.qtype == FillBlank || q.qtype == FillBlankClue) && q.fillBlank.Some? then
      BlanksCorrect(q.fillBlank.value, decode(BlankText(a.textAnswer)))
    else if q.qtype == Matching && q.matching.Some? then PairsCorrect(q.matching.value, a.matchingAnswer)
    else false
  }

  // ---------------------------------------------------------------------------
  // Score and answer records
  // ---------------------------------------------------------------------------

  /** `exam.questions.find(q => q.id === id)`. */
  function FindQuestion(qs: seq<Question>, id: string): (r: Option<Question>)
    ensures r.None? <==> forall i :: 0 <= i < |qs| ==> qs[i].id != id
    ensures r.Some? ==> r.value in qs && r.value.id == id
  {
    if qs == [] then None
    else if qs[0].id == id then Some(qs[0])
    else FindQuestion(qs[1..], id)
  }

  /** `find` returns the first question with the id: the one at i when none before i has it. */
  lemma {:induction false} FindQuestionFirst(qs: seq<Question>, id: string, i: int)
    requires 0 <= i < |qs| && qs[i].id == id
    requires forall j :: 0 <= j < i ==> qs[j].id != id
    ensures FindQuestion(qs, id) == Some(qs[i])
  {
    if i > 0 {
      assert forall j :: 0 <= j < i - 1 ==> qs[1..][j] == qs[j + 1];
      FindQuestionFirst(qs[1..], id, i - 1);
    }
  }

  /** The points one answer entry earns. */
  function Award(qs: seq<Question>, a: Answer, decode: JsonDecoder): (r: int)
    ensures !Known(qs, a) ==> r == 0
    ensures Known(qs, a) ==> var q := FindQuestion(qs, a.questionId).value;
      (IsCorrect(q, a, decode) ==> r == q.points) && (!IsCorrect(q, a, decode) ==> r == 0)
  {
    match FindQuestion(qs, a.questionId)
    case None => 0
    case Some(q) => if IsCorrect(q, a, decode) then q.points else 0
  }

  /** The score of a list of answer entries: the sum of their awards. */
  function Score(qs: seq<Question>, answers: seq<Answer>, decode: JsonDecoder): (r: int)
    ensures answers == [] ==> r == 0
    ensures |answers| == 1 ==> r == Award(qs, answers[0], decode)
  {
    if answers == [] then 0
    else
      var init := answers[..|answers| - 1];
      assert |answers| == 1 ==> init == [];
      Score(qs, init, decode) + Award(qs, answers[|answers| - 1], decode)
  }

  /** The points on offer: the sum of the points of the questions the entries answer. */
  function Possible(qs: seq<Question>, answers: seq<Answer>): int {
    if answers == [] then 0
    else
      var last := answers[|answers| - 1];
      Possible(qs, answers[..|answers| - 1])
      + (if FindQuestion(qs, last.questionId).Some? then FindQuestion(qs, last.questionId).value.points else 0)
  }

  /** `selectedChoiceIds` when non-empty, else `[selectedChoiceId]` when that is non-empty, else nothing. */
  function ChoiceIds(a: Answer): (r: seq<string>)
    ensures a.selectedChoiceIds.Some? && a.selectedChoiceIds.value != [] ==> r == a.selectedChoiceIds.value
    ensures ((a.selectedChoiceIds.None? || a.selectedChoiceIds.value == [])
             && a.selectedChoiceId.Some? && a.selectedChoiceId.value != "") ==> r == [a.selectedChoiceId.value]
    ensures r == [] <==> (a.selectedChoiceIds.None? || a.selectedChoiceIds.value == [])
                         && (a.selectedChoiceId.None? || a.selectedChoiceId.value == "")
  {
    if a.selectedChoiceIds.Some? && |a.selectedChoiceIds.value| > 0 then a.selectedChoiceIds.value
    else if a.selectedChoiceId.Some? && a.selectedChoiceId.value != "" then [a.selectedChoiceId.value]
    else []
  }

  function RecordOf(a: Answer): AnswerRecord {
    AnswerRecord(a.questionId, ChoiceIds(a), a.textAnswer, a.booleanAnswer, a.matchingAnswer)
  }

  predicate Known(qs: seq<Question>, a: Answer) {
    FindQuestion(qs, a.questionId).Some?
  }

  /** The records kept: one per entry that answers a known question, in input order. */
  function Records(qs: seq<Question>, answers: seq<Answer>): (r: seq<AnswerRecord>)
    ensures answers == [] ==> r == []
    ensures |answers| == 1 ==> r == if Known(qs, answers[0]) then [RecordOf(answers[0])] else []
  {
    if answers == [] then []
    else
      var init := answers[..|answers| - 1];
      var last := answers[|answers| - 1];
      assert |answers| == 1 ==> init == [];
      Records(qs, init) + (if Known(qs, last) then [RecordOf(last)] else [])
  }

  lemma ScoreAppend(qs: seq<Question>, xs: seq<Answer>, ys: seq<Answer>, decode: JsonDecoder)
    ensures Score(qs, xs + ys, decode) == Score(qs, xs, decode) + Score(qs, ys, decode)
    ensures Possible(qs, xs + ys) == Possible(qs, xs) + Possible(qs, ys)
    ensures Records(qs, xs + ys) == Records(qs, xs) + Records(qs, ys)
  {
    ScoreSum(qs, xs, ys, decode);
    PossibleSum(qs, xs, ys);
    RecordsConcat(qs, xs, ys);
  }

  /** The last element and the prefix of a concatenation with a non-empty right part. */
  lemma SplitLast(xs: seq<Answer>, ys: seq<Answer>)
    requires ys != []
    ensures (xs + ys)[..|xs + ys| - 1] == xs + ys[..|ys| - 1]
    ensures (xs + ys)[|xs + ys| - 1] == ys[|ys| - 1]
  {
  }

  lemma {:induction false} ScoreSum(qs: seq<Question>, xs: seq<Answer>, ys: seq<Answer>, decode: JsonDecoder)
    ensures Score(qs, xs + ys, decode) == Score(qs, xs, decode) + Score(qs, ys, decode)
    decreases |ys|
  {
    if ys == [] {
      assert xs + ys == xs;
    } else {
      SplitLast(xs, ys);
      ScoreSum(qs, xs, ys[..|ys| - 1], decode);
    }
  }

  lemma {:induction false} PossibleSum(qs: seq<Question>, xs: seq<Answer>, ys: seq<Answer>)
    ensures Possible(qs, xs + ys) == Possible(qs, xs) + Possible(qs, ys)
    decreases |ys|
  {
    if ys == [] {
      assert xs + ys == xs;
    } else {
      SplitLast(xs, ys);
      PossibleSum(qs, xs, ys[..|ys| - 1]);
    }
  }

  lemma {:induction false} RecordsConcat(qs: seq<Question>, xs: seq<Answer>, ys: seq<Answer>)
    ensures Records(qs, xs + ys) == Records(qs, xs) + Records(qs, ys)
    decreases |ys|
  {
    if ys == [] {
      assert xs + ys == xs;
    } else {
      SplitLast(xs, ys);
      RecordsConcat(qs, xs, ys[..|ys| - 1]);
    }
  }

  lemma SingleEntry(qs: seq<Question>, a: Answer, decode: JsonDecoder)
    ensures Score(qs, [a], decode) == Award(qs, a, decode)
    ensures Records(qs, [a]) == if Known(qs, a) then [RecordOf(a)] else []
  {
    assert [a][..0] == [];
  }

  /** An entry for an unknown question adds nothing and leaves no record, wherever it stands. */
  lemma UnknownEntryIgnored(qs: seq<Question>, xs: seq<Answer>, a: Answer, ys: seq<Answer>,
                            decode: JsonDecoder)
    requires !Known(qs, a)
    ensures Score(qs, xs + [a] + ys, decode) == Score(qs, xs + ys, decode)
    ensures Records(qs, xs + [a] + ys) == Records(qs, xs + ys)
  {
    ScoreAppend(qs, xs + [a], ys, decode);
    ScoreAppend(qs, xs, [a], decode);
    ScoreAppend(qs, xs, ys, decode);
    SingleEntry(qs, a, decode);
  }

  /** A repeated entry is scored and recorded again. */
  lemma RepeatedEntryCounted(qs: seq<Question>, xs: seq<Answer>, a: Answer, decode: JsonDecoder)
    ensures Score(qs, xs + [a, a], decode) == Score(qs, xs, decode) + 2 * Award(qs, a, decode)
    ensures Known(qs, a) ==> Records(qs, xs + [a, a]) == Records(qs, xs) + [RecordOf(a), RecordOf(a)]
  {
    RepeatedEntryScored(qs, xs, a, decode);
    if Known(qs, a) {
      RepeatedEntryRecorded(qs, xs, a);
    }
  }

  lemma RepeatedEntryScored(qs: seq<Question>, xs: seq<Answer>, a: Answer, decode: JsonDecoder)
    ensures Score(qs, xs + [a, a], decode) == Score(qs, xs, decode) + 2 * Award(qs, a, decode)
  {
    var once := xs + [a];
    assert (once + [a])[..|once|] == once && xs + [a, a] == once + [a];
    assert once[..|xs|] == xs;
  }

  lemma RepeatedEntryRecorded(qs: seq<Question>, xs: seq<Answer>, a: Answer)
    requires Known(qs, a)
    ensures Records(qs, xs + [a, a]) == Records(qs, xs) + [RecordOf(a), RecordOf(a)]
  {
    var once := xs + [a];
    assert (once + [a])[..|once|] == once && xs + [a, a] == once + [a];
    assert once[..|xs|] == xs;
    RecordsKnownLast(qs, once);
    RecordsKnownLast(qs, once + [a]);
  }

  /** An entry for a question without its type record earns nothing. */
  lemma MissingTypeRecordScoresZero(qs: seq<Question>, a: Answer, decode: JsonDecoder)
    requires Known(qs, a) && !HasTypeRecord(FindQuestion(qs, a.questionId).value)
    ensures Award(qs, a, decode) == 0
  {
  }

  predicate AllCorrectKnown(qs: seq<Question>, answers: seq<Answer>, decode: JsonDecoder) {
    forall i :: 0 <= i < |answers| && Known(qs, answers[i]) ==>
      IsCorrect(FindQuestion(qs, answers[i].questionId).value, answers[i], decode)
  }

  /**
   * With positive points the score lies between 0 and the points on offer,
   * and reaches them exactly when every entry for a known question is right.
   */
  lemma {:induction false} ScoreBounds(qs: seq<Question>, answers: seq<Answer>, decode: JsonDecoder)
    requires forall i :: 0 <= i < |qs| ==> qs[i].points > 0
    ensures 0 <= Score(qs, answers, decode) <= Possible(qs, answers)
    ensures Score(qs, answers, decode) == Possible(qs, answers) <==> AllCorrectKnown(qs, answers, decode)
  {
    if answers != [] {
      var init := answers[..|answers| - 1];
      var last := answers[|answers| - 1];
      ScoreBounds(qs, init, decode);
      assert forall i :: 0 <= i < |init| ==> init[i] == answers[i];
      if AllCorrectKnown(qs, answers, decode) {
        assert AllCorrectKnown(qs, init, decode);
      }
      if !AllCorrectKnown(qs, init, decode) {
        var i :| 0 <= i < |init| && Known(qs, init[i])
                 && !IsCorrect(FindQuestion(qs, init[i].questionId).value, init[i], decode);
        assert answers[i] == init[i];
      }
    }
  }

  /** The stored answer rows' count: the entries that answer a known question. */
  function KnownCount(qs: seq<Question>, answers: seq<Answer>): nat {
    if answers == [] then 0
    else KnownCount(qs, answers[..|answers| - 1]) + (if Known(qs, answers[|answers| - 1]) then 1 else 0)
  }

  /** One record per entry that answers a known question. */
  lemma {:induction false} RecordsCount(qs: seq<Question>, answers: seq<Answer>)
    ensures |Records(qs, answers)| == KnownCount(qs, answers)
  {
    if answers != [] {
      RecordsCount(qs, answers[..|answers| - 1]);
    }
  }

  /** When every entry answers a known question, the records are the entries' records in submission order. */
  lemma {:induction false} RecordsOrder(qs: seq<Question>, answers: seq<Answer>)
    requires forall i :: 0 <= i < |answers| ==> Known(qs, answers[i])
    ensures |Records(qs, answers)| == |answers|
    ensures forall i :: 0 <= i < |answers| ==> Records(qs, answers)[i] == RecordOf(answers[i])
  {
    if answers != [] {
      var init := answers[..|answers| - 1];
      var last := answers[|answers| - 1];
      assert forall i :: 0 <= i < |init| ==> Known(qs, init[i]) by {
        forall i | 0 <= i < |init| ensures Known(qs, init[i]) {
          assert init[i] == answers[i];
        }
      }
      RecordsOrder(qs, init);
      RecordsKnownLast(qs, answers);
      RecordsSnoc(Records(qs, init), init, answers, RecordOf(last));
    }
  }

  lemma RecordsKnownLast(qs: seq<Question>, answers: seq<Answer>)
    requires answers != [] && Known(qs, answers[|answers| - 1])
    ensures Records(qs, answers) == Records(qs, answers[..|answers| - 1]) + [RecordOf(answers[|answers| - 1])]
  {
  }

  /** The pointwise step of `RecordsOrder`: one more record for one more entry. */
  lemma RecordsSnoc(prev: seq<AnswerRecord>, init: seq<Answer>, answers: seq<Answer>, rec: AnswerRecord)
    requires answers != [] && init == answers[..|answers| - 1] && rec == RecordOf(answers[|answers| - 1])
    requires |prev| == |init| && forall i :: 0 <= i < |init| ==> prev[i] == RecordOf(init[i])
    ensures |prev + [rec]| == |answers|
    ensures forall i :: 0 <= i < |answers| ==> (prev + [rec])[i] == RecordOf(answers[i])
  {
    forall i | 0 <= i < |answers| ensures (prev + [rec])[i] == RecordOf(answers[i]) {
      if i < |init| {
        assert init[i] == answers[i];
      }
    }
  }

  // ---------------------------------------------------------------------------
  // The grading loop
  // ---------------------------------------------------------------------------

  /** The per-type checks as the handler runs them. */
  method GradeAnswer(q: Question, a: Answer, decode: JsonDecoder) returns (isCorrect: bool)
    ensures isCorrect == IsCorrect(q, a, decode)
  {
    isCorrect := false;
    if q.qtype == MultipleChoice && q.mcq.Some? {
      var selectedChoice := if a.selectedChoiceId.Some? then FindChoice(q.mcq.value, a.selectedChoiceId.value) else None;
      if selectedChoice.Some? && selectedChoice.value.isCorrect {
        isCorrect := true;
      }
    } else if q.qtype == MultiSelect && q.mcq.Some? {
      isCorrect := SelectionCorrect(q.mcq.value, a.selectedChoiceIds);
    } else if q.qtype == TrueFalse && q.trueFalse.Some? {
      if a.booleanAnswer == q.trueFalse {
        isCorrect := true;
      }
    } else if (q.qtype == FillBlank || q.qtype == FillBlankClue) && q.fillBlank.Some? {
      isCorrect := BlanksCorrect(q.fillBlank.value, decode(BlankText(a.textAnswer)));
    } else if q.qtype == Matching && q.matching.Some? {
      isCorrect := GradeMatching(q.matching.value, a.matchingAnswer);
    }
  }

  /**
   * The body of the attempt handler between fetching the exam and storing the
   * attempt: the score, the answer rows to store and the strike count to store.
   */
  method GradeAttempt(questions: seq<Question>, answers: seq<Answer>, strikes: Option<int>, decode: JsonDecoder)
    returns (score: int, attemptAnswers: seq<AnswerRecord>, storedStrikes: int)
    ensures score == Score(questions, answers, decode)
    ensures attemptAnswers == Records(questions, answers)
    ensures storedStrikes == strikes.GetOr(0)
  {
    score := 0;
    attemptAnswers := [];
    var i := 0;
    while i < |answers|
      invariant 0 <= i <= |answers|
      invariant score == Score(questions, answers[..i], decode)
      invariant attemptAnswers == Records(questions, answers[..i])
    {
      var ans := answers[i];
      assert answers[..i + 1][..i] == answers[..i];
      var question := FindQuestion(questions, ans.questionId);
      if question.None? {
        i := i + 1;
        continue;
      }
      var pointsAwarded := 0;
      var isCorrect := GradeAnswer(question.value, ans, decode);
      if isCorrect {
        pointsAwarded := question.value.points;
      }
      score := score + pointsAwarded;
      var finalChoiceIds := [];
      if ans.selectedChoiceIds.Some? && |ans.selectedChoiceIds.value| > 0 {
        finalChoiceIds := ans.selectedChoiceIds.value;
      } else if ans.selectedChoiceId.Some? && ans.selectedChoiceId.value != "" {
        finalChoiceIds := [ans.selectedChoiceId.value];
      }
      attemptAnswers := attemptAnswers + [AnswerRecord(ans.questionId, finalChoiceIds, ans.textAnswer,
                                                       ans.booleanAnswer, ans.matchingAnswer)];
      i := i + 1;
    }
    assert answers[..i] == answers;
    storedStrikes := if strikes.Some? && strikes.value != 0 then strikes.value else 0;
  }
}
