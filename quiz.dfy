/** The "Mini Quiz" section: six fixed questions, one radio selection per question kept in
    the session store under the key `q{i}`, and a score computed when Submit is pressed. */
module Quiz {
  import Keys

  datatype Option<+T> = None | Some(value: T)

  /** One quiz record: the prompt, the options offered by its radio, and the correct option. */
  datatype Question = Question(prompt: string, options: seq<string>, answer: string)

  /** A value held in the session store: a radio's current selection, or the list of
      strings written under `quiz_answers`. */
  datatype Entry = Selection(option: string) | TextList(items: seq<string>)

  /** The session store, from key to value. */
  type Store = map<string, Entry>

  /** How a submitted quiz is reported: balloons for a perfect score, otherwise a hint to review. */
  datatype Outcome = Perfect | Incomplete

  /** What the Submit button shows: "You scored {score} / {total}" and the outcome. */
  datatype Report = Report(score: nat, total: nat, outcome: Outcome)

  const AnswersKey: string := "quiz_answers"

  /** The fixed, ordered question table. */
  const Questions: seq<Question> := [
    Question("Which type represents decimal numbers?",
             ["int", "float", "str", "bool"], "float"),
    Question("What does `len([1,2,3])` return?",
             ["2", "3", "Error", "The last element"], "3"),
    Question("Which keyword defines a function?",
             ["func", "def", "function", "define"], "def"),
    Question("What happens if you divide by zero?",
             ["Returns 0", "Returns None", "Raises an error", "Returns Infinity"], "Raises an error"),
    Question("How do you loop 5 times?",
             ["for i in 5", "for i in range(5)", "while i < 5: pass", "loop(5)"], "for i in range(5)"),
    Question("Which library is used here for charts?",
             ["matplotlib", "seaborn", "plotly", "bokeh"], "matplotlib")
  ]

  /** Every question offers four options and its answer is one of them. */
  ghost predicate WellFormed(qs: seq<Question>)
  {
    forall i :: 0 <= i < |qs| ==> |qs[i].options| == 4 && qs[i].answer in qs[i].options
  }

  lemma QuestionsWellFormed()
    ensures |Questions| == 6 && WellFormed(Questions)
  {
  }

  /** `session_state.get(key)`: the stored value, or None when the key is absent. */
  function Lookup(store: Store, key: string): Option<Entry>
  {
    if key in store then Some(store[key]) else None
  }

  /** Question `i` is answered correctly when the value stored under `q{i}` is exactly the
      answer string; a missing key or any other value does not match. */
  predicate CorrectAt(qs: seq<Question>, store: Store, i: nat)
    requires i < |qs|
  {
    Lookup(store, Keys.KeyOf(i)) == Some(Selection(qs[i].answer))
  }

  /** The score accumulated over the first `n` questions, one point per correct question. */
  function Tally(qs: seq<Question>, store: Store, n: nat): (r: nat)
    requires n <= |qs|
    ensures r <= n
  {
    if n == 0 then 0 else Tally(qs, store, n - 1) + (if CorrectAt(qs, store, n - 1) then 1 else 0)
  }

  /** The indices among the first `n` whose question is answered correctly. */
  ghost function CorrectSet(qs: seq<Question>, store: Store, n: nat): set<nat>
    requires n <= |qs|
  {
    set i: nat | i < n && CorrectAt(qs, store, i)
  }

  /** The outcome branch: anything short of the total asks the student to review. */
  function Classify(score: nat, total: nat): Outcome
  {
    if score < total then Incomplete else Perfect
  }

  /** The `quiz_answers` initialisation: a list of `n` empty strings, written only when the
      key is absent. */
  function InitAnswers(store: Store, n: nat): (r: Store)
    ensures AnswersKey in r
    ensures AnswersKey !in store ==> r[AnswersKey] == TextList(seq(n, _ => ""))
    ensures r.Keys == store.Keys + {AnswersKey}
    ensures forall k :: k in store ==> r[k] == store[k]
  {
    if AnswersKey in store then store else store[AnswersKey := TextList(seq(n, _ => ""))]
  }

  /** The write a radio makes: its selection stored under `q{i}`. */
  function Select(store: Store, i: nat, option: string): (r: Store)
    ensures Lookup(r, Keys.KeyOf(i)) == Some(Selection(option))
    ensures forall k :: k != Keys.KeyOf(i) ==> Lookup(r, k) == Lookup(store, k)
  {
    store[Keys.KeyOf(i) := Selection(option)]
  }

  /** One render pass of the radios: question `i`'s radio stores `picks[i]`, in order. */
  function SelectAll(store: Store, picks: seq<string>): (r: Store)
    ensures store.Keys <= r.Keys
    ensures forall j :: 0 <= j < |picks| ==> Keys.KeyOf(j) in r
  {
    if picks == [] then store
    else Select(SelectAll(store, picks[..|picks| - 1]), |picks| - 1, picks[|picks| - 1])
  }

  // ---------------------------------------------------------------- scoring

  /** The score is exactly the number of correctly answered questions. */
  lemma {:induction false} TallyIsCount(qs: seq<Question>, store: Store, n: nat)
    requires n <= |qs|
    ensures Tally(qs, store, n) == |CorrectSet(qs, store, n)|
  {
    if n > 0 {
      TallyIsCount(qs, store, n - 1);
      var prev, cur := CorrectSet(qs, store, n - 1), CorrectSet(qs, store, n);
      if CorrectAt(qs, store, n - 1) {
        assert cur == prev + {n - 1};
        assert n - 1 !in prev;
        assert |cur| == |prev| + 1;
      } else {
        assert cur == prev;
      }
    }
  }

  /** The score reaches `n` exactly when every one of the first `n` questions is correct. */
  lemma {:induction false} TallyFullIff(qs: seq<Question>, store: Store, n: nat)
    requires n <= |qs|
    ensures Tally(qs, store, n) == n <==> forall i :: 0 <= i < n ==> CorrectAt(qs, store, i)
  {
    if n > 0 {
      TallyFullIff(qs, store, n - 1);
    }
  }

  /** The score is 0 exactly when none of the first `n` questions is correct. */
  lemma {:induction false} TallyZeroIff(qs: seq<Question>, store: Store, n: nat)
    requires n <= |qs|
    ensures Tally(qs, store, n) == 0 <==> forall i :: 0 <= i < n ==> !CorrectAt(qs, store, i)
  {
    if n > 0 {
      TallyZeroIff(qs, store, n - 1);
    }
  }

  /** The balloons branch is taken exactly when every question is answered correctly. */
  lemma PerfectIffAllCorrect(qs: seq<Question>, store: Store)
    ensures Classify(Tally(qs, store, |qs|), |qs|) == Perfect
        <==> forall i :: 0 <= i < |qs| ==> CorrectAt(qs, store, i)
  {
    TallyFullIff(qs, store, |qs|);
  }

  /** The score depends only on the values under the question keys. */
  lemma {:induction false} TallyFrame(qs: seq<Question>, s: Store, t: Store, n: nat)
    requires n <= |qs|
    requires forall i: nat :: i < n ==> Lookup(s, Keys.KeyOf(i)) == Lookup(t, Keys.KeyOf(i))
    ensures Tally(qs, s, n) == Tally(qs, t, n)
  {
    if n > 0 {
      TallyFrame(qs, s, t, n - 1);
    }
  }

  /** Each question adds exactly 1 when correct and 0 otherwise: the score equals the score
      with question `i` left unanswered, plus 1 if question `i` is correct. */
  lemma {:induction false} Contribution(qs: seq<Question>, store: Store, i: nat, n: nat)
    requires i < |qs| && n <= |qs|
    ensures Tally(qs, store, n)
         == Tally(qs, store - {Keys.KeyOf(i)}, n) + (if i < n && CorrectAt(qs, store, i) then 1 else 0)
  {
    if n > 0 {
      Contribution(qs, store, i, n - 1);
      var cleared := store - {Keys.KeyOf(i)};
      if n - 1 == i {
        assert !CorrectAt(qs, cleared, i);
      } else {
        assert Keys.KeyOf(n - 1) != Keys.KeyOf(i) by {
          if Keys.KeyOf(n - 1) == Keys.KeyOf(i) {
            Keys.KeyInjective(n - 1, i);
          }
        }
        assert CorrectAt(qs, cleared, n - 1) == CorrectAt(qs, store, n - 1);
      }
    }
  }

  /** An unanswered question never adds to the score. */
  lemma UnansweredAddsNothing(qs: seq<Question>, store: Store, i: nat)
    requires i < |qs| && Keys.KeyOf(i) !in store
    ensures Tally(qs, store, |qs|) == Tally(qs, store[Keys.KeyOf(i) := Selection(qs[i].answer)], |qs|) - 1
  {
    var fixed := store[Keys.KeyOf(i) := Selection(qs[i].answer)];
    Contribution(qs, fixed, i, |qs|);
    assert fixed - {Keys.KeyOf(i)} == store;
  }

  // ---------------------------------------------------------------- store updates

  /** Initialising `quiz_answers` never changes the score. */
  lemma InitKeepsScore(qs: seq<Question>, store: Store, n: nat)
    ensures Tally(qs, InitAnswers(store, n), |qs|) == Tally(qs, store, |qs|)
  {
    forall i: nat | i < |qs|
      ensures Lookup(InitAnswers(store, n), Keys.KeyOf(i)) == Lookup(store, Keys.KeyOf(i))
    {
      QuestionKeyIsNotAnswersKey(i);
    }
    TallyFrame(qs, InitAnswers(store, n), store, |qs|);
  }

  /** No question key is the `quiz_answers` key. */
  lemma QuestionKeyIsNotAnswersKey(i: nat)
    ensures Keys.KeyOf(i) != AnswersKey
  {
    var k := Keys.KeyOf(i);
    assert AnswersKey[1] == 'u';
    assert '0' <= k[1] <= '9';
  }

  /** Initialising twice is the same as initialising once. */
  lemma InitIdempotent(store: Store, n: nat)
    ensures InitAnswers(InitAnswers(store, n), n) == InitAnswers(store, n)
  {
  }

  /** The last selection written for a question is the one that stays. */
  lemma LastWriteWins(store: Store, i: nat, a: string, b: string)
    ensures Select(Select(store, i, a), i, b) == Select(store, i, b)
  {
  }

  /** A radio pass leaves every key it does not write as it was, `quiz_answers` included. */
  lemma {:induction false} SelectAllFrame(store: Store, picks: seq<string>, k: string)
    requires forall j :: 0 <= j < |picks| ==> k != Keys.KeyOf(j)
    ensures Lookup(SelectAll(store, picks), k) == Lookup(store, k)
  {
    if picks != [] {
      SelectAllFrame(store, picks[..|picks| - 1], k);
    }
  }

  /** Changing question `i`'s selection changes only question `i`'s verdict. */
  lemma SelectOnlyAffectsItsQuestion(qs: seq<Question>, store: Store, i: nat, option: string, j: nat)
    requires i < |qs| && j < |qs|
    ensures CorrectAt(qs, Select(store, i, option), j)
         == if j == i then option == qs[i].answer else CorrectAt(qs, store, j)
  {
    if j != i && Keys.KeyOf(j) == Keys.KeyOf(i) {
      Keys.KeyInjective(j, i);
    }
  }

  /** After a radio pass, question `j` holds exactly the pick made for it. */
  lemma {:induction false} SelectAllAt(store: Store, picks: seq<string>, j: nat)
    requires j < |picks|
    ensures Lookup(SelectAll(store, picks), Keys.KeyOf(j)) == Some(Selection(picks[j]))
  {
    var last := |picks| - 1;
    if j < last {
      SelectAllAt(store, picks[..last], j);
      if Keys.KeyOf(j) == Keys.KeyOf(last) {
        Keys.KeyInjective(j, last);
      }
    }
  }

  /** After a radio pass, question `j` is correct exactly when its pick is its answer. */
  lemma RadioPassVerdict(qs: seq<Question>, store: Store, picks: seq<string>)
    requires |picks| == |qs|
    ensures forall j :: 0 <= j < |qs| ==> (CorrectAt(qs, SelectAll(store, picks), j) <==> picks[j] == qs[j].answer)
  {
    forall j | 0 <= j < |qs|
      ensures CorrectAt(qs, SelectAll(store, picks), j) <==> picks[j] == qs[j].answer
    {
      SelectAllAt(store, picks, j);
    }
  }

  /** A radio pass commutes with a later write to a question it does not reach. */
  lemma {:induction false} SelectAllThenSelect(store: Store, picks: seq<string>, n: nat, option: string)
    requires |picks| <= n
    ensures SelectAll(Select(store, n, option), picks) == Select(SelectAll(store, picks), n, option)
  {
    if picks != [] {
      var m := |picks| - 1;
      SelectAllThenSelect(store, picks[..m], n, option);
      var inner := SelectAll(store, picks[..m]);
      assert Keys.KeyOf(m) != Keys.KeyOf(n) by {
        if Keys.KeyOf(m) == Keys.KeyOf(n) {
          Keys.KeyInjective(m, n);
        }
      }
      assert Select(Select(inner, n, option), m, picks[m]) == Select(Select(inner, m, picks[m]), n, option);
    }
  }

  /** A radio pass overwrites everything an earlier, no longer pass wrote. */
  lemma {:induction false} SelectAllOverwrites(store: Store, earlier: seq<string>, picks: seq<string>)
    requires |earlier| <= |picks|
    ensures SelectAll(SelectAll(store, earlier), picks) == SelectAll(store, picks)
  {
    if picks != [] {
      var n := |picks| - 1;
      var rest := picks[..n];
      var start := SelectAll(store, earlier);
      assert SelectAll(start, picks) == Select(SelectAll(start, rest), n, picks[n]);
      assert SelectAll(store, picks) == Select(SelectAll(store, rest), n, picks[n]);
      if |earlier| <= n {
        SelectAllOverwrites(store, earlier, rest);
      } else {
        var before := SelectAll(store, earlier[..n]);
        assert start == Select(before, n, earlier[n]);
        SelectAllThenSelect(before, rest, n, earlier[n]);
        SelectAllOverwrites(store, earlier[..n], rest);
        LastWriteWins(SelectAll(before, rest), n, earlier[n], picks[n]);
      }
    }
  }

  /** Rendering the quiz again with the same selections leaves the session store as it was:
      `quiz_answers` is not rewritten and every radio stores the value it already holds. */
  lemma RerenderKeepsStore(store: Store, picks: seq<string>)
    ensures SelectAll(InitAnswers(SelectAll(InitAnswers(store, |picks|), picks), |picks|), picks)
         == SelectAll(InitAnswers(store, |picks|), picks)
  {
    var after := SelectAll(InitAnswers(store, |picks|), picks);
    assert InitAnswers(after, |picks|) == after;
    SelectAllOverwrites(InitAnswers(store, |picks|), picks, picks);
  }

  // ---------------------------------------------------------------- the fixed table

  /** Choosing every answer scores 6 / 6 and takes the balloons branch. */
  lemma AnswerKeyScoresPerfect(store: Store)
    ensures Tally(Questions, SelectAll(store, ["float", "3", "def", "Raises an error", "for i in range(5)", "matplotlib"]), 6) == 6
    ensures Classify(Tally(Questions, SelectAll(store, ["float", "3", "def", "Raises an error", "for i in range(5)", "matplotlib"]), 6), |Questions|) == Perfect
  {
    var picks := ["float", "3", "def", "Raises an error", "for i in range(5)", "matplotlib"];
    RadioPassVerdict(Questions, store, picks);
    TallyFullIff(Questions, SelectAll(store, picks), 6);
  }

  /** Choosing the first option everywhere but the last question, and "seaborn" there,
      scores 0 / 6 and takes the review branch. */
  lemma WrongPicksScoreZero(store: Store)
    ensures Tally(Questions, SelectAll(store, ["int", "2", "func", "Returns 0", "for i in 5", "seaborn"]), 6) == 0
    ensures Classify(Tally(Questions, SelectAll(store, ["int", "2", "func", "Returns 0", "for i in 5", "seaborn"]), 6), |Questions|) == Incomplete
  {
    var picks := ["int", "2", "func", "Returns 0", "for i in 5", "seaborn"];
    RadioPassVerdict(Questions, store, picks);
    TallyZeroIff(Questions, SelectAll(store, picks), 6);
  }

  // ---------------------------------------------------------------- the session

  /** The per-session store (`st.session_state`), updated in place by the page. */
  class Session {
    var entries: Store

    /** A fresh session holds nothing. */
    constructor ()
      ensures entries == map[]
    {
      entries := map[];
    }

    /** Writes `quiz_answers` as `n` empty strings, only when it is absent. */
    method InitQuizAnswers(n: nat)
      modifies this
      ensures entries == InitAnswers(old(entries), n)
      ensures AnswersKey in entries
      ensures AnswersKey in old(entries) ==> entries == old(entries)
      ensures forall k :: k != AnswersKey ==> Lookup(entries, k) == Lookup(old(entries), k)
    {
      if AnswersKey !in entries {
        entries := entries[AnswersKey := TextList(seq(n, _ => ""))];
      }
    }

    /** A radio stores the selection for question `i`. */
    method RecordSelection(i: nat, option: string)
      modifies this
      ensures entries == Select(old(entries), i, option)
    {
      entries := Select(entries, i, option);
    }

    /** The scoring loop: one point per question whose stored selection equals its answer.
        It only reads the store. */
    method ComputeScore(qs: seq<Question>) returns (score: nat)
      ensures score == |CorrectSet(qs, entries, |qs|)|
      ensures score <= |qs|
    {
      score := 0;
      for i := 0 to |qs|
        invariant score == Tally(qs, entries, i)
      {
        var sel := Lookup(entries, Keys.KeyOf(i));
        if sel == Some(Selection(qs[i].answer)) {
          score := score + 1;
        }
      }
      TallyIsCount(qs, entries, |qs|);
    }

    /** The Submit button: nothing when not pressed; otherwise the score out of the number
        of questions, with the balloons outcome exactly when every question is correct. */
    method Submit(qs: seq<Question>, pressed: bool) returns (report: Option<Report>)
      ensures report.Some? <==> pressed
      ensures report.Some? ==> report.value.score == |CorrectSet(qs, entries, |qs|)|
      ensures report.Some? ==> report.value.total == |qs| && report.value.score <= |qs|
      ensures report.Some? ==>
                (report.value.outcome == Perfect <==> forall i :: 0 <= i < |qs| ==> CorrectAt(qs, entries, i))
    {
      if !pressed {
        return None;
      }
      var score := ComputeScore(qs);
      TallyIsCount(qs, entries, |qs|);
      PerfectIffAllCorrect(qs, entries);
      report := Some(Report(score, |qs|, Classify(score, |qs|)));
    }

    /** One render pass of the quiz section: initialise `quiz_answers`, let each radio store
        its pick, then handle the Submit button. */
    method RenderQuiz(picks: seq<string>, pressed: bool) returns (report: Option<Report>)
      requires |picks| == |Questions|
      modifies this
      ensures entries == SelectAll(InitAnswers(old(entries), |Questions|), picks)
      ensures AnswersKey in entries
      ensures entries[AnswersKey] == if AnswersKey in old(entries) then old(entries)[AnswersKey]
                                     else TextList(seq(|Questions|, _ => ""))
      ensures report.Some? <==> pressed
      ensures report.Some? ==> report.value.total == |Questions|
      ensures report.Some? ==> report.value.score
                                 == |set i: nat | i < |Questions| && picks[i] == Questions[i].answer|
      ensures report.Some? ==>
                (report.value.outcome == Perfect <==> forall i :: 0 <= i < |Questions| ==> picks[i] == Questions[i].answer)
    {
      InitQuizAnswers(|Questions|);
      ghost var init := entries;
      for i := 0 to |Questions|
        invariant entries == SelectAll(init, picks[..i])
      {
        RecordSelection(i, picks[i]);
        assert picks[..i + 1][..i] == picks[..i];
      }
      assert picks[..|Questions|] == picks;
      forall j | 0 <= j < |picks| ensures AnswersKey != Keys.KeyOf(j) {
        QuestionKeyIsNotAnswersKey(j);
      }
      SelectAllFrame(init, picks, AnswersKey);
      report := Submit(Questions, pressed);
      if pressed {
        RadioPassVerdict(Questions, init, picks);
        assert CorrectSet(Questions, entries, |Questions|)
            == set i: nat | i < |Questions| && picks[i] == Questions[i].answer;
      }
    }
  }
}
