/** The quiz store: the full pool of questions, the quiz currently selected
    and the level of that quiz, with three derived views (questions of a
    level, their count, the levels present) and the actions that replace
    the stored fields. */
module Quiz {
  import opened JsArray

  datatype Option<T> = None | Some(value: T)

  type Level = string

  /** A question record. Only `level` is interpreted by the store; the
      other properties are carried along untouched. */
  datatype Question = Question(level: Level, fields: map<string, string>)

  /** An argument handed to an action, which may or may not be an array:
      `null`, an array of questions, or any other value (a string, a
      number, a plain object), kept opaque. */
  datatype JsValue = Null | Array(elems: seq<Question>) | Opaque(repr: string)

  /** The level that `currentLevel` must hold for a given `selectedQuiz`:
      the first question's level for a non-empty array, null otherwise. */
  function LeadLevel(quiz: JsValue): Option<Level>
  {
    if quiz.Array? && |quiz.elems| > 0 then Some(quiz.elems[0].level) else None
  }

  // ---------------------------------------------------------------------
  // Getters: pure functions of the stored question pool

  /** `getQuestionsByLevel(level)`: the questions whose level is `level`. */
  function QuestionsByLevel(quizData: seq<Question>, level: Level): (r: seq<Question>)
    ensures |r| <= |quizData|
    ensures forall i :: 0 <= i < |r| ==> r[i].level == level
    ensures forall q :: q in r <==> q in quizData && q.level == level
  {
    if quizData == [] then []
    else
      assert quizData == [quizData[0]] + quizData[1..];
      (if quizData[0].level == level then [quizData[0]] else [])
        + QuestionsByLevel(quizData[1..], level)
  }

  /** `getQuestionCountByLevel(level)`: how many questions have `level`. */
  function QuestionCountByLevel(quizData: seq<Question>, level: Level): (n: nat)
    ensures n == |QuestionsByLevel(quizData, level)|
    ensures n == multiset(LevelsOf(quizData))[level]
    ensures n <= |quizData|
    ensures n == 0 <==> forall i :: 0 <= i < |quizData| ==> quizData[i].level != level
    ensures n == |quizData| <==> forall i :: 0 <= i < |quizData| ==> quizData[i].level == level
  {
    var r := QuestionsByLevel(quizData, level);
    FilterKeepsAllIff(quizData, level);
    FilterCountsLevel(quizData, level);
    assert r != [] ==> r[0] in r;
    assert forall i :: 0 <= i < |quizData| && quizData[i].level == level ==> quizData[i] in r;
    |r|
  }

  /** `quizData.map(q => q.level)`: the level of each question, in order. */
  function LevelsOf(quizData: seq<Question>): seq<Level>
  {
    seq(|quizData|, i requires 0 <= i < |quizData| => quizData[i].level)
  }

  /** Filtering keeps one question for each occurrence of the level among
      the pool's levels. */
  lemma {:induction false} FilterCountsLevel(quizData: seq<Question>, level: Level)
    ensures |QuestionsByLevel(quizData, level)| == multiset(LevelsOf(quizData))[level]
  {
    if quizData != [] {
      FilterCountsLevel(quizData[1..], level);
      assert LevelsOf(quizData) == [quizData[0].level] + LevelsOf(quizData[1..]);
    }
  }

  /** `availableLevels`: the levels present in the pool, each once, in the
      default sort order. */
  function AvailableLevels(quizData: seq<Question>): (r: seq<Level>)
    ensures StrictlySorted(r)
    ensures forall l :: l in r <==> exists i :: 0 <= i < |quizData| && quizData[i].level == l
  {
    var levels := LevelsOf(quizData);
    var r := Sort(Dedup(levels));
    SortedDistinctIsStrict(r);
    SortKeepsMembers(Dedup(levels));
    forall l | exists i :: 0 <= i < |quizData| && quizData[i].level == l
      ensures l in levels
    {
      var i :| 0 <= i < |quizData| && quizData[i].level == l;
      assert levels[i] == l;
    }
    r
  }

  // ---------------------------------------------------------------------
  // Properties of the getters

  /** `s` occurs in `t` with its order kept, possibly with gaps. */
  predicate IsSubsequence<T(==)>(s: seq<T>, t: seq<T>)
  {
    if s == [] then true
    else if t == [] then false
    else if s[0] == t[0] then IsSubsequence(s[1..], t[1..])
    else IsSubsequence(s, t[1..])
  }

  lemma {:induction false} QuestionsByLevelIsSubsequence(quizData: seq<Question>, level: Level)
    ensures IsSubsequence(QuestionsByLevel(quizData, level), quizData)
  {
    if quizData != [] {
      var r := QuestionsByLevel(quizData, level);
      var rest := QuestionsByLevel(quizData[1..], level);
      QuestionsByLevelIsSubsequence(quizData[1..], level);
      if quizData[0].level == level {
        assert r == [quizData[0]] + rest;
        assert r[1..] == rest;
      } else {
        assert r == rest;
        assert r != [] ==> r[0].level == level;
      }
    }
  }

  /** Filtering a concatenation filters each part: the matching questions
      come out in the order they had in the pool. */
  lemma {:induction false} QuestionsByLevelConcat(a: seq<Question>, b: seq<Question>, level: Level)
    ensures QuestionsByLevel(a + b, level) == QuestionsByLevel(a, level) + QuestionsByLevel(b, level)
  {
    if a == [] {
      assert a + b == b;
    } else {
      assert (a + b)[0] == a[0];
      assert (a + b)[1..] == a[1..] + b;
      QuestionsByLevelConcat(a[1..], b, level);
    }
  }

  /** Each matching question keeps its multiplicity; no other is kept. */
  lemma {:induction false} QuestionsByLevelMultiset(quizData: seq<Question>, level: Level, q: Question)
    ensures multiset(QuestionsByLevel(quizData, level))[q]
            == if q.level == level then multiset(quizData)[q] else 0
  {
    if quizData != [] {
      var head, tail := quizData[0], quizData[1..];
      QuestionsByLevelMultiset(tail, level, q);
      assert quizData == [head] + tail;
      assert multiset(quizData) == multiset{head} + multiset(tail);
      var kept := if head.level == level then [head] else [];
      assert QuestionsByLevel(quizData, level) == kept + QuestionsByLevel(tail, level);
      assert multiset(QuestionsByLevel(quizData, level))
             == multiset(kept) + multiset(QuestionsByLevel(tail, level));
    }
  }

  lemma {:induction false} FilterKeepsAllIff(quizData: seq<Question>, level: Level)
    ensures |QuestionsByLevel(quizData, level)| == |quizData|
            <==> forall i :: 0 <= i < |quizData| ==> quizData[i].level == level
  {
    if quizData != [] {
      FilterKeepsAllIff(quizData[1..], level);
      assert forall i :: 1 <= i < |quizData| ==> quizData[i] == quizData[1..][i - 1];
    }
  }

  /** Any strictly sorted sequence holding exactly the pool's levels is
      `availableLevels`. */
  lemma AvailableLevelsUnique(quizData: seq<Question>, levels: seq<Level>)
    requires StrictlySorted(levels)
    requires forall l :: l in levels <==> exists i :: 0 <= i < |quizData| && quizData[i].level == l
    ensures levels == AvailableLevels(quizData)
  {
    StrictlySortedUnique(levels, AvailableLevels(quizData));
  }

  /** The sum of the counts of the given levels. */
  function TotalCount(quizData: seq<Question>, levels: seq<Level>): nat
  {
    if levels == [] then 0
    else QuestionCountByLevel(quizData, levels[0]) + TotalCount(quizData, levels[1..])
  }

  lemma {:induction false} TotalCountCons(q: Question, rest: seq<Question>, levels: seq<Level>)
    ensures TotalCount([q] + rest, levels) == multiset(levels)[q.level] + TotalCount(rest, levels)
  {
    if levels != [] {
      TotalCountCons(q, rest, levels[1..]);
      assert ([q] + rest)[1..] == rest;
      assert levels == [levels[0]] + levels[1..];
    }
  }

  /** Counting the questions of every available level counts every
      question exactly once. */
  lemma {:induction false} CountsCoverPool(quizData: seq<Question>)
    ensures TotalCount(quizData, AvailableLevels(quizData)) == |quizData|
  {
    var levels := AvailableLevels(quizData);
    StrictlySortedIsDistinct(levels);
    CountsCoverPoolFrom(quizData, levels);
  }

  lemma {:induction false} CountsCoverPoolFrom(quizData: seq<Question>, levels: seq<Level>)
    requires Distinct(levels)
    requires forall i :: 0 <= i < |quizData| ==> quizData[i].level in levels
    ensures TotalCount(quizData, levels) == |quizData|
  {
    if quizData == [] {
      TotalCountEmpty(levels);
    } else {
      var rest := quizData[1..];
      assert quizData == [quizData[0]] + rest;
      assert forall i :: 0 <= i < |rest| ==> rest[i] == quizData[i + 1];
      CountsCoverPoolFrom(rest, levels);
      TotalCountCons(quizData[0], rest, levels);
      DistinctMultiplicity(levels, quizData[0].level);
    }
  }

  lemma {:induction false} TotalCountEmpty(levels: seq<Level>)
    ensures TotalCount([], levels) == 0
  {
    if levels != [] {
      TotalCountEmpty(levels[1..]);
    }
  }

  /** A pool with levels N5, N4, N5: two N5 questions, and the levels come
      out once each, in string order. */
  lemma AvailableLevelsExample(fields: map<string, string>)
    ensures var pool := [Question("N5", fields), Question("N4", fields), Question("N5", fields)];
            QuestionCountByLevel(pool, "N5") == 2 && AvailableLevels(pool) == ["N4", "N5"]
  {
    var pool := [Question("N5", fields), Question("N4", fields), Question("N5", fields)];
    assert pool[1..] == [Question("N4", fields), Question("N5", fields)];
    assert pool[1..][1..] == [Question("N5", fields)];
    var expected: seq<Level> := ["N4", "N5"];
    assert Less(expected[0], expected[1]);
    forall l | exists i :: 0 <= i < |pool| && pool[i].level == l
      ensures l in expected
    {
      var i :| 0 <= i < |pool| && pool[i].level == l;
    }
    assert pool[1].level == expected[0] && pool[0].level == expected[1];
    AvailableLevelsUnique(pool, expected);
  }

  /** Numeric-looking levels are ordered as strings: "10" before "9". */
  lemma AvailableLevelsStringOrder(fields: map<string, string>)
    ensures AvailableLevels([Question("9", fields), Question("10", fields)]) == ["10", "9"]
  {
    var pool := [Question("9", fields), Question("10", fields)];
    var expected: seq<Level> := ["10", "9"];
    assert Less(expected[0], expected[1]);
    forall l | exists i :: 0 <= i < |pool| && pool[i].level == l
      ensures l in expected
    {
      var i :| 0 <= i < |pool| && pool[i].level == l;
    }
    assert pool[1].level == expected[0] && pool[0].level == expected[1];
    AvailableLevelsUnique(pool, expected);
  }

  // ---------------------------------------------------------------------
  // The store and its actions

  class QuizStore {
    var quizData: seq<Question>
    var selectedQuiz: JsValue
    var currentLevel: Option<Level>

    /** `currentLevel` is the level of the selected quiz's first question,
        or null when no non-empty quiz is selected. */
    ghost predicate Valid()
      reads this
    {
      currentLevel == LeadLevel(selectedQuiz)
    }

    /** The initial state: no questions, nothing selected. */
    constructor ()
      ensures quizData == [] && selectedQuiz == Null && currentLevel == None
      ensures Valid()
    {
      quizData := [];
      selectedQuiz := Null;
      currentLevel := None;
    }

    /** Replaces the pool; anything that is not an array becomes empty. */
    method SetQuizData(data: JsValue)
      modifies this
      ensures quizData == (if data.Array? then data.elems else [])
      ensures selectedQuiz == old(selectedQuiz) && currentLevel == old(currentLevel)
      ensures old(Valid()) ==> Valid()
    {
      quizData := if data.Array? then data.elems else [];
    }

    /** Stores `quiz` as given and derives the current level from it. */
    method SetSelectedQuiz(quiz: JsValue)
      modifies this
      ensures selectedQuiz == quiz
      ensures currentLevel == LeadLevel(quiz)
      ensures quizData == old(quizData)
      ensures Valid()
    {
      selectedQuiz := quiz;
      currentLevel := LeadLevel(quiz);
    }

    /** Returns the questions of `level`, as `getQuestionsByLevel` does,
        without changing the store. */
    method GetQuizByLevel(level: Level) returns (questions: seq<Question>)
      ensures questions == QuestionsByLevel(quizData, level)
      ensures forall q :: q in questions <==> q in quizData && q.level == level
    {
      questions := QuestionsByLevel(quizData, level);
    }

    method ClearSelectedQuiz()
      modifies this
      ensures selectedQuiz == Null && currentLevel == None
      ensures quizData == old(quizData)
      ensures Valid()
    {
      selectedQuiz := Null;
      currentLevel := None;
    }

    /** Resets the store to its initial state. */
    method ClearAllData()
      modifies this
      ensures quizData == [] && selectedQuiz == Null && currentLevel == None
      ensures Valid()
    {
      quizData := [];
      selectedQuiz := Null;
      currentLevel := None;
    }
  }

  /** A caller's view of the store, using only the contracts above. */
  method StoreScenario(q: Question)
  {
    var store := new QuizStore();
    store.SetQuizData(Array([q, q]));
    assert QuestionCountByLevel(store.quizData, q.level) == 2;
    store.SetQuizData(Opaque("not an array"));
    assert store.quizData == [];
    store.SetSelectedQuiz(Array([q]));
    assert store.currentLevel == Some(q.level);
    store.SetSelectedQuiz(Array([]));
    assert store.currentLevel == None;
    store.SetSelectedQuiz(Opaque("not an array"));
    assert store.currentLevel == None && store.selectedQuiz == Opaque("not an array");
    store.ClearAllData();
    assert store.quizData == [] && store.selectedQuiz == Null && store.currentLevel == None;
  }
}
