/**
 * `POST /quizzes/`: the next quiz question. The pool is every question or
 * one category's; the choice is the LAST pool question not yet asked (a
 * loop overwrites its candidate), with an empty-question override when the
 * number of asked ids equals the pool size.
 */
module Quiz {
  import opened Wrappers
  import opened Errors
  import opened Entities

  /**
   * The JSON body. `quizCategoryId` is `quiz_category["id"]` read as an
   * integer, `categories` the size of the `categories` object; `None` marks
   * a missing value, on which Python raises and the request ends in a 500.
   */
  datatype QuizRequest = QuizRequest(
    previousQuestions: Option<seq<int>>, quizCategoryId: Option<int>, categories: Option<nat>)

  /** The `question` field: a pool question, or the `''` sentinel. */
  datatype QuizQuestion = Asked(q: Question) | NoQuestion

  /** The success body. */
  datatype QuizBody = QuizBody(question: QuizQuestion, lastQuestion: bool, questions: nat)

  /**
   * The candidate pool for category `id`: id 0 takes every question, an id
   * from 1 to the size of `categories` that category's questions, any other
   * id a 404. `len(categories)` is only evaluated for a positive id.
   */
  function QuizPool(questions: seq<Question>, id: int, categories: Option<nat>): (r: Result<seq<Question>>)
    ensures id == 0 ==> r == Ok(questions)
    ensures 0 < id && categories.Some? && id <= categories.value ==> r == Ok(OfCategory(questions, id))
    ensures r.Ok? ==> forall q :: q in r.value <==> q in questions && (id == 0 || q.category == id)
    ensures r == Fail(NotFound) <==> id < 0 || (id > 0 && categories.Some? && id > categories.value)
    ensures r == Fail(ServerError) <==> id > 0 && categories.None?
  {
    if id == 0 then Ok(questions)
    else if id > 0 && categories.None? then Fail(ServerError)
    else if id > 0 && id <= categories.value then Ok(OfCategory(questions, id))
    else Fail(NotFound)
  }

  /** The last question of `pool` whose id is not in `prev`, if there is one. */
  function LastUnseen(pool: seq<Question>, prev: seq<int>): (r: Option<Question>)
    ensures r.None? <==> forall k :: 0 <= k < |pool| ==> pool[k].id in prev
    ensures r.Some? ==> exists k :: 0 <= k < |pool| && pool[k] == r.value && pool[k].id !in prev
                          && forall j :: k < j < |pool| ==> pool[j].id in prev
  {
    if pool == [] then None
    else if pool[|pool| - 1].id !in prev then Some(pool[|pool| - 1])
    else
      var r := LastUnseen(pool[..|pool| - 1], prev);
      LastUnseenStep(pool, prev, r);
      r
  }

  /** The recursive step of `LastUnseen`: an asked last question leaves the answer of the prefix. */
  lemma LastUnseenStep(pool: seq<Question>, prev: seq<int>, r: Option<Question>)
    requires pool != [] && pool[|pool| - 1].id in prev
    requires var init := pool[..|pool| - 1];
      && (r.None? <==> forall k :: 0 <= k < |init| ==> init[k].id in prev)
      && (r.Some? ==> exists k :: 0 <= k < |init| && init[k] == r.value && init[k].id !in prev
                                 && forall j :: k < j < |init| ==> init[j].id in prev)
    ensures r.None? <==> forall k :: 0 <= k < |pool| ==> pool[k].id in prev
    ensures r.Some? ==> exists k :: 0 <= k < |pool| && pool[k] == r.value && pool[k].id !in prev
                          && forall j :: k < j < |pool| ==> pool[j].id in prev
  {
    var init := pool[..|pool| - 1];
    assert forall k :: 0 <= k < |init| ==> init[k] == pool[k];
    if r.Some? {
      var k :| 0 <= k < |init| && init[k] == r.value && init[k].id !in prev
               && forall j :: k < j < |init| ==> init[j].id in prev;
      assert pool[k] == r.value && pool[k].id !in prev;
      assert forall j :: k < j < |pool| ==> pool[j].id in prev;
    }
  }

  /**
   * The response for a pool and the asked ids: the override when their
   * sizes are equal, otherwise the last unseen question with `last_question`
   * set by the off-by-one test, and a 500 when nothing is unseen (the local
   * `new_question` is then never bound).
   */
  function Answer(pool: seq<Question>, prev: seq<int>): (r: Result<QuizBody>)
    ensures |pool| == |prev| ==> r == Ok(QuizBody(NoQuestion, true, |pool|))
    ensures r.Fail? <==> |pool| != |prev| && forall k :: 0 <= k < |pool| ==> pool[k].id in prev
    ensures r.Fail? ==> r.error == ServerError
    ensures r.Ok? ==> r.value.questions == |pool|
    ensures |pool| != |prev| && LastUnseen(pool, prev).Some? ==>
      r == Ok(QuizBody(Asked(LastUnseen(pool, prev).value), |prev| == |pool| + 1, |pool|))
    ensures r.Ok? && r.value.question.Asked? ==>
      && r.value.question.q in pool && r.value.question.q.id !in prev
      && r.value.lastQuestion == (|prev| == |pool| + 1)
  {
    if |pool| == |prev| then Ok(QuizBody(NoQuestion, true, |pool|))
    else match LastUnseen(pool, prev)
      case None => Fail(ServerError)
      case Some(q) => Ok(QuizBody(Asked(q), |prev| == |pool| + 1, |pool|))
  }

  /** The whole route, in the order the source evaluates it. */
  function QuizResponse(questions: seq<Question>, req: QuizRequest): (r: Result<QuizBody>)
    ensures r == Fail(NotFound) <==>
      req.quizCategoryId.Some? &&
      var id := req.quizCategoryId.value;
      id < 0 || (id > 0 && req.categories.Some? && id > req.categories.value)
    ensures r == Fail(ServerError) <==>
      || req.quizCategoryId.None?
      || (req.quizCategoryId.value > 0 && req.categories.None?)
      || (QuizPool(questions, req.quizCategoryId.value, req.categories).Ok? &&
          var pool := QuizPool(questions, req.quizCategoryId.value, req.categories).value;
          || req.previousQuestions.None?
          || (|pool| != |req.previousQuestions.value|
              && forall k :: 0 <= k < |pool| ==> pool[k].id in req.previousQuestions.value))
    ensures r.Fail? ==> r.error == NotFound || r.error == ServerError
  {
    if req.quizCategoryId.None? then Fail(ServerError)
    else match QuizPool(questions, req.quizCategoryId.value, req.categories)
      case Fail(e) => Fail(e)
      case Ok(pool) =>
        if req.previousQuestions.None? then Fail(ServerError)
        else Answer(pool, req.previousQuestions.value)
  }

  /** Lines choosing the next question: the candidate-overwriting loop and the override. */
  method SelectQuestion(pool: seq<Question>, prev: seq<int>) returns (r: Result<QuizBody>)
    ensures r == Answer(pool, prev)
  {
    var lastQuestion := |prev| == |pool| + 1;
    var newQuestion: Option<Question> := None;
    for i := 0 to |pool|
      invariant newQuestion == LastUnseen(pool[..i], prev)
    {
      assert pool[..i + 1][..i] == pool[..i];
      if pool[i].id !in prev {
        newQuestion := Some(pool[i]);
      }
    }
    assert pool[..|pool|] == pool;
    if |pool| == |prev| {
      r := Ok(QuizBody(NoQuestion, true, |pool|));
    } else if newQuestion.None? {
      r := Fail(ServerError);
    } else {
      r := Ok(QuizBody(Asked(newQuestion.value), lastQuestion, |pool|));
    }
  }

  /** `play_quizz`: read the request, pick the pool, select. */
  method PlayQuiz(questions: seq<Question>, req: QuizRequest) returns (r: Result<QuizBody>)
    ensures r == QuizResponse(questions, req)
  {
    if req.quizCategoryId.None? {
      return Fail(ServerError);
    }
    var pool := QuizPool(questions, req.quizCategoryId.value, req.categories);
    if pool.Fail? {
      return Fail(pool.error);
    }
    if req.previousQuestions.None? {
      return Fail(ServerError);
    }
    r := SelectQuestion(pool.value, req.previousQuestions.value);
  }

  /** A category id outside 0..|categories| is a 404, whatever else the request holds. */
  lemma OutOfRangeCategoryIsNotFound(questions: seq<Question>, req: QuizRequest)
    requires req.quizCategoryId.Some? && req.categories.Some?
    requires var id := req.quizCategoryId.value; id < 0 || id > req.categories.value
    ensures QuizResponse(questions, req) == Fail(NotFound)
  {
  }

  /** Once as many ids were asked as the pool holds, the sentinel comes back and the quiz ends. */
  lemma ExhaustedPoolEndsQuiz(questions: seq<Question>, req: QuizRequest, pool: seq<Question>)
    requires req.quizCategoryId.Some? && req.previousQuestions.Some?
    requires QuizPool(questions, req.quizCategoryId.value, req.categories) == Ok(pool)
    requires |req.previousQuestions.value| == |pool|
    ensures QuizResponse(questions, req) == Ok(QuizBody(NoQuestion, true, |pool|))
  {
  }

  /**
   * Any question served is from the pool, was not asked before, and is the
   * last such one in pool order; `questions` is the pool size and
   * `last_question` is the off-by-one test.
   */
  lemma {:induction false} ServedQuestionIsLastUnseen(questions: seq<Question>, req: QuizRequest, q: Question)
    requires QuizResponse(questions, req).Ok?
    requires QuizResponse(questions, req).value.question == Asked(q)
    ensures req.quizCategoryId.Some? && req.previousQuestions.Some?
    ensures var id, prev := req.quizCategoryId.value, req.previousQuestions.value;
      var pool := QuizPool(questions, id, req.categories).value;
      && q.id !in prev
      && q in questions && (id == 0 || q.category == id)
      && (exists k :: 0 <= k < |pool| && pool[k] == q && forall j :: k < j < |pool| ==> pool[j].id in prev)
      && QuizResponse(questions, req).value.lastQuestion == (|prev| == |pool| + 1)
      && QuizResponse(questions, req).value.questions == |pool|
  {
    var pool := QuizPool(questions, req.quizCategoryId.value, req.categories).value;
    var prev := req.previousQuestions.value;
    assert LastUnseen(pool, prev) == Some(q);
    var k :| 0 <= k < |pool| && pool[k] == q && pool[k].id !in prev
             && forall j :: k < j < |pool| ==> pool[j].id in prev;
    assert q in pool;
  }

  /**
   * Conversely, whenever the sizes differ and some pool question was not
   * asked yet, the route serves the last such question.
   */
  lemma UnseenQuestionIsServed(questions: seq<Question>, req: QuizRequest, pool: seq<Question>, q: Question)
    requires req.quizCategoryId.Some? && req.previousQuestions.Some?
    requires QuizPool(questions, req.quizCategoryId.value, req.categories) == Ok(pool)
    requires |pool| != |req.previousQuestions.value|
    requires LastUnseen(pool, req.previousQuestions.value) == Some(q)
    ensures var prev := req.previousQuestions.value;
      QuizResponse(questions, req) == Ok(QuizBody(Asked(q), |prev| == |pool| + 1, |pool|))
  {
  }

  /** A sequence of ids holds at most as many distinct ids as it has entries. */
  lemma {:induction false} SeqSetCard(s: seq<int>)
    ensures |set x | x in s| <= |s|
  {
    if s != [] {
      var init := s[..|s| - 1];
      SeqSetCard(init);
      assert (set x | x in s) == (set x | x in init) + {s[|s| - 1]} by {
        assert s == init + [s[|s| - 1]];
      }
    }
  }

  /**
   * With distinct pool ids, fewer asked ids than pool questions always
   * leaves an unseen question, so the 500 path needs more asked ids than
   * the pool holds.
   */
  lemma FewerAskedLeavesUnseen(pool: seq<Question>, prev: seq<int>)
    requires DistinctIds(pool)
    requires |prev| < |pool|
    ensures LastUnseen(pool, prev).Some?
    ensures Answer(pool, prev).Ok? && Answer(pool, prev).value.question.Asked?
  {
    DistinctIdsCount(pool);
    SeqSetCard(prev);
    var asked := set x | x in prev;
    if QuestionIds(pool) <= asked {
      assert |QuestionIds(pool)| <= |asked| by {
        SubsetCard(QuestionIds(pool), asked);
      }
      assert false;
    }
    var id :| id in QuestionIds(pool) && id !in asked;
    var q :| q in pool && q.id == id;
    var k :| 0 <= k < |pool| && pool[k] == q;
    assert pool[k].id !in prev;
  }

  /** A subset is no larger than its superset. */
  lemma SubsetCard(a: set<int>, b: set<int>)
    requires a <= b
    ensures |a| <= |b|
  {
    assert b == a + (b - a);
  }

  /** A witness of the 500 for a fully asked pool: two questions, three asked ids covering both. */
  lemma OverAskedPoolIsServerError()
    ensures var q1, q2 := Question(1, "q1", "a1", 1, 1), Question(2, "q2", "a2", 1, 1);
      Answer([q1, q2], [1, 2, 3]) == Fail(ServerError)
  {
    var q1, q2 := Question(1, "q1", "a1", 1, 1), Question(2, "q2", "a2", 1, 1);
    assert LastUnseen([q1, q2], [1, 2, 3]) == None by {
      assert [q1, q2][0].id in [1, 2, 3];
      assert [q1, q2][1].id in [1, 2, 3];
    }
  }

  /**
   * The off-by-one: with one id asked beyond the pool size and one pool
   * question still unseen, `last_question` is already true while a question
   * is served.
   */
  lemma OffByOneMarksLastEarly()
    ensures var q1, q2 := Question(1, "q1", "a1", 1, 1), Question(2, "q2", "a2", 1, 1);
      Answer([q1, q2], [1, 7, 8]) == Ok(QuizBody(Asked(q2), true, 2))
  {
    var q1, q2 := Question(1, "q1", "a1", 1, 1), Question(2, "q2", "a2", 1, 1);
    assert [q1, q2][1].id !in [1, 7, 8];
  }
}
