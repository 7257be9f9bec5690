/**
 * The read-only question routes: the paginated listing, the search, and the
 * questions of one category ordered by difficulty. Each takes the rows its
 * query returns as a sequence.
 */
module QuestionHandlers {
  import opened Wrappers
  import opened Errors
  import opened Entities
  import opened Pagination
  import opened Categories
  import opened QuestionStore

  /** The body of `GET /questions/`. */
  datatype QuestionPage = QuestionPage(
    questions: seq<Question>, totalQuestions: nat,
    categories: map<int, string>, currentCategory: Option<int>)

  /** The body of `POST /questions/search`. */
  datatype SearchBody = SearchBody(questions: seq<Question>, totalQuestions: nat, currentCategory: Option<int>)

  /** The body of `GET /categories/<id>/questions`. */
  datatype CategoryQuestions = CategoryQuestions(questions: seq<Question>, totalQuestions: nat, currentCategory: int)

  /**
   * `GET /questions/?page=N` over `questions`, all rows ordered by id: 404
   * exactly when the page is empty; otherwise the page, the count of ALL
   * questions, the category map and no current category.
   */
  method RetrieveQuestions(questions: seq<Question>, cats: seq<Category>, page: Option<int>)
    returns (r: Result<QuestionPage>)
    ensures r.Fail? <==> Paginate(questions, page) == []
    ensures r.Fail? ==> r.error == NotFound
    ensures r.Ok? ==>
      && r.value.questions == Paginate(questions, page)
      && r.value.totalQuestions == |questions|
      && r.value.categories == CategoryMapOf(cats)
      && r.value.currentCategory == None
  {
    var current := Paginate(questions, page);
    if |current| == 0 {
      return Fail(NotFound);
    }
    var categories := BuildCategoryMap(cats);
    r := Ok(QuestionPage(current, |questions|, categories, None));
  }

  /**
   * The listing route over the store: the id-ordered query, then the
   * handler. Every question on the page is a stored row, and the total is
   * the number of stored rows, so beyond ten questions it exceeds the page.
   */
  method ListStoredQuestions(store: Store, cats: seq<Category>, page: Option<int>)
    returns (r: Result<QuestionPage>)
    requires store.Valid()
    ensures r.Fail? ==> r.error == NotFound
    ensures r.Fail? <==> var p, n := PageNumber(page), |store.rows|;
      || (p >= 1 && (p - 1) * QuestionsPerPage >= n)
      || p == 0
      || (p < 0 && n <= -p * QuestionsPerPage)
    ensures r.Ok? ==> exists qs :: ListsById(qs, store.rows) && r.value.questions == Paginate(qs, page)
    ensures r.Ok? ==> r.value.categories == CategoryMapOf(cats) && r.value.currentCategory == None
    ensures r.Ok? ==> r.value.totalQuestions == |store.rows|
    ensures r.Ok? ==> forall q :: q in r.value.questions ==> q.id in store.rows && store.rows[q.id] == q
    ensures r.Ok? && |store.rows| > QuestionsPerPage ==> r.value.totalQuestions > |r.value.questions|
  {
    var all := store.AllById();
    r := RetrieveQuestions(all, cats, page);
  }

  /** The `ILIKE` pattern the search term is wrapped in: `%term%`. */
  function SearchPattern(term: string): (p: string)
    ensures |p| == |term| + 2 && p[0] == '%' && p[|p| - 1] == '%' && p[1..|p| - 1] == term
  {
    "%" + term + "%"
  }

  /**
   * `POST /questions/search`: 404 exactly when `searchTerm` is absent or
   * empty; otherwise exactly the questions whose text matches `%term%` under
   * `ilike` (the database's case-insensitive `LIKE`, left abstract), each as
   * often as in the table, with their count.
   */
  function SearchQuestions(questions: seq<Question>, searchTerm: Option<string>,
                           ilike: (string, string) -> bool): (r: Result<SearchBody>)
    ensures r.Fail? <==> searchTerm.None? || searchTerm.value == ""
    ensures r.Fail? ==> r.error == NotFound
    ensures r.Ok? ==>
      && r.value.totalQuestions == |r.value.questions|
      && r.value.currentCategory == None
      && (forall q :: q in r.value.questions <==>
                      q in questions && ilike(q.question, SearchPattern(searchTerm.value)))
      && (forall q :: multiset(r.value.questions)[q] ==
                      if ilike(q.question, SearchPattern(searchTerm.value)) then multiset(questions)[q] else 0)
  {
    if searchTerm.Some? && searchTerm.value != "" then
      var pattern := SearchPattern(searchTerm.value);
      var found := Filter(questions, (q: Question) => ilike(q.question, pattern));
      Ok(SearchBody(found, |found|, None))
    else
      Fail(NotFound)
  }

  /** Difficulty never decreases along `s`. */
  predicate ByDifficulty(s: seq<Question>) {
    forall i, j :: 0 <= i < j < |s| ==> s[i].difficulty <= s[j].difficulty
  }

  /** Putting a question no harder than any of a sorted list in front keeps it sorted. */
  lemma PrependKeepsOrder(h: Question, t: seq<Question>)
    requires ByDifficulty(t)
    requires forall k :: 0 <= k < |t| ==> h.difficulty <= t[k].difficulty
    ensures ByDifficulty([h] + t)
  {
    forall i, j | 0 <= i < j < |[h] + t| ensures ([h] + t)[i].difficulty <= ([h] + t)[j].difficulty {
      if i > 0 { assert ([h] + t)[i] == t[i - 1]; }
      assert ([h] + t)[j] == t[j - 1];
    }
  }

  /** Puts `x` into `s` before the first question at least as difficult. */
  function InsertByDifficulty(x: Question, s: seq<Question>): (r: seq<Question>)
    requires ByDifficulty(s)
    ensures |r| == |s| + 1
    ensures forall k :: 0 <= k < |r| ==> r[k] == x || r[k] in s
    ensures ByDifficulty(r)
    ensures multiset(r) == multiset(s) + multiset{x}
  {
    if s == [] || x.difficulty <= s[0].difficulty then
      PrependKeepsOrder(x, s);
      [x] + s
    else
      var rest := InsertByDifficulty(x, s[1..]);
      assert s == [s[0]] + s[1..];
      assert forall k :: 0 <= k < |rest| ==> s[0].difficulty <= rest[k].difficulty by {
        forall k | 0 <= k < |rest| ensures s[0].difficulty <= rest[k].difficulty {
          if rest[k] != x {
            var m :| 0 <= m < |s[1..]| && s[1..][m] == rest[k];
            assert s[m + 1] == rest[k];
          }
        }
      }
      PrependKeepsOrder(s[0], rest);
      assert forall k :: 0 <= k < |[s[0]] + rest| ==> ([s[0]] + rest)[k] == x || ([s[0]] + rest)[k] in s by {
        forall k | 0 <= k < |[s[0]] + rest| ensures ([s[0]] + rest)[k] == x || ([s[0]] + rest)[k] in s {
          if k > 0 {
            assert ([s[0]] + rest)[k] == rest[k - 1];
            assert rest[k - 1] == x || rest[k - 1] in s[1..];
          }
        }
      }
      [s[0]] + rest
  }

  /**
   * `order_by(Question.difficulty)`: the same questions with difficulty
   * non-decreasing; the order among equal difficulties is not specified.
   */
  function SortByDifficulty(s: seq<Question>): (r: seq<Question>)
    ensures ByDifficulty(r)
    ensures multiset(r) == multiset(s)
  {
    if s == [] then []
    else
      assert s == [s[0]] + s[1..];
      InsertByDifficulty(s[0], SortByDifficulty(s[1..]))
  }

  /**
   * `GET /categories/<id>/questions`: 404 exactly when no category has that
   * id; otherwise the questions of that category, each as often as in the
   * table and no other, with difficulty non-decreasing, their count, and
   * the id as current category.
   */
  method QuestionsByCategory(cats: seq<Category>, questions: seq<Question>, id: int)
    returns (r: Result<CategoryQuestions>)
    ensures r.Fail? <==> !HasCategory(cats, id)
    ensures r.Fail? ==> r.error == NotFound
    ensures r.Ok? ==>
      && (forall q :: q in r.value.questions ==> q.category == id)
      && (forall q :: q in questions && q.category == id ==> q in r.value.questions)
      && multiset(r.value.questions) == multiset(OfCategory(questions, id))
      && ByDifficulty(r.value.questions)
      && r.value.totalQuestions == |r.value.questions|
      && r.value.currentCategory == id
  {
    if !HasCategory(cats, id) {
      return Fail(NotFound);
    }
    var pool := OfCategory(questions, id);
    var list := SortByDifficulty(pool);
    var result: seq<Question> := [];
    for i := 0 to |list|
      invariant result == list[..i]
    {
      result := result + [list[i]];
    }
    assert result == list by {
      assert list[..|list|] == list;
    }
    forall q | q in result ensures q.category == id {
      assert q in multiset(pool);
    }
    forall q | q in questions && q.category == id ensures q in result {
      assert q in multiset(pool);
    }
    r := Ok(CategoryQuestions(result, |result|, id));
  }
}
