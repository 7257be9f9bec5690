# Trivia API route handlers, modelled in Dafny

This project models the request handlers of the trivia game's Flask backend
(`starter/backend/flaskr/__init__.py`). The backend stores two tables:
categories (`id`, `type`) and questions (`id`, `question`, `answer`,
`category`, `difficulty`). Over them it serves seven routes:

- the category map;
- a paginated question listing;
- delete by id and add;
- a search by `ILIKE`;
- the questions of one category, ordered by difficulty;
- the quiz's next-question selector.

Failures end in one of four JSON error envelopes (400, 404, 422, 500).

Modules, one per component:

- `Wrappers`, `Errors`: optional values; the handler outcome `Result<T>` (`Ok(body)` or `Fail(HttpError)`); the error handlers and their envelopes.
- `Entities`: the `Category` and `Question` records and the order-preserving `Filter` that stands for SQL `WHERE` clauses and list comprehensions.
- `Pagination`: `paginate_questions`, with Python's slice rules written out. The page number is never clamped, so page 0 is empty and negative pages count back from the end.
- `Categories`: the `dict.update` loop that builds `id -> type`, and `GET /categories`.
- `QuestionStore`: a `Store` class holding the question table as `map<int, Question>`. Ids come from a counter that only grows, as with a serial primary key. It offers `Delete`, `Add` and the id-ordered listing `AllById`.
- `QuestionHandlers`: `GET /questions/`, `POST /questions/search`, `GET /categories/<id>/questions`. `order_by(difficulty)` is a stable insertion sort.
- `Quiz`: `POST /quizzes/`. It chooses the pool, runs the loop that keeps the last question not yet asked, applies the empty-question override, and raises a 500 when no candidate was ever bound.

The read-only handlers take the rows their query returns as a sequence.
`Store.AllById` is that query for the listing.

Two behaviours of the code are worth knowing:

- The page number is not clamped. Only an absent or non-integer argument falls back to 1. Page 0 and every page past the end give 404. A negative page can return a non-empty page from the end of the table (`Pagination.NegativePageExample`).
- The quiz's `categories` value is only measured for a positive id. A missing `quiz_category` id, a missing `categories` for a positive id, or a missing `previous_questions` raises in Python and ends in a 500, in the order the code evaluates them.

## Model

| member | source | states |
|---|---|---|
| `Errors.ErrorOfCode` | starter/backend/flaskr/__init__.py:254-284 | a failure is registered exactly for codes 400, 404, 422 and 500, and the failure found carries that code |
| `Errors.Envelope` | starter/backend/flaskr/__init__.py:254-284 | every envelope has `success` false and `error` equal to its status code; the text field is named `message` exactly for 400 and `messages` otherwise; the texts are "bad request", "resource not found", the 422 delete message and "Internal server error." |
| `Errors.HandleError` | starter/backend/flaskr/__init__.py:254-284 | a status code gets a JSON envelope iff one of the four handlers is registered for it, and the envelope reports that same code |
| `Errors.EveryFailureIsHandled` | starter/backend/flaskr/__init__.py:254-284 | each failure a handler aborts with is caught by its own registered handler |
| `Errors.CodesAreDistinct` | starter/backend/flaskr/__init__.py:254-284 | no two failures share a status code |
| `Entities.Filter` | starter/backend/flaskr/__init__.py:167-169 | the result keeps exactly the elements satisfying the predicate, each as often as in the input, and no others |
| `Entities.FilterKeepsOrder` | starter/backend/flaskr/__init__.py:167-169 | filtering keeps the input order: filtering a concatenation is the concatenation of the filtered parts |
| `Entities.OfCategory` | starter/backend/flaskr/__init__.py:192-194 | the questions of one category: membership iff the category matches, with the table's multiplicities |
| `Pagination.PySlice` | starter/backend/flaskr/__init__.py:17 | a Python slice is never longer than the sequence it is cut from |
| `Pagination.PageNumber` | starter/backend/flaskr/__init__.py:14 | an absent or non-integer argument means page 1; any integer, zero and negative included, is used unchanged |
| `Pagination.Paginate` | starter/backend/flaskr/__init__.py:13-19 | a page holds at most 10 items, all from the input; for page p >= 1 it is exactly `items[(p-1)*10 .. min(p*10, n))` and it is empty iff `(p-1)*10 >= n` |
| `Pagination.PageZeroIsEmpty` | starter/backend/flaskr/__init__.py:14-17 | page 0 slices `[-10:0]` and is always empty |
| `Pagination.NegativePageCountsFromEnd` | starter/backend/flaskr/__init__.py:14-17 | page p < 0 is `items[max(n+(p-1)*10, 0) .. max(n+p*10, 0))`, following Python's negative indices |
| `Pagination.NegativePageExample` | starter/backend/flaskr/__init__.py:14-17 | with 25 items, page -1 is the ten items 5..14 and not empty |
| `Pagination.ItemOnItsPage` | starter/backend/flaskr/__init__.py:13-19 | item i appears on page i/10+1 at position i mod 10, so the pages cover the table |
| `Categories.CategoryMapOf` | starter/backend/flaskr/__init__.py:73-75 | the key set of the map built by the update loop is exactly the set of category ids |
| `Categories.CategoryMapHoldsEachType` | starter/backend/flaskr/__init__.py:67-80 | with unique ids, every category id maps to that category's `type` |
| `Categories.CategoryMapIgnoresOrder` | starter/backend/flaskr/__init__.py:67-68 | with unique ids, the row order of the query does not change the map |
| `Categories.BuildCategoryMap` | starter/backend/flaskr/__init__.py:73-75 | the loop of `dict.update` calls yields the fold of all rows, whose keys are the category ids |
| `Categories.RetrieveCategories` | starter/backend/flaskr/__init__.py:66-80 | 404 iff there are no categories; otherwise the map whose keys are the category ids |
| `QuestionStore.ZeroIsMissing` | starter/backend/flaskr/__init__.py:138-139 | a difficulty or category of 0 fails the truthiness guard like an absent field |
| `QuestionStore.Complete` | starter/backend/flaskr/__init__.py:133-138 | the guard passes only when all four fields are present, and an empty answer or question fails it |
| `QuestionStore.ListingHasOneEntryPerRow` | starter/backend/flaskr/__init__.py:88-89 | a listing ordered by id has exactly as many entries as the table has rows |
| `QuestionStore.Store.Delete` | starter/backend/flaskr/__init__.py:112-123 | a missing id gives 422 and leaves the table unchanged; a present id removes exactly that row and keeps every other row and the id counter |
| `QuestionStore.Store.Add` | starter/backend/flaskr/__init__.py:129-155 | 400 and no change iff a field is absent, `""` or 0; otherwise exactly one new row with the four fields and an id never used before, every other row unchanged, and the stored row echoed |
| `QuestionStore.Store.AllById` | starter/backend/flaskr/__init__.py:88-89 | returns every stored row once, in strictly increasing id order, and nothing else |
| `QuestionStore.DeletedIsNotListed` | starter/backend/flaskr/__init__.py:112-123 | after a delete, no listing of the table shows the deleted id |
| `QuestionStore.AddThenDelete` | starter/backend/flaskr/__init__.py:112-155 | on a store, deleting the question a successful add just stored succeeds and restores the table, while the id counter has moved past that id |
| `QuestionHandlers.RetrieveQuestions` | starter/backend/flaskr/__init__.py:87-106 | 404 iff the requested page is empty; otherwise that page, `total_questions` equal to the count of all questions, the category map and a null current category |
| `QuestionHandlers.ListStoredQuestions` | starter/backend/flaskr/__init__.py:87-106 | over the store: 404 exactly for page 0, a page past the end or a negative page reaching before the start; otherwise the page is the requested slice of the id-ordered listing, every listed question is a stored row, `total_questions` is the number of stored rows (beyond ten rows, more than the page size), the category map is the fold of the category rows and `current_category` is null |
| `QuestionHandlers.SearchPattern` | starter/backend/flaskr/__init__.py:166 | the search pattern is the term wrapped in one `%` on each side |
| `QuestionHandlers.SearchQuestions` | starter/backend/flaskr/__init__.py:161-179 | 404 iff `searchTerm` is absent or empty; otherwise exactly the questions whose text matches `%term%`, each as often as in the table, with `total_questions` equal to their count and no current category |
| `QuestionHandlers.InsertByDifficulty` | starter/backend/flaskr/__init__.py:192-194 | inserting into a list ordered by difficulty keeps it ordered and adds exactly that question |
| `QuestionHandlers.SortByDifficulty` | starter/backend/flaskr/__init__.py:192-194 | the result is a permutation of the input with non-decreasing difficulty |
| `QuestionHandlers.QuestionsByCategory` | starter/backend/flaskr/__init__.py:185-206 | 404 iff no category has the id; otherwise every question of that category and no other, with the table's multiplicities, in non-decreasing difficulty, with the count and the id as current category |
| `Quiz.QuizPool` | starter/backend/flaskr/__init__.py:220-229 | id 0 gives every question; an id in 1..len(categories) gives exactly that category's questions in table order; a negative or too-large id gives 404; a positive id without `categories` gives 500 |
| `Quiz.LastUnseen` | starter/backend/flaskr/__init__.py:236-238 | absent iff every pool id was asked; otherwise a pool question not yet asked after which every question was asked |
| `Quiz.Answer` | starter/backend/flaskr/__init__.py:231-250 | equal sizes give `''` with `last_question` true; otherwise, when some pool question was not asked, the last such question is served with `last_question` equal to `len(prev) == len(pool)+1`; the answer is a 500 iff the sizes differ and every pool id was asked; `questions` is the pool size |
| `Quiz.SelectQuestion` | starter/backend/flaskr/__init__.py:231-250 | the overwriting loop and the override return exactly `Quiz.Answer` for the pool and the asked ids |
| `Quiz.PlayQuiz` | starter/backend/flaskr/__init__.py:212-250 | the route returns exactly `Quiz.QuizResponse`, evaluating the request in the source's order |
| `Quiz.QuizResponse` | starter/backend/flaskr/__init__.py:212-250 | the route fails with 404 iff the category id is negative or above len(categories); it fails with 500 iff a needed field is missing, or the sizes differ and every pool id was asked |
| `Quiz.OutOfRangeCategoryIsNotFound` | starter/backend/flaskr/__init__.py:225-229 | a category id below 0 or above len(categories) is a 404 |
| `Quiz.ExhaustedPoolEndsQuiz` | starter/backend/flaskr/__init__.py:241-243 | when as many ids were asked as the pool holds, the question is `''` and `last_question` is true |
| `Quiz.ServedQuestionIsLastUnseen` | starter/backend/flaskr/__init__.py:231-250 | a served question is in the pool (of the requested category), was not asked before, and is the last such in pool order; `questions` is the pool size and `last_question` is `len(prev) == len(pool)+1` |
| `Quiz.UnseenQuestionIsServed` | starter/backend/flaskr/__init__.py:231-250 | conversely, when the sizes differ and some pool question was not asked, the route serves the last such question with the off-by-one `last_question` and the pool size |
| `Quiz.FewerAskedLeavesUnseen` | starter/backend/flaskr/__init__.py:236-243 | with distinct pool ids and fewer asked ids than pool questions, a question is always served |
| `Quiz.OverAskedPoolIsServerError` | starter/backend/flaskr/__init__.py:236-247 | a witness of the 500: two questions and three asked ids covering both leave `new_question` unbound |
| `Quiz.OffByOneMarksLastEarly` | starter/backend/flaskr/__init__.py:231-238 | with one asked id beyond the pool size, `last_question` is true although a question is served |

## Left out

- Flask app construction, routing, `jsonify`, CORS and the `after_request` headers (lines 37-52), and the `/messages` route (lines 54-59): framework plumbing with no logic.
- The module-level `retrieve_categories` (lines 22-32): it is never routed.
- SQLAlchemy query execution and sessions. Tables are record sequences, and the question table is the `Store` map. `models.py` (`format`, `insert`, `delete`) is not part of this model, so `format()` is the identity on records.
- What SQL `ILIKE` matches: its case folding and the wildcards `%` and `_` inside a search term depend on the database. The match is an abstract predicate on (text, pattern).
- Row order of `Question.query.all()` and of filters without `order_by`: the database decides it. The model takes the order of the input sequence, and filters keep that order.
- QuestionHandlers.SortByDifficulty: order among equal difficulties is left to the database. The model proves sortedness and permutation, not stability.
- String-to-integer coercion of path ids and of `quiz_category["id"]`. Ids are already-parsed integers; a failed parse of `page` is the absent case.
- JSON bodies are typed records. Text fields are `Option<string>` and numeric fields `Option<int>`. Truthiness of other JSON types (booleans, floats, lists) and the database's coercion of them are not modelled. A missing or non-JSON request body is not modelled either.
- Concurrency between requests (two deletes of one id racing): each handler is one atomic step on the store.
