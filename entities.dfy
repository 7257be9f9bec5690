/**
 * The two tables of the trivia store, as records, and the order-preserving
 * filter that SQL `WHERE` clauses and list comprehensions are modelled by.
 */
module Entities {

  /** A row of `categories`; `kind` is the display string the table calls `type`. */
  datatype Category = Category(id: int, kind: string)

  /** A row of `questions`; `category` is a soft reference to `Category.id`. */
  datatype Question = Question(id: int, question: string, answer: string, category: int, difficulty: int)

  /** The set of ids a category table holds. */
  function CategoryIds(cats: seq<Category>): set<int> {
    set c | c in cats :: c.id
  }

  /** `Category.query.get(id)` finds a row. */
  predicate HasCategory(cats: seq<Category>, id: int) {
    exists c :: c in cats && c.id == id
  }

  /** The primary-key property of a category table. */
  predicate UniqueCategoryIds(cats: seq<Category>) {
    forall i, j :: 0 <= i < j < |cats| ==> cats[i].id != cats[j].id
  }

  /**
   * The questions of `s` satisfying `p`, in their order in `s`: each one
   * occurs as often as in `s` when it satisfies `p`, and not at all otherwise.
   */
  function Filter(s: seq<Question>, p: Question -> bool): (r: seq<Question>)
    ensures |r| <= |s|
    ensures forall x :: multiset(r)[x] == if p(x) then multiset(s)[x] else 0
    ensures forall x :: x in r <==> x in s && p(x)
  {
    if s == [] then []
    else
      assert s == [s[0]] + s[1..];
      (if p(s[0]) then [s[0]] else []) + Filter(s[1..], p)
  }

  /**
   * Filtering keeps order: filtering a concatenation filters each part and
   * puts the results in the same order.
   */
  lemma {:induction false} FilterKeepsOrder(s: seq<Question>, t: seq<Question>, p: Question -> bool)
    ensures Filter(s + t, p) == Filter(s, p) + Filter(t, p)
  {
    if s == [] {
      assert s + t == t;
    } else {
      var u := s + t;
      assert u[0] == s[0];
      assert u[1..] == s[1..] + t;
      FilterKeepsOrder(s[1..], t, p);
    }
  }

  /** `filter(Question.category == id)`: the questions of one category, in table order. */
  function OfCategory(questions: seq<Question>, id: int): (r: seq<Question>)
    ensures forall q :: q in r <==> q in questions && q.category == id
    ensures forall q: Question :: q.category == id ==> multiset(r)[q] == multiset(questions)[q]
  {
    Filter(questions, (q: Question) => q.category == id)
  }

  /** The ids a sequence of questions shows. */
  function QuestionIds(qs: seq<Question>): set<int> {
    set q | q in qs :: q.id
  }

  /** No id occurs twice, as with a primary key. */
  predicate DistinctIds(qs: seq<Question>) {
    forall i, j :: 0 <= i < |qs| && 0 <= j < |qs| && i != j ==> qs[i].id != qs[j].id
  }

  /** Distinct ids: as many ids as questions. */
  lemma {:induction false} DistinctIdsCount(qs: seq<Question>)
    requires DistinctIds(qs)
    ensures |QuestionIds(qs)| == |qs|
  {
    if qs != [] {
      var init, last := qs[..|qs| - 1], qs[|qs| - 1];
      DistinctIdsCount(init);
      assert QuestionIds(qs) == QuestionIds(init) + {last.id} by {
        assert qs == init + [last];
      }
      assert last.id !in QuestionIds(init) by {
        forall q | q in init ensures q.id != last.id {
          var k :| 0 <= k < |init| && init[k] == q;
          assert qs[k] == q;
        }
      }
    }
  }
}
