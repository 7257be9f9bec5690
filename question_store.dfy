/**
 * The `questions` table as a mutable store, and the two routes that change
 * it: `DELETE /questions/<id>` and `POST /questions/submit`. Ids are
 * assigned like a serial primary key: from a counter that only grows, so an
 * id is never handed out twice, not even after a delete.
 */
module QuestionStore {
  import opened Wrappers
  import opened Errors
  import opened Entities

  /** The JSON body of `POST /questions/submit`; `None` is an absent key. */
  datatype NewQuestion = NewQuestion(
    answer: Option<string>, question: Option<string>,
    difficulty: Option<int>, category: Option<int>)

  /** The success body: the echoed fields and the stored row. */
  datatype Added = Added(answer: string, question: Question, difficulty: int, category: int)

  /** Python truthiness of a text field: absent and `""` are falsy. */
  predicate TruthyText(v: Option<string>) {
    v.Some? && v.value != ""
  }

  /** Python truthiness of an integer field: absent and `0` are falsy. */
  predicate TruthyInt(v: Option<int>) {
    v.Some? && v.value != 0
  }

  /** The guard `not answer or not question or not difficulty or not category` fails. */
  predicate Complete(body: NewQuestion): (ok: bool)
    ensures ok ==> body.answer.Some? && body.question.Some? && body.difficulty.Some? && body.category.Some?
    ensures body.answer == Some("") || body.question == Some("") ==> !ok
  {
    TruthyText(body.answer) && TruthyText(body.question)
    && TruthyInt(body.difficulty) && TruthyInt(body.category)
  }

  /** A difficulty or category of 0 is refused like a missing one. */
  lemma ZeroIsMissing(body: NewQuestion)
    requires body.difficulty == Some(0) || body.category == Some(0)
    ensures !Complete(body)
  {
  }

  /**
   * A listing of `rows` in ascending id order, as
   * `Question.query.order_by(Question.id).all()` returns it: ids strictly
   * increase, every element is a stored row, and every stored row appears.
   */
  ghost predicate ListsById(qs: seq<Question>, rows: map<int, Question>) {
    && (forall i, j :: 0 <= i < j < |qs| ==> qs[i].id < qs[j].id)
    && (forall i :: 0 <= i < |qs| ==> qs[i].id in rows && rows[qs[i].id] == qs[i])
    && (forall id :: id in rows ==> rows[id] in qs)
  }

  /** A listing by id holds exactly one element per stored row. */
  lemma ListingHasOneEntryPerRow(qs: seq<Question>, rows: map<int, Question>)
    requires ListsById(qs, rows)
    requires forall id :: id in rows ==> rows[id].id == id
    ensures |qs| == |rows|
  {
    assert DistinctIds(qs) by {
      forall i, j | 0 <= i < |qs| && 0 <= j < |qs| && i != j ensures qs[i].id != qs[j].id {
        if i < j { assert qs[i].id < qs[j].id; } else { assert qs[j].id < qs[i].id; }
      }
    }
    DistinctIdsCount(qs);
    assert QuestionIds(qs) == rows.Keys by {
      forall id | id in rows ensures id in QuestionIds(qs) {
        assert rows[id] in qs;
      }
    }
  }

  class Store {
    /** The stored rows, by id. */
    var rows: map<int, Question>
    /** The next id the serial key hands out. */
    var nextId: int

    /** Every row is stored under its own id, and ids are positive and below the counter. */
    ghost predicate Valid()
      reads this
    {
      1 <= nextId && forall id :: id in rows ==> 1 <= id < nextId && rows[id].id == id
    }

    constructor ()
      ensures Valid() && rows == map[] && nextId == 1
    {
      rows := map[];
      nextId := 1;
    }

    /**
     * `DELETE /questions/<id>`: 422 and no change when no row has that id;
     * otherwise exactly that row goes and every other row stays.
     */
    method Delete(id: int) returns (r: Result<()>)
      requires Valid()
      modifies this
      ensures Valid() && nextId == old(nextId)
      ensures r.Fail? <==> id !in old(rows)
      ensures r.Fail? ==> r.error == Unprocessable && rows == old(rows)
      ensures r.Ok? ==> rows == old(rows) - {id}
    {
      if id !in rows {
        return Fail(Unprocessable);
      }
      rows := rows - {id};
      r := Ok(());
    }

    /**
     * `POST /questions/submit`: 400 and no change when a field is falsy;
     * otherwise one new row with the four fields under an id never used
     * before, every other row unchanged.
     */
    method Add(body: NewQuestion) returns (r: Result<Added>)
      requires Valid()
      modifies this
      ensures Valid()
      ensures r.Fail? <==> !Complete(body)
      ensures r.Fail? ==> r.error == BadRequest && rows == old(rows) && nextId == old(nextId)
      ensures r.Ok? ==>
        var q := r.value.question;
        && q.id == old(nextId) && q.id !in old(rows)
        && q == Question(q.id, body.question.value, body.answer.value,
                         body.category.value, body.difficulty.value)
        && r.value == Added(q.answer, q, q.difficulty, q.category)
        && rows == old(rows)[q.id := q]
        && nextId > old(nextId)
    {
      if !Complete(body) {
        return Fail(BadRequest);
      }
      var q := Question(nextId, body.question.value, body.answer.value,
                        body.category.value, body.difficulty.value);
      rows := rows[nextId := q];
      nextId := nextId + 1;
      r := Ok(Added(q.answer, q, q.difficulty, q.category));
    }

    /** `Question.query.order_by(Question.id).all()`. */
    method AllById() returns (qs: seq<Question>)
      requires Valid()
      ensures ListsById(qs, rows)
      ensures |qs| == |rows|
    {
      qs := [];
      var i := 1;
      while i < nextId
        invariant 1 <= i <= nextId
        invariant forall j :: 0 <= j < |qs| ==> qs[j].id < i
        invariant forall j, k :: 0 <= j < k < |qs| ==> qs[j].id < qs[k].id
        invariant forall j :: 0 <= j < |qs| ==> qs[j].id in rows && rows[qs[j].id] == qs[j]
        invariant forall id :: id in rows && id < i ==> rows[id] in qs
      {
        if i in rows {
          qs := qs + [rows[i]];
        }
        i := i + 1;
      }
      ListingHasOneEntryPerRow(qs, rows);
    }
  }

  /** After a delete, no listing of the store shows the deleted id. */
  lemma DeletedIsNotListed(qs: seq<Question>, rows: map<int, Question>, id: int)
    requires ListsById(qs, rows - {id})
    ensures forall q :: q in qs ==> q.id != id
  {
  }

  /**
   * A usage of the two write routes together: deleting the question an add
   * has just stored succeeds and gives back the table as it was, while the
   * id counter has moved on, so the id is not handed out again.
   */
  method AddThenDelete(store: Store, body: NewQuestion) returns (added: Result<Added>, deleted: Result<()>)
    requires store.Valid()
    requires Complete(body)
    modifies store
    ensures store.Valid()
    ensures added.Ok? && deleted.Ok?
    ensures store.rows == old(store.rows) && store.nextId > old(store.nextId)
  {
    added := store.Add(body);
    deleted := store.Delete(added.value.question.id);
    assert store.rows == old(store.rows);
  }
}
