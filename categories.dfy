/**
 * The `/categories` route: the category rows, ordered by id, folded into an
 * `id -> type` dictionary by repeated `dict.update`, and a 404 when the
 * table is empty. `/questions/` builds the same dictionary.
 */
module Categories {
  import opened Errors
  import opened Entities

  /**
   * The dictionary the update loop leaves behind: each row in turn sets its
   * id to its type, so a later row overrides an earlier one with the same id.
   */
  function CategoryMapOf(rows: seq<Category>): (m: map<int, string>)
    ensures m.Keys == CategoryIds(rows)
  {
    if rows == [] then map[]
    else
      var last := rows[|rows| - 1];
      assert rows == rows[..|rows| - 1] + [last];
      CategoryMapOf(rows[..|rows| - 1])[last.id := last.kind]
  }

  /** With unique ids (the table's primary key), each id maps to its own row's type. */
  lemma {:induction false} CategoryMapHoldsEachType(rows: seq<Category>, i: nat)
    requires UniqueCategoryIds(rows)
    requires i < |rows|
    ensures rows[i].id in CategoryMapOf(rows)
    ensures CategoryMapOf(rows)[rows[i].id] == rows[i].kind
  {
    var n := |rows| - 1;
    assert rows[i] in rows;
    if i < n {
      var init := rows[..n];
      assert UniqueCategoryIds(init);
      assert init[i] == rows[i];
      CategoryMapHoldsEachType(init, i);
    }
  }

  /** The map depends only on which rows there are, never on their order, when ids are unique. */
  lemma CategoryMapIgnoresOrder(rows1: seq<Category>, rows2: seq<Category>)
    requires UniqueCategoryIds(rows1) && UniqueCategoryIds(rows2)
    requires multiset(rows1) == multiset(rows2)
    ensures CategoryMapOf(rows1) == CategoryMapOf(rows2)
  {
    var m1, m2 := CategoryMapOf(rows1), CategoryMapOf(rows2);
    forall id | id in m1 ensures id in m2 && m1[id] == m2[id] {
      var i :| 0 <= i < |rows1| && rows1[i].id == id;
      assert rows1[i] in multiset(rows2);
      var j :| 0 <= j < |rows2| && rows2[j] == rows1[i];
      CategoryMapHoldsEachType(rows1, i);
      CategoryMapHoldsEachType(rows2, j);
    }
    forall id | id in m2 ensures id in m1 {
      var j :| 0 <= j < |rows2| && rows2[j].id == id;
      assert rows2[j] in multiset(rows1);
    }
  }

  /** The `for category in categories: dict.update(...)` loop. */
  method BuildCategoryMap(rows: seq<Category>) returns (m: map<int, string>)
    ensures m == CategoryMapOf(rows)
    ensures m.Keys == CategoryIds(rows)
  {
    m := map[];
    for i := 0 to |rows|
      invariant m == CategoryMapOf(rows[..i])
    {
      assert rows[..i + 1][..i] == rows[..i];
      m := m[rows[i].id := rows[i].kind];
    }
    assert rows[..|rows|] == rows;
  }

  /** `GET /categories`: 404 exactly when there are no categories, else the id -> type map. */
  method RetrieveCategories(rows: seq<Category>) returns (r: Result<map<int, string>>)
    ensures r.Fail? <==> |rows| == 0
    ensures r.Fail? ==> r.error == NotFound
    ensures r.Ok? ==> r.value.Keys == CategoryIds(rows) && r.value == CategoryMapOf(rows)
  {
    if |rows| == 0 {
      return Fail(NotFound);
    }
    var m := BuildCategoryMap(rows);
    r := Ok(m);
  }
}
