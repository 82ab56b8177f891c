/** The category selection shared by the profile and survey pages: a list of
    category ids that a checkbox toggles, saved as one row per id.
 */
module Categories {
  import opened Outcomes

  /** The list without any occurrence of `x` (`filter((id) => id !== x)`). */
  function RemoveAll<T(==)>(s: seq<T>, x: T): (r: seq<T>)
    ensures x !in r
    ensures forall i :: 0 <= i < |r| ==> r[i] in s
    ensures forall i :: 0 <= i < |s| && s[i] != x ==> s[i] in r
    ensures |r| <= |s|
    decreases |s|
  {
    if |s| == 0 then []
    else if s[0] == x then RemoveAll(s[1..], x)
    else [s[0]] + RemoveAll(s[1..], x)
  }

  /** Removing an id that is absent leaves the list as it is. */
  lemma {:induction false} RemoveAbsent<T>(s: seq<T>, x: T)
    requires x !in s
    ensures RemoveAll(s, x) == s
    decreases |s|
  {
    if |s| > 0 {
      RemoveAbsent(s[1..], x);
    }
  }

  /** Removal distributes over concatenation, so it keeps the relative order
      of everything it does not remove. */
  lemma {:induction false} RemoveAppend<T>(s: seq<T>, t: seq<T>, x: T)
    ensures RemoveAll(s + t, x) == RemoveAll(s, x) + RemoveAll(t, x)
    decreases |s|
  {
    if |s| == 0 {
      assert s + t == t;
    } else {
      assert (s + t)[1..] == s[1..] + t;
      RemoveAppend(s[1..], t, x);
    }
  }

  /** No id occurs twice. */
  predicate NoDuplicates<T(==)>(s: seq<T>) {
    forall i, j :: 0 <= i < j < |s| ==> s[i] != s[j]
  }

  /** Removal keeps a duplicate-free list duplicate-free. */
  lemma {:induction false} RemoveKeepsNoDuplicates<T>(s: seq<T>, x: T)
    requires NoDuplicates(s)
    ensures NoDuplicates(RemoveAll(s, x))
    decreases |s|
  {
    if |s| > 0 {
      assert NoDuplicates(s[1..]) by {
        forall i, j | 0 <= i < j < |s[1..]| ensures s[1..][i] != s[1..][j] {
          assert s[1..][i] == s[i + 1] && s[1..][j] == s[j + 1];
        }
      }
      RemoveKeepsNoDuplicates(s[1..], x);
      if s[0] != x {
        assert s[0] !in s[1..] by {
          forall k | 0 <= k < |s[1..]| ensures s[1..][k] != s[0] {
            assert s[1..][k] == s[k + 1];
          }
        }
        var rest := RemoveAll(s[1..], x);
        assert s[0] !in rest;
        var r := [s[0]] + rest;
        forall i, j | 0 <= i < j < |r| ensures r[i] != r[j] {
          if i == 0 {
            assert r[j] == rest[j - 1];
          } else {
            assert r[i] == rest[i - 1] && r[j] == rest[j - 1];
          }
        }
      }
    }
  }

  /** The checkbox handler: remove every occurrence of a selected id, otherwise
      append it at the end. */
  function Toggle<T(==)>(prev: seq<T>, id: T): (r: seq<T>)
    ensures id in r <==> id !in prev
    ensures forall i :: 0 <= i < |prev| && prev[i] != id ==> prev[i] in r
    ensures forall i :: 0 <= i < |r| && r[i] != id ==> r[i] in prev
    ensures id !in prev ==> r == prev + [id]
    ensures RemoveAll(r, id) == RemoveAll(prev, id)
  {
    if id in prev then
      RemoveIdempotent(prev, id);
      RemoveAll(prev, id)
    else
      RemoveAppend(prev, [id], id);
      assert RemoveAll([id], id) == [];
      prev + [id]
  }

  lemma RemoveIdempotent<T>(s: seq<T>, x: T)
    ensures RemoveAll(RemoveAll(s, x), x) == RemoveAll(s, x)
  {
    RemoveAbsent(RemoveAll(s, x), x);
  }

  /** Toggling keeps a duplicate-free selection duplicate-free. */
  lemma ToggleKeepsNoDuplicates<T>(prev: seq<T>, id: T)
    requires NoDuplicates(prev)
    ensures NoDuplicates(Toggle(prev, id))
  {
    if id in prev {
      RemoveKeepsNoDuplicates(prev, id);
    } else {
      var r := prev + [id];
      forall i, j | 0 <= i < j < |r| ensures r[i] != r[j] {
        if j == |prev| {
          assert r[i] == prev[i];
        } else {
          assert r[i] == prev[i] && r[j] == prev[j];
        }
      }
    }
  }

  /** Toggling an unselected id twice restores the selection. */
  lemma ToggleTwiceRestores<T>(prev: seq<T>, id: T)
    requires id !in prev
    ensures Toggle(Toggle(prev, id), id) == prev
  {
    RemoveAbsent(prev, id);
  }

  /** The selection after a series of checkbox clicks, one toggle per id, in order. */
  function Toggles<T(==)>(prev: seq<T>, ids: seq<T>): seq<T>
    decreases |ids|
  {
    if |ids| == 0 then prev else Toggles(Toggle(prev, ids[0]), ids[1..])
  }

  /** However the reader clicks, a duplicate-free selection stays duplicate-free. */
  lemma {:induction false} TogglesKeepNoDuplicates<T>(prev: seq<T>, ids: seq<T>)
    requires NoDuplicates(prev)
    ensures NoDuplicates(Toggles(prev, ids))
    decreases |ids|
  {
    if |ids| > 0 {
      ToggleKeepsNoDuplicates(prev, ids[0]);
      TogglesKeepNoDuplicates(Toggle(prev, ids[0]), ids[1..]);
    }
  }

  /** A row of the `user_recommended_category` table. The user id is absent
      when the caller's user object has none (`user_id: undefined`). */
  datatype CategoryRow<T> = CategoryRow(userId: Option<string>, categoryId: T)

  /** The rows saved for a selection: one per selected id, in order, each
      carrying the user's id. */
  function BuildRows<T>(userId: Option<string>, ids: seq<T>): (rows: seq<CategoryRow<T>>)
    ensures |rows| == |ids|
    ensures forall i :: 0 <= i < |ids| ==> rows[i] == CategoryRow(userId, ids[i])
    decreases |ids|
  {
    if |ids| == 0 then [] else [CategoryRow(userId, ids[0])] + BuildRows(userId, ids[1..])
  }

  /** The category ids a list of rows stores, in order. */
  function CategoryIds<T>(rows: seq<CategoryRow<T>>): seq<T>
    decreases |rows|
  {
    if |rows| == 0 then [] else [rows[0].categoryId] + CategoryIds(rows[1..])
  }

  /** Reading the category ids back from the saved rows gives the selection,
      and the rows are duplicate-free exactly when the selection is. */
  lemma {:induction false} BuildRowsReadBack<T>(userId: Option<string>, ids: seq<T>)
    ensures CategoryIds(BuildRows(userId, ids)) == ids
    ensures NoDuplicates(BuildRows(userId, ids)) <==> NoDuplicates(ids)
    decreases |ids|
  {
    var rows := BuildRows(userId, ids);
    if |ids| > 0 {
      assert rows[1..] == BuildRows(userId, ids[1..]);
      BuildRowsReadBack(userId, ids[1..]);
    }
    assert NoDuplicates(rows) ==> NoDuplicates(ids) by {
      if NoDuplicates(rows) {
        forall i, j | 0 <= i < j < |ids| ensures ids[i] != ids[j] {
          assert rows[i] != rows[j];
        }
      }
    }
  }
}
