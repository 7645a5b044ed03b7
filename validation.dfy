/** What the serializers' validators share: membership in a choice list,
  * the order of two dates, DRF's whitespace trimming, and uniqueness of a
  * key among the live rows of a table, checked by an `exists()` query that
  * excludes the row being updated. */
module Validation {
  import opened Common

  /** A rejected input: the field the `ValidationError` is keyed by. */
  datatype Rejection = Rejection(field: string)

  /** `value not in [choice[0] for choice in CHOICES]` raises. */
  function ValidateChoice(field: string, value: string, choices: seq<string>): (r: Result<string, Rejection>)
    ensures r.Ok? <==> value in choices
    ensures r.Ok? ==> r.value == value
    ensures r.Err? ==> r.error.field == field
  {
    if value in choices then Ok(value) else Err(Rejection(field))
  }

  /** `if start and end and start > end: raise {'end_date': ...}`, with each
    * date taken from the input or, when absent, from the stored row. */
  function ValidateDateOrder(start: Option<int>, end: Option<int>): (r: Option<Rejection>)
    ensures r.Some? <==> start.Some? && end.Some? && start.value > end.value
    ensures r.Some? ==> r.value.field == "end_date"
  {
    if start.Some? && end.Some? && start.value > end.value then Some(Rejection("end_date")) else None
  }

  /** The index of the first character that is not white space, at or after `i`. */
  function SkipSpaces(s: string, i: nat): (r: nat)
    requires i <= |s|
    ensures i <= r <= |s|
    ensures forall k :: i <= k < r ==> IsSpace(s[k])
    ensures r < |s| ==> !IsSpace(s[r])
    decreases |s| - i
  {
    if i == |s| || !IsSpace(s[i]) then i else SkipSpaces(s, i + 1)
  }

  /** One past the last character that is not white space, at or before `j`. */
  function DropSpaces(s: string, j: nat): (r: nat)
    requires j <= |s|
    ensures r <= j
    ensures forall k :: r <= k < j ==> IsSpace(s[k])
    ensures r > 0 ==> !IsSpace(s[r - 1])
  {
    if j == 0 || !IsSpace(s[j - 1]) then j else DropSpaces(s, j - 1)
  }

  /** `str.strip()`, which a DRF `CharField` applies before checking blanks. */
  function Strip(s: string): (r: string)
    ensures r == "" <==> IsBlank(s)
    ensures r != "" ==> !IsSpace(r[0]) && !IsSpace(r[|r| - 1])
    ensures exists i, j :: 0 <= i <= j <= |s| && r == s[i..j]
  {
    var i := SkipSpaces(s, 0);
    var j := DropSpaces(s, |s|);
    if i < j then
      assert !IsSpace(s[i]);
      s[i..j]
    else
      assert forall k :: 0 <= k < |s| ==> IsSpace(s[k]) by {
        forall k | 0 <= k < |s|
          ensures IsSpace(s[k])
        {
          if k >= j {
          } else {
            assert k < i;
          }
        }
      }
      assert s[0..0] == "";
      ""
  }

  /** No two rows satisfying `p` share a key: a unique constraint, or the
    * invariant a validator keeps, over the live rows. */
  predicate UniqueOn<T, K(==)>(rows: seq<T>, p: T -> bool, key: T -> K) {
    forall i, j :: 0 <= i < j < |rows| && p(rows[i]) && p(rows[j]) ==> key(rows[i]) != key(rows[j])
  }

  /** The validators' `filter(...).exclude(id=self.instance.id).exists()`:
    * a row other than `self` satisfying `p` already has key `k`. */
  predicate Taken<T, K(==)>(rows: seq<T>, p: T -> bool, key: T -> K, k: K, self: Option<int>) {
    exists i :: 0 <= i < |rows| && p(rows[i]) && key(rows[i]) == k && self != Some(i)
  }

  /** A created row whose key the check found free keeps the keys unique. */
  lemma {:induction false} InsertKeepsUnique<T, K>(rows: seq<T>, p: T -> bool, key: T -> K, x: T)
    requires UniqueOn(rows, p, key)
    requires p(x) ==> !Taken(rows, p, key, key(x), None)
    ensures UniqueOn(rows + [x], p, key)
  {
    var r := rows + [x];
    forall i, j | 0 <= i < j < |r| && p(r[i]) && p(r[j])
      ensures key(r[i]) != key(r[j])
    {
      if j == |rows| {
        assert r[i] == rows[i];
      } else {
        assert r[i] == rows[i] && r[j] == rows[j];
      }
    }
  }

  /** An updated row whose key the check found free among the other rows
    * keeps the keys unique. */
  lemma {:induction false} UpdateKeepsUnique<T, K>(rows: seq<T>, p: T -> bool, key: T -> K, n: int, x: T)
    requires UniqueOn(rows, p, key) && 0 <= n < |rows|
    requires p(x) ==> !Taken(rows, p, key, key(x), Some(n))
    ensures UniqueOn(rows[n := x], p, key)
  {
    var r := rows[n := x];
    forall i, j | 0 <= i < j < |r| && p(r[i]) && p(r[j])
      ensures key(r[i]) != key(r[j])
    {
      if i == n {
        assert r[j] == rows[j];
      } else if j == n {
        assert r[i] == rows[i];
      } else {
        assert r[i] == rows[i] && r[j] == rows[j];
      }
    }
  }

  /** Conversely, a check that finds the key taken is right to reject: the
    * created row would break the uniqueness. */
  lemma {:induction false} TakenBreaksUnique<T, K>(rows: seq<T>, p: T -> bool, key: T -> K, x: T)
    requires p(x) && Taken(rows, p, key, key(x), None)
    ensures !UniqueOn(rows + [x], p, key)
  {
    var i :| 0 <= i < |rows| && p(rows[i]) && key(rows[i]) == key(x);
    var r := rows + [x];
    assert r[i] == rows[i] && r[|rows|] == x;
  }
}
