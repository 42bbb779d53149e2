/**
 * The list operations the service performs on the loaded collection of flat
 * records: the first-match scan of `get_student` and `update_student`, the
 * in-place update of the matched dict, and the filter of `delete_student`.
 */
module Collection {
  import opened Values

  /** `s["student_id"]` can be read without a KeyError. */
  predicate HasId(s: Dict)
  {
    "student_id" in s
  }

  /** `s["student_id"] == student_id` holds (and does not raise). */
  predicate Matches(s: Dict, id: string)
  {
    "student_id" in s && s["student_id"] == Str(id)
  }

  /** Every record of the collection has a `student_id` key. */
  predicate AllHaveId(students: seq<Dict>)
  {
    forall j :: 0 <= j < |students| ==> HasId(students[j])
  }

  /** Some record of the collection has the id. */
  predicate AnyMatch(students: seq<Dict>, id: string)
  {
    exists j :: 0 <= j < |students| && Matches(students[j], id)
  }

  /** How a scan `for s in students: if s["student_id"] == id: ...` ends. */
  datatype Lookup =
    | Found(index: nat)      // the record at index is the first with the id
    | NotFound               // the loop ran to the end
    | MissingId(index: nat)  // the record at index has no student_id: KeyError

  /** Where the scan stopped: the index it ended at, or the length when it ran through. */
  function StopIndex(r: Lookup, n: nat): nat
  {
    match r
    case Found(i) => i
    case MissingId(i) => i
    case NotFound => n
  }

  /**
   * The scan started at position k: every record it passes has an id that
   * differs from `id`, and it stops at the first record that matches or
   * that has no id.
   */
  function LocateFrom(students: seq<Dict>, id: string, k: nat): (r: Lookup)
    requires k <= |students|
    ensures k <= StopIndex(r, |students|) <= |students|
    ensures r.Found? ==> r.index < |students| && Matches(students[r.index], id)
    ensures r.MissingId? ==> r.index < |students| && !HasId(students[r.index])
    ensures forall j :: k <= j < StopIndex(r, |students|) ==> HasId(students[j]) && !Matches(students[j], id)
    decreases |students| - k
  {
    if k == |students| then NotFound
    else if !HasId(students[k]) then MissingId(k)
    else if Matches(students[k], id) then Found(k)
    else LocateFrom(students, id, k + 1)
  }

  /** The scan over the whole collection. */
  function Locate(students: seq<Dict>, id: string): (r: Lookup)
  {
    LocateFrom(students, id, 0)
  }

  /** What `get_student` returns for the collection: the first match, None, or the KeyError. */
  function FindStudent(students: seq<Dict>, id: string): (r: Result<Option<Dict>>)
  {
    match Locate(students, id)
    case Found(i) => Ok(Some(students[i]))
    case NotFound => Ok(None)
    case MissingId(_) => Err(KeyError("student_id"))
  }

  /** `s.update(update_data)` followed by `s["updated_at"] = now()`. */
  function ApplyUpdate(s: Dict, updateData: Dict, now: string): (r: Dict)
  {
    (s + updateData)["updated_at" := Str(now)]
  }

  /** What `update_student` leaves in the collection once the scan found index i. */
  function UpdatedAt(students: seq<Dict>, i: nat, updateData: Dict, now: string): (r: seq<Dict>)
    requires i < |students|
  {
    students[i := ApplyUpdate(students[i], updateData, now)]
  }

  /** `[s for s in students if s["student_id"] != student_id]`. */
  function Without(students: seq<Dict>, id: string): (r: seq<Dict>)
    ensures |r| <= |students|
    ensures forall x :: x in r <==> x in students && !Matches(x, id)
    ensures |r| == |students| <==> !AnyMatch(students, id)
  {
    if students == [] then []
    else
      var rest := Without(students[1..], id);
      assert AnyMatch(students, id) <==> Matches(students[0], id) || AnyMatch(students[1..], id) by {
        if AnyMatch(students[1..], id) {
          var j :| 0 <= j < |students[1..]| && Matches(students[1..][j], id);
          assert students[j + 1] == students[1..][j];
        }
        if AnyMatch(students, id) && !Matches(students[0], id) {
          var j :| 0 <= j < |students| && Matches(students[j], id);
          assert students[1..][j - 1] == students[j];
        }
      }
      assert forall x :: x in students <==> x == students[0] || x in students[1..] by {
        assert students == [students[0]] + students[1..];
      }
      if Matches(students[0], id) then rest else [students[0]] + rest
  }

  // ---------------------------------------------------------------------------
  // get_student
  // ---------------------------------------------------------------------------

  /**
   * `get_student` returns the first record with the id: the scan stops at
   * index i with a match exactly when the record there has the id and every
   * record before it has a different one; it then returns that record.
   */
  lemma GetReturnsFirstMatch(students: seq<Dict>, id: string, i: nat)
    requires i < |students|
    ensures Locate(students, id) == Found(i)
        <==> Matches(students[i], id) && forall j :: 0 <= j < i ==> HasId(students[j]) && !Matches(students[j], id)
    ensures Locate(students, id) == Found(i) ==> FindStudent(students, id) == Ok(Some(students[i]))
  {
  }

  /**
   * `get_student` returns None exactly when every record has an id and none
   * of them is `id`.
   */
  lemma GetNoneIff(students: seq<Dict>, id: string)
    ensures FindStudent(students, id) == Ok(None) <==> AllHaveId(students) && !AnyMatch(students, id)
  {
  }

  // ---------------------------------------------------------------------------
  // update_student
  // ---------------------------------------------------------------------------

  /**
   * The updated dict: every key of `update_data` is overwritten (no key is
   * filtered out, `student_id` included), `updated_at` is the current time
   * whatever was supplied, keys of neither stay as they were, and no key
   * is lost.
   */
  lemma UpdateOverwrites(s: Dict, updateData: Dict, now: string)
    ensures var r := ApplyUpdate(s, updateData, now);
            && r.Keys == s.Keys + updateData.Keys + {"updated_at"}
            && r["updated_at"] == Str(now)
            && (forall k :: k in updateData && k != "updated_at" ==> r[k] == updateData[k])
            && (forall k :: k in s && k !in updateData && k != "updated_at" ==> r[k] == s[k])
  {
  }

  /**
   * Updating the first match changes that one record only: the collection
   * keeps its length and order, and every other record is unchanged.
   */
  lemma UpdateTouchesOnlyMatch(students: seq<Dict>, id: string, updateData: Dict, now: string)
    requires Locate(students, id).Found?
    ensures var i := Locate(students, id).index;
            var after := UpdatedAt(students, i, updateData, now);
            && |after| == |students|
            && after[i] == ApplyUpdate(students[i], updateData, now)
            && (forall j :: 0 <= j < |students| && j != i ==> after[j] == students[j])
            && (forall j :: 0 <= j < i ==> !Matches(students[j], id))
  {
  }

  /**
   * An update that does not supply `student_id` keeps the record findable:
   * `get_student` afterwards returns the updated record.
   */
  lemma UpdateThenGet(students: seq<Dict>, id: string, updateData: Dict, now: string)
    requires Locate(students, id).Found?
    requires "student_id" !in updateData
    ensures var i := Locate(students, id).index;
            FindStudent(UpdatedAt(students, i, updateData, now), id)
              == Ok(Some(ApplyUpdate(students[i], updateData, now)))
  {
    var i := Locate(students, id).index;
    var after := UpdatedAt(students, i, updateData, now);
    assert Matches(after[i], id);
    GetReturnsFirstMatch(after, id, i);
  }

  /**
   * An update whose data sets `student_id` to another string renames the
   * record: if no record has the new id, `get_student` with the new id
   * finds the renamed record.
   */
  lemma UpdateRenames(students: seq<Dict>, id: string, other: string, updateData: Dict, now: string)
    requires Locate(students, id).Found?
    requires "student_id" in updateData && updateData["student_id"] == Str(other)
    requires !AnyMatch(students, other)
    ensures var i := Locate(students, id).index;
            FindStudent(UpdatedAt(students, i, updateData, now), other)
              == Ok(Some(ApplyUpdate(students[i], updateData, now)))
  {
    var i := Locate(students, id).index;
    var after := UpdatedAt(students, i, updateData, now);
    assert Matches(after[i], other);
    forall j | 0 <= j < i
      ensures HasId(after[j]) && !Matches(after[j], other)
    {
      assert after[j] == students[j];
    }
    GetReturnsFirstMatch(after, other, i);
  }

  // ---------------------------------------------------------------------------
  // add_student
  // ---------------------------------------------------------------------------

  /**
   * Appending a record whose id no stored record has makes `get_student`
   * return that record.
   */
  lemma {:induction false} AppendThenGet(students: seq<Dict>, d: Dict, id: string)
    requires AllHaveId(students) && !AnyMatch(students, id)
    requires Matches(d, id)
    ensures FindStudent(students + [d], id) == Ok(Some(d))
  {
    var after := students + [d];
    forall j | 0 <= j < |students|
      ensures HasId(after[j]) && !Matches(after[j], id)
    {
      assert after[j] == students[j];
    }
    GetReturnsFirstMatch(after, id, |students|);
  }

  // ---------------------------------------------------------------------------
  // delete_student
  // ---------------------------------------------------------------------------

  /** The filter keeps the order of the records it keeps: it distributes over concatenation. */
  lemma {:induction false} WithoutAppend(a: seq<Dict>, b: seq<Dict>, id: string)
    ensures Without(a + b, id) == Without(a, id) + Without(b, id)
  {
    if a == [] {
      assert a + b == b;
    } else {
      assert (a + b)[0] == a[0];
      assert (a + b)[1..] == a[1..] + b;
      WithoutAppend(a[1..], b, id);
    }
  }

  /** A single record is kept exactly when it does not have the id. */
  lemma WithoutSingle(d: Dict, id: string)
    ensures Without([d], id) == if Matches(d, id) then [] else [d]
  {
  }

  /** On a collection where every record has an id, `get_student` finds nothing after a delete. */
  lemma DeleteThenGet(students: seq<Dict>, id: string)
    requires AllHaveId(students)
    ensures FindStudent(Without(students, id), id) == Ok(None)
  {
    var after := Without(students, id);
    forall j | 0 <= j < |after|
      ensures HasId(after[j]) && !Matches(after[j], id)
    {
      assert after[j] in after;
      var k :| 0 <= k < |students| && students[k] == after[j];
    }
    GetNoneIff(after, id);
  }

  /** Deleting twice removes nothing more than deleting once. */
  lemma DeleteIdempotent(students: seq<Dict>, id: string)
    ensures Without(Without(students, id), id) == Without(students, id)
  {
    var once := Without(students, id);
    assert !AnyMatch(once, id) by {
      assert forall j :: 0 <= j < |once| ==> once[j] in once;
    }
    WithoutNoMatch(once, id);
  }

  /** With no record having the id, the filter gives back the collection itself. */
  lemma {:induction false} WithoutNoMatch(students: seq<Dict>, id: string)
    requires !AnyMatch(students, id)
    ensures Without(students, id) == students
  {
    if students != [] {
      assert !AnyMatch(students[1..], id) by {
        assert forall j :: 0 <= j < |students[1..]| ==> students[1..][j] == students[j + 1];
      }
      WithoutNoMatch(students[1..], id);
      assert students == [students[0]] + students[1..];
    }
  }
}
