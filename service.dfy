/**
 * The student service: every operation loads the whole stored collection,
 * works on the loaded list, and (for a change) writes the whole list back.
 */
module Service {
  import opened Values
  import opened StudentModel
  import opened Collection

  /** The data file as the service finds it. */
  datatype StoreFile =
    | Missing                       // no file at the path
    | Malformed                     // text that `json.load` rejects with JSONDecodeError
    | Json(records: seq<Dict>)      // a JSON array of record objects

  class StudentService {
    /** The backing data file; every operation reads it afresh. */
    var file: StoreFile

    /** How many times `_save_students` has written the file; only the proof reads it. */
    ghost var saves: nat

    /** The collection `_load_students` yields for the current file. */
    function Students(): seq<Dict>
      reads this
    {
      if file.Json? then file.records else []
    }

    /** `StudentService.__init__`: a missing data file is created holding an empty list. */
    constructor (existing: StoreFile)
      ensures file == if existing.Missing? then Json([]) else existing
      ensures Students() == if existing.Json? then existing.records else []
      ensures saves == 0
    {
      saves := 0;
      if existing.Missing? {
        file := Json([]);
      } else {
        file := existing;
      }
    }

    /**
     * `_load_students`: the stored list, or an empty one when the file is
     * missing or does not parse; nothing is reported and nothing changes.
     */
    method LoadStudents() returns (students: seq<Dict>)
      ensures file.Json? ==> students == file.records
      ensures file.Missing? || file.Malformed? ==> students == []
      ensures students == Students()
    {
      match file
      case Json(records) => students := records;
      case Missing => students := [];
      case Malformed => students := [];
    }

    /** `_save_students`: the file is overwritten with the whole list. */
    method SaveStudents(students: seq<Dict>)
      modifies this
      ensures file == Json(students)
      ensures Students() == students
      ensures saves == old(saves) + 1
    {
      file := Json(students);
      saves := saves + 1;
    }

    /**
     * `add_student`: the record is built from the keyword data; on failure
     * the exception escapes before anything is written, otherwise its flat
     * form is appended to the loaded list, the list is saved and the same
     * flat form is returned.
     */
    method AddStudent(studentData: Dict, env: Readings) returns (r: Result<Dict>)
      modifies this
      ensures Construct(studentData, env).Err? ==>
                r == Err(Construct(studentData, env).error) && file == old(file) && saves == old(saves)
      ensures Construct(studentData, env).Ok? ==>
                && r == Ok(ToDict(Construct(studentData, env).value))
                && file == Json(old(Students()) + [r.value])
                && saves == old(saves) + 1
      ensures r.Ok? ==>
                && |Students()| == |old(Students())| + 1
                && Students()[..|old(Students())|] == old(Students())
                && Students()[|Students()| - 1] == r.value
    {
      var students := LoadStudents();
      var student := Construct(studentData, env);
      if student.Err? {
        return Err(student.error);
      }
      students := students + [ToDict(student.value)];
      SaveStudents(students);
      return Ok(ToDict(student.value));
    }

    /** `get_all_students`: the loaded collection as stored, in file order. */
    method GetAllStudents() returns (students: seq<Dict>)
      ensures students == Students()
      ensures !file.Json? ==> students == []
    {
      students := LoadStudents();
    }

    /**
     * `get_student`: the first record whose id is `studentId`, or None; a
     * record without a `student_id` key met before any match raises KeyError.
     */
    method GetStudent(studentId: string) returns (r: Result<Option<Dict>>)
      ensures r == FindStudent(Students(), studentId)
    {
      var students := LoadStudents();
      var i := 0;
      while i < |students|
        invariant i <= |students|
        invariant LocateFrom(students, studentId, i) == Locate(students, studentId)
      {
        var s := students[i];
        if "student_id" !in s {
          return Err(KeyError("student_id"));
        }
        if s["student_id"] == Str(studentId) {
          return Ok(Some(s));
        }
        i := i + 1;
      }
      return Ok(None);
    }

    /**
     * `update_student`: the first record with the id is updated in place with
     * every key of `updateData`, its `updated_at` is then set to `now`, the
     * list is saved and the updated record returned. With no match the result
     * is None and the file is neither changed nor rewritten; a record without
     * a `student_id` before any match raises KeyError, also without a write.
     */
    method UpdateStudent(studentId: string, updateData: Dict, now: string) returns (r: Result<Option<Dict>>)
      modifies this
      ensures Locate(old(Students()), studentId).Found? ==>
                var i := Locate(old(Students()), studentId).index;
                && r == Ok(Some(ApplyUpdate(old(Students())[i], updateData, now)))
                && file == Json(UpdatedAt(old(Students()), i, updateData, now))
                && saves == old(saves) + 1
      ensures Locate(old(Students()), studentId).NotFound? ==>
                r == Ok(None) && file == old(file) && saves == old(saves)
      ensures Locate(old(Students()), studentId).MissingId? ==>
                r == Err(KeyError("student_id")) && file == old(file) && saves == old(saves)
    {
      var students := LoadStudents();
      var i := 0;
      while i < |students|
        invariant i <= |students|
        invariant students == old(Students()) && file == old(file) && saves == old(saves)
        invariant LocateFrom(students, studentId, i) == Locate(students, studentId)
      {
        var s := students[i];
        if "student_id" !in s {
          return Err(KeyError("student_id"));
        }
        if s["student_id"] == Str(studentId) {
          s := s + updateData;
          s := s["updated_at" := Str(now)];
          students := students[i := s];
          SaveStudents(students);
          return Ok(Some(s));
        }
        i := i + 1;
      }
      return Ok(None);
    }

    /**
     * `delete_student`: the records with the id are filtered out (reading
     * every record's `student_id`, so one without it raises KeyError); True
     * and a save when the list got shorter, False and no write otherwise.
     */
    method DeleteStudent(studentId: string) returns (r: Result<bool>)
      modifies this
      ensures !AllHaveId(old(Students())) ==> r == Err(KeyError("student_id")) && file == old(file)
      ensures AllHaveId(old(Students())) ==> r == Ok(AnyMatch(old(Students()), studentId))
      ensures r == Ok(true) ==> file == Json(Without(old(Students()), studentId)) && saves == old(saves) + 1
      ensures r != Ok(true) ==> file == old(file) && saves == old(saves)
    {
      var students := LoadStudents();
      if !AllHaveId(students) {
        return Err(KeyError("student_id"));
      }
      var kept := Without(students, studentId);
      if |kept| == |students| {
        return Ok(false);
      }
      SaveStudents(kept);
      return Ok(true);
    }
  }

  /**
   * Add then get: after a successful add whose generated or given id is
   * `id` and is not yet stored, `get_student(id)` returns the added record,
   * which carries exactly the descriptive fields that were supplied.
   */
  lemma AddThenGet(students: seq<Dict>, studentData: Dict, env: Readings, id: string)
    requires AllHaveId(students) && !AnyMatch(students, id)
    requires Construct(studentData, env).Ok?
    requires Construct(studentData, env).value.studentId == Str(id)
    ensures var d := ToDict(Construct(studentData, env).value);
            && FindStudent(students + [d], id) == Ok(Some(d))
            && d["name"] == studentData["name"] && d["email"] == studentData["email"]
            && d["course"] == studentData["course"] && d["year_level"] == studentData["year_level"]
  {
    ConstructDefaults(studentData, env);
    AppendThenGet(students, ToDict(Construct(studentData, env).value), id);
  }
}
