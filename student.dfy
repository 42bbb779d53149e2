/**
 * The Student record: construction with defaults, and conversion to and from
 * the eight-field flat form that the service stores.
 */
module StudentModel {
  import opened Values

  /**
   * One student. The id, the four descriptive fields and the timestamps hold
   * whatever value the caller passed (Python does not check their types);
   * the GPA has been through `float(...)`.
   */
  datatype Student = Student(
    studentId: Value,
    name: Value,
    email: Value,
    course: Value,
    yearLevel: Value,
    gpa: real,
    createdAt: Value,
    updatedAt: Value)

  /**
   * What the foreign calls of one construction return: the text of
   * `uuid.uuid4()`, and the two `now()` readings taken for `created_at`
   * and `updated_at` (two separate calls, so they may differ).
   */
  datatype Readings = Readings(uuid: string, createdNow: string, updatedNow: string)

  /** The eight keys of the flat form, which are also the keyword parameters of the constructor. */
  const Fields: set<string> := {"student_id", "name", "email", "course", "year_level", "gpa", "created_at", "updated_at"}

  /** The keyword parameters without a default value. */
  const RequiredFields: set<string> := {"name", "email", "course", "year_level"}

  /** True if `v` is what the constructor stores for a given field value `given` whose fallback is `fallback`. */
  predicate Defaulted(v: Value, given: Value, fallback: string)
  {
    v == if Truthy(given) then given else Str(fallback)
  }

  /**
   * `Student.__init__`: a falsy id is replaced by the first eight characters
   * of a fresh uuid, falsy timestamps by the current time, and the GPA is
   * converted with `float`, which is where construction can fail.
   */
  function Init(name: Value, email: Value, course: Value, yearLevel: Value, gpa: Value,
                studentId: Value, createdAt: Value, updatedAt: Value, env: Readings): (r: Result<Student>)
  {
    match ToFloat(gpa)
    case Err(e) => Err(e)
    case Ok(g) =>
      Ok(Student(Or(studentId, Str(Prefix8(env.uuid))), name, email, course, yearLevel, g,
                 Or(createdAt, Str(env.createdNow)), Or(updatedAt, Str(env.updatedNow))))
  }

  /**
   * `Student(**kwargs)`: a keyword that is not a parameter, or a missing
   * required one, raises TypeError before the body runs; absent optional
   * keywords take their defaults (0.0 for the GPA, None otherwise).
   */
  function Construct(kwargs: Dict, env: Readings): (r: Result<Student>)
  {
    if !(kwargs.Keys <= Fields) || !(RequiredFields <= kwargs.Keys) then Err(TypeError)
    else Init(kwargs["name"], kwargs["email"], kwargs["course"], kwargs["year_level"],
              Get(kwargs, "gpa", Num(0.0)), Get(kwargs, "student_id", Null),
              Get(kwargs, "created_at", Null), Get(kwargs, "updated_at", Null), env)
  }

  /** `Student.to_dict`: the eight fields by name. */
  function ToDict(st: Student): (d: Dict)
    ensures d.Keys == Fields
    ensures d["gpa"].Num?
  {
    map["student_id" := st.studentId, "name" := st.name, "email" := st.email,
        "course" := st.course, "year_level" := st.yearLevel, "gpa" := Num(st.gpa),
        "created_at" := st.createdAt, "updated_at" := st.updatedAt]
  }

  /**
   * `Student.from_dict`: the four required fields are read with `data[key]`,
   * in this order, so the first one missing raises KeyError; the other four
   * are read with `data.get` and then defaulted by the constructor. Keys
   * outside the eight are ignored.
   */
  function FromDict(data: Dict, env: Readings): (r: Result<Student>)
  {
    if "name" !in data then Err(KeyError("name"))
    else if "email" !in data then Err(KeyError("email"))
    else if "course" !in data then Err(KeyError("course"))
    else if "year_level" !in data then Err(KeyError("year_level"))
    else Init(data["name"], data["email"], data["course"], data["year_level"],
              Get(data, "gpa", Num(0.0)), Get(data, "student_id", Null),
              Get(data, "created_at", Null), Get(data, "updated_at", Null), env)
  }

  /** A GPA value that `float` accepts, or no GPA at all. */
  predicate GpaConvertible(d: Dict)
  {
    "gpa" in d ==> d["gpa"].Num?
  }

  /**
   * Construction defaults: keyword construction succeeds exactly when the
   * keywords are the constructor's, the required ones are present and the
   * GPA converts; the result copies the four descriptive fields, defaults the
   * GPA to 0.0, keeps a truthy id and timestamps and otherwise uses an
   * eight-character prefix of the uuid text and the current time.
   */
  lemma ConstructDefaults(kwargs: Dict, env: Readings)
    ensures Construct(kwargs, env).Ok? <==>
              kwargs.Keys <= Fields && RequiredFields <= kwargs.Keys && GpaConvertible(kwargs)
    ensures Construct(kwargs, env).Ok? ==>
              var st := Construct(kwargs, env).value;
              && st.name == kwargs["name"] && st.email == kwargs["email"]
              && st.course == kwargs["course"] && st.yearLevel == kwargs["year_level"]
              && st.gpa == (if "gpa" in kwargs then kwargs["gpa"].num else 0.0)
              && Defaulted(st.studentId, Get(kwargs, "student_id", Null), Prefix8(env.uuid))
              && Defaulted(st.createdAt, Get(kwargs, "created_at", Null), env.createdNow)
              && Defaulted(st.updatedAt, Get(kwargs, "updated_at", Null), env.updatedNow)
    ensures Construct(kwargs, env).Err? && !(kwargs.Keys <= Fields && RequiredFields <= kwargs.Keys) ==>
              Construct(kwargs, env).error == TypeError
    ensures kwargs.Keys <= Fields && RequiredFields <= kwargs.Keys && "gpa" in kwargs ==>
              && (kwargs["gpa"].Null? ==> Construct(kwargs, env) == Err(TypeError))
              && (kwargs["gpa"].Str? ==> Construct(kwargs, env) == Err(ValueError))
  {
  }

  /**
   * A record built without an id gets the eight-character prefix of the
   * uuid text (which is 36 characters long); a record built without
   * timestamps, when both clock readings agree, has equal `created_at` and
   * `updated_at`.
   */
  lemma FreshRecord(kwargs: Dict, env: Readings)
    requires Construct(kwargs, env).Ok?
    requires |env.uuid| == 36
    ensures var st := Construct(kwargs, env).value;
            !Truthy(Get(kwargs, "student_id", Null)) ==>
              st.studentId.Str? && |st.studentId.text| == 8 && st.studentId.text <= env.uuid
    ensures var st := Construct(kwargs, env).value;
            !Truthy(Get(kwargs, "created_at", Null)) && !Truthy(Get(kwargs, "updated_at", Null))
              && env.createdNow == env.updatedNow ==>
              st.createdAt == st.updatedAt == Str(env.createdNow)
  {
  }

  /**
   * `from_dict` fails exactly when a required field is missing (KeyError
   * naming the first missing one in the order name, email, course,
   * year_level) or the GPA does not convert: `float(None)` raises
   * TypeError and text raises ValueError.
   */
  lemma FromDictFails(data: Dict, env: Readings)
    ensures FromDict(data, env).Err? <==> !(RequiredFields <= data.Keys) || !GpaConvertible(data)
    ensures FromDict(data, env).Err? && FromDict(data, env).error.KeyError? ==>
              var k := FromDict(data, env).error.key;
              && k in RequiredFields && k !in data
              && (k != "name" ==> "name" in data)
              && (k == "course" || k == "year_level" ==> "email" in data)
              && (k == "year_level" ==> "course" in data)
    ensures !(RequiredFields <= data.Keys) ==> FromDict(data, env).error.KeyError?
    ensures RequiredFields <= data.Keys && "gpa" in data ==>
              && (data["gpa"].Null? ==> FromDict(data, env) == Err(TypeError))
              && (data["gpa"].Str? ==> FromDict(data, env) == Err(ValueError))
  {
  }

  /**
   * What `from_dict` returns when it succeeds: the four required fields as
   * read, the GPA or 0.0 when the key is absent, and a truthy id and
   * timestamps as stored, while an absent or falsy one is replaced by the
   * eight-character uuid prefix or the current time.
   */
  lemma FromDictDefaults(data: Dict, env: Readings)
    requires RequiredFields <= data.Keys && GpaConvertible(data)
    ensures FromDict(data, env).Ok?
    ensures var st := FromDict(data, env).value;
            && st.name == data["name"] && st.email == data["email"]
            && st.course == data["course"] && st.yearLevel == data["year_level"]
            && st.gpa == (if "gpa" in data then data["gpa"].num else 0.0)
            && Defaulted(st.studentId, Get(data, "student_id", Null), Prefix8(env.uuid))
            && Defaulted(st.createdAt, Get(data, "created_at", Null), env.createdNow)
            && Defaulted(st.updatedAt, Get(data, "updated_at", Null), env.updatedNow)
  {
  }

  /**
   * `from_dict` builds the same record as keyword construction from the
   * dict's entries for the eight parameters (other keys are ignored).
   */
  lemma FromDictIsConstruct(data: Dict, env: Readings)
    requires RequiredFields <= data.Keys
    ensures FromDict(data, env) == Construct(map k | k in data && k in Fields :: data[k], env)
  {
  }

  /**
   * Round trip through the flat form: a record with truthy id and timestamps
   * comes back unchanged, whatever the fresh readings are.
   */
  lemma ToDictFromDict(st: Student, env: Readings)
    requires Truthy(st.studentId) && Truthy(st.createdAt) && Truthy(st.updatedAt)
    ensures FromDict(ToDict(st), env) == Ok(st)
  {
  }

  /**
   * Round trip the other way: a flat record holding exactly the eight keys,
   * with a numeric GPA and truthy id and timestamps, is reproduced exactly.
   */
  lemma FromDictToDict(data: Dict, env: Readings)
    requires data.Keys == Fields
    requires data["gpa"].Num?
    requires Truthy(data["student_id"]) && Truthy(data["created_at"]) && Truthy(data["updated_at"])
    ensures FromDict(data, env).Ok?
    ensures ToDict(FromDict(data, env).value) == data
  {
  }
}
