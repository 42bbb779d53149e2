# Student record service — Dafny model

This project models the record layer and the collection service of the
student information system in `student_services2.py`:

- `Student`: construction with defaults (a fresh eight-character id, the
  current time for missing timestamps, GPA 0.0), `to_dict` and `from_dict`.
- `StudentService`: `add_student`, `get_all_students`, `get_student`,
  `update_student` and `delete_student`. Each one loads the whole stored
  collection, works on the loaded list and, for a change, saves the whole
  list back.

The stored data file is the field `file` of the class `Service.StudentService`.
It is `Missing`, `Malformed` or `Json(records)`. `Malformed` is text that
`json.load` rejects with `JSONDecodeError`. Loading gives the records, or an
empty list for a missing or malformed file. Saving replaces the file
with `Json(list)` and adds one to the ghost counter `saves`, so the
contracts can say when an operation writes the file and when it does not.

A record in flat form is a Python dict with string keys, modelled as
`map<string, Value>`. `Value` is a JSON scalar: a string, a number or null.
The keys stay dynamic because `update_student` merges the caller's dict with
no key filtering. A `Student` object is set up once in `__init__` and never
changed after that, so it is a datatype. The dicts in the stored list are
what gets changed.

Files:

- `values.dfy` (module `Values`): values, dicts, Python truthiness, `d.get`,
  `float`, `s[:8]`, and the exceptions `KeyError`, `TypeError`, `ValueError`.
- `student.dfy` (module `StudentModel`): `Init` (`__init__`), `Construct`
  (`Student(**kwargs)`), `ToDict` and `FromDict`, with their lemmas.
- `collection.dfy` (module `Collection`): the list operations. `Locate` is the
  first-match scan of `get_student` and `update_student`. `ApplyUpdate` is the
  in-place update. `Without` is the filter of `delete_student`. The lemmas
  relating them are here too.
- `service.dfy` (module `Service`): the class `StudentService` with the stored
  file as its state.

Nondeterministic inputs are parameters:

- `Readings.uuid` is the text of `uuid.uuid4()`.
- `Readings.createdNow` and `Readings.updatedNow` are the two `now()` calls
  that `__init__` makes.
- `now` is the single `now()` call of `update_student`.

`__init__` reads the clock twice, once for `created_at` and once for
`updated_at`. The two readings can differ when a second boundary falls between
the calls. So the model proves `created_at == updated_at` for a new record only
when the two readings are equal (`StudentModel.FreshRecord`).

What the code does, and so what the model does:

- `add_student` does no name or email validation.
- `update_student` applies every supplied key, `student_id` included, with no
  filtering and no GPA coercion.
- A record without a `student_id` key makes `get_student` and `update_student`
  raise `KeyError` when the scan reaches it before any match. It makes
  `delete_student` raise `KeyError` whenever such a record is present.

## Model

| member | source | states |
|---|---|---|
| `Values.Prefix8` | student_services2.py:42 | The generated id is a prefix of the uuid text, eight characters long when that text has at least eight |
| `StudentModel.ConstructDefaults` | student_services2.py:41-49 | `Student(**kwargs)` succeeds iff every keyword is a parameter, the four required ones are present and the GPA is absent or numeric. An unknown or missing keyword gives TypeError. On success the four descriptive fields are copied, the GPA defaults to 0.0, a truthy id or timestamp is kept, and otherwise the uuid prefix or the current time is used. With valid keywords, a None GPA gives TypeError and a text GPA gives ValueError |
| `StudentModel.FreshRecord` | student_services2.py:42-49 | A record built without a truthy id gets an 8-character id taken from the 36-character uuid text, whatever its timestamps are. A record built without truthy timestamps, when the two clock readings are equal, has `created_at == updated_at` |
| `StudentModel.ToDict` | student_services2.py:51-61 | The flat form has exactly the eight keys, and its GPA is a number |
| `StudentModel.FromDictFails` | student_services2.py:64-74 | `from_dict` fails iff name, email, course or year_level is missing or the GPA does not convert. A missing field gives KeyError naming the first missing one, in source order. With all four present, a None GPA gives TypeError and a text GPA gives ValueError |
| `StudentModel.ToDictFromDict` | student_services2.py:51-74 | `from_dict(to_dict(st))` is `st` whenever its id and timestamps are truthy, whatever the fresh readings are |
| `StudentModel.FromDictToDict` | student_services2.py:51-74 | For a dict with exactly the eight keys, a numeric GPA and a truthy id and timestamps, `to_dict(from_dict(d))` is `d` |
| `StudentModel.Init` | student_services2.py:41-49 | Defined by its body (`__init__`); described by `StudentModel.ConstructDefaults`, `StudentModel.FreshRecord` and the two round-trip lemmas |
| `StudentModel.Construct` | student_services2.py:102 | Defined by its body (`Student(**student_data)` against the parameters of line 41); described by `StudentModel.ConstructDefaults` and `StudentModel.FreshRecord` |
| `StudentModel.FromDict` | student_services2.py:64-74 | Defined by its body; described by `StudentModel.FromDictFails`, `StudentModel.FromDictDefaults`, `StudentModel.FromDictIsConstruct`, `StudentModel.ToDictFromDict` and `StudentModel.FromDictToDict` |
| `StudentModel.FromDictDefaults` | student_services2.py:64-74 | When the four required fields are present and the GPA converts, `from_dict` succeeds: the required fields are copied, an absent GPA is 0.0 (line 70), and an absent or falsy id or timestamp becomes the uuid prefix or the current time (lines 42, 48-49, 71-73) |
| `StudentModel.FromDictIsConstruct` | student_services2.py:64-74 | With the four required fields present, `from_dict(d)` is keyword construction from the entries of `d` for the eight parameters |
| `Collection.Locate` | student_services2.py:112-115 | Defined by its body (the scan from the first record); described by `Collection.LocateFrom` and `Collection.GetReturnsFirstMatch` |
| `Collection.FindStudent` | student_services2.py:110-115 | Defined by its body (what `get_student` returns for each way the scan ends); described by `Collection.GetReturnsFirstMatch` and `Collection.GetNoneIff` |
| `Collection.ApplyUpdate` | student_services2.py:121-122 | Defined by its body (`s.update(update_data)` then `s["updated_at"] = now()`); described by `Collection.UpdateOverwrites` |
| `Collection.UpdatedAt` | student_services2.py:119-124 | Defined by its body (the loaded list with the first match replaced by its update); described by `Collection.UpdateTouchesOnlyMatch` and `Collection.UpdateThenGet` |
| `Service.StudentService.Students` | student_services2.py:89-94 | Defined by its body (the list `_load_students` yields for the current file); described by `Service.StudentService.LoadStudents` |
| `Collection.LocateFrom` | student_services2.py:112-115 | The scan passes only records that have an id other than the argument. It stops at the first record that matches (Found) or has no id (MissingId), or it runs to the end (NotFound) |
| `Collection.GetReturnsFirstMatch` | student_services2.py:110-115 | The scan stops at index i with a match iff record i has the id and every earlier record has a different id. `get_student` then returns record i |
| `Collection.GetNoneIff` | student_services2.py:110-115 | `get_student` returns None iff every record has an id and none of them is the argument |
| `Collection.UpdateOverwrites` | student_services2.py:121-122 | The updated dict takes every key of `update_data`, `student_id` included. `updated_at` is the current time even when a value was supplied. Other keys are unchanged, and no key is lost |
| `Collection.UpdateTouchesOnlyMatch` | student_services2.py:119-124 | Only the first matching record changes. The collection keeps its length and order, and every other record is unchanged |
| `Collection.UpdateThenGet` | student_services2.py:117-124 | After an update that does not set `student_id`, `get_student` with the same id returns the updated record |
| `Collection.UpdateRenames` | student_services2.py:121 | An update that sets `student_id` to a new, unused id makes the record findable under that id |
| `Collection.AppendThenGet` | student_services2.py:103-115 | After a record with an unused id is appended, `get_student` with that id returns it |
| `Collection.Without` | student_services2.py:129-130 | The filtered list holds exactly the records without the id. It is shorter iff some record had the id |
| `Collection.WithoutAppend` | student_services2.py:129 | The filter distributes over concatenation, so kept records stay in their original order |
| `Collection.WithoutSingle` | student_services2.py:129 | A single record is kept iff it does not have the id |
| `Collection.WithoutNoMatch` | student_services2.py:129-131 | When no record has the id, the filter returns the list unchanged |
| `Collection.DeleteThenGet` | student_services2.py:127-133 | After a delete on a collection whose records all have ids, `get_student` with that id returns None |
| `Collection.DeleteIdempotent` | student_services2.py:127-133 | Deleting the same id twice removes nothing more than deleting it once |
| `Service.StudentService.constructor` | student_services2.py:82-87 | A missing data file is created holding an empty list. An existing file is left as it is |
| `Service.StudentService.LoadStudents` | student_services2.py:89-94 | Loading returns the stored list, or an empty list for a missing or malformed file, and changes nothing |
| `Service.StudentService.SaveStudents` | student_services2.py:96-98 | Saving overwrites the file with the whole list and counts one write |
| `Service.StudentService.AddStudent` | student_services2.py:100-105 | If construction fails, the error escapes before any write and the file is unchanged. Otherwise the flat form is appended, earlier records keep their values and order, the collection grows by one, its last element is the returned dict, and the file is saved exactly once |
| `Service.StudentService.GetAllStudents` | student_services2.py:107-108 | Returns the loaded collection unchanged and in file order: empty for a missing or malformed file |
| `Service.StudentService.GetStudent` | student_services2.py:110-115 | Returns the first match, None, or KeyError for a record without an id, exactly as `Locate` describes |
| `Service.StudentService.UpdateStudent` | student_services2.py:117-125 | On the first match, returns the record with the merge applied and `updated_at` re-stamped, and saves the collection once, with only that record replaced. With no match, returns None and the file is neither changed nor written. A record without an id before any match gives KeyError, also with no write |
| `Service.StudentService.DeleteStudent` | student_services2.py:127-133 | Returns True iff some record had the id, and then saves the filtered list once. On False the file is neither changed nor written. A record without an id gives KeyError, also with no write |
| `Service.AddThenGet` | student_services2.py:100-115 | After a successful add with a new id, `get_student` returns the added record, and its descriptive fields are the ones supplied |

## Left out

- `StudentInformationSystem` (menu loop, prompts, confirmations, the CLI's own `float(gpa)` parsing) is terminal I/O and is not modelled.
- `ensure_dirs`, the data file path and the JSON encoding and decoding are filesystem and library I/O. Only their effect is modelled: the file is replaced on save, and a missing file (`FileNotFoundError`) or one `json.load` rejects with `JSONDecodeError` reads as an empty list.
- Other read errors are not modelled. In Python they escape from every service method instead of reading as an empty list: a file that cannot be opened (`PermissionError`, `IsADirectoryError`) and bytes that do not decode (`UnicodeDecodeError`).
- A JSON file whose root is not an array, or whose elements are not objects, is not modelled. Such a file is not a `Json(records)` value here.
- Failures while writing the file (permissions, a full disk, a crash part-way through) are not modelled.
- `uuid.uuid4()` and `datetime.now()` are foreign calls. Their results are parameters (`Readings`, `now`).
- Logging is not modelled.
- StudentModel.Init: numeric text for the GPA is treated as not converting (ValueError), because `Values.ToFloat` does not model Python's parsing of numeric text; in Python `float("3.5")` succeeds. The service's callers always pass a number (student_services2.py:177, :223).
- StudentModel.Construct: for the same reason, keyword construction with a GPA given as numeric text fails with ValueError, where Python succeeds.
- StudentModel.FromDict: for the same reason, `from_dict` of a dict whose GPA is numeric text fails with ValueError, where Python succeeds.
- StudentModel.ConstructDefaults: for the same reason, numeric GPA text is counted among the inputs that give ValueError.
- StudentModel.FromDictFails: for the same reason, a GPA given as numeric text counts as "does not convert" (ValueError).
- StudentModel.FromDictDefaults: for the same reason, its precondition requires a numeric or absent GPA, so it says nothing about numeric GPA text, on which Python's `from_dict` succeeds.
- GPA is an opaque real that is stored and copied, never computed on; floating-point rounding is not modelled.
- JSON values other than strings, numbers and null (booleans, arrays, nested objects) are not modelled as field values. The key order of a dict is not modelled, because the model compares dicts as maps.
- In-place mutation of the loaded dict is modelled on values. Python's aliasing between the returned dict and the list element is not modelled, because the list is private to the call and is discarded after the save.
