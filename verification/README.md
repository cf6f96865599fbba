# CrisisMap backend integration-test runner — verified model

CrisisMap tracks disasters (earthquakes, wildfires, floods, tornadoes, air-quality
alerts) and serves them from a backend API. Its integration-test runner,
`backend_test.py`, holds two pieces of self-contained logic that this project
models and proves things about:

- **The disaster-structure validator** (`validate_disaster_structure`). It takes a
  decoded `GET /disasters` response and decides whether it has the expected
  shape. The response must be a list. An empty list is accepted. The first record
  must carry ten required fields. Every record's category and severity must come
  from fixed vocabularies. An accepted list is summarised by category and by
  severity.
- **The pass/fail bookkeeping** of `run_test` and `main`. Each test increments
  `tests_run`. It increments `tests_passed` only when the observed status code is
  the expected one. If `main` reaches its final summary, it returns 0 exactly
  when the two counters agree there.

As written, the file does not load: two docstrings are indented deeper than the
function bodies they open (see "Left out"). The model describes the program with
that layout corrected, which is evidently what was intended.

Modules:

- `Wrappers` (`wrappers.dfy`): `Option` and `Result`.
- `Records` (`records.dfy`): records as `map<string, string>`, and the payload as
  `List(records) | NotList`. Also the ten required field names, the five
  categories and the four severities.
- `Counting` (`counting.dfy`): the summary dictionaries (`Tally`), a reference
  count (`Count`) and sums of entries over a key list (`SumOver`).
- `Validation` (`validation.dfy`): the validator as a function to a `Verdict`.
  A verdict is `Valid(typeCounts, severityCounts)`, `Invalid(reason)` or
  `KeyError(key)`. It comes with a direct statement of which payloads are accepted
  (`WellFormed`) and which raise (`Raises`).
- `Counters` (`counters.dfy`): the two counters, one test step, a run of many
  tests, the final report and the exit code.

The Python code indexes `d['disaster_type']` and `d['severity']` on every record,
but it only checks the first record for field presence. So a later record that
lacks one of those two keys raises `KeyError`. The model returns this as the
`KeyError` verdict rather than as a boolean. The category comprehension runs to
completion before the severity comprehension starts. So a missing category
raises even when a severity is invalid. A missing severity raises only when
every category is present and valid.

The repository's client-side map layer (marker reconciliation, map-health state
machine, selection handling) is not part of this model.

## Model

| member | source | states |
|---|---|---|
| Validation.Validate | backend_test.py:127-177 | A payload that is not a list returns false. An empty list returns true. A missing-fields rejection lists exactly the required fields that the first record lacks, and that list is non-empty. |
| Validation.MissingFields | backend_test.py:139-147 | The reported fields are exactly the required fields absent from the sample record. The list is empty exactly when the record has all ten. |
| Validation.Offending | backend_test.py:150-161 | Fails with `KeyError(f)` exactly when some record lacks `f`. Otherwise the result holds exactly the values under `f` that are outside the allowed list. It is no longer than the input. |
| Validation.ValidateAcceptsExactly | backend_test.py:130-161 | The validator returns true exactly when the payload is a list that is empty, or whose first record has all ten fields and whose records all have a valid category and a valid severity. |
| Validation.ValidateRaisesExactly | backend_test.py:142-161 | For a list whose first record has all ten required fields, `KeyError(key)` is raised in exactly two cases. Case 1: some record lacks `disaster_type` (key `disaster_type`). Case 2: every record has a valid `disaster_type` and some record lacks `severity` (key `severity`). No other payload raises: a non-list, an empty list or a first record missing a field never does. |
| Validation.InvalidTypeRejects | backend_test.py:149-154 | Assume the first record has all ten required fields and every record has a `disaster_type`. Then one record with a category outside the five makes the validator return false. The rejection names exactly the offending categories. |
| Validation.InvalidSeverityRejects | backend_test.py:156-161 | Assume the first record has all ten required fields, every record has a valid category, and every record has a `severity`. Then one record with a severity outside the four makes the validator return false. The rejection names exactly the offending severities. |
| Validation.AcceptedIsTally | backend_test.py:163-177 | A well-formed list is accepted, and the two summaries are the tallies of its records by category and by severity. For the empty list, which returns before counting, both are empty. |
| Validation.AcceptedTypeSummary | backend_test.py:163-177 | On a well-formed list the validator returns true. The category counts add up to the number of records, use only the five categories, and hold for each category the number of records carrying it. |
| Validation.AcceptedSeveritySummary | backend_test.py:163-177 | On a well-formed list the validator returns true. The severity counts add up to the number of records, use only the four severities, and hold for each severity the number of records carrying it. |
| Counting.Tally | backend_test.py:166-172 | The dictionary built by the counting loop has a key exactly for each value that occurs. Each entry equals the number of records with that value, and it is positive. |
| Counting.TallyAddsUp | backend_test.py:166-172 | When all values come from a list of distinct keys, the dictionary uses only those keys and its entries sum to the number of records. |
| Counters.RunTest | backend_test.py:40-94 | One test adds exactly one to `tests_run`. It adds one to `tests_passed` exactly when the test uses one of the four known methods and the request was answered with the expected status. A failed request or an unknown method leaves `tests_passed` unchanged. `tests_passed <= tests_run` is preserved. |
| Counters.VerbOf | backend_test.py:52-59 | Exactly the four names `GET`, `POST`, `PUT` and `DELETE` select a request method, each its own. Every other name selects no request and is kept as given. |
| Counters.NamedTestPasses | backend_test.py:52-65 | A test given by its method name passes exactly when the name is `GET`, `POST`, `PUT` or `DELETE` and the expected status came back. |
| Counters.RunAllCounts | backend_test.py:35-65 | A sequence of tests adds its length to `tests_run` and its number of passing tests to `tests_passed`. It keeps `tests_passed <= tests_run`. |
| Counters.FinalReport | backend_test.py:247-256 | All-passed exactly when the two counters are equal. Otherwise the failure count is `tests_run - tests_passed`, which is positive whenever the invariant holds. |
| Counters.ExitCode | backend_test.py:250-256 | The exit code is 0 or 1, and it is 0 exactly when `tests_passed == tests_run`. |
| Counters.ExitZeroIffAllPass | backend_test.py:247-256 | Starting from fresh counters, the value `main` returns at its final summary is 0 exactly when every one of the tests run passed. Otherwise the reported failure count is the number of failing tests, and it is positive. |

## Left out

- HTTP traffic (the session, URL building, timeouts, connection errors): a test's response is an input, either a status code or `RequestFailed`.
- All printed output, including the offending-value sets and the summary dictionaries. Printing has no effect on results. The model returns the summaries in the verdict instead.
- JSON decoding of responses: the payload is an input value. A list element is always a string-keyed object whose values are strings. Lists that contain non-objects are not modelled. Nor are values of other JSON types, such as an unhashable category that would make the `set(...)` in the message raise.
- The fixed sequence of endpoint calls in `main`, including its early exit with code 1 when the root endpoint or the mock-data initialisation fails. Their outcome depends on a live server.
- A `KeyError` from the validator inside `main` (`backend_test.py:194` and `:205`) is not caught. It ends the process with status 1 whatever the counters say, so the final summary is never reached. The model yields that case as the `KeyError` verdict, but it does not link it to the exit status.
- The validator's boolean result is only printed by `main`. It never reaches the counters or the exit code, and the model keeps the two parts separate for that reason.
- The module-level prints after the `__main__` guard. Run as a script, they never execute, because `sys.exit` ends the process first. On import, the second of them raises `NameError`, because no module-level `tester` exists.
- The indentation of the docstrings of `run_test` and `validate_disaster_structure` (`backend_test.py:42` and `:128`). As written, they are indented deeper than the statements that follow them. Python rejects such a file with an `IndentationError` before any of it runs. The model follows the evidently intended layout, with each docstring as the first statement of its function body.
