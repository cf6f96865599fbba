/** The disaster-structure validator of the backend integration test: decides
    whether a decoded `GET /disasters` response has the expected shape, and
    summarises the accepted list by category and severity. */
module Validation {
  import opened Wrappers
  import opened Records
  import opened Counting

  /** Why a payload was rejected (the validator prints one of these and returns false). */
  datatype Rejection =
    | NotAList
    | MissingRequired(fields: seq<Field>)
    | InvalidTypes(values: seq<string>)
    | InvalidSeverities(values: seq<string>)

  /** What one call of the validator does: return true with the two summaries,
      return false for a reason, or raise `KeyError` for a missing key. */
  datatype Verdict =
    | Valid(typeCounts: map<string, nat>, severityCounts: map<string, nat>)
    | Invalid(reason: Rejection)
    | KeyError(key: Field)

  /** The boolean the validator returns; `None` when it raises instead. */
  function Returned(v: Verdict): (b: Option<bool>)
    ensures b == Some(true) <==> v.Valid?
    ensures b == Some(false) <==> v.Invalid?
    ensures b.None? <==> v.KeyError?
  {
    match v
    case Valid(_, _) => Some(true)
    case Invalid(_) => Some(false)
    case KeyError(_) => None
  }

  /** The entries of `fields` that `r` lacks, in order. */
  function MissingAmong(fields: seq<Field>, r: Record): (missing: seq<Field>)
    ensures forall f :: f in missing <==> f in fields && f !in r
    ensures |missing| <= |fields|
  {
    if |fields| == 0 then []
    else
      var rest := MissingAmong(fields[1..], r);
      assert forall f :: f in fields <==> f == fields[0] || f in fields[1..];
      if fields[0] in r then rest else [fields[0]] + rest
  }

  /** The required fields the sample record lacks. */
  function MissingFields(r: Record): (missing: seq<Field>)
    ensures forall f :: f in missing <==> f in RequiredFields && f !in r
    ensures missing == [] <==> HasRequiredFields(r)
  {
    var missing := MissingAmong(RequiredFields, r);
    assert missing != [] ==> missing[0] in missing;
    missing
  }

  /** The record carries all ten required fields. */
  predicate HasRequiredFields(r: Record)
  {
    forall f :: f in RequiredFields ==> f in r
  }

  /** The values under `f` that are not `allowed`, in record order and with
      repetitions; fails with the key `f` at the first record that lacks it. */
  function Offending(rs: seq<Record>, f: Field, allowed: seq<string>): (r: Result<seq<string>, Field>)
    ensures r.Failure? <==> !AllHave(rs, f)
    ensures r.Failure? ==> r.error == f
    ensures r.Success? ==> |r.value| <= |rs|
    ensures r.Success? ==> forall v :: v in r.value <==> v !in allowed && Occurs(rs, f, v)
  {
    if |rs| == 0 then Success([])
    else if f !in rs[0] then Failure(f)
    else
      assert forall v :: Occurs(rs, f, v) <==> rs[0][f] == v || Occurs(rs[1..], f, v) by {
        forall v ensures Occurs(rs, f, v) ==> rs[0][f] == v || Occurs(rs[1..], f, v) {
          if Occurs(rs, f, v) {
            var i :| 0 <= i < |rs| && f in rs[i] && rs[i][f] == v;
            if i > 0 {
              assert rs[1..][i - 1] == rs[i];
            }
          }
        }
        forall v ensures Occurs(rs[1..], f, v) ==> Occurs(rs, f, v) {
          if Occurs(rs[1..], f, v) {
            var i :| 0 <= i < |rs[1..]| && f in rs[1..][i] && rs[1..][i][f] == v;
            assert rs[i + 1] == rs[1..][i];
          }
        }
      }
      assert AllHave(rs, f) <==> AllHave(rs[1..], f) by {
        if AllHave(rs[1..], f) {
          forall i | 0 <= i < |rs| ensures f in rs[i] {
            if i > 0 {
              assert rs[i] == rs[1..][i - 1];
            }
          }
        }
      }
      match Offending(rs[1..], f, allowed)
      case Failure(e) => Failure(e)
      case Success(tail) =>
        if rs[0][f] in allowed then Success(tail) else Success([rs[0][f]] + tail)
  }

  /** The validator: list check, emptiness, required fields of the first
      record, category of every record, severity of every record, summary. */
  function Validate(p: Payload): (v: Verdict)
    ensures p.NotList? ==> Returned(v) == Some(false)
    ensures p.List? && |p.records| == 0 ==> Returned(v) == Some(true)
    ensures v.Invalid? && v.reason.MissingRequired? ==>
              p.List? && |p.records| > 0 && v.reason.fields != [] &&
              forall f :: f in v.reason.fields <==> f in RequiredFields && f !in p.records[0]
  {
    match p
    case NotList => Invalid(NotAList)
    case List(rs) =>
      if |rs| == 0 then
        // returns before any summary is built
        Valid(map[], map[])
      else
        var missing := MissingFields(rs[0]);
        if missing != [] then Invalid(MissingRequired(missing))
        else
          match Offending(rs, TypeField, ValidTypes)
          case Failure(key) => KeyError(key)
          case Success(badTypes) =>
            if badTypes != [] then Invalid(InvalidTypes(badTypes))
            else
              match Offending(rs, SeverityField, ValidSeverities)
              case Failure(key) => KeyError(key)
              case Success(badSeverities) =>
                if badSeverities != [] then Invalid(InvalidSeverities(badSeverities))
                else Valid(Tally(rs, TypeField), Tally(rs, SeverityField))
  }

  /** Every record has a valid value under `f`. */
  predicate AllValid(rs: seq<Record>, f: Field, allowed: seq<string>)
  {
    forall i :: 0 <= i < |rs| ==> f in rs[i] && rs[i][f] in allowed
  }

  /** The shape the validator accepts, stated directly: a list that is empty,
      or whose first record has the ten fields and all of whose records have
      a valid category and a valid severity. */
  predicate WellFormed(p: Payload)
  {
    p.List? &&
    (|p.records| == 0 ||
     (HasRequiredFields(p.records[0]) &&
      AllValid(p.records, TypeField, ValidTypes) &&
      AllValid(p.records, SeverityField, ValidSeverities)))
  }

  /** The inputs on which the validator raises `KeyError(key)`: a later record
      lacks the category (checked first), or every category is present and
      valid but some record lacks the severity. */
  predicate Raises(p: Payload, key: Field)
  {
    p.List? && |p.records| > 0 && HasRequiredFields(p.records[0]) &&
    if !AllHave(p.records, TypeField) then key == TypeField
    else AllValid(p.records, TypeField, ValidTypes) && !AllHave(p.records, SeverityField) && key == SeverityField
  }

  /** No offending value exists exactly when all values are allowed. */
  lemma NoneOffendingIsAllValid(rs: seq<Record>, f: Field, allowed: seq<string>)
    requires Offending(rs, f, allowed).Success?
    ensures Offending(rs, f, allowed).value == [] <==> AllValid(rs, f, allowed)
  {
  }

  /** The validator returns true (a `Valid` verdict) exactly on well-formed payloads. */
  lemma ValidateAcceptsExactly(p: Payload)
    ensures Validate(p).Valid? <==> WellFormed(p)
  {
    if p.List? && |p.records| > 0 {
      var rs := p.records;
      var types := Offending(rs, TypeField, ValidTypes);
      if types.Success? {
        NoneOffendingIsAllValid(rs, TypeField, ValidTypes);
        var severities := Offending(rs, SeverityField, ValidSeverities);
        if severities.Success? {
          NoneOffendingIsAllValid(rs, SeverityField, ValidSeverities);
        }
      }
    }
  }

  /** The validator raises `KeyError(key)` exactly on the inputs `Raises` describes. */
  lemma ValidateRaisesExactly(p: Payload, key: Field)
    ensures Validate(p) == KeyError(key) <==> Raises(p, key)
  {
    if p.List? && |p.records| > 0 {
      var rs := p.records;
      var types := Offending(rs, TypeField, ValidTypes);
      if types.Success? {
        NoneOffendingIsAllValid(rs, TypeField, ValidTypes);
      }
    }
  }

  /** A category outside the five, in any record, makes the validator return
      false, provided the first record has its fields and every record has a
      category; the rejection lists exactly the offending categories. */
  lemma InvalidTypeRejects(p: Payload, i: int)
    requires p.List? && 0 <= i < |p.records|
    requires HasRequiredFields(p.records[0]) && AllHave(p.records, TypeField)
    requires p.records[i][TypeField] !in ValidTypes
    ensures Validate(p).Invalid? && Validate(p).reason.InvalidTypes?
    ensures forall t :: t in Validate(p).reason.values <==> t !in ValidTypes && Occurs(p.records, TypeField, t)
  {
  }

  /** A severity outside the four, in any record, makes the validator return
      false once the fields and all categories have passed; the rejection
      lists exactly the offending severities. */
  lemma InvalidSeverityRejects(p: Payload, i: int)
    requires p.List? && 0 <= i < |p.records|
    requires HasRequiredFields(p.records[0]) && AllValid(p.records, TypeField, ValidTypes)
    requires AllHave(p.records, SeverityField)
    requires p.records[i][SeverityField] !in ValidSeverities
    ensures Validate(p).Invalid? && Validate(p).reason.InvalidSeverities?
    ensures forall s :: s in Validate(p).reason.values <==> s !in ValidSeverities && Occurs(p.records, SeverityField, s)
  {
    NoneOffendingIsAllValid(p.records, TypeField, ValidTypes);
    assert Occurs(p.records, SeverityField, p.records[i][SeverityField]);
  }

  /** No category and no severity is listed twice. */
  lemma VocabulariesDistinct()
    ensures Distinct(ValidTypes) && Distinct(ValidSeverities)
  {
  }

  /** On a well-formed list the validator accepts, and its category summary
      counts every record once, uses only the five categories, and holds for
      each category the number of records carrying it. */
  lemma AcceptedTypeSummary(p: Payload)
    requires WellFormed(p)
    ensures Validate(p).Valid?
    ensures AllHave(p.records, TypeField)
    ensures SumOver(Validate(p).typeCounts, ValidTypes) == |p.records|
    ensures forall t :: t in Validate(p).typeCounts ==> t in ValidTypes
    ensures forall t :: CountOf(Validate(p).typeCounts, t) == Count(p.records, TypeField, t)
  {
    AcceptedIsTally(p);
    VocabulariesDistinct();
    TallyAddsUp(p.records, TypeField, ValidTypes);
  }

  /** On a well-formed list the validator accepts, and its severity summary
      counts every record once, uses only the four severities, and holds for
      each severity the number of records carrying it. */
  lemma AcceptedSeveritySummary(p: Payload)
    requires WellFormed(p)
    ensures Validate(p).Valid?
    ensures AllHave(p.records, SeverityField)
    ensures SumOver(Validate(p).severityCounts, ValidSeverities) == |p.records|
    ensures forall s :: s in Validate(p).severityCounts ==> s in ValidSeverities
    ensures forall s :: CountOf(Validate(p).severityCounts, s) == Count(p.records, SeverityField, s)
  {
    AcceptedIsTally(p);
    VocabulariesDistinct();
    TallyAddsUp(p.records, SeverityField, ValidSeverities);
  }

  /** A well-formed list is accepted with the two tallies of its records as
      summaries (for the empty list these are the empty dictionaries). */
  lemma AcceptedIsTally(p: Payload)
    requires WellFormed(p)
    ensures AllHave(p.records, TypeField) && AllHave(p.records, SeverityField)
    ensures Validate(p) == Valid(Tally(p.records, TypeField), Tally(p.records, SeverityField))
  {
    var rs := p.records;
    if |rs| > 0 {
      NoneOffendingIsAllValid(rs, TypeField, ValidTypes);
      NoneOffendingIsAllValid(rs, SeverityField, ValidSeverities);
    }
  }
}
