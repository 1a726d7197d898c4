/** The request validator: the checks a query's parameters must pass before the
    database is asked anything, with the errors they report. */
module Validator {
  import opened Wrappers
  import opened Seqs
  import opened Strings
  import opened Config

  /** The two timestamp fields, which share one validator. */
  datatype Field = StartDate | EndDate

  function FieldName(f: Field): string
  {
    match f
    case StartDate => "start_date"
    case EndDate => "end_date"
  }

  /** One `ValueError` raised by a validator. */
  datatype ValidationError =
    | TooManyEntities(max: nat)
    | DuplicateEntities
    | InvalidEntityId(entity: string)
    | InvalidTimestampFormat(field: Field, value: string)
    | DatesOutOfOrder

  /** The text each `ValueError` carries. */
  function Message(e: ValidationError): string
  {
    match e
    case TooManyEntities(max) => "Too many entity IDs (max " + IntToString(max) + ")"
    case DuplicateEntities => "Entity IDs must be unique (no duplicates)"
    case InvalidEntityId(entity) => "Invalid entity ID: " + entity
    case InvalidTimestampFormat(field, value) => "Invalid " + FieldName(field) + " format: " + value
    // One message, written as two literals so that proofs about its first
    // characters need not unfold the whole text.
    case DatesOutOfOrder => "start_date must be earlier " + "than or equal to end_date"
  }

  /** The fields of a validated request. */
  datatype Params = Params(
    entities: seq<string>,
    startDate: string,
    endDate: string,
    noBots: bool,
    onlyUnpatrolled: bool,
    excludeUsers: seq<string>)

  /** What the entity checks demand, stated without their order. */
  predicate EntitiesAcceptable(cfg: Settings, v: seq<string>)
  {
    && |v| <= cfg.maxEntityCount
    && Distinct(v)
    && forall i :: 0 <= i < |v| ==> EntityPattern(cfg.entityPrefixes, v[i])
  }

  /** The position of the first entity that does not match the pattern, if any. */
  function FirstInvalidEntity(cfg: Settings, v: seq<string>): (r: Option<nat>)
    ensures r.None? <==> forall i :: 0 <= i < |v| ==> EntityPattern(cfg.entityPrefixes, v[i])
    ensures r.Some? ==> r.value < |v| && !EntityPattern(cfg.entityPrefixes, v[r.value])
    ensures r.Some? ==> forall i :: 0 <= i < r.value ==> EntityPattern(cfg.entityPrefixes, v[i])
  {
    if |v| == 0 then None
    else if !EntityPattern(cfg.entityPrefixes, v[0]) then Some(0)
    else
      match FirstInvalidEntity(cfg, v[1..])
      case None => None
      case Some(j) => Some(j + 1)
  }

  /** `validate_entities`: the count, then uniqueness, then each id in turn; the
      first check that fails is the error. */
  function ValidateEntities(cfg: Settings, v: seq<string>): (r: Result<seq<string>, ValidationError>)
    ensures r.Success? <==> EntitiesAcceptable(cfg, v)
    ensures r.Success? ==> r.value == v
    ensures |v| > cfg.maxEntityCount ==> r == Failure(TooManyEntities(cfg.maxEntityCount))
    ensures r.Failure? && r.error.TooManyEntities? ==> |v| > cfg.maxEntityCount
    ensures r == Failure(DuplicateEntities) <==> |v| <= cfg.maxEntityCount && !Distinct(v)
    ensures r.Failure? && r.error.InvalidEntityId? ==>
      |v| <= cfg.maxEntityCount && Distinct(v)
      && (exists i :: 0 <= i < |v| && v[i] == r.error.entity && !EntityPattern(cfg.entityPrefixes, v[i])
            && forall j :: 0 <= j < i ==> EntityPattern(cfg.entityPrefixes, v[j]))
    ensures r.Failure? ==> r.error.TooManyEntities? || r.error.DuplicateEntities? || r.error.InvalidEntityId?
  {
    ElementsCardinality(v);
    if |v| > cfg.maxEntityCount then Failure(TooManyEntities(cfg.maxEntityCount))
    else if |v| != |Elements(v)| then Failure(DuplicateEntities)
    else
      match FirstInvalidEntity(cfg, v)
      case Some(i) => Failure(InvalidEntityId(v[i]))
      case None => Success(v)
  }

  /** `validate_timestamp_format`, which both date fields share. */
  function ValidateTimestampFormat(cfg: Settings, field: Field, v: string): (r: Result<string, ValidationError>)
    ensures r.Success? <==> |v| == cfg.timestampWidth && AllDigits(v)
    ensures r.Success? ==> r.value == v
    ensures r.Failure? ==> r.error == InvalidTimestampFormat(field, v)
  {
    if DigitsPattern(cfg.timestampWidth, v) then Success(v) else Failure(InvalidTimestampFormat(field, v))
  }

  /** `check_dates_order`: an empty date disables the check, otherwise the start
      must not come after the end in string order. */
  function CheckDatesOrder(p: Params): (r: Result<Params, ValidationError>)
    ensures r.Success? <==> p.startDate == "" || p.endDate == "" || !Less(p.endDate, p.startDate)
    ensures r.Success? ==> r.value == p
    ensures r.Failure? ==> r.error == DatesOutOfOrder
  {
    if p.startDate != "" && p.endDate != "" && Less(p.endDate, p.startDate) then Failure(DatesOutOfOrder)
    else Success(p)
  }

  /** The error a validator raised, if any, as a list. */
  function ErrorsOf<T>(r: Result<T, ValidationError>): (errs: seq<ValidationError>)
    ensures r.Success? ==> errs == []
    ensures r.Failure? ==> |errs| == 1 && errs[0] == r.error
  {
    if r.Failure? then [r.error] else []
  }

  /** Which validator raised an error, in the order they run. */
  function Stage(e: ValidationError): nat
  {
    match e
    case TooManyEntities(_) => 0
    case DuplicateEntities => 0
    case InvalidEntityId(_) => 0
    case InvalidTimestampFormat(StartDate, _) => 1
    case InvalidTimestampFormat(EndDate, _) => 2
    case DatesOutOfOrder => 3
  }

  /** The field validators' errors, collected in field order. */
  function FieldErrors(cfg: Settings, entities: seq<string>, startDate: string, endDate: string): (errs: seq<ValidationError>)
    ensures |errs| <= 3
    ensures forall i :: 0 <= i < |errs| ==> Stage(errs[i]) < 3
    ensures errs == [] <==>
      EntitiesAcceptable(cfg, entities) && DigitsPattern(cfg.timestampWidth, startDate) && DigitsPattern(cfg.timestampWidth, endDate)
  {
    var a := ErrorsOf(ValidateEntities(cfg, entities));
    var b := ErrorsOf(ValidateTimestampFormat(cfg, StartDate, startDate));
    var c := ErrorsOf(ValidateTimestampFormat(cfg, EndDate, endDate));
    assert forall i :: 0 <= i < |a| ==> Stage(a[i]) == 0;
    a + b + c
  }

  /** The field errors come in field order, an entity error first exactly when
      the entities are not acceptable. */
  lemma FieldErrorsInOrder(cfg: Settings, entities: seq<string>, startDate: string, endDate: string)
    ensures var errs := FieldErrors(cfg, entities, startDate, endDate);
      && (forall i, j :: 0 <= i < j < |errs| ==> Stage(errs[i]) < Stage(errs[j]))
      && (errs != [] && Stage(errs[0]) == 0 <==> !EntitiesAcceptable(cfg, entities))
  {
    var a := ErrorsOf(ValidateEntities(cfg, entities));
    assert forall i :: 0 <= i < |a| ==> Stage(a[i]) == 0;
  }

  /** A date's format error is among the field errors exactly when that date is
      not a timestamp. */
  lemma FieldErrorsFormats(cfg: Settings, entities: seq<string>, startDate: string, endDate: string)
    ensures var errs := FieldErrors(cfg, entities, startDate, endDate);
      && (InvalidTimestampFormat(StartDate, startDate) in errs <==> !DigitsPattern(cfg.timestampWidth, startDate))
      && (InvalidTimestampFormat(EndDate, endDate) in errs <==> !DigitsPattern(cfg.timestampWidth, endDate))
  {
    var a := ErrorsOf(ValidateEntities(cfg, entities));
    assert forall i :: 0 <= i < |a| ==> Stage(a[i]) == 0;
  }

  /** Building the model: every field validator runs and their errors are
      collected in field order; the model validator runs only when none failed.
      A validated request carries exactly the values it was built from; a rejected
      one reports at most one error per validator, in the order they run. */
  function Validate(
    cfg: Settings,
    entities: seq<string>,
    startDate: string,
    endDate: string,
    noBots: bool := false,
    onlyUnpatrolled: bool := false,
    excludeUsers: seq<string> := []): (r: Result<Params, seq<ValidationError>>)
    ensures r.Success? ==> r.value == Params(entities, startDate, endDate, noBots, onlyUnpatrolled, excludeUsers)
    ensures r.Failure? ==> 0 < |r.error| <= 3
  {
    var errors := FieldErrors(cfg, entities, startDate, endDate);
    if errors != [] then Failure(errors)
    else
      match CheckDatesOrder(Params(entities, startDate, endDate, noBots, onlyUnpatrolled, excludeUsers))
      case Success(p) => Success(p)
      case Failure(e) => Failure([e])
  }

  /** A rejected request reports its errors in the order the validators run,
      and the dates are compared only when every field validator passed. */
  lemma ValidateErrorOrder(
    cfg: Settings, entities: seq<string>, startDate: string, endDate: string,
    noBots: bool, onlyUnpatrolled: bool, excludeUsers: seq<string>)
    ensures var r := Validate(cfg, entities, startDate, endDate, noBots, onlyUnpatrolled, excludeUsers);
      && (r.Failure? ==> forall i, j :: 0 <= i < j < |r.error| ==> Stage(r.error[i]) < Stage(r.error[j]))
      && (r.Failure? ==> (DatesOutOfOrder in r.error <==> |r.error| == 1 && r.error[0] == DatesOutOfOrder))
  {
    var errors := FieldErrors(cfg, entities, startDate, endDate);
    var r := Validate(cfg, entities, startDate, endDate, noBots, onlyUnpatrolled, excludeUsers);
    FieldErrorsInOrder(cfg, entities, startDate, endDate);
    if errors != [] {
      assert r.error == errors;
      assert DatesOutOfOrder !in errors by {
        assert Stage(DatesOutOfOrder) == 3;
      }
    } else {
      assert r.Failure? ==> |r.error| == 1 && r.error[0] == DatesOutOfOrder;
    }
  }

  /** A rejected request's first error is about the entities exactly when the entities are not acceptable. */
  lemma ValidateEntityErrorCause(
    cfg: Settings, entities: seq<string>, startDate: string, endDate: string,
    noBots: bool, onlyUnpatrolled: bool, excludeUsers: seq<string>)
    ensures var r := Validate(cfg, entities, startDate, endDate, noBots, onlyUnpatrolled, excludeUsers);
      r.Failure? ==> (Stage(r.error[0]) == 0 <==> !EntitiesAcceptable(cfg, entities))
  {
    var errors := FieldErrors(cfg, entities, startDate, endDate);
    var r := Validate(cfg, entities, startDate, endDate, noBots, onlyUnpatrolled, excludeUsers);
    FieldErrorsInOrder(cfg, entities, startDate, endDate);
    if errors == [] {
      assert r.Failure? ==> |r.error| == 1 && r.error[0] == DatesOutOfOrder;
    } else {
      assert r == Failure(errors);
    }
  }

  /** A rejected request reports a date's format error exactly when that date is not a timestamp. */
  lemma ValidateFormatErrorCauses(
    cfg: Settings, entities: seq<string>, startDate: string, endDate: string,
    noBots: bool, onlyUnpatrolled: bool, excludeUsers: seq<string>)
    ensures var r := Validate(cfg, entities, startDate, endDate, noBots, onlyUnpatrolled, excludeUsers);
      && (r.Failure? ==>
        (InvalidTimestampFormat(StartDate, startDate) in r.error <==> !DigitsPattern(cfg.timestampWidth, startDate)))
      && (r.Failure? ==>
        (InvalidTimestampFormat(EndDate, endDate) in r.error <==> !DigitsPattern(cfg.timestampWidth, endDate)))
  {
    var errors := FieldErrors(cfg, entities, startDate, endDate);
    var r := Validate(cfg, entities, startDate, endDate, noBots, onlyUnpatrolled, excludeUsers);
    FieldErrorsFormats(cfg, entities, startDate, endDate);
    if errors == [] {
      assert r.Failure? ==> |r.error| == 1 && r.error[0] == DatesOutOfOrder;
    } else {
      assert r.error == errors;
    }
  }

  /** A request is accepted exactly when its entities are acceptable, both dates
      are timestamps and the number the start date spells is not greater than the end date's. */
  lemma ValidateAcceptsExactly(
    cfg: Settings, entities: seq<string>, startDate: string, endDate: string,
    noBots: bool, onlyUnpatrolled: bool, excludeUsers: seq<string>)
    ensures Validate(cfg, entities, startDate, endDate, noBots, onlyUnpatrolled, excludeUsers).Success?
      <==> && EntitiesAcceptable(cfg, entities)
           && DigitsPattern(cfg.timestampWidth, startDate)
           && DigitsPattern(cfg.timestampWidth, endDate)
           && DigitsValue(startDate) <= DigitsValue(endDate)
  {
    if DigitsPattern(cfg.timestampWidth, startDate) && DigitsPattern(cfg.timestampWidth, endDate) {
      FixedWidthComparisons(cfg.timestampWidth, startDate, endDate);
    }
  }

  /** The first, ninth and eleventh characters of a message tell its kind. */
  function Signature(m: string): (char, char, char)
  {
    if |m| > 10 then (m[0], m[8], m[10]) else (' ', ' ', ' ')
  }

  lemma SignatureOfConcat(p: string, x: string)
    requires |p| > 10
    ensures Signature(p + x) == Signature(p)
  {
  }

  lemma TooManySignature(max: nat)
    ensures Signature(Message(TooManyEntities(max))) == ('T', ' ', 'n')
  {
    SignatureOfConcat("Too many entity IDs (max ", IntToString(max));
    SignatureOfConcat("Too many entity IDs (max " + IntToString(max), ")");
  }

  lemma DuplicatesSignature()
    ensures Signature(Message(DuplicateEntities)) == ('E', 'D', ' ')
  {
    var m := Message(DuplicateEntities);
    assert m[0] == 'E' && m[8] == 'D' && m[10] == ' ';
  }

  lemma InvalidEntitySignature(x: string)
    ensures Signature(Message(InvalidEntityId(x))) == ('I', 'e', 't')
  {
    SignatureOfConcat("Invalid entity ID: ", x);
  }

  lemma InvalidTimestampSignature(f: Field, x: string)
    ensures Signature(Message(InvalidTimestampFormat(f, x))) == if f == StartDate then ('I', 's', 'a') else ('I', 'e', 'd')
  {
    SignatureOfConcat("Invalid " + FieldName(f), " format: ");
    SignatureOfConcat("Invalid " + FieldName(f) + " format: ", x);
  }

  lemma DatesSignature()
    ensures Signature(Message(DatesOutOfOrder)) == ('s', 't', ' ')
  {
    SignatureOfConcat("start_date must be earlier ", "than or equal to end_date");
  }

  lemma MessageSignature(e: ValidationError)
    ensures Signature(Message(e)) == match e
      case TooManyEntities(_) => ('T', ' ', 'n')
      case DuplicateEntities => ('E', 'D', ' ')
      case InvalidEntityId(_) => ('I', 'e', 't')
      case InvalidTimestampFormat(StartDate, _) => ('I', 's', 'a')
      case InvalidTimestampFormat(EndDate, _) => ('I', 'e', 'd')
      case DatesOutOfOrder => ('s', 't', ' ')
  {
    match e
    case TooManyEntities(max) => TooManySignature(max);
    case DuplicateEntities => DuplicatesSignature();
    case InvalidEntityId(x) => InvalidEntitySignature(x);
    case InvalidTimestampFormat(f, x) => InvalidTimestampSignature(f, x);
    case DatesOutOfOrder => DatesSignature();
  }

  lemma PrefixCancels(p: string, x: string, y: string)
    requires p + x == p + y
    ensures x == y
  {
    assert x == (p + x)[|p|..];
  }

  /** Every error has its own message: the text names the failing check and its value. */
  lemma MessagesIdentifyErrors(e1: ValidationError, e2: ValidationError)
    ensures Message(e1) == Message(e2) <==> e1 == e2
  {
    if Message(e1) == Message(e2) {
      MessageSignature(e1);
      MessageSignature(e2);
      match e1
      case TooManyEntities(m) =>
        var n := e2.max;
        var p := "Too many entity IDs (max ";
        assert p + IntToString(m) + ")" == p + (IntToString(m) + ")");
        assert p + IntToString(n) + ")" == p + (IntToString(n) + ")");
        PrefixCancels(p, IntToString(m) + ")", IntToString(n) + ")");
        assert IntToString(m) == (IntToString(m) + ")")[..|IntToString(m) + ")"| - 1];
        assert IntToString(n) == (IntToString(n) + ")")[..|IntToString(n) + ")"| - 1];
        IntToStringInjective(m, n);
      case InvalidEntityId(x) =>
        PrefixCancels("Invalid entity ID: ", x, e2.entity);
      case InvalidTimestampFormat(f, x) =>
        assert f == e2.field;
        PrefixCancels("Invalid " + FieldName(f) + " format: ", x, e2.value);
      case _ =>
    }
  }

  /** A request whose two dates are the same timestamp is not rejected for its dates. */
  lemma EqualDatesAccepted(
    cfg: Settings, entities: seq<string>, d: string,
    noBots: bool, onlyUnpatrolled: bool, excludeUsers: seq<string>)
    requires EntitiesAcceptable(cfg, entities) && DigitsPattern(cfg.timestampWidth, d)
    ensures Validate(cfg, entities, d, d, noBots, onlyUnpatrolled, excludeUsers)
      == Success(Params(entities, d, d, noBots, onlyUnpatrolled, excludeUsers))
  {
    LessIrreflexive(d);
  }

  /** There is no lower bound on the number of entities. */
  lemma NoEntitiesAccepted(cfg: Settings)
    ensures ValidateEntities(cfg, []) == Success([])
  {
  }

  /** Settings as the validator's tests patch them: at most three entities, items
      only, eight-digit dates. */
  const TEST_SETTINGS: Settings := Settings(3, {'Q'}, 8)

  lemma AcceptsValidInput()
    ensures Validate(TEST_SETTINGS, ["Q1", "Q2"], "20230101", "20231231", noBots := true)
      == Success(Params(["Q1", "Q2"], "20230101", "20231231", true, false, []))
  {
    TwoItemsAcceptable();
    ExampleDatesInOrder();
  }

  lemma TwoItemsAcceptable()
    ensures EntitiesAcceptable(TEST_SETTINGS, ["Q1", "Q2"])
  {
    var v := ["Q1", "Q2"];
    assert EntityPattern({'Q'}, v[0]) && EntityPattern({'Q'}, v[1]);
  }

  lemma ExampleDatesInOrder()
    ensures DigitsPattern(8, "20230101") && DigitsPattern(8, "20231231")
    ensures !Less("20231231", "20230101")
  {
    var s, e := "20230101", "20231231";
    assert AllDigits(s) by {
      forall i | 0 <= i < |s| ensures IsDigit(s[i]) {}
    }
    assert AllDigits(e) by {
      forall i | 0 <= i < |e| ensures IsDigit(e[i]) {}
    }
    ExampleEndNotBeforeStart();
  }

  lemma ExampleEndNotBeforeStart()
    ensures !Less("20231231", "20230101")
  {
    var s, e := "20230101", "20231231";
    assert e[1..] == "0231231" && s[1..] == "0230101";
    assert e[2..] == "231231" && s[2..] == "230101";
    assert e[3..] == "31231" && s[3..] == "30101";
    assert e[4..] == "1231" && s[4..] == "0101";
  }

  lemma RejectsDuplicates()
    ensures Validate(TEST_SETTINGS, ["Q1", "Q1"], "20230101", "20231231", noBots := true)
      == Failure([DuplicateEntities])
  {
    var v, s, e := ["Q1", "Q1"], "20230101", "20231231";
    assert !Distinct(v) by {
      assert v[0] == v[1];
    }
    assert ValidateEntities(TEST_SETTINGS, v) == Failure(DuplicateEntities);
    assert ValidateTimestampFormat(TEST_SETTINGS, StartDate, s) == Success(s);
    assert ValidateTimestampFormat(TEST_SETTINGS, EndDate, e) == Success(e);
    assert ErrorsOf(ValidateEntities(TEST_SETTINGS, v)) == [DuplicateEntities];
    assert [DuplicateEntities] + [] + [] == [DuplicateEntities];
    assert Validate(TEST_SETTINGS, v, s, e, true) == Failure([DuplicateEntities]);
  }

  lemma RejectsTooManyEntities()
    ensures Validate(TEST_SETTINGS, ["Q1", "Q2", "Q3", "Q4"], "20230101", "20231231")
      == Failure([TooManyEntities(3)])
  {
    var s, e := "20230101", "20231231";
    assert ValidateTimestampFormat(TEST_SETTINGS, StartDate, s) == Success(s);
    assert ValidateTimestampFormat(TEST_SETTINGS, EndDate, e) == Success(e);
    var v := ["Q1", "Q2", "Q3", "Q4"];
    assert ErrorsOf(ValidateEntities(TEST_SETTINGS, v)) == [TooManyEntities(3)];
    assert [TooManyEntities(3)] + [] + [] == [TooManyEntities(3)];
    assert Validate(TEST_SETTINGS, v, s, e) == Failure([TooManyEntities(3)]);
  }

  lemma RejectsInvalidEntityId()
    ensures Validate(TEST_SETTINGS, ["Q1", "X2"], "20230101", "20231231")
      == Failure([InvalidEntityId("X2")])
  {
    var v, s, e := ["Q1", "X2"], "20230101", "20231231";
    assert Distinct(v) by {
      assert v[0] != v[1];
    }
    assert EntityPattern({'Q'}, v[0]) && !EntityPattern({'Q'}, v[1]);
    assert FirstInvalidEntity(TEST_SETTINGS, v) == Some(1);
    assert ValidateEntities(TEST_SETTINGS, v) == Failure(InvalidEntityId(v[1]));
    assert ValidateTimestampFormat(TEST_SETTINGS, StartDate, s) == Success(s);
    assert ValidateTimestampFormat(TEST_SETTINGS, EndDate, e) == Success(e);
    assert ErrorsOf(ValidateEntities(TEST_SETTINGS, v)) == [InvalidEntityId(v[1])];
    assert [InvalidEntityId(v[1])] + [] + [] == [InvalidEntityId(v[1])];
    assert Validate(TEST_SETTINGS, v, s, e) == Failure([InvalidEntityId(v[1])]);
  }

  lemma RejectsInvalidStartDate()
    ensures Validate(TEST_SETTINGS, ["Q1"], "2023-01-01", "20231231")
      == Failure([InvalidTimestampFormat(StartDate, "2023-01-01")])
  {
    var v, s, e := ["Q1"], "2023-01-01", "20231231";
    assert EntitiesAcceptable(TEST_SETTINGS, v) by {
      assert EntityPattern({'Q'}, v[0]);
    }
    assert !IsDigit(s[4]);
    assert ValidateTimestampFormat(TEST_SETTINGS, StartDate, s) == Failure(InvalidTimestampFormat(StartDate, s));
    assert ValidateTimestampFormat(TEST_SETTINGS, EndDate, e) == Success(e);
    var x := InvalidTimestampFormat(StartDate, s);
    assert ErrorsOf(ValidateTimestampFormat(TEST_SETTINGS, StartDate, s)) == [x];
    assert [] + [x] + [] == [x];
    assert Validate(TEST_SETTINGS, v, s, e) == Failure([x]);
  }

  lemma RejectsInvalidEndDate()
    ensures Validate(TEST_SETTINGS, ["Q1"], "20230101", "2023-12-31")
      == Failure([InvalidTimestampFormat(EndDate, "2023-12-31")])
  {
    var v, s, e := ["Q1"], "20230101", "2023-12-31";
    assert EntitiesAcceptable(TEST_SETTINGS, v) by {
      assert EntityPattern({'Q'}, v[0]);
    }
    assert !IsDigit(e[4]);
    assert ValidateTimestampFormat(TEST_SETTINGS, StartDate, s) == Success(s);
    assert ValidateTimestampFormat(TEST_SETTINGS, EndDate, e) == Failure(InvalidTimestampFormat(EndDate, e));
    var x := InvalidTimestampFormat(EndDate, e);
    assert ErrorsOf(ValidateTimestampFormat(TEST_SETTINGS, EndDate, e)) == [x];
    assert [] + [] + [x] == [x];
    assert Validate(TEST_SETTINGS, v, s, e) == Failure([x]);
  }

  lemma RejectsStartAfterEnd()
    ensures Validate(TEST_SETTINGS, ["Q1"], "20231231", "20230101") == Failure([DatesOutOfOrder])
  {
    var v, s, e := ["Q1"], "20231231", "20230101";
    assert EntitiesAcceptable(TEST_SETTINGS, v) by {
      assert EntityPattern({'Q'}, v[0]);
    }
    assert ValidateTimestampFormat(TEST_SETTINGS, StartDate, s) == Success(s);
    assert ValidateTimestampFormat(TEST_SETTINGS, EndDate, e) == Success(e);
    assert Less(e, s) by {
      assert Less(e, s) == Less(e[4..], s[4..]);
    }
    assert CheckDatesOrder(Params(v, s, e, false, false, [])) == Failure(DatesOutOfOrder);
  }

  lemma AcceptsEqualDates()
    ensures Validate(TEST_SETTINGS, ["Q1"], "20230101", "20230101")
      == Success(Params(["Q1"], "20230101", "20230101", false, false, []))
  {
    var v := ["Q1"];
    assert EntitiesAcceptable(TEST_SETTINGS, v) by {
      assert EntityPattern({'Q'}, v[0]);
    }
    EqualDatesAccepted(TEST_SETTINGS, v, "20230101", false, false, []);
  }
}
