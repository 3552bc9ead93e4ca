/**
 * CollectionValidation and CollectionOptions of the X DevAPI: objects whose `set` takes a list
 * of option and value pairs, refuses repeated options, and rolls back when it throws.
 */
module CollectionOptionsModel {
  import opened Common

  datatype DbDoc = NullDoc | Doc(json: string)
  datatype Level = OFF | STRICT

  /** The enumerators of both Option enums; each enum has its own LAST. */
  datatype OptionName = REUSE | VALIDATION | OPTIONS_LAST | SCHEMA | LEVEL | VALIDATION_LAST

  datatype ValidationData = ValidationData(level: string, schema: DbDoc, usedLevel: bool, usedSchema: bool)

  datatype OptionsData =
    OptionsData(validation: ValidationData, usedReuse: bool, usedValidation: bool, reuse: bool)

  /** An argument, tagged with the C++ type that selects the do_set specialisation. */
  datatype Value =
    | Bool(b: bool)
    | Validation(v: ValidationData)
    | Document(doc: DbDoc)
    | CString(text: string)
    | StdString(text: string)
    | LevelValue(lev: Level)
    | OtherType

  datatype Item = Item(opt: OptionName, value: Value)

  datatype Error = InvalidOption | InvalidType | SchemaSet | LevelSet | ReuseSet | ValidationSet

  /** The data when control leaves, and the exception it leaves with, if any. */
  datatype Outcome<D> = Outcome(data: D, error: Option<Error>)

  const NO_VALIDATION := ValidationData("", NullDoc, false, false)
  const NO_OPTIONS := OptionsData(NO_VALIDATION, false, false, false)

  function LevelName(l: Level): string { if l.OFF? then "OFF" else "STRICT" }

  /** Whether some do_set specialisation accepts this type for this option. */
  predicate WellTyped(it: Item) {
    match it.opt
    case REUSE => it.value.Bool?
    case VALIDATION => it.value.Validation?
    case SCHEMA => it.value.Document? || it.value.CString? || it.value.StdString?
    case LEVEL => it.value.LevelValue? || it.value.StdString?
    case _ => false
  }

  function LevelOf(v: Value): string {
    match v
    case LevelValue(l) => LevelName(l)
    case StdString(s) => s
    case _ => ""
  }

  function SchemaOf(v: Value): DbDoc {
    match v
    case Document(d) => d
    case CString(s) => Doc(s)
    case StdString(s) => Doc(s)
    case _ => NullDoc
  }

  predicate ForValidation(o: OptionName) { o.SCHEMA? || o.LEVEL? || o.VALIDATION_LAST? }

  /** One option of CollectionValidation::_set. */
  function ApplyValidation(d: ValidationData, it: Item): Outcome<ValidationData> {
    if it.opt.VALIDATION_LAST? then Outcome(d, Some(InvalidOption))
    else if !WellTyped(it) then Outcome(d, Some(InvalidType))
    else if it.opt.SCHEMA? then
      if d.usedSchema then Outcome(d, Some(SchemaSet))
      else Outcome(d.(usedSchema := true, schema := SchemaOf(it.value)), None)
    else if d.usedLevel then Outcome(d, Some(LevelSet))
    else Outcome(d.(usedLevel := true, level := LevelOf(it.value)), None)
  }

  /** One option of CollectionOptions::_set. */
  function Apply(d: OptionsData, it: Item): Outcome<OptionsData> {
    if ForValidation(it.opt) then
      var o := ApplyValidation(d.validation, it);
      Outcome(d.(validation := o.data), o.error)
    else if it.opt.OPTIONS_LAST? then Outcome(d, Some(InvalidOption))
    else if !WellTyped(it) then Outcome(d, Some(InvalidType))
    else if it.opt.REUSE? then
      if d.usedReuse then Outcome(d, Some(ReuseSet))
      else Outcome(d.(usedReuse := true, reuse := it.value.b), None)
    else if d.usedValidation || d.validation.usedLevel || d.validation.usedSchema then Outcome(d, Some(ValidationSet))
    else Outcome(d.(usedValidation := true, validation := it.value.v), None)
  }

  /** `_set`: options in order, stopping where one throws and keeping what was done before it. */
  function ApplyAll(d: OptionsData, items: seq<Item>): Outcome<OptionsData>
    decreases |items|
  {
    if items == [] then Outcome(d, None)
    else
      var o := Apply(d, items[0]);
      if o.error.Some? then o else ApplyAll(o.data, items[1..])
  }

  function ApplyAllValidation(d: ValidationData, items: seq<Item>): Outcome<ValidationData>
    decreases |items|
  {
    if items == [] then Outcome(d, None)
    else
      var o := ApplyValidation(d, items[0]);
      if o.error.Some? then o else ApplyAllValidation(o.data, items[1..])
  }

  function Settle(d: OptionsData, items: seq<Item>): Outcome<OptionsData> {
    var o := ApplyAll(d, items);
    if o.error.Some? then Outcome(d, o.error) else o
  }

  // ----- Which lists are accepted -----

  function Count(items: seq<Item>, o: OptionName): nat {
    if items == [] then 0 else (if items[0].opt == o then 1 else 0) + Count(items[1..], o)
  }

  /** Validation values in the list that already carry a level, or a schema. */
  function Carried(items: seq<Item>, o: OptionName): nat {
    if items == [] then 0
    else
      var v := items[0].value;
      (if items[0].opt.VALIDATION? && v.Validation? && (if o.LEVEL? then v.v.usedLevel else v.v.usedSchema)
       then 1 else 0) + Carried(items[1..], o)
  }

  function Bit(b: bool): nat { if b then 1 else 0 }

  ghost predicate NoneBeforeValidation(items: seq<Item>) {
    forall i, j :: 0 <= i < j < |items| && items[j].opt.VALIDATION? ==> !items[i].opt.LEVEL? && !items[i].opt.SCHEMA?
  }

  ghost predicate Accepts(d: OptionsData, items: seq<Item>) {
    && (forall i :: 0 <= i < |items| ==> WellTyped(items[i]))
    && Count(items, REUSE) + Bit(d.usedReuse) <= 1
    && Count(items, VALIDATION) + Bit(d.usedValidation) <= 1
    && Count(items, LEVEL) + Carried(items, LEVEL) + Bit(d.validation.usedLevel) <= 1
    && Count(items, SCHEMA) + Carried(items, SCHEMA) + Bit(d.validation.usedSchema) <= 1
    && NoneBeforeValidation(items)
    && (Count(items, VALIDATION) > 0 ==> !d.validation.usedLevel && !d.validation.usedSchema)
  }

  lemma {:induction false} CountPositive(items: seq<Item>, o: OptionName)
    ensures Count(items, o) > 0 <==> exists i :: 0 <= i < |items| && items[i].opt == o
  {
    if items != [] {
      CountPositive(items[1..], o);
      if Count(items[1..], o) > 0 {
        var i :| 0 <= i < |items[1..]| && items[1..][i].opt == o;
        assert items[i + 1].opt == o;
      }
      if exists i :: 0 <= i < |items| && items[i].opt == o {
        var i :| 0 <= i < |items| && items[i].opt == o;
        if i > 0 { assert items[1..][i - 1].opt == o; }
      }
    }
  }

  lemma {:induction false} CarriedNeedsValidation(items: seq<Item>, o: OptionName)
    ensures Carried(items, o) <= Count(items, VALIDATION)
  {
    if items != [] { CarriedNeedsValidation(items[1..], o); }
  }

  /** `Count <= 1` says what it should: no two places of the list hold the option. */
  lemma {:induction false} AtMostOnce(items: seq<Item>, o: OptionName)
    ensures Count(items, o) <= 1 <==> forall i, j :: 0 <= i < j < |items| ==> !(items[i].opt == o && items[j].opt == o)
  {
    if items != [] {
      AtMostOnce(items[1..], o);
      CountPositive(items[1..], o);
      assert forall i :: 0 < i < |items| ==> items[i] == items[1..][i - 1];
      if forall i, j :: 0 <= i < j < |items| ==> !(items[i].opt == o && items[j].opt == o) {
        forall i, j | 0 <= i < j < |items[1..]| ensures !(items[1..][i].opt == o && items[1..][j].opt == o) {
          assert !(items[i + 1].opt == o && items[j + 1].opt == o);
        }
      } else if items[0].opt == o {
        var i, j :| 0 <= i < j < |items| && items[i].opt == o && items[j].opt == o;
        assert items[1..][j - 1].opt == o;
      } else {
        var i, j :| 0 <= i < j < |items| && items[i].opt == o && items[j].opt == o;
        assert items[1..][i - 1].opt == o && items[1..][j - 1].opt == o;
      }
    }
  }

  lemma OrderStep(items: seq<Item>)
    requires items != []
    ensures NoneBeforeValidation(items) <==>
      NoneBeforeValidation(items[1..]) &&
      ((items[0].opt.LEVEL? || items[0].opt.SCHEMA?) ==> Count(items[1..], VALIDATION) == 0)
  {
    CountPositive(items[1..], VALIDATION);
    assert forall i :: 0 < i < |items| ==> items[i] == items[1..][i - 1];
    if NoneBeforeValidation(items) {
      forall i, j | 0 <= i < j < |items[1..]| && items[1..][j].opt.VALIDATION?
        ensures !items[1..][i].opt.LEVEL? && !items[1..][i].opt.SCHEMA?
      {
        assert items[j + 1].opt.VALIDATION?;
        assert items[i + 1] == items[1..][i];
      }
    }
    if Count(items[1..], VALIDATION) > 0 {
      var j :| 0 <= j < |items[1..]| && items[1..][j].opt == VALIDATION;
      assert items[j + 1].opt.VALIDATION?;
    }
  }

  lemma AcceptsStep(d: OptionsData, items: seq<Item>)
    requires items != []
    ensures Accepts(d, items) <==> Apply(d, items[0]).error.None? && Accepts(Apply(d, items[0]).data, items[1..])
  {
    OrderStep(items);
    CarriedNeedsValidation(items[1..], LEVEL);
    CarriedNeedsValidation(items[1..], SCHEMA);
    assert (forall i :: 0 <= i < |items| ==> WellTyped(items[i])) <==>
      (WellTyped(items[0]) && forall i :: 0 <= i < |items[1..]| ==> WellTyped(items[1..][i])) by {
      assert forall i :: 0 < i < |items| ==> items[i] == items[1..][i - 1];
    }
  }

  /** `set` succeeds on a list exactly when the list meets a condition read off without running it. */
  lemma {:induction false} SucceedsExactly(d: OptionsData, items: seq<Item>)
    ensures ApplyAll(d, items).error.None? <==> Accepts(d, items)
    decreases |items|
  {
    if items != [] {
      AcceptsStep(d, items);
      if Apply(d, items[0]).error.None? { SucceedsExactly(Apply(d, items[0]).data, items[1..]); }
    }
  }

  /** On a fresh object: each option at most once, counting what VALIDATION carries, and none before it. */
  lemma FreshSucceedsExactly(items: seq<Item>)
    ensures ApplyAll(NO_OPTIONS, items).error.None? <==>
      && (forall i :: 0 <= i < |items| ==> WellTyped(items[i]))
      && Count(items, REUSE) <= 1 && Count(items, VALIDATION) <= 1
      && Count(items, LEVEL) + Carried(items, LEVEL) <= 1
      && Count(items, SCHEMA) + Carried(items, SCHEMA) <= 1
      && NoneBeforeValidation(items)
  {
    SucceedsExactly(NO_OPTIONS, items);
  }

  // ----- The final state does not depend on the order -----

  ghost predicate Has(items: seq<Item>, o: OptionName) {
    exists it :: it in items && it.opt == o
  }

  ghost predicate FlagsFinal(d: OptionsData, items: seq<Item>, f: OptionsData) {
    && f.usedReuse == (d.usedReuse || Has(items, REUSE))
    && f.usedValidation == (d.usedValidation || Has(items, VALIDATION))
    && (forall it :: it in items && it.opt.REUSE? && it.value.Bool? ==> f.reuse == it.value.b)
    && (!Has(items, REUSE) ==> f.reuse == d.reuse)
  }

  ghost predicate LevelFinal(d: ValidationData, items: seq<Item>, f: ValidationData) {
    && (forall text :: Item(LEVEL, StdString(text)) in items ==> f.usedLevel && f.level == text)
    && (Item(LEVEL, LevelValue(OFF)) in items ==> f.usedLevel && f.level == "OFF")
    && (Item(LEVEL, LevelValue(STRICT)) in items ==> f.usedLevel && f.level == "STRICT")
    && (!Has(items, LEVEL) ==>
          && (forall it :: it in items && it.opt.VALIDATION? && it.value.Validation? ==>
                f.level == it.value.v.level && f.usedLevel == it.value.v.usedLevel)
          && (!Has(items, VALIDATION) ==> f.level == d.level && f.usedLevel == d.usedLevel))
  }

  ghost predicate SchemaFinal(d: ValidationData, items: seq<Item>, f: ValidationData) {
    && (forall doc :: Item(SCHEMA, Document(doc)) in items ==> f.usedSchema && f.schema == doc)
    && (forall text :: Item(SCHEMA, CString(text)) in items ==> f.usedSchema && f.schema == Doc(text))
    && (forall text :: Item(SCHEMA, StdString(text)) in items ==> f.usedSchema && f.schema == Doc(text))
    && (!Has(items, SCHEMA) ==>
          && (forall it :: it in items && it.opt.VALIDATION? && it.value.Validation? ==>
                f.schema == it.value.v.schema && f.usedSchema == it.value.v.usedSchema)
          && (!Has(items, VALIDATION) ==> f.schema == d.schema && f.usedSchema == d.usedSchema))
  }

  /** The final state, told by which items are in the list and not by where. */
  ghost predicate FinalState(d: OptionsData, items: seq<Item>, f: OptionsData) {
    && FlagsFinal(d, items, f)
    && LevelFinal(d.validation, items, f.validation)
    && SchemaFinal(d.validation, items, f.validation)
  }

  lemma HasStep(items: seq<Item>, o: OptionName)
    requires items != []
    ensures Has(items, o) <==> items[0].opt == o || Has(items[1..], o)
  {
    assert items == [items[0]] + items[1..];
  }

  lemma ItemFacts(items: seq<Item>)
    requires items != []
    ensures forall o {:trigger Has(items, o)} {:trigger Has(items[1..], o)} ::
      Has(items, o) <==> items[0].opt == o || Has(items[1..], o)
    ensures forall o {:trigger Has(items[1..], o)} :: Has(items[1..], o) <==> Count(items[1..], o) > 0
    ensures forall it :: it in items <==> it == items[0] || it in items[1..]
  {
    forall o
      ensures Has(items, o) <==> items[0].opt == o || Has(items[1..], o)
      ensures Has(items[1..], o) <==> Count(items[1..], o) > 0
    {
      HasStep(items, o);
      HasIsCount(items[1..], o);
    }
    assert items == [items[0]] + items[1..];
  }

  lemma FlagsStep(d: OptionsData, items: seq<Item>, f: OptionsData)
    requires items != [] && Accepts(d, items)
    requires FlagsFinal(Apply(d, items[0]).data, items[1..], f)
    ensures FlagsFinal(d, items, f)
  {
    AcceptsStep(d, items);
    ItemFacts(items);
  }

  lemma LevelStep(d: OptionsData, items: seq<Item>, f: ValidationData)
    requires items != [] && Accepts(d, items)
    requires LevelFinal(Apply(d, items[0]).data.validation, items[1..], f)
    ensures LevelFinal(d.validation, items, f)
  {
    AcceptsStep(d, items);
    ItemFacts(items);
  }

  lemma SchemaStep(d: OptionsData, items: seq<Item>, f: ValidationData)
    requires items != [] && Accepts(d, items)
    requires SchemaFinal(Apply(d, items[0]).data.validation, items[1..], f)
    ensures SchemaFinal(d.validation, items, f)
  {
    AcceptsStep(d, items);
    ItemFacts(items);
  }

  lemma {:induction false} FinalStateOf(d: OptionsData, items: seq<Item>)
    requires Accepts(d, items)
    ensures FinalState(d, items, ApplyAll(d, items).data)
    decreases |items|
  {
    if items != [] {
      AcceptsStep(d, items);
      FinalStateOf(Apply(d, items[0]).data, items[1..]);
      FlagsStep(d, items, ApplyAll(d, items).data);
      LevelStep(d, items, ApplyAll(d, items).data.validation);
      SchemaStep(d, items, ApplyAll(d, items).data.validation);
    }
  }

  lemma HasIsCount(items: seq<Item>, o: OptionName)
    ensures Has(items, o) <==> Count(items, o) > 0
  {
    CountPositive(items, o);
    if Has(items, o) {
      var it :| it in items && it.opt == o;
      var i :| 0 <= i < |items| && items[i] == it;
      assert items[i].opt == o;
    }
  }

  /** Two accepted orderings of the same options leave the same data. */
  lemma OrderIndependent(d: OptionsData, a: seq<Item>, b: seq<Item>)
    requires multiset(a) == multiset(b) && Accepts(d, a) && Accepts(d, b)
    ensures ApplyAll(d, a).data == ApplyAll(d, b).data
  {
    FinalStateOf(d, a);
    FinalStateOf(d, b);
    assert forall it :: it in a <==> it in multiset(a);
    assert forall it :: it in b <==> it in multiset(b);
    assert forall o :: Has(a, o) <==> Has(b, o);
    FinalStateUnique(d, a, ApplyAll(d, a).data, ApplyAll(d, b).data);
  }

  lemma LevelUnique(d: ValidationData, items: seq<Item>, f: ValidationData, g: ValidationData)
    requires forall it :: it in items ==> WellTyped(it)
    requires LevelFinal(d, items, f) && LevelFinal(d, items, g)
    ensures f.level == g.level && f.usedLevel == g.usedLevel
  {
    if Has(items, LEVEL) {
      var it :| it in items && it.opt == LEVEL;
      match it.value {
        case StdString(text) => assert it == Item(LEVEL, StdString(text));
        case LevelValue(OFF) => assert it == Item(LEVEL, LevelValue(OFF));
        case LevelValue(STRICT) => assert it == Item(LEVEL, LevelValue(STRICT));
        case _ =>
      }
    } else if Has(items, VALIDATION) {
      var it :| it in items && it.opt == VALIDATION;
      assert it.value.Validation?;
    }
  }

  lemma SchemaUnique(d: ValidationData, items: seq<Item>, f: ValidationData, g: ValidationData)
    requires forall it :: it in items ==> WellTyped(it)
    requires SchemaFinal(d, items, f) && SchemaFinal(d, items, g)
    ensures f.schema == g.schema && f.usedSchema == g.usedSchema
  {
    if Has(items, SCHEMA) {
      var it :| it in items && it.opt == SCHEMA;
      match it.value {
        case Document(doc) => assert it == Item(SCHEMA, Document(doc));
        case CString(text) => assert it == Item(SCHEMA, CString(text));
        case StdString(text) => assert it == Item(SCHEMA, StdString(text));
        case _ =>
      }
    } else if Has(items, VALIDATION) {
      var it :| it in items && it.opt == VALIDATION;
      assert it.value.Validation?;
    }
  }

  lemma FinalStateUnique(d: OptionsData, items: seq<Item>, f: OptionsData, g: OptionsData)
    requires forall i :: 0 <= i < |items| ==> WellTyped(items[i])
    requires FinalState(d, items, f) && FinalState(d, items, g)
    ensures f == g
  {
    LevelUnique(d.validation, items, f.validation, g.validation);
    SchemaUnique(d.validation, items, f.validation, g.validation);
    if Has(items, REUSE) {
      var it :| it in items && it.opt == REUSE;
      assert it.value.Bool?;
    }
  }

  // ----- The validation object alone -----

  predicate AllForValidation(items: seq<Item>) { forall i :: 0 <= i < |items| ==> ForValidation(items[i].opt) }

  /** On lists of its own options CollectionValidation does what CollectionOptions does to its part. */
  lemma {:induction false} SameOnValidation(d: OptionsData, items: seq<Item>)
    requires AllForValidation(items)
    ensures var o := ApplyAllValidation(d.validation, items);
      ApplyAll(d, items) == Outcome(d.(validation := o.data), o.error)
    decreases |items|
  {
    if items != [] {
      var o := Apply(d, items[0]);
      if o.error.None? { SameOnValidation(o.data, items[1..]); }
    }
  }

  /** When it accepts a list, and what it then holds. */
  lemma ValidationSucceedsExactly(d: ValidationData, items: seq<Item>)
    requires AllForValidation(items)
    ensures ApplyAllValidation(d, items).error.None? <==>
      && (forall i :: 0 <= i < |items| ==> WellTyped(items[i]))
      && Count(items, LEVEL) + Bit(d.usedLevel) <= 1 && Count(items, SCHEMA) + Bit(d.usedSchema) <= 1
    ensures ApplyAllValidation(d, items).error.None? ==>
      var f := ApplyAllValidation(d, items).data; LevelFinal(d, items, f) && SchemaFinal(d, items, f)
  {
    var o := NO_OPTIONS.(validation := d);
    SameOnValidation(o, items);
    SucceedsExactly(o, items);
    NoValidationHere(items);
    if Accepts(o, items) { FinalStateOf(o, items); }
  }

  lemma NoValidationHere(items: seq<Item>)
    requires AllForValidation(items)
    ensures Count(items, VALIDATION) == 0 && Count(items, REUSE) == 0 && !Has(items, VALIDATION)
    ensures Carried(items, LEVEL) == 0 && Carried(items, SCHEMA) == 0 && NoneBeforeValidation(items)
  {
    CountPositive(items, VALIDATION);
    CountPositive(items, REUSE);
    CarriedNeedsValidation(items, LEVEL);
    CarriedNeedsValidation(items, SCHEMA);
    HasIsCount(items, VALIDATION);
  }

  // ----- Which error -----

  /** What CollectionOptions makes of one option in state m: the error, or what is stored. */
  lemma OneOption(m: OptionsData, it: Item)
    ensures var (e, f) := (Apply(m, it).error, Apply(m, it).data);
      match it.opt
      case OPTIONS_LAST => e == Some(InvalidOption) && f == m
      case VALIDATION_LAST => e == Some(InvalidOption) && f == m
      case REUSE =>
        if !it.value.Bool? then e == Some(InvalidType) && f == m
        else if m.usedReuse then e == Some(ReuseSet) && f == m
        else e == None && f == m.(usedReuse := true, reuse := it.value.b)
      case VALIDATION =>
        if !it.value.Validation? then e == Some(InvalidType) && f == m
        else if m.usedValidation || m.validation.usedLevel || m.validation.usedSchema then
          e == Some(ValidationSet) && f == m
        else e == None && f == m.(usedValidation := true, validation := it.value.v)
      case LEVEL =>
        if !it.value.LevelValue? && !it.value.StdString? then e == Some(InvalidType) && f == m
        else if m.validation.usedLevel then e == Some(LevelSet) && f == m
        else e == None && f == m.(validation := m.validation.(usedLevel := true, level :=
          if it.value == LevelValue(OFF) then "OFF" else if it.value == LevelValue(STRICT) then "STRICT"
          else it.value.text))
      case SCHEMA =>
        if !it.value.Document? && !it.value.CString? && !it.value.StdString? then e == Some(InvalidType) && f == m
        else if m.validation.usedSchema then e == Some(SchemaSet) && f == m
        else e == None && f == m.(validation := m.validation.(usedSchema := true, schema :=
          if it.value.Document? then it.value.doc else Doc(it.value.text)))
  {
  }

  /** A list that fails does so at its first refused option, with that option's error. */
  lemma {:induction false} FirstRefused(d: OptionsData, items: seq<Item>) returns (i: nat)
    requires ApplyAll(d, items).error.Some?
    ensures i < |items| && ApplyAll(d, items[..i]).error.None?
    ensures var m := ApplyAll(d, items[..i]).data;
      Apply(m, items[i]).error.Some? && ApplyAll(d, items) == Outcome(m, Apply(m, items[i]).error)
    decreases |items|
  {
    var o := Apply(d, items[0]);
    if o.error.Some? {
      i := 0;
      assert Apply(d, items[0]).data == d;
    } else {
      var k := FirstRefused(o.data, items[1..]);
      i := k + 1;
      assert items[..i][0] == items[0] && items[..i][1..] == items[1..][..k];
    }
  }

  // ----- Any sequence of calls -----

  /** The data after a sequence of `set` calls whose exceptions the caller swallows. */
  function Calls(d: OptionsData, calls: seq<seq<Item>>): OptionsData
    decreases |calls|
  {
    if calls == [] then d else Calls(Settle(d, calls[0]).data, calls[1..])
  }

  /** The options of the calls that did not throw, in order. */
  function AcceptedItems(d: OptionsData, calls: seq<seq<Item>>): seq<Item>
    decreases |calls|
  {
    if calls == [] then []
    else
      var o := Settle(d, calls[0]);
      (if o.error.None? then calls[0] else []) + AcceptedItems(o.data, calls[1..])
  }

  /** One more call: it settles on what the calls before left, and its list counts if it is accepted. */
  lemma {:induction false} OneMoreCall(d: OptionsData, calls: seq<seq<Item>>, items: seq<Item>)
    ensures Calls(d, calls + [items]) == Settle(Calls(d, calls), items).data
    ensures AcceptedItems(d, calls + [items]) == AcceptedItems(d, calls)
      + if Settle(Calls(d, calls), items).error.None? then items else []
    decreases |calls|
  {
    if calls == [] {
      assert [] + [items] == [items] && [items][1..] == [];
      assert items + [] == items && [] + items == items;
    } else {
      assert (calls + [items])[0] == calls[0] && (calls + [items])[1..] == calls[1..] + [items];
      OneMoreCall(Settle(d, calls[0]).data, calls[1..], items);
    }
  }

  lemma {:induction false} ApplyConcat(d: OptionsData, a: seq<Item>, b: seq<Item>)
    requires ApplyAll(d, a).error.None?
    ensures ApplyAll(d, a + b) == ApplyAll(ApplyAll(d, a).data, b)
    decreases |a|
  {
    if a == [] {
      assert a + b == b;
    } else {
      assert (a + b)[0] == a[0] && (a + b)[1..] == a[1..] + b;
      ApplyConcat(Apply(d, a[0]).data, a[1..], b);
    }
  }

  /** Any sequence of calls equals one successful call on the concatenation of the accepted lists. */
  lemma {:induction false} CallsAreOneFold(d: OptionsData, calls: seq<seq<Item>>)
    ensures ApplyAll(d, AcceptedItems(d, calls)) == Outcome(Calls(d, calls), None)
    decreases |calls|
  {
    if calls != [] {
      var o := Settle(d, calls[0]);
      CallsAreOneFold(o.data, calls[1..]);
      if o.error.None? {
        ApplyConcat(d, calls[0], AcceptedItems(o.data, calls[1..]));
      } else {
        assert [] + AcceptedItems(o.data, calls[1..]) == AcceptedItems(o.data, calls[1..]);
      }
    }
  }

  /** The used bits that can only be set, never cleared. */
  function UsedBits(d: OptionsData): nat { Bit(d.usedReuse) + Bit(d.usedValidation) }

  function ValidationBits(d: ValidationData): nat { Bit(d.usedLevel) + Bit(d.usedSchema) }

  lemma {:induction false} BitsGrow(d: OptionsData, items: seq<Item>)
    requires ApplyAll(d, items).error.None?
    ensures var f := ApplyAll(d, items).data;
      && UsedBits(d) <= UsedBits(f) && ValidationBits(d.validation) <= ValidationBits(f.validation)
      && (items != [] ==> UsedBits(d) + ValidationBits(d.validation) < UsedBits(f) + ValidationBits(f.validation))
    decreases |items|
  {
    if items != [] { BitsGrow(Apply(d, items[0]).data, items[1..]); }
  }

  /**
   * When an option is refused after others were accepted, `_set` alone would always leave those
   * behind; `set` reports the error and leaves nothing, whatever follows.
   */
  lemma RollbackIsNeeded(d: OptionsData, a: seq<Item>, it: Item, rest: seq<Item>)
    requires ApplyAll(d, a).error.None? && Apply(ApplyAll(d, a).data, it).error.Some?
    ensures ApplyAll(d, a + [it] + rest) == Outcome(ApplyAll(d, a).data, Apply(ApplyAll(d, a).data, it).error)
    ensures a != [] ==> ApplyAll(d, a + [it] + rest).data != d
    ensures Settle(d, a + [it] + rest) == Outcome(d, Apply(ApplyAll(d, a).data, it).error)
  {
    var m := ApplyAll(d, a).data;
    assert a + [it] + rest == a + ([it] + rest);
    ApplyConcat(d, a, [it] + rest);
    assert Apply(m, it).data == m;
    BitsGrow(d, a);
  }

  /** Such a list and its reverse: LEVEL before VALIDATION is refused, after it accepted. */
  lemma OrderDecides(l: Item, v: Item)
    requires l == Item(LEVEL, LevelValue(STRICT)) && v == Item(VALIDATION, Validation(NO_VALIDATION))
    ensures Settle(NO_OPTIONS, [l, v]) == Outcome(NO_OPTIONS, Some(ValidationSet))
    ensures ApplyAll(NO_OPTIONS, [v, l]).error.None?
    ensures ApplyAll(NO_OPTIONS, [v, l]).data.validation.level == "STRICT"
  {
    RollbackIsNeeded(NO_OPTIONS, [l], v, []);
    assert [l] + [v] + [] == [l, v];
    var d := Apply(NO_OPTIONS, v).data;
    assert ApplyAll(NO_OPTIONS, [v, l]) == ApplyAll(d, [l]) by { assert [v, l][1..] == [l]; }
    assert ApplyAll(d, [l]) == ApplyAll(Apply(d, l).data, []) by { assert [l][1..] == []; }
  }

  /**
   * VALIDATION takes a CollectionValidation and nothing else: a JSON text, which the option's
   * documentation allows too, makes every list that contains it fail, with InvalidType unless an
   * option before it is refused first.
   */
  lemma JsonTextIsRefused(d: OptionsData, items: seq<Item>, i: nat)
    requires i < |items| && items[i].opt == VALIDATION && (items[i].value.CString? || items[i].value.StdString?)
    ensures Settle(d, items).error.Some? && Settle(d, items).data == d
    ensures ApplyAll(d, items[..i]).error.None? ==> Settle(d, items).error == Some(InvalidType)
  {
    SucceedsExactly(d, items);
    assert !WellTyped(items[i]);
    if ApplyAll(d, items[..i]).error.None? {
      assert items == items[..i] + [items[i]] + items[i + 1..];
      RollbackIsNeeded(d, items[..i], items[i], items[i + 1..]);
    }
  }

  /** A single VALIDATION is accepted exactly when it is one and neither it nor its parts were set. */
  lemma ValidationAlone(d: OptionsData, v: Value)
    ensures Settle(d, [Item(VALIDATION, v)]).error.None? <==>
      v.Validation? && !d.usedValidation && !d.validation.usedLevel && !d.validation.usedSchema
  {
    assert [Item(VALIDATION, v)][1..] == [];
    assert ApplyAll(d, [Item(VALIDATION, v)]).error == Apply(d, Item(VALIDATION, v)).error;
  }

  // ----- The objects -----

  class CollectionValidation {
    var level: string
    var schema: DbDoc
    var usedLevel: bool
    var usedSchema: bool

    constructor ()
      ensures Data() == NO_VALIDATION == ValidationData("", NullDoc, false, false)
    {
      level, schema, usedLevel, usedSchema := "", NullDoc, false, false;
    }

    function Data(): ValidationData
      reads this
    {
      ValidationData(level, schema, usedLevel, usedSchema)
    }

    /** Copy assignment of the whole object. */
    method Assign(d: ValidationData)
      modifies this
      ensures Data() == d
    {
      level, schema, usedLevel, usedSchema := d.level, d.schema, d.usedLevel, d.usedSchema;
    }

    method DoSet(it: Item) returns (e: Option<Error>)
      requires ForValidation(it.opt)
      modifies this
      ensures Outcome(Data(), e) == ApplyValidation(old(Data()), it)
    {
      e := None;
      if it.opt.VALIDATION_LAST? {
        return Some(InvalidOption);
      }
      if !WellTyped(it) {
        return Some(InvalidType);
      }
      if it.opt.SCHEMA? {
        if usedSchema {
          return Some(SchemaSet);
        }
        usedSchema := true;
        schema := SchemaOf(it.value);
      } else {
        if usedLevel {
          return Some(LevelSet);
        }
        usedLevel := true;
        level := LevelOf(it.value);
      }
    }

    method SetRest(items: seq<Item>) returns (e: Option<Error>)
      requires AllForValidation(items)
      modifies this
      ensures Outcome(Data(), e) == ApplyAllValidation(old(Data()), items)
      decreases |items|
    {
      if items == [] {
        return None;
      }
      e := DoSet(items[0]);
      if e.None? {
        e := SetRest(items[1..]);
      }
    }

    /** `set`: all of the list, or nothing. */
    method Set(items: seq<Item>) returns (e: Option<Error>)
      requires AllForValidation(items)
      modifies this
      ensures e.None? <==>
        && (forall i :: 0 <= i < |items| ==> WellTyped(items[i]))
        && Count(items, LEVEL) + Bit(old(usedLevel)) <= 1 && Count(items, SCHEMA) + Bit(old(usedSchema)) <= 1
      ensures e.None? ==> LevelFinal(old(Data()), items, Data()) && SchemaFinal(old(Data()), items, Data())
      ensures e.Some? ==> Data() == old(Data())
      ensures e == ApplyAllValidation(old(Data()), items).error
      ensures e.None? ==> Data() == ApplyAllValidation(old(Data()), items).data
    {
      ValidationSucceedsExactly(Data(), items);
      var tmp := Data();
      e := SetRest(items);
      if e.Some? {
        Assign(tmp);
      }
    }
  }

  class CollectionOptions {
    const validation: CollectionValidation
    var usedReuse: bool
    var usedValidation: bool
    var reuse: bool

    constructor ()
      ensures fresh(validation) && Data() == NO_OPTIONS == OptionsData(NO_VALIDATION, false, false, false)
    {
      validation := new CollectionValidation();
      usedReuse, usedValidation, reuse := false, false, false;
    }

    function Data(): OptionsData
      reads this, validation
    {
      OptionsData(validation.Data(), usedReuse, usedValidation, reuse)
    }

    method DoSet(it: Item) returns (e: Option<Error>)
      modifies this, validation
      ensures Outcome(Data(), e) == Apply(old(Data()), it)
    {
      e := None;
      if ForValidation(it.opt) {
        e := validation.DoSet(it);
        return;
      }
      if it.opt.OPTIONS_LAST? {
        return Some(InvalidOption);
      }
      if !WellTyped(it) {
        return Some(InvalidType);
      }
      if it.opt.REUSE? {
        if usedReuse {
          return Some(ReuseSet);
        }
        usedReuse := true;
        reuse := it.value.b;
      } else {
        if usedValidation || validation.usedLevel || validation.usedSchema {
          return Some(ValidationSet);
        }
        usedValidation := true;
        validation.usedLevel := true;
        validation.usedSchema := true;
        validation.Assign(it.value.v);
      }
    }

    method SetRest(items: seq<Item>) returns (e: Option<Error>)
      modifies this, validation
      ensures Outcome(Data(), e) == ApplyAll(old(Data()), items)
      decreases |items|
    {
      if items == [] {
        return None;
      }
      e := DoSet(items[0]);
      if e.None? {
        e := SetRest(items[1..]);
      }
    }

    /** `set`: succeeds exactly on an acceptable list; otherwise nothing changes, nested data included. */
    method Set(items: seq<Item>) returns (e: Option<Error>)
      modifies this, validation
      ensures e.None? <==> Accepts(old(Data()), items)
      ensures e.None? ==> FinalState(old(Data()), items, Data())
      ensures e.Some? ==> Data() == old(Data())
      ensures Outcome(Data(), e) == Settle(old(Data()), items)
    {
      ghost var before := Data();
      var tmpValidation, tmpReuse, tmpUsedReuse, tmpUsedValidation :=
        validation.Data(), reuse, usedReuse, usedValidation;
      e := SetRest(items);
      if e.Some? {
        validation.Assign(tmpValidation);
        reuse, usedReuse, usedValidation := tmpReuse, tmpUsedReuse, tmpUsedValidation;
      }
      SucceedsExactly(before, items);
      if e.None? { FinalStateOf(before, items); }
    }
  }
}
