/** The registration form of `src/pages/Register.tsx`: the field rules of its schema,
    the record a valid submission hands to `addRecord`, and the form reset that follows. */
module Registration {
  import opened Wrappers
  import opened Records
  import opened BloodDb

  /** The schema's fields, as named in validation errors. */
  datatype Field = CpfField | NameField | AgeField | WeightField | BloodTypeField | BagsField | DateField | TypeField

  /** The form's values once parsed: `age` and `bags` through `parseInt`, `weight` through
      `parseFloat`, with `None` standing for `NaN`; `date` is `None` when missing. */
  datatype Form = Form(
    cpf: string,
    name: string,
    age: Option<int>,
    weight: Option<real>,
    bloodType: string,
    bags: Option<int>,
    date: Option<int>,
    kind: string)

  predicate CpfOk(cpf: string) { 11 <= |cpf| <= 14 }

  predicate NameOk(name: string) { |name| >= 3 }

  predicate AgeOk(age: Option<int>) { age.Some? && 16 <= age.value <= 120 }

  predicate WeightOk(weight: Option<real>) { weight.Some? && weight.value >= 50.0 }

  predicate BloodTypeOk(bloodType: string) { |bloodType| >= 1 }

  predicate BagsOk(bags: Option<int>) { bags.Some? && bags.value > 0 }

  predicate KindOk(kind: string) { kind == "donation" || kind == "reception" }

  const AllFields: set<Field> :=
    {CpfField, NameField, AgeField, WeightField, BloodTypeField, BagsField, DateField, TypeField}

  /** Whether `f` breaks the rule of `field`. */
  predicate Breaks(f: Form, field: Field)
  {
    match field
    case CpfField => !CpfOk(f.cpf)
    case NameField => !NameOk(f.name)
    case AgeField => !AgeOk(f.age)
    case WeightField => !WeightOk(f.weight)
    case BloodTypeField => !BloodTypeOk(f.bloodType)
    case BagsField => !BagsOk(f.bags)
    case DateField => f.date.None?
    case TypeField => !KindOk(f.kind)
  }

  /** The fields that break their rule. */
  function Errors(f: Form): (errs: set<Field>)
    ensures CpfField in errs <==> |f.cpf| < 11 || |f.cpf| > 14
    ensures NameField in errs <==> |f.name| < 3
    ensures AgeField in errs <==> f.age.None? || f.age.value < 16 || f.age.value > 120
    ensures WeightField in errs <==> f.weight.None? || f.weight.value < 50.0
    ensures BloodTypeField in errs <==> f.bloodType == []
    ensures BagsField in errs <==> f.bags.None? || f.bags.value < 1
    ensures DateField in errs <==> f.date.None?
    ensures TypeField in errs <==> f.kind != "donation" && f.kind != "reception"
  {
    set field | field in AllFields && Breaks(f, field)
  }

  function KindName(k: Kind): string
  {
    if k == Donation then "donation" else "reception"
  }

  /** The schema check followed by the record `onSubmit` builds: text fields and the date
      copied, the parsed numbers taken over, the kind read from its name. */
  function Validate(f: Form): (r: Result<Entry, set<Field>>)
    ensures r.Success? <==> Errors(f) == {}
    ensures r.Failure? ==> r.error == Errors(f)
    ensures r.Success? ==>
      && r.value.cpf == f.cpf && r.value.name == f.name && r.value.bloodType == f.bloodType
      && Some(r.value.date) == f.date && Some(r.value.age) == f.age
      && Some(r.value.weight) == f.weight && Some(r.value.bags) == f.bags
      && KindName(r.value.kind) == f.kind
    ensures r.Success? ==> r.value.bags > 0 && Delta(r.value) != 0
    ensures r.Success? ==> (Delta(r.value) > 0 <==> f.kind == "donation")
  {
    var errs := Errors(f);
    if errs != {} then Failure(errs)
    else
      Success(Entry(
        f.cpf, f.name, f.age.value, f.weight.value, f.bloodType, f.bags.value, f.date.value,
        if f.kind == "donation" then Donation else Reception))
  }

  /** `form.reset(...)` after a successful submit: text fields emptied, one bag, today's
      date, and the kind of the active tab. */
  function ResetForm(activeTab: Kind, today: int): Form
  {
    Form("", "", None, None, "", Some(1), Some(today), KindName(activeTab))
  }

  /** The outcome of one submit: the store, the form as left on screen, and the new id. */
  datatype Submitted = Submitted(store: Store, form: Form, id: Option<nat>)

  /** `handleSubmit(onSubmit)`: an invalid form changes nothing; a valid one is stored by
      one `addRecord` call and the form resets. */
  function Submit(s: Store, f: Form, activeTab: Kind, today: int): (r: Submitted)
    ensures r.id.Some? <==> Errors(f) == {}
    ensures r.id.None? ==> r.store == s && r.form == f
    ensures r.id.Some? ==> r.store.records == s.records + [BloodRecord(r.id.value, Validate(f).value)]
    ensures r.id.Some? ==> r.store == AddRecord(s, Validate(f).value).store
    ensures r.id.Some? ==> Errors(r.form) == {CpfField, NameField, AgeField, WeightField, BloodTypeField}
    ensures r.id.Some? ==> r.form.cpf == "" && r.form.name == "" && r.form.bloodType == ""
    ensures r.id.Some? ==> r.form.age.None? && r.form.weight.None?
    ensures r.id.Some? ==> r.form.bags == Some(1) && r.form.date == Some(today)
    ensures r.id.Some? ==> r.form.kind == KindName(activeTab)
  {
    match Validate(f)
    case Failure(_) => Submitted(s, f, None)
    case Success(e) =>
      var added := AddRecord(s, e);
      Submitted(added.store, ResetForm(activeTab, today), Some(added.id))
  }

  /** A valid submission for a stored blood type moves that counter in the direction of its
      kind: a donation raises it by exactly the bag count; a reception lowers it, clamped at
      0. The store stays valid and no other counter moves. */
  lemma SubmitMovesCounter(s: Store, f: Form, activeTab: Kind, today: int)
    requires Valid(s)
    requires Errors(f) == {}
    requires f.bloodType in TypeSet
    ensures var s' := Submit(s, f, activeTab, today).store;
      && Valid(s')
      && (f.kind == "donation" ==>
            s'.inventory[f.bloodType] == s.inventory[f.bloodType] + f.bags.value > s.inventory[f.bloodType])
      && (f.kind == "reception" ==>
            IsClampOf(s.inventory[f.bloodType] - f.bags.value, s'.inventory[f.bloodType])
            && (s.inventory[f.bloodType] > 0 ==> s'.inventory[f.bloodType] < s.inventory[f.bloodType]))
      && (forall k :: k in s.inventory && k != f.bloodType ==> s'.inventory[k] == s.inventory[k])
  {
  }

  /** The blood type is only required to be non-empty: a valid form naming a type without
      a counter is still stored, and the inventory does not move. */
  lemma UnknownTypeStoredWithoutEffect(s: Store, f: Form, activeTab: Kind, today: int)
    requires Errors(f) == {}
    requires f.bloodType !in s.inventory
    ensures Submit(s, f, activeTab, today).store.inventory == s.inventory
    ensures |Submit(s, f, activeTab, today).store.records| == |s.records| + 1
  {
  }

  /** An example of such a form: type "ZZ" passes validation. */
  lemma UnknownTypePassesValidation()
    ensures Validate(Form("12345678901", "Ana", Some(30), Some(70.0), "ZZ", Some(2), Some(0), "donation")).Success?
  {
  }
}
