/** The equipment form of the equipment screen (`EquipmentsScreen.tsx`):
    the text fields the user edits, the rate preview, the checks made
    before saving, and the screen state that opening and closing the form
    overwrite. */
module EquipmentForm {
  import opened Wrappers
  import opened Text
  import opened JsNumber
  import opened Format
  import opened Domain
  import opened Settings

  /** The form's fields as typed. */
  datatype EquipmentFormState = EquipmentFormState(
    name: string,
    category: string,
    rentalMode: RentalMode,
    dailyRate: string,
    equipmentValue: string,
    stock: string,
    notes: string)

  /** `emptyForm`: a daily rental with every text field blank. */
  const EmptyForm := EquipmentFormState("", "", Daily, "", "", "", "")

  /** What onSave hands to the equipment service. */
  datatype EquipmentInput = EquipmentInput(
    name: string,
    category: string,
    rentalMode: RentalMode,
    dailyRate: real,
    equipmentValue: real,
    stock: int,
    notes: string)

  /** The validation alerts of onSave, in the order they are checked. */
  datatype EquipmentFormError = MissingName | InvalidDailyRate | InvalidEquipmentValue | InvalidStock

  /** `onSave`'s checks and payload: a name that is not blank, a positive
      daily rate, an equipment value that is not negative (blank reads as
      0) and a stock parseInt can read that is not negative. */
  function ValidateEquipment(form: EquipmentFormState): (r: Result<EquipmentInput, EquipmentFormError>)
    ensures r.Ok? <==>
      !AllSpace(form.name) && ParseDecimalInput(form.dailyRate) > 0.0
      && ParseDecimalInput(form.equipmentValue) >= 0.0
      && ParseInt(form.stock).Some? && ParseInt(form.stock).value >= 0
    ensures r == Err(MissingName) <==> AllSpace(form.name)
    ensures r.Ok? ==>
              r.value.dailyRate == ParseDecimalInput(form.dailyRate)
              && r.value.equipmentValue == ParseDecimalInput(form.equipmentValue)
              && Some(r.value.stock) == ParseInt(form.stock)
              && r.value.name == form.name && r.value.rentalMode == form.rentalMode
  {
    TrimEmptyIffAllSpace(form.name);
    var dailyRate := ParseDecimalInput(form.dailyRate);
    var equipmentValue := ParseDecimalInput(form.equipmentValue);
    var stock := ParseInt(form.stock);
    if Trim(form.name) == [] then Err(MissingName)
    else if dailyRate == 0.0 || dailyRate <= 0.0 then Err(InvalidDailyRate)
    else if equipmentValue < 0.0 then Err(InvalidEquipmentValue)
    else if stock.None? || stock.value < 0 then Err(InvalidStock)
    else Ok(EquipmentInput(form.name, form.category, form.rentalMode, dailyRate, equipmentValue,
                           stock.value, form.notes))
  }

  /** The checks run in order: each alert is raised exactly when the
      checks before it pass and its own fails. */
  lemma ValidateEquipmentErrors(form: EquipmentFormState)
    ensures ValidateEquipment(form) == Err(InvalidDailyRate) <==>
      !AllSpace(form.name) && ParseDecimalInput(form.dailyRate) <= 0.0
    ensures ValidateEquipment(form) == Err(InvalidEquipmentValue) <==>
      !AllSpace(form.name) && ParseDecimalInput(form.dailyRate) > 0.0 && ParseDecimalInput(form.equipmentValue) < 0.0
    ensures ValidateEquipment(form) == Err(InvalidStock) <==>
      !AllSpace(form.name) && ParseDecimalInput(form.dailyRate) > 0.0 && ParseDecimalInput(form.equipmentValue) >= 0.0
      && (ParseInt(form.stock).None? || ParseInt(form.stock).value < 0)
  {
    TrimEmptyIffAllSpace(form.name);
  }

  /** A blank equipment value reads as 0 and is accepted; a blank daily
      rate reads as 0 and is refused. */
  lemma BlankFields(form: EquipmentFormState)
    requires AllSpace(form.equipmentValue) && AllSpace(form.dailyRate)
    ensures ParseDecimalInput(form.equipmentValue) == 0.0
    ensures ValidateEquipment(form).Err?
    ensures !AllSpace(form.name) ==> ValidateEquipment(form) == Err(InvalidDailyRate)
  {
    ParseDecimalBlank(form.equipmentValue);
    ParseDecimalBlank(form.dailyRate);
    ValidateEquipmentErrors(form);
  }

  /** `calculatedRentalRate`: 0 for a daily rate that is not positive,
      otherwise the rate of the chosen mode. */
  function CalculatedRentalRate(form: EquipmentFormState, rules: PricingRules): real {
    var dailyRate := ParseDecimalInput(form.dailyRate);
    if dailyRate <= 0.0 then 0.0 else CalculateRateByMode(dailyRate, form.rentalMode, rules)
  }

  /** Under positive rules the preview is never negative and is positive
      exactly when the typed daily rate is; for a form that passes the
      checks it is the price a rental line gets for the saved equipment. */
  lemma CalculatedRateMeaning(form: EquipmentFormState, rules: PricingRules)
    requires PositiveRules(rules)
    ensures CalculatedRentalRate(form, rules) >= 0.0
    ensures CalculatedRentalRate(form, rules) > 0.0 <==> ParseDecimalInput(form.dailyRate) > 0.0
    ensures ValidateEquipment(form).Ok? ==>
      CalculatedRentalRate(form, rules)
        == CalculateRateByMode(ValidateEquipment(form).value.dailyRate, ValidateEquipment(form).value.rentalMode, rules)
  {
    var dailyRate := ParseDecimalInput(form.dailyRate);
    if dailyRate > 0.0 {
      RateSign(dailyRate, form.rentalMode, rules);
    }
  }

  /** The form `openEditForm` fills in: the equipment's fields, numbers
      written with String and absent texts blank. */
  function EditForm(e: Equipment): EquipmentFormState {
    EquipmentFormState(
      e.name,
      match e.category case Some(c) => c case None => "",
      e.rentalMode,
      NumberToString(e.dailyRate),
      NumberToString(e.equipmentValue),
      IntToString(e.stock),
      match e.notes case Some(n) => n case None => "")
  }

  /** The fields of an edit form read back as the equipment's own. */
  lemma EditFormReadsBack(e: Equipment)
    requires e.stock >= 0
    requires HasExactString(e.dailyRate) && HasExactString(e.equipmentValue)
    ensures var form := EditForm(e);
      && form.name == e.name && form.rentalMode == e.rentalMode
      && ParseDecimalInput(form.dailyRate) == e.dailyRate
      && ParseDecimalInput(form.equipmentValue) == e.equipmentValue
      && ParseInt(form.stock) == Some(e.stock)
  {
    var form := EditForm(e);
    var stock := NatToString(e.stock);
    assert form.stock == stock;
    ParseDecimalNumberToString(e.dailyRate);
    ParseDecimalNumberToString(e.equipmentValue);
    ParseIntDigits(stock);
  }

  /** A stored equipment that meets the checks, with numbers String writes
      exactly, saves back unchanged when its edit form is saved untouched. */
  lemma EditFormRoundTrip(e: Equipment)
    requires !AllSpace(e.name) && e.dailyRate > 0.0 && e.equipmentValue >= 0.0 && e.stock >= 0
    requires HasExactString(e.dailyRate) && HasExactString(e.equipmentValue)
    ensures ValidateEquipment(EditForm(e)).Ok?
    ensures var input := ValidateEquipment(EditForm(e)).value;
      input.dailyRate == e.dailyRate && input.equipmentValue == e.equipmentValue
      && input.stock == e.stock && input.name == e.name && input.rentalMode == e.rentalMode
  {
    EditFormReadsBack(e);
    var r := ValidateEquipment(EditForm(e));
    assert r.Ok?;
    assert Some(r.value.stock) == Some(e.stock);
  }

  /** Where onSave sends a valid form: an update of the equipment being
      edited, or a create when no id is held (an id of 0 is falsy and
      also creates). */
  datatype SaveTarget = CreateEquipment | UpdateEquipment(id: int)

  function SaveTargetOf(editingEquipmentId: Option<int>): (t: SaveTarget)
    ensures t.UpdateEquipment? <==> editingEquipmentId.Some? && editingEquipmentId.value != 0
    ensures t.UpdateEquipment? ==> t.id == editingEquipmentId.value
  {
    if editingEquipmentId.Some? && editingEquipmentId.value != 0 then UpdateEquipment(editingEquipmentId.value)
    else CreateEquipment
  }

  /** The screen state the form actions overwrite. */
  class EquipmentScreen {
    var form: EquipmentFormState
    var editingEquipmentId: Option<int>
    var isFormVisible: bool

    /** The screen as first shown: form hidden, empty, nothing edited. */
    constructor ()
      ensures form == EmptyForm && editingEquipmentId.None? && !isFormVisible
    {
      form := EmptyForm;
      editingEquipmentId := None;
      isFormVisible := false;
    }

    /** `openCreateForm`: an empty form for a new equipment, shown. */
    method OpenCreateForm()
      modifies this
      ensures form == EmptyForm && editingEquipmentId.None? && isFormVisible
    {
      editingEquipmentId := None;
      form := EmptyForm;
      isFormVisible := true;
    }

    /** `openEditForm`: the equipment's fields, shown, with its id held. */
    method OpenEditForm(e: Equipment)
      modifies this
      ensures form == EditForm(e) && editingEquipmentId == Some(e.id) && isFormVisible
    {
      editingEquipmentId := Some(e.id);
      form := EditForm(e);
      isFormVisible := true;
    }

    /** `closeForm`: hidden, emptied, no id held. */
    method CloseForm()
      modifies this
      ensures form == EmptyForm && editingEquipmentId.None? && !isFormVisible
    {
      isFormVisible := false;
      editingEquipmentId := None;
      form := EmptyForm;
    }

    /** `onSave` up to the service call: on a failed check the screen is
        left as it is; otherwise the payload and where it goes, and the
        form closed. */
    method Save() returns (r: Result<(SaveTarget, EquipmentInput), EquipmentFormError>)
      modifies this
      ensures r.Err? ==> ValidateEquipment(old(form)) == Err(r.error)
      ensures r.Err? ==> form == old(form) && editingEquipmentId == old(editingEquipmentId)
                         && isFormVisible == old(isFormVisible)
      ensures r.Ok? ==> ValidateEquipment(old(form)) == Ok(r.value.1) && r.value.0 == SaveTargetOf(old(editingEquipmentId))
      ensures r.Ok? ==> form == EmptyForm && editingEquipmentId.None? && !isFormVisible
    {
      var checked := ValidateEquipment(form);
      if checked.Err? {
        return Err(checked.error);
      }
      r := Ok((SaveTargetOf(editingEquipmentId), checked.value));
      CloseForm();
    }
  }
}
