/**
 * `RsvpEditBlock`: the RSVP form shown inside the editor. What is modelled
 * is its schema (`rsvpSchema`), the row the insert builds from validated
 * data (`newRsvp`), the form's values with their defaults and the reset
 * after a successful insert, and the block's visibility update.
 */
module RsvpEditBlock {
  import opened Wrappers
  import opened BlockTree
  import opened FormRules
  import opened EditableBlocksContext
  import opened EditWrapper

  /** The fields of the form, as reported by the schema. */
  datatype RsvpField = Name | Phone | WillAttend | PeopleCount | Message

  /**
   * The values the form submits. `peopleCount` is `None` while the field
   * holds no number, and otherwise the number it holds.
   */
  datatype RsvpValues = RsvpValues(name: string, phone: string, willAttend: string, peopleCount: Option<int>, message: string)

  /** `defaultValues`: `people_count` has none. */
  const RsvpDefaults := RsvpValues("", "", "yes", None, "")

  /** `Number.MAX_SAFE_INTEGER`: `z.int()` accepts safe integers only. */
  const MaxSafeInteger: int := 9007199254740991

  /** `z.int()`: a present integer within the safe range. */
  predicate SafeInt(n: Option<int>) {
    n.Some? && -MaxSafeInteger <= n.value <= MaxSafeInteger
  }

  /**
   * `rsvpSchema`: every field is checked and every failing field is
   * reported; the data passes unchanged when none fails.
   */
  function ValidateRsvp(v: RsvpValues): (r: Result<RsvpValues, set<RsvpField>>)
    ensures r.Ok? <==> (MinLength(v.name, 1) && PhoneOk(v.phone) &&
                        (v.willAttend == "yes" || v.willAttend == "no") && SafeInt(v.peopleCount))
    ensures r.Ok? ==> r.value == v
    ensures r.Err? ==>
      (Name in r.error <==> v.name == "") &&
      (Phone in r.error <==> !PhoneOk(v.phone)) &&
      (WillAttend in r.error <==> v.willAttend != "yes" && v.willAttend != "no") &&
      (PeopleCount in r.error <==> !SafeInt(v.peopleCount)) &&
      Message !in r.error
  {
    var errors :=
      (if MinLength(v.name, 1) then {} else {Name}) +
      (if PhoneOk(v.phone) then {} else {Phone}) +
      (if v.willAttend in {"yes", "no"} then {} else {WillAttend}) +
      (if SafeInt(v.peopleCount) then {} else {PeopleCount});
    if errors == {} then Ok(v) else Err(errors)
  }

  /** The inserted row (`rsvps` insert shape; `event_id` is not set). */
  datatype RsvpInsert = RsvpInsert(name: string, phone: string, willAttend: bool, peopleCount: int, message: string)

  /**
   * `newRsvp = { ...data, people_count: data.people_count || 0,
   * will_attend: data.will_attend === 'yes' }`.
   */
  function NewRsvp(data: RsvpValues): (row: RsvpInsert)
    ensures row.name == data.name && row.phone == data.phone && row.message == data.message
    ensures row.willAttend <==> data.willAttend == "yes"
    ensures row.peopleCount == (if data.peopleCount.Some? then data.peopleCount.value else 0)
  {
    var count := if data.peopleCount.Some? && data.peopleCount.value != 0 then data.peopleCount.value else 0;
    RsvpInsert(data.name, data.phone, data.willAttend == "yes", count, data.message)
  }

  /**
   * Only validated data reaches the insert, and it always has a count, so
   * the `|| 0` default never changes the stored count; "no" is stored as `false`.
   */
  lemma ValidatedRowKeepsCount(v: RsvpValues)
    requires ValidateRsvp(v).Ok?
    ensures NewRsvp(v).peopleCount == v.peopleCount.value
    ensures NewRsvp(v).willAttend == (v.willAttend != "no")
  {
  }

  /** The untouched form fails on the missing name and the missing count, and on nothing else. */
  lemma DefaultsRejected()
    ensures ValidateRsvp(RsvpDefaults) == Err({Name, PeopleCount})
  {
    var v := RsvpDefaults;
    assert !MinLength(v.name, 1) && PhoneOk(v.phone) && v.willAttend in {"yes", "no"} && !SafeInt(v.peopleCount);
    assert ({Name} + {} + {} + {PeopleCount}) == {Name, PeopleCount};
  }

  // ---------------------------------------------------------------------
  // The people-count field as the form fills it

  /**
   * What `<Input type="number" {...field} />` leaves in `people_count`:
   * nothing until the user types (there is no default value), and from then
   * on the input's `value`, which is a string whatever was typed.
   */
  datatype CountField = Untouched | Typed(text: string)

  /** The raw value the schema receives for the field, `undefined` being `None`. */
  function CountFieldValue(f: CountField): (raw: Option<Json>)
    ensures raw.Some? ==> raw.value.JStr?
  {
    match f
    case Untouched => None
    case Typed(text) => Some(JStr(text))
  }

  /** `z.int()` on a raw value: a number that is a safe integer; `undefined` and strings fail. */
  predicate ZIntAccepts(raw: Option<Json>) {
    raw.Some? && raw.value.JNum? && -MaxSafeInteger <= raw.value.n <= MaxSafeInteger
  }

  /** What the form submits, with the count field as the input fills it. */
  datatype SubmittedRsvp = SubmittedRsvp(name: string, phone: string, willAttend: string, count: CountField, message: string)

  /**
   * `rsvpSchema` as written, applied to what the form submits: the other
   * fields as in `ValidateRsvp`, the count as the raw field value; the
   * data passes unchanged when no field fails.
   */
  function ValidateRsvpAsWritten(name: string, phone: string, willAttend: string, count: CountField, message: string)
    : (r: Result<SubmittedRsvp, set<RsvpField>>)
    ensures r.Err? ==>
      (Name in r.error <==> name == "") &&
      (Phone in r.error <==> !PhoneOk(phone)) &&
      (WillAttend in r.error <==> willAttend != "yes" && willAttend != "no") &&
      (PeopleCount in r.error <==> !ZIntAccepts(CountFieldValue(count)))
    ensures r.Ok? <==> (MinLength(name, 1) && PhoneOk(phone) &&
                        (willAttend == "yes" || willAttend == "no") && ZIntAccepts(CountFieldValue(count)))
  {
    var raw := CountFieldValue(count);
    var errors :=
      (if MinLength(name, 1) then {} else {Name}) +
      (if PhoneOk(phone) then {} else {Phone}) +
      (if willAttend in {"yes", "no"} then {} else {WillAttend}) +
      (if ZIntAccepts(raw) then {} else {PeopleCount});
    if errors == {} then Ok(SubmittedRsvp(name, phone, willAttend, count, message)) else Err(errors)
  }

  /**
   * As written, no submission the form can produce passes: the count field
   * is either untouched or holds a string, and `z.int()` rejects both.
   */
  lemma {:induction false} AsWrittenRejectsEverySubmission(name: string, phone: string, willAttend: string, count: CountField, message: string)
    ensures ValidateRsvpAsWritten(name, phone, willAttend, count, message).Err?
    ensures PeopleCount in ValidateRsvpAsWritten(name, phone, willAttend, count, message).error
  {
    assert !ZIntAccepts(CountFieldValue(count));
  }

  /** A complete answer with "2" typed as the count is rejected, on the count alone. */
  lemma AsWrittenRejectsCompleteAnswer()
    ensures ValidateRsvpAsWritten("Ana", "", "yes", Typed("2"), "") == Err({PeopleCount})
  {
    assert PhoneOk("");
    assert !ZIntAccepts(CountFieldValue(Typed("2")));
    assert ({} + {} + {} + {PeopleCount}) == {PeopleCount};
  }

  /**
   * The evidently intended schema is `ValidateRsvp`, where the field holds
   * the typed number: the same complete answer passes and its row stores
   * the count that was typed.
   */
  lemma CorrectedAcceptsCompleteAnswer()
    ensures var v := RsvpValues("Ana", "", "yes", Some(2), "");
      ValidateRsvp(v) == Ok(v) && NewRsvp(v) == RsvpInsert("Ana", "", true, 2, "")
  {
    assert PhoneOk("");
  }

  /** What a submit leads to. */
  datatype SubmitOutcome =
      /** Validation failed; the failing fields show their messages. */
    | Invalid(errors: set<RsvpField>)
      /** The insert of `row` was attempted; `succeeded` is its outcome. */
    | Attempted(row: RsvpInsert, succeeded: bool)

  /**
   * The RSVP editor: the props of the latest render, the form's values
   * (react-hook-form state) and the provider `useEditableBlocks` returned.
   */
  class RsvpEditBlock {
    var props: Block
    var values: RsvpValues
    const provider: EditableBlocksProvider

    /** Mount: the form starts at `defaultValues`; nothing is sent to the tree. */
    constructor (initialProps: Block, ctx: EditableBlocksProvider)
      ensures props == initialProps && provider == ctx && values == RsvpDefaults
    {
      props := initialProps;
      values := RsvpDefaults;
      provider := ctx;
    }

    /** A re-render with new props; the form keeps its values. */
    method ReceiveProps(next: Block)
      modifies this
      ensures props == next && values == old(values)
    {
      props := next;
    }

    /** The user edits the fields. */
    method Change(next: RsvpValues)
      modifies this
      ensures values == next && props == old(props)
    {
      values := next;
    }

    /**
     * `form.handleSubmit(onSubmit)`: invalid data goes nowhere; valid data
     * is turned into `newRsvp` and inserted, and on success `form.reset()`
     * restores the defaults, while on failure the values stay for a retry.
     * The insert's outcome is the parameter. The tree is not touched.
     */
    method Submit(insertSucceeds: bool) returns (outcome: SubmitOutcome)
      modifies this
      ensures props == old(props)
      ensures ValidateRsvp(old(values)).Err? ==>
        outcome == Invalid(ValidateRsvp(old(values)).error) && values == old(values)
      ensures ValidateRsvp(old(values)).Ok? ==>
        outcome == Attempted(NewRsvp(old(values)), insertSucceeds) &&
        values == (if insertSucceeds then RsvpDefaults else old(values))
    {
      var checked := ValidateRsvp(values);
      match checked
      case Err(errors) =>
        outcome := Invalid(errors);
      case Ok(data) =>
        outcome := Attempted(NewRsvp(data), insertSucceeds);
        if insertSucceeds {
          values := RsvpDefaults;
        }
    }

    /** The wrapper's menu item: `updateBlock({ ...props, visible })` with the negated flag. */
    method ClickVisibility()
      modifies provider
      ensures provider.editableBlocks == UpdateBlockById(old(provider.editableBlocks), VisibilityUpdate(props))
    {
      provider.UpdateBlock(VisibilityUpdate(props));
    }

    /** The wrapper: visibility from the block, button offset. */
    function Wrapper(): (w: WrapperView)
      reads this
      ensures Dimmed(w) <==> !IsVisible(props)
      ensures w.buttonPosition == OffsetButtonClass
    {
      EditBlockWrapper(IsVisible(props), false)
    }
  }
}
