/**
 * `ClientForm`: the dashboard form that adds a client. What is modelled is
 * its schema (`clientSchema`), its defaults, and what a submit does with the
 * form's values: invalid data goes nowhere, valid data is inserted as it
 * is, and a successful insert resets the form and calls `onSuccess` when
 * the prop was given.
 *
 * The email format check of the validation library is a parameter
 * (`isEmail`): the model states what the schema does around it.
 */
module ClientForm {
  import opened Wrappers
  import opened FormRules

  /** The fields of the form, as reported by the schema. */
  datatype ClientField = ClientName | Email | ClientPhone

  datatype ClientValues = ClientValues(name: string, email: string, phone: string)

  /** `defaultValues`: every field empty. */
  const ClientDefaults := ClientValues("", "", "")

  /** `z.email().or(z.literal(""))`: a well-formed address, or nothing at all. */
  predicate EmailOk(isEmail: string -> bool, s: string) {
    isEmail(s) || s == ""
  }

  /**
   * `clientSchema`: every field is checked and every failing field is
   * reported; the data passes unchanged when none fails.
   */
  function ValidateClient(v: ClientValues, isEmail: string -> bool): (r: Result<ClientValues, set<ClientField>>)
    ensures r.Ok? <==> (MinLength(v.name, 1) && EmailOk(isEmail, v.email) && PhoneOk(v.phone))
    ensures r.Ok? ==> r.value == v
    ensures r.Err? ==>
      (ClientName in r.error <==> v.name == "") &&
      (Email in r.error <==> !EmailOk(isEmail, v.email)) &&
      (ClientPhone in r.error <==> !PhoneOk(v.phone))
  {
    var errors :=
      (if MinLength(v.name, 1) then {} else {ClientName}) +
      (if EmailOk(isEmail, v.email) then {} else {Email}) +
      (if PhoneOk(v.phone) then {} else {ClientPhone});
    if errors == {} then Ok(v) else Err(errors)
  }

  /**
   * The untouched form fails on the name alone, whatever the email check:
   * an empty email and an empty phone are both accepted.
   */
  lemma DefaultsNeedOnlyName(isEmail: string -> bool)
    ensures ValidateClient(ClientDefaults, isEmail) == Err({ClientName})
  {
    var v := ClientDefaults;
    assert !MinLength(v.name, 1) && EmailOk(isEmail, v.email) && PhoneOk(v.phone);
    assert ({ClientName} + {} + {}) == {ClientName};
  }

  /** Filling in the name is enough: the rest may stay at its defaults. */
  lemma NameAloneSuffices(name: string, isEmail: string -> bool)
    requires name != ""
    ensures ValidateClient(ClientDefaults.(name := name), isEmail) == Ok(ClientDefaults.(name := name))
  {
    assert PhoneOk("");
  }

  /** What a submit leads to. */
  datatype ClientOutcome =
      /** Validation failed; the failing fields show their messages. */
    | Rejected(errors: set<ClientField>)
      /** The insert of `row` into `clients` was attempted; `succeeded` is its outcome. */
    | Inserted(row: ClientValues, succeeded: bool)

  /** The form's values (react-hook-form state). */
  class ClientFormState {
    var values: ClientValues
    /** How many times the `onSuccess` callback has been called. */
    var successCalls: nat
    /** Whether the optional `onSuccess` prop was given. */
    const hasOnSuccess: bool

    constructor (onSuccessGiven: bool)
      ensures values == ClientDefaults && successCalls == 0 && hasOnSuccess == onSuccessGiven
    {
      values := ClientDefaults;
      successCalls := 0;
      hasOnSuccess := onSuccessGiven;
    }

    /** The user edits the fields. */
    method Change(next: ClientValues)
      modifies this
      ensures values == next && successCalls == old(successCalls)
    {
      values := next;
    }

    /**
     * `form.handleSubmit(onSubmit)`: valid data is inserted unchanged; on
     * success `form.reset()` restores the defaults and `onSuccess?.()`
     * calls the callback once when it was given, while on failure the
     * values stay for a retry. The insert's outcome is the parameter.
     */
    method Submit(isEmail: string -> bool, insertSucceeds: bool) returns (outcome: ClientOutcome)
      modifies this
      ensures ValidateClient(old(values), isEmail).Err? ==>
        outcome == Rejected(ValidateClient(old(values), isEmail).error) &&
        values == old(values) && successCalls == old(successCalls)
      ensures ValidateClient(old(values), isEmail).Ok? ==>
        outcome == Inserted(old(values), insertSucceeds) &&
        values == (if insertSucceeds then ClientDefaults else old(values)) &&
        successCalls == (if insertSucceeds && hasOnSuccess then old(successCalls) + 1 else old(successCalls))
    {
      var checked := ValidateClient(values, isEmail);
      match checked
      case Err(errors) =>
        outcome := Rejected(errors);
      case Ok(data) =>
        outcome := Inserted(data, insertSucceeds);
        if insertSucceeds {
          values := ClientDefaults;
          if hasOnSuccess {
            successCalls := successCalls + 1;
          }
        }
    }
  }
}
