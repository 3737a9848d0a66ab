/** The BTCPay Server wizard step around the validator: the field's error
    slot, the stored connection string, and the form events that drive
    them. */
module BtcPayServerStep {
  import opened JsonValue
  import opened ConnectionValidator

  /** A call this step makes to the wizard, in the order it makes them. */
  datatype Call = SetConnectionString(text: string) | WizardOnSubmit(connectionString: string)

  /** JavaScript truthiness of an optional string prop: given and non-empty. */
  predicate IsSet(prop: Option<string>)
  {
    prop.Some? && |prop.value| > 0
  }

  /** The field error the form keeps for a verdict that was returned. */
  function ErrorFor(v: Verdict): Option<string>
    requires !v.Throws?
  {
    if v.Invalid? then Some(v.message) else None
  }

  /** The calls the composed `onSubmit` makes for submitted text: it stores
      the text, then hands the same values to the wizard's own hook. */
  function SubmitCalls(text: string, wizardHasOnSubmit: bool): (calls: seq<Call>)
    ensures |calls| > 0 && calls[0] == SetConnectionString(text)
    ensures forall i :: 1 <= i < |calls| ==> calls[i] == WizardOnSubmit(text)
    ensures (WizardOnSubmit(text) in calls) <==> wizardHasOnSubmit
  {
    [SetConnectionString(text)] + if wizardHasOnSubmit then [WizardOnSubmit(text)] else []
  }

  /** The step together with the form it renders (one `connectionString`
      field). The props are constants; the form's field value, its error,
      its submit count and the calls made so far are the state. */
  class Step {
    const initialValue: string
    const startLndHostError: Option<string>
    const startLndMacaroonError: Option<string>
    const wizardHasOnSubmit: bool
    const parse: string -> Option<Json>
    const btcpayError: string

    var value: string
    var error: Option<string>
    var submits: nat
    var calls: seq<Call>

    constructor (connectionString: string, hostError: Option<string>, macaroonError: Option<string>,
                 hasOnSubmit: bool, parse: string -> Option<Json>, btcpayError: string)
      ensures initialValue == connectionString && value == connectionString
      ensures startLndHostError == hostError && startLndMacaroonError == macaroonError
      ensures wizardHasOnSubmit == hasOnSubmit && this.parse == parse && this.btcpayError == btcpayError
      ensures error == None && submits == 0 && calls == []
    {
      initialValue := connectionString;
      startLndHostError := hostError;
      startLndMacaroonError := macaroonError;
      wizardHasOnSubmit := hasOnSubmit;
      this.parse := parse;
      this.btcpayError := btcpayError;
      value := connectionString;
      error := None;
      submits := 0;
      calls := [];
    }

    /** `shouldValidateInline`: blur and change validation are on only
        after the first submit attempt. */
    predicate ShouldValidateInline()
      reads this
    {
      submits > 0
    }

    /** Attaches the errors of an earlier connection attempt. The macaroon
        error is set second, so when both are given it is the one kept. */
    method ComponentDidMount()
      modifies this`error
      ensures IsSet(startLndMacaroonError) ==> error == startLndMacaroonError
      ensures !IsSet(startLndMacaroonError) && IsSet(startLndHostError) ==> error == startLndHostError
      ensures !IsSet(startLndMacaroonError) && !IsSet(startLndHostError) ==> error == old(error)
    {
      if IsSet(startLndHostError) {
        error := startLndHostError;
      }
      if IsSet(startLndMacaroonError) {
        error := startLndMacaroonError;
      }
    }

    /** `handleSubmit`: stores the submitted text, unmodified. */
    method HandleSubmit(values: string)
      modifies this`calls
      ensures calls == old(calls) + [SetConnectionString(values)]
    {
      calls := calls + [SetConnectionString(values)];
    }

    /** The `onSubmit` given to the form: `handleSubmit`, then the wizard's
        own `onSubmit` with the same values when it has one. */
    method OnSubmit(values: string)
      modifies this`calls
      ensures calls == old(calls) + SubmitCalls(values, wizardHasOnSubmit)
    {
      HandleSubmit(values);
      if wizardHasOnSubmit {
        calls := calls + [WizardOnSubmit(values)];
      }
    }

    /** `handleConnectionStringChange`: any change clears the error. */
    method HandleConnectionStringChange()
      modifies this`error
      ensures error == None
    {
      error := None;
    }

    /** The user edits the field: the form takes the new value and calls
        the step's `onValueChange` handler. */
    method ChangeValue(text: string)
      modifies this`value, this`error
      ensures value == text && error == None
    {
      value := text;
      HandleConnectionStringChange();
    }

    /** The field loses focus: the form runs the validator only when inline
        validation is on, and puts its message (or none) in the error slot.
        A validator that throws leaves the slot as it was. */
    method Blur() returns (outcome: Option<Verdict>)
      modifies this`error
      ensures !ShouldValidateInline() ==> outcome == None && error == old(error)
      ensures ShouldValidateInline() ==> outcome == Some(ValidateConnectionString(parse, value, btcpayError))
      ensures outcome.Some? && outcome.value.Throws? ==> error == old(error)
      ensures outcome.Some? && !outcome.value.Throws? ==> error == ErrorFor(outcome.value)
    {
      if ShouldValidateInline() {
        var verdict := ValidateConnectionString(parse, value, btcpayError);
        outcome := Some(verdict);
        if !verdict.Throws? {
          error := ErrorFor(verdict);
        }
      } else {
        outcome := None;
      }
    }

    /** The user submits: the form counts the attempt and runs the
        validator; only an accepted text reaches the composed `onSubmit`,
        with the field's text as it stands. */
    method Submit() returns (verdict: Verdict)
      modifies this`error, this`submits, this`calls
      ensures submits == old(submits) + 1
      ensures verdict == ValidateConnectionString(parse, value, btcpayError)
      ensures verdict == Valid ==> error == None && calls == old(calls) + SubmitCalls(value, wizardHasOnSubmit)
      ensures verdict.Invalid? ==> error == Some(btcpayError) && calls == old(calls)
      ensures verdict.Throws? ==> error == old(error) && calls == old(calls)
    {
      submits := submits + 1;
      verdict := ValidateConnectionString(parse, value, btcpayError);
      if verdict == Valid {
        error := None;
        OnSubmit(value);
      } else if verdict.Invalid? {
        error := ErrorFor(verdict);
      }
    }
  }

  /** A step entered after a failed connection attempt shows the earlier
      error before any input (the macaroon error when both are given), and
      the first edit clears it. */
  method MountThenEdit(connectionString: string, hostError: Option<string>, macaroonError: Option<string>,
                       parse: string -> Option<Json>, btcpayError: string, text: string)
    returns (mounted: Option<string>, edited: Option<string>)
    ensures IsSet(macaroonError) ==> mounted == macaroonError
    ensures !IsSet(macaroonError) && IsSet(hostError) ==> mounted == hostError
    ensures !IsSet(macaroonError) && !IsSet(hostError) ==> mounted == None
    ensures edited == None
  {
    var step := new Step(connectionString, hostError, macaroonError, true, parse, btcpayError);
    step.ComponentDidMount();
    mounted := step.error;
    step.ChangeValue(text);
    edited := step.error;
  }

  /** Submitting a freshly entered step: an accepted text is stored exactly
      once, unmodified, before the wizard's hook sees it; a rejected or
      throwing one is never stored. Before the submit, blur validation is
      off; after it, it is on. */
  method SubmitOnce(parse: string -> Option<Json>, btcpayError: string, text: string, hasOnSubmit: bool)
    returns (verdict: Verdict, calls: seq<Call>, inlineBefore: bool, inlineAfter: bool)
    ensures verdict == ValidateConnectionString(parse, text, btcpayError)
    ensures verdict == Valid ==> calls == [SetConnectionString(text)] + (if hasOnSubmit then [WizardOnSubmit(text)] else [])
    ensures verdict != Valid ==> calls == []
    ensures !inlineBefore && inlineAfter
  {
    var step := new Step("", None, None, hasOnSubmit, parse, btcpayError);
    inlineBefore := step.ShouldValidateInline();
    step.ChangeValue(text);
    verdict := step.Submit();
    calls := step.calls;
    inlineAfter := step.ShouldValidateInline();
  }
}
