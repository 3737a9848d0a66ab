# BTCPay Server connection-string step, in Dafny

This project models the BTCPay Server step of the onboarding wizard of a
desktop Lightning node manager (`app/components/Onboarding/Steps/BtcPayServer.js`).
The user pastes the JSON "connection settings" exported by a BTCPay Server.
The step checks that the JSON holds a gRPC endpoint for BTC with a host, a port
and a macaroon. It then hands the raw text to the wizard.

- `json_value.dfy` (module `JsonValue`): the values `JSON.parse` yields
  (`Json`), JavaScript truthiness on them (`Truthy`), and reading a
  property (`Member`).
- `connection_validator.dfy` (module `ConnectionValidator`):
  `validateConnectionString` as pure functions (`ValidateConnectionString`,
  `ValidateDocument`, the `find` over `configurations` as `FindGrpcBtc`).
  It also holds an index-based reference description of that `find` and
  the lemmas about the verdict.
- `btcpay_step.dfy` (module `BtcPayServerStep`): class `Step`, the component
  together with the form it renders. Its state is the field value, the
  field's single error slot, the submit count and the log of calls made to
  the wizard (`setConnectionString`, the wizard's `onSubmit`). It has mount,
  change, blur and submit methods and two client methods that run the
  mount/edit and submit sequences on a fresh step.

The validator has three outcomes:
- `Valid`: the JavaScript function returns `undefined`.
- `Invalid(message)`: it returns the formatted `btcpay_error` message.
- `Throws`: a `TypeError` escapes it.

`JSON.parse` is a parameter `parse: string -> Option<Json>`, with `None`
meaning it threw. The formatted message is a parameter `btcpayError`.

Behaviour of the code that is easy to misread:
- When both a host error and a macaroon error are given at mount, the
  macaroon error is the one shown, because it is set second.
- Validation does not always return a message. It throws when
  `configurations` is present but not an array (`null`, a string, an object,
  ...). It also throws when `find` reaches a `null` entry before any grpc/BTC
  entry. A `null` entry after the first match is never visited.
- A top-level document that is not an object (`null`, `5`, `"x"`, `[]`) is
  not an error in itself. `lodash.get` yields the default `[]` and the
  text is rejected with the message.
- "Present and non-empty" means JavaScript truthiness. `0`, `false`,
  `null` and `""` are rejected. `"0"`, `[]` and `{}` are accepted as a host,
  port or macaroon.

## Model

| member | source | states |
|---|---|---|
| `JsonValue.Truthy` | app/components/Onboarding/Steps/BtcPayServer.js:54 | a parsed value is falsy exactly when it is `null`, `false`, `0` or `""`; arrays and objects are always truthy |
| `JsonValue.Member` | app/components/Onboarding/Steps/BtcPayServer.js:52-53 | reading a property: an object's own member, `undefined` for a missing name or a non-object |
| `JsonValue.TruthyMember` | app/components/Onboarding/Steps/BtcPayServer.js:53-54 | a destructured property is present and truthy |
| `ConnectionValidator.Configurations` | app/components/Onboarding/Steps/BtcPayServer.js:51 | `get(config, 'configurations', [])`: the member when present (even `null`), `[]` when absent or when the document is not an object |
| `ConnectionValidator.IsGrpcBtc` | app/components/Onboarding/Steps/BtcPayServer.js:52 | the `find` predicate on a non-null entry: `type` is the string `"grpc"` and `cryptoCode` is the string `"BTC"` |
| `ConnectionValidator.Skipped` | app/components/Onboarding/Steps/BtcPayServer.js:52 | an entry on which the `find` predicate is false without throwing: not `null` and not grpc/BTC |
| `ConnectionValidator.HasEndpoint` | app/components/Onboarding/Steps/BtcPayServer.js:53-54 | `host`, `port` and `macaroon` of the selected entry are all truthy |
| `BtcPayServerStep.IsSet` | app/components/Onboarding/Steps/BtcPayServer.js:26-29 | the truthiness test on an optional string prop: given and non-empty |
| `BtcPayServerStep.Step.ShouldValidateInline` | app/components/Onboarding/Steps/BtcPayServer.js:95 | inline validation is on exactly when the form has been submitted at least once |
| `ConnectionValidator.FindGrpcBtc` | app/components/Onboarding/Steps/BtcPayServer.js:52 | `find` returns a grpc/BTC object that is in the list; it returns nothing only when every entry was skipped without throwing; it throws only when the list holds `null` |
| `ConnectionValidator.ValidateDocument` | app/components/Onboarding/Steps/BtcPayServer.js:51-56 | every rejection carries the one `btcpay_error` message; acceptance implies the text parsed and `configurations` is an array or absent |
| `ConnectionValidator.ValidateConnectionString` | app/components/Onboarding/Steps/BtcPayServer.js:43-57 | text `JSON.parse` rejects gets the error message; the parse-failure path and the incomplete-entry path return the same message |
| `ConnectionValidator.FindFirstMatch` | app/components/Onboarding/Steps/BtcPayServer.js:52 | when entry `i` is grpc/BTC and every earlier entry is skipped, `find` returns entry `i` |
| `ConnectionValidator.FindNullBeforeMatch` | app/components/Onboarding/Steps/BtcPayServer.js:52 | when entry `i` is `null` and every earlier entry is skipped, `find` throws |
| `ConnectionValidator.FindStopsAtIndex` | app/components/Onboarding/Steps/BtcPayServer.js:52 | a found entry is the first match at some index; a throw comes from a `null` before any match |
| `ConnectionValidator.FindGrpcBtcSpec` | app/components/Onboarding/Steps/BtcPayServer.js:52 | `find` agrees with the index description in all three outcomes, each as an if-and-only-if |
| `ConnectionValidator.FindIgnoresSkipped` | app/components/Onboarding/Steps/BtcPayServer.js:52 | inserting or removing a non-matching, non-null entry anywhere leaves `find`'s result unchanged |
| `ConnectionValidator.FindIgnoresTail` | app/components/Onboarding/Steps/BtcPayServer.js:52 | once `find` has matched or thrown, appending entries changes nothing |
| `ConnectionValidator.ValidIff` | app/components/Onboarding/Steps/BtcPayServer.js:51-57 | a parsed document is accepted iff `configurations` is present, is an array, and its first grpc/BTC entry (all before it skipped) has truthy host, port and macaroon |
| `ConnectionValidator.ThrowsIff` | app/components/Onboarding/Steps/BtcPayServer.js:51-53 | validation throws iff `configurations` is present and not an array, or a `null` entry precedes every grpc/BTC entry |
| `ConnectionValidator.UnparsableRejected` | app/components/Onboarding/Steps/BtcPayServer.js:46-50 | text that does not parse gets the error message and nothing else is looked at |
| `ConnectionValidator.MissingConfigurationsRejected` | app/components/Onboarding/Steps/BtcPayServer.js:51-55 | a document with no `configurations` member, including one that is not an object, is rejected with the error message |
| `ConnectionValidator.FirstMatchDecides` | app/components/Onboarding/Steps/BtcPayServer.js:52-56 | only the first grpc/BTC entry decides; a later complete entry does not rescue an incomplete first one |
| `ConnectionValidator.SkippedEntryIrrelevant` | app/components/Onboarding/Steps/BtcPayServer.js:52 | adding or removing a non-matching entry of any content (other than `null`) leaves the verdict unchanged |
| `ConnectionValidator.FalsyEndpointFieldRejected` | app/components/Onboarding/Steps/BtcPayServer.js:53-56 | an absent, `null`, `false`, `""` or `0` host, port or macaroon on the selected entry is rejected |
| `ConnectionValidator.ExampleVerdicts` | app/components/Onboarding/Steps/BtcPayServer.js:51-56 | verdicts of four concrete exports: empty list, one complete entry, BTC behind LTC, empty host |
| `BtcPayServerStep.SubmitCalls` | app/components/Onboarding/Steps/BtcPayServer.js:86-91 | the composed submit stores the text first and then passes the same text to the wizard's hook, which is called iff it exists |
| `BtcPayServerStep.Step.constructor` | app/components/Onboarding/Steps/BtcPayServer.js:13-15 | a fresh step holds the initial connection string, no error, no submits and no calls |
| `BtcPayServerStep.Step.ComponentDidMount` | app/components/Onboarding/Steps/BtcPayServer.js:23-32 | the macaroon error wins when both are set; otherwise the one that is set; with neither the error slot is unchanged |
| `BtcPayServerStep.Step.HandleSubmit` | app/components/Onboarding/Steps/BtcPayServer.js:34-37 | `setConnectionString` is called once with the submitted text, unmodified |
| `BtcPayServerStep.Step.OnSubmit` | app/components/Onboarding/Steps/BtcPayServer.js:86-91 | `handleSubmit` is called before the wizard's `onSubmit`, and both get the same values |
| `BtcPayServerStep.Step.HandleConnectionStringChange` | app/components/Onboarding/Steps/BtcPayServer.js:39-41 | any value change sets the error to none |
| `BtcPayServerStep.Step.ChangeValue` | app/components/Onboarding/Steps/BtcPayServer.js:115-116 | an edit stores the new value and leaves no error |
| `BtcPayServerStep.Step.Blur` | app/components/Onboarding/Steps/BtcPayServer.js:95-119 | blur validation runs only once `submits > 0`; then the field error is the validator's message or none |
| `BtcPayServerStep.Step.Submit` | app/components/Onboarding/Steps/BtcPayServer.js:86-91 | a submit is counted; only an accepted text is forwarded, through the composed `onSubmit`; a rejected one sets the error and forwards nothing |
| `BtcPayServerStep.MountThenEdit` | app/components/Onboarding/Steps/BtcPayServer.js:23-41 | on a fresh step the mount shows the earlier connection error (the macaroon one when both are given), and the first edit clears it |
| `BtcPayServerStep.SubmitOnce` | app/components/Onboarding/Steps/BtcPayServer.js:34-37 | a submit on a fresh step stores an accepted text exactly once, before the wizard's hook; it stores nothing otherwise; inline validation turns on after it |

## Left out

- The JSON grammar: `JSON.parse` is the parameter `parse`. Its number
  conversion (rounding, overflow to `Infinity`) is its own business. A
  `JNumber` holds the value it produced. An infinite value would be truthy
  like any non-zero number.
- react-intl: the message is the parameter `btcpayError`. Its text, and
  whether it could be empty, are not modelled.
- `render` and all layout. `setFormApi` and `getApi` are left out too: the
  class owns the error slot directly instead of through a stored `formApi`
  handle. The wizard's `onChange` and `onSubmitFailure` are passed through
  unchanged and are not modelled.
- The form library (informed) is not part of this model. `Blur` and `Submit`
  model what this step relies on it for. Blur validation depends on
  `validateOnBlur`. Submit counts the attempt, runs `validate`, and calls
  `onSubmit` only when no message comes back. A validator that throws leaves
  the error slot and the call log as they were.
- BtcPayServerStep.Step.ChangeValue: it does not run the form library's
  validate-on-change (`validateOnChange`, line 119). The source does not show
  when that runs relative to the `onValueChange` handler. The model records
  only the handler's clearing of the error.
- `required` on the text area, and the case where the form's value is
  `undefined` for an empty field. The model takes the field value as a
  string. `JSON.parse` rejects both `undefined` and `""`.
- `lodash.get` beyond the one key `configurations`. Properties inherited
  through the prototype chain: none of the names read here exists on it.
