# ngx-forms-validator, modelled in Dafny

This project models the core of an Angular form-feedback library. The core has three parts:

- **The field validators** of `CustomValidators`: `onlyNumber`, `hasWhiteSpaceLine`, `introducedValueExists` and `maxByte`. Each takes a field's value and returns an error map.
- **`FormValidatorService`**: `orderErrors` picks one display message from a field's failure reasons. `manageValidateFields`, `manageErrors` and `manageValid` bring the field's element in line with the field's validity:
  - they detach the field's stale error and warning spans;
  - they then either append a fresh error span and set the error classes, or set the "ok" classes.
- **`TranslateService`** and the two built-in tables, en_US and es_ES. It holds a base table chosen by language code and an override table. Their merge gives the override the last word.

Files, one module each:

- `wrappers.dfy` (`Wrappers`): `Option` and a map lookup that yields `None` for a missing key.
- `i18n.dfy` (`I18n`): the two tables as constant maps, and the facts about them.
- `validators.dfy` (`Validators`): the validators as pure functions over a value.
  - A value is a `string`, i.e. a sequence of Unicode code points.
  - A validator's result is `None` for `null`, or `Some` of its error map's keys. `onlyNumber`, `hasWhiteSpaceLine` and `maxByte` pass with `null`. `introducedValueExists` passes with `{}`, which is `Some([])`.
- `translate.dfy` (`Translate`): `TranslateService` as a class with its two table fields.
- `dom.dfy` (`Dom`): the page as an element store. It is a `Document` object with two fields:
  - the page's elements by id, each with a tag name, a class set and a parent handle;
  - for each parent, the feedback spans appended to it, in order.
- `form_validator.dfy` (`FormValidator`): the message resolver and the reconciliation pass.
  - `Reconcile` gives the pass as a function of the store.
  - `FormValidatorService` holds the methods that perform the pass on a `Document` step by step. They are proved equal to `Reconcile`.
  - The lemmas about `Reconcile` state what a pass does.

A form is a map from key to `Control(dirty, errors)`. `errors` is `None` for `null`. Otherwise it is the error map's keys in insertion order.

Where the code differs from what its names and tables suggest, the model follows the code:

- There is no fallback message. A reason without a translation resolves to `None`, which is `undefined` in the source.
- An unknown language code leaves the base table as it was. The base table is not reset.
- The stale spans are detached before the field element is checked. This happens even when the element is then skipped.
- On a pristine invalid field, the pass removes `ng-dirty`, `ok-field` and `ng-valid`. It leaves `error-field` alone.
- The max-length warning is not part of the pass. Its only call is commented out.
- A silent failure (`customError` `"none"`) reports `senseMissatge`. Neither table defines that key. Both tables define `withoutMessage` as the empty string, and nothing reports that key. See Findings.

## Model

| member | source | states |
|---|---|---|
| `Validators.MatchesDigits` | src/lib/validators/custom-validator.component.ts:6 | the pattern `^[0-9]*$` matches exactly the strings whose every character is an ASCII digit |
| `Validators.OnlyNumber` | src/lib/validators/custom-validator.component.ts:5-7 | the result is `null` or `{number}`; it is `{number}` exactly when some character is not a digit; the empty value passes |
| `Validators.MatchesBlank` | src/lib/validators/custom-validator.component.ts:10 | the pattern `^\s*$` matches exactly the strings made only of JavaScript whitespace |
| `Validators.HasWhiteSpaceLine` | src/lib/validators/custom-validator.component.ts:9-13 | the result is `{whiteSpaceLine}` exactly when the value is non-empty and all whitespace, otherwise `null` |
| `Validators.Find` | src/lib/validators/custom-validator.component.ts:17 | `find` with `===` succeeds exactly when the value is in the list, and returns an element equal to it |
| `Validators.MissingValueKey` | src/lib/validators/custom-validator.component.ts:21-25 | `"none"` gives `senseMissatge`; any other non-empty name gives itself; an absent or empty name gives `valueNoExist` |
| `Validators.IntroducedValueExists` | src/lib/validators/custom-validator.component.ts:15-27 | never `null`; the empty map `{}` exactly when the value is empty or strictly equal to a list element; otherwise a map with exactly one key, chosen by `customError` |
| `Validators.Utf8Width` | src/lib/validators/custom-validator.component.ts:31 | one code point takes 1 to 4 bytes (section 3 of RFC 3629), and 1 byte exactly when it is ASCII |
| `Validators.Utf8Len` | src/lib/validators/custom-validator.component.ts:31 | the byte size of a one-part `Blob` lies between the code-point count and four times it |
| `Validators.Utf8LenAppend` | src/lib/validators/custom-validator.component.ts:31 | byte size is additive over concatenation |
| `Validators.Utf8LenAscii` | src/lib/validators/custom-validator.component.ts:31 | an ASCII value takes one byte per character |
| `Validators.MaxByte` | src/lib/validators/custom-validator.component.ts:29-34 | `{maxlength}` exactly when the byte size exceeds an integer limit, otherwise `null`; a value of exactly the limit passes |
| `Validators.MaxByteRejectsLongValues` | src/lib/validators/custom-validator.component.ts:31-32 | a value with more code points than the limit always fails |
| `Validators.MaxByteAsciiIsLengthCheck` | src/lib/validators/custom-validator.component.ts:31-32 | on ASCII values the check is a plain length check |
| `Validators.PatternExamples` | src/lib/validators/custom-validator.component.ts:5-13 | concrete cases: `"123"`, `"0"` and `""` are numbers and `"12a"` is not; `"   "` is a whitespace line and `""` and `" a "` are not |
| `Validators.FactoryExamples` | src/lib/validators/custom-validator.component.ts:15-34 | concrete cases: list membership with the default, `"none"` and custom keys; 5 and 6 bytes against `maxByte(5)`, also with a two-byte character |
| `Validators.IntendedMissingValueKey` | src/lib/validators/custom-validator.component.ts:21-25 | the corrected key: `"none"` gives `withoutMessage`, and every other `customError` gives the same key as the code as written |
| `Validators.IntendedIntroducedValueExists` | src/lib/validators/custom-validator.component.ts:22 | the corrected validator passes (with `{}`) or fails on the same values, and reports a silent failure as `withoutMessage` |
| `I18n.EnUsEntries` | src/lib/assets/i18n/en_US.ts:3-15 | `withoutMessage` is empty; `required`, `whiteSpaceLine`, `number` and `valueNoExist` have their listed texts |
| `I18n.EnUsMissingKeys` | src/lib/assets/i18n/en_US.ts:1-16 | en_US has no `senseMissatge` and no `maxlengthPermes` entry |
| `I18n.EsEsEntries` | src/lib/assets/i18n/es_ES.ts:3-17 | `withoutMessage` is empty; `required` and `number` have their listed texts; the leading and trailing whitespace keys exist only in es_ES |
| `I18n.EnUsKeysInEsEs` | src/lib/assets/i18n/en_US.ts:1-16 | every en_US key is an es_ES key, and es_ES has exactly the two whitespace keys more |
| `I18n.TableSizes` | src/lib/assets/i18n/es_ES.ts:1-18 | es_ES has 16 keys and en_US 14 |
| `I18n.EsEsOnlySilentKeyEmpty` | src/lib/assets/i18n/es_ES.ts:2-17 | in es_ES only `withoutMessage` maps to the empty string |
| `Translate.TableFor` | src/lib/services/translate.service.ts:19-30 | `es_ES` and `en_US` select their built-in tables, and only those two codes select one |
| `Translate.TranslateService.constructor` | src/lib/services/translate.service.ts:11-12 | both tables start undefined |
| `Translate.TranslateService.SetCustomTranslations` | src/lib/services/translate.service.ts:14-16 | the override table is replaced wholesale and the base table is untouched |
| `Translate.TranslateService.SetTranslationLanguaje` | src/lib/services/translate.service.ts:18-31 | the two known codes set the base table to their table; any other code leaves it unchanged; the override is untouched |
| `Translate.TranslateService.GetTranslation` | src/lib/services/translate.service.ts:33-35 | the merged keys are the union of both tables' keys; an override key maps to the override value; a base-only key keeps its base value; with no base, the result is exactly the override (or empty); nothing changes |
| `FormValidator.Rank` | src/lib/services/formValidator.service.ts:92-98 | only `required` and `whiteSpaceLine` rank above the other reasons |
| `FormValidator.SelectedKey` | src/lib/services/formValidator.service.ts:92-98 | the chosen key is one of the reasons (`"undefined"` for none); no reason outranks it; among equally ranked ordinary reasons the first is chosen |
| `FormValidator.OrderErrors` | src/lib/services/formValidator.service.ts:92-99 | the message is the table's entry for the chosen key, `None` when the table has none |
| `FormValidator.OrderErrorsPriority` | src/lib/services/formValidator.service.ts:92-98 | `required` wins at any position; otherwise `whiteSpaceLine` wins; otherwise the first reason's entry is used |
| `FormValidator.OrderErrorsIgnoresOrder` | src/lib/services/formValidator.service.ts:93-96 | when `required` or `whiteSpaceLine` is present, reordering the reasons does not change the message |
| `FormValidator.OrderErrorsEnUs` | src/lib/services/formValidator.service.ts:92-99 | with en_US: `["maxlength","required"]` gives "Required field"; `whiteSpaceLine` beats `number`; `["number","maxlength"]` gives "Must be a number"; `["senseMissatge"]` and `[]` find no entry |
| `FormValidator.ReconcileFrame` | src/lib/services/formValidator.service.ts:36-85 | a pass changes no element but the field's own, and no element's tag or parent |
| `FormValidator.ReconcileSkipsNonLeaf` | src/lib/services/formValidator.service.ts:52-55 | with no element of the field's id, or a `TABLE` or `DIV` one, detaching the stale spans is the only change |
| `FormValidator.ReconcileShowsError` | src/lib/services/formValidator.service.ts:64-70 | invalid and dirty: the span `error-field-message-<key>` with the resolved message is appended last under the parent, if there is one; the field gains `ng-dirty`, `ng-touched` and `error-field` and loses `ok-field`, and no other class changes |
| `FormValidator.ReconcileHidesError` | src/lib/services/formValidator.service.ts:71-73 | invalid and pristine: no span, and the field loses `ng-dirty`, `ok-field` and `ng-valid` |
| `FormValidator.ReconcileMarksValid` | src/lib/services/formValidator.service.ts:76-85 | no control, or `errors` is null: no span; the field gains `ok-field`, `ng-valid` and `ng-touched` and loses `error-field` |
| `FormValidator.ReconcileMarkersExclusive` | src/lib/services/formValidator.service.ts:64-85 | after a pass on a leaf field, it never has both `ok-field` and `error-field` |
| `FormValidator.ReconcileFeedback` | src/lib/services/formValidator.service.ts:40-70 | after a pass no warning span of the field exists; an error span exists exactly for a leaf field with a parent whose control is dirty and has errors |
| `FormValidator.ReconcileKeepsUnique` | src/lib/services/formValidator.service.ts:40-68 | a pass keeps every span id unique, so a field never has two error spans |
| `FormValidator.ClearFeedbackIdempotent` | src/lib/services/formValidator.service.ts:52-53 | detaching leaves neither span id anywhere, and detaching twice is detaching once |
| `FormValidator.ReconcileIdempotent` | src/lib/services/formValidator.service.ts:36-85 | a second pass with an unchanged form and store gives the same classes and the same span lists as the first |
| `FormValidator.FormValidatorService.constructor` | src/lib/services/formValidator.service.ts:11-13 | the service captures the merged translation table once, at construction |
| `FormValidator.FormValidatorService.ManageValidateFields` | src/lib/services/formValidator.service.ts:36-62 | the steps leave the store in the state `Reconcile` gives, and keep span ids unique |
| `FormValidator.FormValidatorService.ManageErrors` | src/lib/services/formValidator.service.ts:64-74 | the steps leave the store as the error branch of the pass describes |
| `FormValidator.FormValidatorService.ManageValid` | src/lib/services/formValidator.service.ts:76-85 | the steps leave the store as the valid branch of the pass describes; no span is added |
| `FormValidator.FormValidatorService.RunJob` | src/lib/services/formValidator.service.ts:18-23 | one deferred job forces the control dirty when asked, then runs the pass on the updated form |
| `FormValidator.MarkDirty` | src/lib/services/formValidator.service.ts:20 | only the named control changes, and only its dirty flag, which becomes true; a missing control is skipped |
| `FormValidator.Watched` | src/lib/services/formValidator.service.ts:24-31 | the watched keys are exactly the keys that are non-empty, hold no `.` (which `form.get` reads as a path separator), have a control, and are not forced dirty |
| `FormValidator.WatchedSingle` | src/lib/services/formValidator.service.ts:24-25 | a single key is subscribed exactly when it is watched |
| `FormValidator.WatchedAppend` | src/lib/services/formValidator.service.ts:17-31 | subscriptions keep the order of the value keys: the watched keys of a concatenation are those of each part, in turn |
| `FormValidator.ManageValidateErrors` | src/lib/services/formValidator.service.ts:16-34 | one job per key of the form value, in order, each carrying the force-dirty flag; the subscriptions are exactly the watched keys |
| `FormValidator.EndToEndAge` | src/lib/services/formValidator.service.ts:36-74 | field `age` with `"12a"` under `onlyNumber`, en_US: while pristine there is no span and no ok marker; once dirty, the span `error-field-message-age` reads "Must be a number" |
| `FormValidator.SilentFailureShowsUndefined` | src/lib/validators/custom-validator.component.ts:22 | as written, a silent failure reports `senseMissatge`, and neither built-in table resolves it |
| `FormValidator.SilentFailureShowsNothing` | src/lib/validators/custom-validator.component.ts:22 | corrected, a silent failure resolves to the empty message under both tables |
| `FormValidator.PassedListCheckShowsError` | src/lib/validators/custom-validator.component.ts:17-18 | the `{}` that `introducedValueExists` passes with is truthy: taken as a dirty leaf field's `errors`, the pass appends an error span holding the entry for `"undefined"` and marks the field `error-field`, not `ok-field` |
| `FormValidator.EndToEndCity` | src/lib/services/formValidator.service.ts:64-70 | field `city`, `"Tokyo"` against `["NY","LN"]` with `"none"`, dirty, corrected key: the span is empty and the field is marked as an error, not ok |
| `Dom.Document.GetElementById` | src/lib/services/formValidator.service.ts:37-41 | an element is found exactly when the page has one with that id, and it is that element; otherwise the result is `null` |
| `Dom.Document.Remove` | src/lib/services/formValidator.service.ts:52-53 | detaching a span by id removes it from its parent's list and keeps span ids unique |
| `Dom.Document.Append` | src/lib/services/formValidator.service.ts:68 | appending puts the span last under the parent and keeps span ids unique |
| `Dom.Document.AddClasses` | src/lib/services/formValidator.service.ts:69 | the element's class set gains the given classes; nothing else changes |
| `Dom.Document.RemoveClasses` | src/lib/services/formValidator.service.ts:70 | the element's class set loses the given classes; nothing else changes |

## Left out

- Timing in `manageValidateErrors`. The `setTimeout` deferral and the `valueChanges` subscriptions are modelled only as a queue of jobs and a list of watched keys. A value change on a watched key enqueues one job without forced dirtiness, and `RunJob` runs a job. Nothing is claimed about when jobs run or in what interleaving.
- `checkMaxLength` and the max-length warning. The only call is commented out, so no pass ever inserts a warning span.
- `manageValid` writing `translations.required` into the span it never attaches. This has no effect on the store.
- The real DOM and the Angular form API, replaced by the `Document` store and the `Form` map:
  - Feedback spans are kept apart from the page's other elements. A page element that itself carries a feedback-span id is not detached.
  - Detaching a node's subtree is not modelled.
  - The order of the parent's other children is not modelled.
  - Parents are named by a handle. For a parent without an id, the handle stands in for the node reference.
- `Dom.Document.Remove`: detaches every span with the id. `getElementById` finds only the first, but the two agree because `Document.Valid` keeps span ids unique.
- Values that are not strings:
  - `onlyNumber` on `null` throws in the source. Numbers are modelled by their string form, and no float formatting is modelled.
  - Non-string list elements in `introducedValueExists` are not modelled.
  - Non-string translation values are not modelled.
- UTF-16: lone surrogates (which `Blob` encodes as U+FFFD) cannot occur in a Dafny string.
- `IsWhitespace` lists ECMAScript's WhiteSpace and LineTerminator code points as of current Unicode. Later changes to the space-separator category are not tracked.
- JavaScript object details:
  - prototype properties reachable through a key such as `toString`;
  - integer-like keys, which `Object.keys` lists first.
- `Validators.IntroducedValueExists`: its passing result `{}` is truthy. Whether that `{}` reaches a control's `errors` depends on how the form framework combines a control's validators, which is not modelled. A combined validator list drops an empty map. A lone validator keeps it. `FormValidator.PassedListCheckShowsError` states what the pass does when it does reach `errors`.
- `Validators.MaxByte`: only integer limits are modelled. The source's limit is a JavaScript number. With a fractional limit such as 5.5, a 6-byte value passes, since `6 >= 6.5` is false. With a `NaN` limit, no value ever fails.
- `FormValidator.Watched`: forms are flat maps, so nested groups and the paths `form.get` walks through them are not modelled. A key holding a `.` gets its job but no subscription.
- `FormValidator.OrderErrors`: `Some([])` stands for an errors object with no keys. For it, the model looks up the key `"undefined"`, as `errors[0]` does.
- The Angular module wiring (`ngx-forms-validator.module.ts`) and dependency injection.

## Findings

| source | as written | input that shows it | evidently intended | confidence | as-written member | corrected member |
|---|---|---|---|---|---|---|
| src/lib/validators/custom-validator.component.ts:22 | a silent failure (`customError` `"none"`) reports the key `senseMissatge`, which neither built-in table defines | `introducedValueExists(["NY","LN"], "none")` on `"Tokyo"`, dirty field, en_US table, no overrides: `orderErrors(["senseMissatge"])` is `undefined`, so the span's `innerHTML` is set to `undefined` and shows the text "undefined" | report `withoutMessage`, which both tables define as the empty string and which nothing in the code reports, so that nothing is shown while the field stays invalid | medium (an application could add `senseMissatge` through the override table); not executed | `FormValidator.SilentFailureShowsUndefined` | `FormValidator.SilentFailureShowsNothing` |
