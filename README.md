# Business blueprint wizard: a Dafny model

The application is a single React component, `BusinessBlueprintApp`. It is a
three-page form wizard that collects a business profile and then asks a text
generator for a 90-day plan. The generator replies with free text. The
component recovers a JSON document from that text, parses it, and shows it
as the plan. If anything fails, it shows an alert whose wording depends on
the error.

This project models that component's logic and proves properties about it:

- `wrappers.dfy` (`Wrappers`): the `Option` and `Result` types.
- `js_string.dfy` (`JsString`): the JavaScript string built-ins the component
  relies on, with their standard semantics:
  - the `\s` class and `trim`;
  - `indexOf` and `lastIndexOf`, which return -1 when there is no match;
  - `substring`, which clamps both arguments and swaps them when the first
    is larger;
  - `includes`;
  - the decimal text of a status number.
- `profile.dfy` (`Profile`): the `formData` record and the pure parts of its
  handlers:
  - setting one text field (`handleInputChange`);
  - toggling a challenge tag (`handleChallengeToggle`);
  - the per-step gate (`canProceed`).
- `payload.dfy` (`PayloadExtraction`): recovering the payload from the
  reply text. Every "```json" marker is deleted with the white space after
  it, then every "```" marker with the white space after it, and the result
  is trimmed. The text from the first `{` to the last `}` is then cut out,
  and a missing brace is an error.
- `error_report.dfy` (`ErrorReport`): the catch block's classifier, which
  turns a thrown message into the alert text.
- `generation.dfy` (`Generation`): the `try` block as a function from an
  abstract reply and a `JSON.parse` parameter to a plan or an error message,
  plus the JavaScript truthiness that `if (blueprint)` tests.
- `wizard.dfy` (`BlueprintWizard`): the component state as a class whose
  handlers update `currentStep`, `isGenerating`, `blueprint` and `formData`
  in place. `ReadPlan` reassigns the working `responseText` step by step,
  as the source does.

The wizard keeps an invariant, `Valid`:

- the step is between 0 and 3;
- no request is in flight between user events;
- no challenge is selected twice;
- a plan is shown only on the last step.

The model follows the code as written in these respects:

- The code performs no schema validation of the parsed plan. Any value
  `JSON.parse` returns is stored as the plan.
- A parse result that is not truthy, such as `null`, is still stored, and the
  wizard still moves to step 3. The plan view is then not shown, because
  `if (blueprint)` is false.
- The brace cut reproduces the argument swap of `substring`. A reply such as
  "} x {" yields " x ", which is not a braced region.
- A failed request is reported only through the text of its error message,
  not as a typed error.

## Model

| member | source | states |
|---|---|---|
| JsString.IsJsSpace | components/BusinessBlueprintApp.jsx:173 | the one white-space set that both `\s` and `trim()` use: the standard's WhiteSpace and LineTerminator characters; its properties are stated by TrimStartRemovesSpace and TrimEndRemovesSpace |
| JsString.TrimStart | components/BusinessBlueprintApp.jsx:173 | the greedy `\s*` after a marker leaves a suffix of the text that does not start with white space |
| JsString.TrimStartRemovesSpace | components/BusinessBlueprintApp.jsx:173 | every character skipped by the greedy `\s*` is white space |
| JsString.TrimEnd | components/BusinessBlueprintApp.jsx:173 | the end trim leaves a prefix of the text that does not end with white space |
| JsString.TrimEndRemovesSpace | components/BusinessBlueprintApp.jsx:173 | every character the end trim drops is white space |
| JsString.Trim | components/BusinessBlueprintApp.jsx:173 | `trim()` returns a contiguous piece of its input with no white space at either end |
| JsString.TrimKeepsOnlyInput | components/BusinessBlueprintApp.jsx:173 | trimming never introduces a character |
| JsString.TrimAround | components/BusinessBlueprintApp.jsx:173 | `trim()` keeps whole a middle part that starts and ends with non-space characters and only shortens what surrounds it |
| JsString.IndexOf | components/BusinessBlueprintApp.jsx:175 | `indexOf('{')` is -1 exactly when there is no `{`, and otherwise the position of a `{` with none before it |
| JsString.LastIndexOf | components/BusinessBlueprintApp.jsx:176 | `lastIndexOf('}')` is -1 exactly when there is no `}`, and otherwise the position of a `}` with none after it |
| JsString.IndexOfAt | components/BusinessBlueprintApp.jsx:175 | an occurrence with none before it is the one `indexOf` reports |
| JsString.LastIndexOfAt | components/BusinessBlueprintApp.jsx:176 | an occurrence with none after it is the one `lastIndexOf` reports |
| JsString.Substring | components/BusinessBlueprintApp.jsx:182 | `substring` with ordered in-range arguments cuts exactly that slice, with reversed ones the swapped slice, and is never longer than the text |
| JsString.Includes | components/BusinessBlueprintApp.jsx:195-197 | `includes(t)` holds exactly when `t` occurs at some position |
| JsString.NotIncludedAfterPrefix | components/BusinessBlueprintApp.jsx:195 | a prefix lacking the first character of `t` cannot create an occurrence of `t` |
| JsString.FirstCharAbsent | components/BusinessBlueprintApp.jsx:195-197 | `t` does not occur where its first character is absent from every position at which `t` would fit |
| JsString.DecimalString | components/BusinessBlueprintApp.jsx:160 | the interpolated status number is a non-empty run of digits with no leading zero (a lone "0" for zero) whose decimal value is the status |
| PayloadExtraction.StripMarker | components/BusinessBlueprintApp.jsx:173 | a global replace of a marker and its trailing white space never lengthens the text; StripMarkerAtMarker (a marker at the front) and StripMarkerSkipsNoStart (a first character that starts no marker) fix every step of the scan, so its value is the replace's: text where no marker starts is kept, stray backticks included, and each marker is deleted with the white space after it |
| PayloadExtraction.StripMarkerKeepsOnlyInput | components/BusinessBlueprintApp.jsx:173 | deleting markers never introduces a character |
| PayloadExtraction.StripMarkerSkipsPlainText | components/BusinessBlueprintApp.jsx:173 | text without the marker's first character passes through unchanged and does not disturb the scan after it |
| PayloadExtraction.StripMarkerSkipsNoStart | components/BusinessBlueprintApp.jsx:173 | a prefix at none of whose positions the marker starts is kept as it is, stray backticks included, and the scan of the text after it is undisturbed |
| PayloadExtraction.InlineBacktickKept | components/BusinessBlueprintApp.jsx:173 | a backtick of inline code before a closing fence survives the "```" pass: "`x```" becomes "`x" |
| PayloadExtraction.StripMarkerNoMarker | components/BusinessBlueprintApp.jsx:173 | a text in which the marker does not occur is left exactly as it is, even where it holds single or double backticks |
| PayloadExtraction.StripMarkerIdentity | components/BusinessBlueprintApp.jsx:173 | text without backticks is unchanged by either replace |
| PayloadExtraction.StripMarkerAtMarker | components/BusinessBlueprintApp.jsx:173 | a marker at the front is deleted together with the white space after it |
| PayloadExtraction.CleanResponse | components/BusinessBlueprintApp.jsx:173 | both marker passes and `trim()` never lengthen the reply and leave no white space at either end; FencesAndProseIgnored and CleanKeepsOnlyInput state what survives |
| PayloadExtraction.CleanKeepsOnlyInput | components/BusinessBlueprintApp.jsx:173 | every character of the cleaned text was in the reply |
| PayloadExtraction.CleanPlainText | components/BusinessBlueprintApp.jsx:173 | a reply without backticks and with non-space ends is its own cleaned text |
| PayloadExtraction.SliceBraces | components/BusinessBlueprintApp.jsx:175-182 | the cut fails exactly when a `{` or a `}` is missing, with "No valid JSON found in response"; otherwise it is never longer than the cleaned text |
| PayloadExtraction.ExtractPayload | components/BusinessBlueprintApp.jsx:173-182 | the extraction fails, with "No valid JSON found in response", exactly when the cleaned reply lacks a `{` or a `}`, and a payload is never longer than the reply; PayloadIsBraceRegion and SwappedRegion give the cut |
| PayloadExtraction.PayloadIsBraceRegion | components/BusinessBlueprintApp.jsx:175-182 | when the first `{` is not after the last `}`, the payload is the inclusive slice between them: it opens with `{`, closes with `}`, no `{` precedes it and no `}` follows it |
| PayloadExtraction.SwappedRegion | components/BusinessBlueprintApp.jsx:182 | when the last `}` precedes the first `{`, the swapped `substring` yields the text strictly between them, which holds no brace at all |
| PayloadExtraction.SwappedReply | components/BusinessBlueprintApp.jsx:173-182 | for every brace-free, backtick-free `m`, the reply "}" + m + "{" yields `m` |
| PayloadExtraction.SwappedRegionExample | components/BusinessBlueprintApp.jsx:182 | the reply "} x {" yields " x " |
| PayloadExtraction.NoOpeningBraceFails | components/BusinessBlueprintApp.jsx:175-180 | a reply without `{` fails with "No valid JSON found in response" |
| PayloadExtraction.BracesAround | components/BusinessBlueprintApp.jsx:175-182 | a braced payload surrounded by brace-free text is found and cut out exactly |
| PayloadExtraction.OpeningFenceDropped | components/BusinessBlueprintApp.jsx:173 | the first replace deletes an opening "```json" fence with its line break and leaves the payload after it untouched |
| PayloadExtraction.FirstPass | components/BusinessBlueprintApp.jsx:173 | after the first replace a fenced reply reads: prose, payload, line break, remainder of the closing fence |
| PayloadExtraction.SecondPass | components/BusinessBlueprintApp.jsx:173 | after the second replace the payload is still whole, followed by a line break and what is left of the closing fence and prose |
| PayloadExtraction.CleanedWrapped | components/BusinessBlueprintApp.jsx:173 | after the trim the payload sits whole between the trimmed leading prose and the trimmed tail |
| PayloadExtraction.WrappedTailBraceFree | components/BusinessBlueprintApp.jsx:173 | prose after the closing fence keeps no brace through both replaces |
| PayloadExtraction.WrappedRemaindersBraceFree | components/BusinessBlueprintApp.jsx:173 | what surrounds the payload after cleaning holds no brace |
| PayloadExtraction.WrappedExtraction | components/BusinessBlueprintApp.jsx:173-182 | a payload inside a "```json" fence with prose around it is extracted exactly |
| PayloadExtraction.BareExtraction | components/BusinessBlueprintApp.jsx:173-182 | a bare braced payload is extracted exactly |
| PayloadExtraction.FencesAndProseIgnored | components/BusinessBlueprintApp.jsx:173-182 | the fenced reply with prose and the bare payload yield the same payload |
| ErrorReport.TransportMessage | components/BusinessBlueprintApp.jsx:160 | the thrown text is "API request failed: ", then exactly the decimal text of the status (DecimalString, whose value is the status), then " - " and the response body |
| ErrorReport.UserMessage | components/BusinessBlueprintApp.jsx:194-201 | the alert always starts with "Error generating blueprint: "; a message naming "JSON" gives the invalid-format text, else one naming "API request failed" gives the connection text, else the message itself follows |
| ErrorReport.NoPayloadIsInvalidFormat | components/BusinessBlueprintApp.jsx:194-196 | the missing-brace error is reported as an invalid format |
| ErrorReport.ParseFailureIsInvalidFormat | components/BusinessBlueprintApp.jsx:194-196 | any message that contains "JSON", such as a parse error, is reported as an invalid format |
| ErrorReport.TransportFailureIsConnection | components/BusinessBlueprintApp.jsx:194-198 | a non-success status whose body does not mention JSON is reported as a connection error |
| ErrorReport.TransportBodyNamingJsonIsInvalidFormat | components/BusinessBlueprintApp.jsx:194-198 | the "JSON" test comes first, so a failed request whose body mentions JSON is reported as an invalid format |
| ErrorReport.InvalidStructurePassesThrough | components/BusinessBlueprintApp.jsx:194-201 | "Invalid response structure from API" is shown as it is |
| Generation.Pipeline | components/BusinessBlueprintApp.jsx:166-185 | the `try` block from the reply to the parsed plan or the thrown message; it carries no contract of its own, and its properties are stated by PipelineOutcomes, FencedReplyParsesPayload, BracelessReplyAlert and SwappedReplyParsed |
| Generation.Truthy | components/BusinessBlueprintApp.jsx:236 | JavaScript truthiness of the parsed plan: `null`, `false`, zero and the empty string are falsy, and every array and object is truthy |
| Generation.PipelineOutcomes | components/BusinessBlueprintApp.jsx:166-185 | a plan only comes from `JSON.parse` applied to the cut payload; an empty reply text and a reply without a brace pair fail with their own messages |
| Generation.FencedReplyParsesPayload | components/BusinessBlueprintApp.jsx:173-185 | a fenced reply with prose around it is parsed exactly as the bare payload is |
| Generation.BracelessReplyAlert | components/BusinessBlueprintApp.jsx:175-196 | a reply without `{` fails before parsing and its alert is the invalid-format text |
| Generation.SwappedReplyParsed | components/BusinessBlueprintApp.jsx:182-185 | a reply that closes a brace before it opens one hands the parser the text between them |
| Profile.WithField | components/BusinessBlueprintApp.jsx:48-53 | `handleInputChange` sets the named field to the value and leaves every other field and the challenges unchanged |
| Profile.FieldsDetermineRecord | components/BusinessBlueprintApp.jsx:9-21 | the ten text fields and the challenges determine the record |
| Profile.WithFieldOverrides | components/BusinessBlueprintApp.jsx:48-53 | writing a field's own value back changes nothing, and a second write to a field overrides the first |
| Profile.RemoveAll | components/BusinessBlueprintApp.jsx:59 | the filter keeps exactly the entries other than the tag |
| Profile.RemoveAllCounts | components/BusinessBlueprintApp.jsx:59 | the filter keeps every other entry as many times as it occurred |
| Profile.RemoveAllConcat | components/BusinessBlueprintApp.jsx:59 | the filter distributes over concatenation, so kept entries keep their relative order |
| Profile.RemoveAllAbsent | components/BusinessBlueprintApp.jsx:59 | filtering out an absent tag changes nothing |
| Profile.Toggle | components/BusinessBlueprintApp.jsx:55-62 | after a toggle the tag is selected exactly when it was not before; an absent tag is appended at the end of the unchanged list; filtering the tag out of the old and the new list gives the same list, so every other entry keeps its order and its number of occurrences |
| Profile.ToggleTwiceAbsent | components/BusinessBlueprintApp.jsx:55-62 | toggling an absent tag twice restores the original list, order included |
| Profile.ToggleTwicePresent | components/BusinessBlueprintApp.jsx:55-62 | toggling a present tag twice removes all its copies and puts one at the end |
| Profile.RemoveAllDistinct | components/BusinessBlueprintApp.jsx:59 | filtering keeps a duplicate-free list duplicate-free |
| Profile.ToggleDistinct | components/BusinessBlueprintApp.jsx:55-62 | a toggle never introduces a duplicate |
| Profile.CanProceed | components/BusinessBlueprintApp.jsx:223-234 | the gate is open exactly on steps 0 to 2 with every required text field of the step non-empty and, on step 1, at least one challenge |
| Profile.EditAndGate | components/BusinessBlueprintApp.jsx:223-234 | editing a field the step does not require leaves its gate unchanged; clearing a required field closes it |
| Profile.ToggleAndGate | components/BusinessBlueprintApp.jsx:223-234 | toggling a challenge only matters to step 1's gate, and there selecting a new tag never closes it |
| BlueprintWizard.ReadPlan | components/BusinessBlueprintApp.jsx:166-185 | the step-by-step reassignment of `responseText` yields the plan or error that the generation function defines |
| BlueprintWizard.Wizard.constructor | components/BusinessBlueprintApp.jsx:6-21 | the wizard starts valid on step 0 with an empty form, no plan and no request in flight |
| BlueprintWizard.Wizard.ShowsBlueprint | components/BusinessBlueprintApp.jsx:236-390 | the plan view replaces the form whenever the stored plan is truthy; the view has no inputs and no step buttons, so every user-event method requires it to be off, and `Valid` keeps it to the last step |
| BlueprintWizard.Wizard.CanProceedNow | components/BusinessBlueprintApp.jsx:223-234 | when the gate is open the step is a form step, and on step 1 a challenge is selected |
| BlueprintWizard.Wizard.HandleInputChange | components/BusinessBlueprintApp.jsx:48-53 | only the named field of the form changes, and the invariant is kept; it can only happen while the form is shown |
| BlueprintWizard.Wizard.HandleChallengeToggle | components/BusinessBlueprintApp.jsx:55-62 | only the challenges change: the tag's selection flips and no duplicate appears |
| BlueprintWizard.Wizard.GenerateBlueprint | components/BusinessBlueprintApp.jsx:64-207 | success stores the parsed plan and moves to step 3; any failure leaves the step and the plan unchanged and returns the classified alert; the busy flag ends cleared and the form is untouched |
| BlueprintWizard.Wizard.Settle | components/BusinessBlueprintApp.jsx:188-206 | the end of the request: a parsed plan is stored and the wizard moves to step 3, a thrown message leaves the step and the plan as they were and becomes the classified alert, and the busy flag is cleared either way |
| BlueprintWizard.Wizard.NextStep | components/BusinessBlueprintApp.jsx:209-215 | below step 2 the step goes up by exactly one; on step 2 generation runs with the effects above; on step 3 nothing changes |
| BlueprintWizard.Wizard.PrevStep | components/BusinessBlueprintApp.jsx:217-221 | above step 0 the step goes down by exactly one; on step 0 it stays, so it never goes below 0 |
| BlueprintWizard.Wizard.ClickNext | components/BusinessBlueprintApp.jsx:665-667 | with the gate closed the click changes nothing; with it open, a click below step 2 moves up exactly one step, and a click on step 2 runs generation with its success and failure effects; whenever the step changes, the gate of the step left was open, with all its required fields filled in |
| BlueprintWizard.Wizard.ClickPrevious | components/BusinessBlueprintApp.jsx:652-654 | the Previous button of the form moves back one step and is inert on step 0 |

## Left out

- The HTTP request, the status check, the body decoding and the envelope
  check (components/BusinessBlueprintApp.jsx:142-168) are network I/O. A
  request ends either as `Failed(message)`, carrying the message the source
  would throw, or as `Replied(text)`, carrying the first content block's
  text. The status message format is kept as `ErrorReport.TransportMessage`
  so that the classifier's connection branch can be stated.
- `JSON.parse` (components/BusinessBlueprintApp.jsx:185) is a foreign parser.
  It is an uninterpreted function parameter that returns a value or an error
  message.
- Generation.Pipeline has no contract of its own. Its properties are stated
  in Generation.PipelineOutcomes and the lemmas after it.
- Generation.Truthy and BlueprintWizard.Wizard.ShowsBlueprint are predicates
  without contracts. Their effect is in `Valid` and in the requirements of
  the user-event methods.
- JsString.IsJsSpace has no contract of its own. It is the set of characters
  listed in the language standard.
- The prompt template (components/BusinessBlueprintApp.jsx:68-138) is fixed
  string interpolation and is left out.
- JSX rendering, styling, the step indicator and the upsell banner are
  presentation and are left out. The model keeps only:
  - the Next and Previous buttons' disabled conditions;
  - the `if (blueprint)` test, as `ShowsBlueprint`. While it holds, the plan
    view is shown. That view offers no input and no step button; its one
    button (components/BusinessBlueprintApp.jsx:383) has no handler. The
    user-event methods therefore require the form to be showing.
- The rendering of the plan's fields (components/BusinessBlueprintApp.jsx:257-369)
  is left out. It is where a malformed plan would fail.
- `console.log`, `console.error` and `alert` are logging and UI. The alert
  text is returned to the caller instead of displayed.
- React's asynchronous scheduling and batched `setState` are left out.
  Generation is one atomic transition, so the spinner state while a request
  is in flight is not observable in the model. The Next and Previous buttons
  are hidden while `isGenerating` holds, and that hiding is not modelled.
- The code does not validate the plan against a schema, so the model does not either.
- BlueprintWizard.Wizard.HandleInputChange: only the ten text fields are
  modelled as keys. The source accepts any key, but its inputs only pass
  these.
- BlueprintWizard.Wizard.HandleInputChange and
  BlueprintWizard.Wizard.HandleChallengeToggle accept every field and every
  challenge on every form step. The source renders each input only on its
  own step (components/BusinessBlueprintApp.jsx:442, :501, :574), so there a
  field of an earlier step cannot be cleared once the wizard has moved on.
  The model therefore does not promise that the gates of earlier steps still
  hold when generation starts.
- The wrapped-reply lemmas (PayloadExtraction.WrappedExtraction,
  PayloadExtraction.FencesAndProseIgnored and
  Generation.FencedReplyParsesPayload) assume that the leading prose and the
  payload hold no backtick. StripMarkerSkipsNoStart covers single backticks
  in general, but these end-to-end statements were not extended to them.
- Generation.JsonValue: numbers are reals, so `NaN`, which is not truthy, is
  not represented.
- JsString: characters are Dafny characters, not UTF-16 code units. Every
  character the modelled operations test lies in the Basic Multilingual
  Plane, so the cut payload is the same text either way.
- JsString.IndexOf and JsString.LastIndexOf count positions in characters.
  After a character outside the Basic Multilingual Plane, which takes two
  UTF-16 units, JavaScript's `indexOf` and `lastIndexOf` report larger
  positions than the model does.
