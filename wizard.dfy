/**
 * The blueprint wizard's component state and the handlers that update it:
 * the current step (0 to 2 for the three form pages, 3 once a plan has
 * arrived), the generation flag, the parsed plan and the form record.
 */
module BlueprintWizard {
  import opened Wrappers
  import opened JsString
  import opened Profile
  import opened PayloadExtraction
  import opened ErrorReport
  import opened Generation

  /** The step reached once a plan has been generated. */
  const BlueprintStep := 3

  /** The `try` block of the generation: a failed request throws its
    * message; the reply text is taken through the cleaning, the brace
    * search, the cut and `JSON.parse`, reassigning one working string at
    * each step. */
  method ReadPlan(reply: Reply, parse: Parser) returns (outcome: Result<JsonValue, string>)
    ensures outcome == Pipeline(reply, parse)
  {
    if reply.Failed? {
      return Err(reply.message);
    }
    var text := reply.text;
    if text == [] {
      return Err(InvalidStructure);
    }
    var responseText := text;
    responseText := StripMarker(responseText, JsonFence);
    responseText := StripMarker(responseText, Fence);
    responseText := Trim(responseText);
    ghost var cleaned := responseText;
    assert cleaned == CleanResponse(text);
    var jsonStart := IndexOf(responseText, '{');
    var jsonEnd := LastIndexOf(responseText, '}');
    if jsonStart == -1 || jsonEnd == -1 {
      assert SliceBraces(cleaned) == Err(NoJsonFound);
      return Err(NoJsonFound);
    }
    responseText := Substring(responseText, jsonStart, jsonEnd + 1);
    assert SliceBraces(cleaned) == Ok(responseText);
    outcome := parse(responseText);
  }

  class Wizard {
    var currentStep: int
    var isGenerating: bool
    var blueprint: JsonValue
    var formData: FormData

    /** Between two user events the step is one of the four, no request is
      * in flight, no challenge is selected twice, and a plan is only shown
      * on the last step. */
    ghost predicate Valid()
      reads this
    {
      && 0 <= currentStep <= BlueprintStep
      && !isGenerating
      && Distinct(formData.mainChallenges)
      && (currentStep != BlueprintStep ==> !ShowsBlueprint())
    }

    /** The initial state: an empty form on the first step, no plan. */
    constructor()
      ensures Valid()
      ensures currentStep == 0 && !isGenerating && blueprint == JNull
      ensures formData == EmptyForm
    {
      currentStep := 0;
      isGenerating := false;
      blueprint := JNull;
      formData := EmptyForm;
    }

    /** Whether the Next button of the current step is enabled. */
    function CanProceedNow(): (r: bool)
      reads this
      ensures r ==> 0 <= currentStep <= 2
      ensures r && currentStep == 1 ==> formData.mainChallenges != []
    {
      CanProceed(currentStep, formData)
    }

    /** Whether the plan view is shown instead of the form. The plan view
      * has no inputs and no Previous or Next button, so every user event
      * below requires the form to be showing: once a plan is shown, the
      * wizard can no longer change. */
    predicate ShowsBlueprint()
      reads this
    {
      Truthy(blueprint)
    }

    /** A text input changed: that field takes the new value, nothing else
      * changes. */
    method HandleInputChange(field: TextField, value: string)
      requires Valid() && !ShowsBlueprint()
      modifies this
      ensures Valid()
      ensures formData == WithField(old(formData), field, value)
      ensures currentStep == old(currentStep) && blueprint == old(blueprint)
      ensures isGenerating == old(isGenerating)
    {
      formData := WithField(formData, field, value);
    }

    /** A challenge button was clicked: it is deselected if selected and
      * appended otherwise; the rest of the form stays as it was. */
    method HandleChallengeToggle(challenge: string)
      requires Valid() && !ShowsBlueprint()
      modifies this
      ensures Valid()
      ensures formData == old(formData).(mainChallenges := Toggle(old(formData.mainChallenges), challenge))
      ensures challenge in formData.mainChallenges <==> challenge !in old(formData.mainChallenges)
      ensures currentStep == old(currentStep) && blueprint == old(blueprint)
      ensures isGenerating == old(isGenerating)
    {
      ToggleDistinct(formData.mainChallenges, challenge);
      formData := formData.(mainChallenges := Toggle(formData.mainChallenges, challenge));
    }

    /** The generation request, from setting the busy flag to clearing it.
      * On success the plan is stored and the wizard moves to the last step;
      * on any failure the step and the plan stay as they were and the
      * classified message is returned as the alert. */
    method GenerateBlueprint(reply: Reply, parse: Parser) returns (alert: Option<string>)
      requires Valid()
      modifies this
      ensures Valid()
      ensures formData == old(formData)
      ensures Pipeline(reply, parse).Ok? ==>
                && blueprint == Pipeline(reply, parse).value
                && currentStep == BlueprintStep
                && alert == None
      ensures Pipeline(reply, parse).Err? ==>
                && blueprint == old(blueprint)
                && currentStep == old(currentStep)
                && alert == Some(UserMessage(Pipeline(reply, parse).error))
    {
      isGenerating := true;
      var outcome := ReadPlan(reply, parse);
      alert := Settle(outcome);
    }

    /** The end of the generation request: the plan and the last step on
      * success, the classified alert on failure, and in either case the busy
      * flag cleared. */
    method Settle(outcome: Result<JsonValue, string>) returns (alert: Option<string>)
      requires isGenerating && 0 <= currentStep <= BlueprintStep
      requires Distinct(formData.mainChallenges)
      requires currentStep != BlueprintStep ==> !ShowsBlueprint()
      modifies this
      ensures Valid()
      ensures formData == old(formData)
      ensures outcome.Ok? ==>
                && blueprint == outcome.value
                && currentStep == BlueprintStep
                && alert == None
      ensures outcome.Err? ==>
                && blueprint == old(blueprint)
                && currentStep == old(currentStep)
                && alert == Some(UserMessage(outcome.error))
    {
      alert := None;
      if outcome.Ok? {
        blueprint := outcome.value;
        currentStep := BlueprintStep;
      } else {
        alert := Some(UserMessage(outcome.error));
      }
      isGenerating := false;
    }

    /** The Next handler: moves forward one form page, starts generation on
      * the last form page, and does nothing on the plan step. */
    method NextStep(reply: Reply, parse: Parser) returns (alert: Option<string>)
      requires Valid()
      modifies this
      ensures Valid()
      ensures formData == old(formData)
      ensures old(currentStep) < 2 ==>
                && currentStep == old(currentStep) + 1
                && blueprint == old(blueprint)
                && alert == None
      ensures old(currentStep) == 2 && Pipeline(reply, parse).Ok? ==>
                && currentStep == BlueprintStep
                && blueprint == Pipeline(reply, parse).value
                && alert == None
      ensures old(currentStep) == 2 && Pipeline(reply, parse).Err? ==>
                && currentStep == 2
                && blueprint == old(blueprint)
                && alert == Some(UserMessage(Pipeline(reply, parse).error))
      ensures old(currentStep) == BlueprintStep ==>
                && currentStep == BlueprintStep
                && blueprint == old(blueprint)
                && alert == None
    {
      alert := None;
      if currentStep < 2 {
        currentStep := currentStep + 1;
      } else if currentStep == 2 {
        alert := GenerateBlueprint(reply, parse);
      }
    }

    /** The Previous handler: moves back one step, never below the first. */
    method PrevStep()
      requires Valid() && !ShowsBlueprint()
      modifies this
      ensures Valid()
      ensures old(currentStep) > 0 ==> currentStep == old(currentStep) - 1
      ensures old(currentStep) == 0 ==> currentStep == 0
      ensures formData == old(formData) && blueprint == old(blueprint)
    {
      if currentStep > 0 {
        currentStep := currentStep - 1;
      }
    }

    /** A click on the Next button, which is disabled while the current
      * step's gate is closed: the wizard only moves on, or only requests a
      * plan, with every field that step requires filled in. */
    method ClickNext(reply: Reply, parse: Parser) returns (alert: Option<string>)
      requires Valid() && !ShowsBlueprint()
      modifies this
      ensures Valid()
      ensures formData == old(formData)
      ensures !old(CanProceedNow()) ==>
                && currentStep == old(currentStep)
                && blueprint == old(blueprint)
                && alert == None
      ensures old(CanProceedNow()) && old(currentStep) < 2 ==>
                && currentStep == old(currentStep) + 1
                && blueprint == old(blueprint)
                && alert == None
      ensures old(CanProceedNow()) && old(currentStep) == 2 && Pipeline(reply, parse).Ok? ==>
                && currentStep == BlueprintStep
                && blueprint == Pipeline(reply, parse).value
                && alert == None
      ensures old(CanProceedNow()) && old(currentStep) == 2 && Pipeline(reply, parse).Err? ==>
                && currentStep == 2
                && blueprint == old(blueprint)
                && alert == Some(UserMessage(Pipeline(reply, parse).error))
      ensures currentStep != old(currentStep) ==>
                && CanProceed(old(currentStep), formData)
                && forall f :: f in RequiredFields(old(currentStep)) ==> Get(formData, f) != ""
    {
      alert := None;
      if CanProceedNow() {
        alert := NextStep(reply, parse);
      }
    }

    /** A click on the Previous button, which is disabled on the first step. */
    method ClickPrevious()
      requires Valid() && !ShowsBlueprint()
      modifies this
      ensures Valid()
      ensures old(currentStep) != 0 ==> currentStep == old(currentStep) - 1
      ensures old(currentStep) == 0 ==> currentStep == 0
      ensures formData == old(formData) && blueprint == old(blueprint)
    {
      if currentStep != 0 {
        PrevStep();
      }
    }
  }
}
