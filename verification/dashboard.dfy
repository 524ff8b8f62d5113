/**
 * The page's `state` object together with the parts of the page its logic reads and
 * writes: the status indicator, the send button, the prompt box, the model dropdown and
 * the response area. Network replies, chunk sequences and `JSON.parse` results are
 * parameters; everything the script then does with them is modelled step by step.
 */
module Dashboard {
  import opened Wrappers
  import opened Text
  import opened Errors
  import opened Stream
  import opened Models
  import opened Transcript

  /** The names `updateUIState` is called with; any other name falls through its `switch`. */
  datatype UIState = Connecting | Connected | Disconnected | Generating | Idle | Unnamed(name: string)

  const ConnectingText := "Connecting to Ollama..."
  const ConnectedText := "Connected to Ollama"
  const DisconnectedText := "Disconnected from Ollama"
  const GeneratingText := "Generating response... \U{201A}\U{FC}\U{2265}"
  const EmptyPromptWarning := "Please enter a prompt before sending."
  const ReconnectFailure := "Cannot connect to Ollama. Please make sure Ollama is running."

  /** What the `disconnected` state writes into the response area. */
  const DisconnectedHelp: seq<Entry> :=
    [Paragraph("Error: Cannot connect to Ollama API", Red), Paragraph("Please check:", Plain), HelpList]

  /** The body of the generate request. */
  datatype Request = Request(model: string, prompt: string, stream: bool)

  /** How `sendToOllama` ended: the two early returns, or the request it sent and what the stream did. */
  datatype SendOutcome = EmptyPrompt | NotConnected | Sent(request: Request, result: Outcome)

  /** The colour `showError` picks from its `type` argument. */
  function ToneOf(kind: string): (tone: Tone)
    ensures tone == Red <==> kind == "error"
    ensures tone == Orange <==> kind == "warning"
    ensures tone == Red || tone == Orange || tone == Blue
  {
    if kind == "error" then Red else if kind == "warning" then Orange else Blue
  }

  /** What `showError` leaves in the response area: the message, then the details if there are any. */
  function ErrorArea(message: string, kind: string, details: string): (area: seq<Entry>)
    ensures |area| >= 1 && area[0] == Paragraph(message, ToneOf(kind))
    ensures |area| == 1 <==> details == ""
    ensures details != "" ==> area == [area[0], Paragraph(details, Plain)]
  {
    [Paragraph(message, ToneOf(kind))] + (if details != "" then [Paragraph(details, Plain)] else [])
  }

  /** What `handleGenerationError` leaves in the response area, with `model` selected at that time. */
  function GenerationErrorArea(message: string, model: string): seq<Entry> {
    var report := Explain(Classify(message), message, model);
    ErrorArea(report.headline, "error", report.details)
  }

  /** A generic error is one red paragraph; every recognised one adds a paragraph of details. */
  lemma GenerationErrorShape(message: string, model: string)
    ensures |GenerationErrorArea(message, model)| == (if Classify(message) == Other then 1 else 2)
    ensures GenerationErrorArea(message, model)[0].tone == Red
  {
    ExplainDetails(Classify(message), message, model);
  }

  class Dashboard {
    // The script's `state` object (its `selectedModel` is never written).
    var isConnected: bool
    var isGenerating: bool
    // The send button.
    var sendDisabled: bool
    var sendLabel: string
    // The status indicator.
    var statusText: string
    var statusClass: string
    // The response area, the prompt box and its selection, and the model dropdown.
    var responseArea: seq<Entry>
    var userInput: string
    var selection: Option<(int, int)>
    var modelOptions: seq<string>
    var modelValue: string
    /** Every state `updateUIState` has been given, in order. */
    ghost var applied: seq<UIState>

    twostate predicate SameConnection()
      reads this
    {
      isConnected == old(isConnected) && statusText == old(statusText) && statusClass == old(statusClass)
    }

    twostate predicate SameControls()
      reads this
    {
      isGenerating == old(isGenerating) && sendDisabled == old(sendDisabled) && sendLabel == old(sendLabel)
    }

    twostate predicate SameModels()
      reads this
    {
      modelOptions == old(modelOptions) && modelValue == old(modelValue)
    }

    twostate predicate SameEditor()
      reads this
    {
      userInput == old(userInput) && selection == old(selection)
    }

    /** The page as loaded, before `initializeApp` runs. */
    constructor()
      ensures !isConnected && !isGenerating && !sendDisabled && sendLabel == "Send"
      ensures responseArea == [Paragraph(PlaceholderText, Plain)] && userInput == "" && selection == None
      ensures modelOptions == [] && modelValue == "" && applied == []
    {
      isConnected, isGenerating := false, false;
      sendDisabled, sendLabel := false, "Send";
      statusText, statusClass := "", "status-indicator";
      responseArea := [Paragraph(PlaceholderText, Plain)];
      userInput, selection := "", None;
      modelOptions, modelValue := [], "";
      applied := [];
    }

    /** `updateUIState`: each named state sets its fields; an unknown name changes nothing. */
    method UpdateUIState(s: UIState)
      modifies this
      ensures applied == old(applied) + [s]
      ensures SameModels() && SameEditor()
      ensures match s {
        case Connecting =>
          && statusText == ConnectingText && statusClass == "status-indicator" && sendDisabled
          && isConnected == old(isConnected) && isGenerating == old(isGenerating) && sendLabel == old(sendLabel)
          && responseArea == old(responseArea)
        case Connected =>
          && statusText == ConnectedText && statusClass == "status-indicator connected" && !sendDisabled
          && isConnected && isGenerating == old(isGenerating) && sendLabel == old(sendLabel)
          && responseArea == old(responseArea)
        case Disconnected =>
          && statusText == DisconnectedText && statusClass == "status-indicator disconnected" && !sendDisabled
          && !isConnected && isGenerating == old(isGenerating) && sendLabel == old(sendLabel)
          && responseArea == DisconnectedHelp
        case Generating =>
          && SameConnection() && sendDisabled && sendLabel == "Generating..." && isGenerating
          && responseArea == [Paragraph(GeneratingText, Plain)]
        case Idle =>
          && SameConnection() && !sendDisabled && sendLabel == "Send" && !isGenerating
          && responseArea == old(responseArea)
        case Unnamed(_) => SameConnection() && SameControls() && responseArea == old(responseArea)
      }
    {
      applied := applied + [s];
      match s
      case Connecting =>
        statusText, statusClass := ConnectingText, "status-indicator";
        sendDisabled := true;
      case Connected =>
        statusText, statusClass := ConnectedText, "status-indicator connected";
        sendDisabled := false;
        isConnected := true;
      case Disconnected =>
        statusText, statusClass := DisconnectedText, "status-indicator disconnected";
        sendDisabled := false;
        isConnected := false;
        responseArea := DisconnectedHelp;
      case Generating =>
        sendDisabled := true;
        sendLabel := "Generating...";
        responseArea := [Paragraph(GeneratingText, Plain)];
        isGenerating := true;
      case Idle =>
        sendDisabled := false;
        sendLabel := "Send";
        isGenerating := false;
      case Unnamed(_) =>
    }

    /** `addDefaultModel`: the dropdown holds the single fallback option, which is selected. */
    method AddDefaultModel()
      modifies this
      ensures modelOptions == [DefaultModel] && modelValue == DefaultModel
      ensures SameConnection() && SameControls() && SameEditor()
      ensures responseArea == old(responseArea) && applied == old(applied)
    {
      modelOptions, modelValue := [DefaultModel], DefaultModel;
    }

    /**
     * `populateModelDropdown`: one option per model, named after it, or the fallback for an
     * empty list. Replacing the options selects the first one.
     */
    method PopulateModelDropdown(models: seq<ModelInfo>)
      modifies this
      ensures modelOptions == OptionValues(models) && modelValue == modelOptions[0]
      ensures SameConnection() && SameControls() && SameEditor()
      ensures responseArea == old(responseArea) && applied == old(applied)
    {
      modelOptions := [];
      if |models| > 0 {
        for i := 0 to |models|
          invariant |modelOptions| == i
          invariant forall k :: 0 <= k < i ==> modelOptions[k] == models[k].name
          invariant SameConnection() && SameControls() && SameEditor()
          invariant responseArea == old(responseArea) && applied == old(applied)
        {
          modelOptions := modelOptions + [models[i].name];
        }
        assert modelOptions == OptionValues(models);
        modelValue := modelOptions[0];
      } else {
        AddDefaultModel();
      }
    }

    /**
     * `checkOllamaConnection`: true exactly when the models could be fetched, even when
     * there are none; the dropdown is filled from them, or gets the fallback on failure.
     * It does not touch `isConnected`.
     */
    method CheckConnection(reply: TagsReply) returns (ok: bool)
      modifies this
      ensures ok <==> FetchModels(reply).Success?
      ensures modelOptions == (if ok then OptionValues(FetchModels(reply).value) else [DefaultModel])
      ensures modelValue == modelOptions[0]
      ensures SameConnection() && SameControls() && SameEditor()
      ensures responseArea == old(responseArea) && applied == old(applied)
    {
      var models := FetchModels(reply);
      if models.Success? {
        PopulateModelDropdown(models.value);
        ok := true;
      } else {
        AddDefaultModel();
        ok := false;
      }
    }

    /** `initializeApp`: `connecting`, then `connected` or `disconnected` as the check says. */
    method Initialize(reply: TagsReply)
      modifies this
      ensures var ok := FetchModels(reply).Success?;
        && applied == old(applied) + [Connecting, if ok then Connected else Disconnected]
        && isConnected == ok && !sendDisabled
        && statusText == (if ok then ConnectedText else DisconnectedText)
        && statusClass == (if ok then "status-indicator connected" else "status-indicator disconnected")
        && responseArea == (if ok then old(responseArea) else DisconnectedHelp)
        && modelOptions == (if ok then OptionValues(FetchModels(reply).value) else [DefaultModel])
        && modelValue == modelOptions[0]
      ensures isGenerating == old(isGenerating) && sendLabel == old(sendLabel) && SameEditor()
    {
      UpdateUIState(Connecting);
      var connected := CheckConnection(reply);
      UpdateUIState(if connected then Connected else Disconnected);
    }

    /** `showError`: the response area is replaced by the message and its details. */
    method ShowError(message: string, kind: string, details: string)
      modifies this
      ensures responseArea == ErrorArea(message, kind, details)
      ensures SameConnection() && SameControls() && SameModels() && SameEditor() && applied == old(applied)
    {
      responseArea := [Paragraph(message, ToneOf(kind))];
      if details != "" {
        responseArea := responseArea + [Paragraph(details, Plain)];
      }
    }

    /** `handleGenerationError`: the report chosen by the message's category. */
    method HandleGenerationError(message: string)
      modifies this
      ensures responseArea == GenerationErrorArea(message, modelValue)
      ensures SameConnection() && SameControls() && SameModels() && SameEditor() && applied == old(applied)
    {
      var report := Explain(Classify(message), message, modelValue);
      ShowError(report.headline, "error", report.details);
    }

    /**
     * `selectModelByPreference`: the first preference that some lower-cased option contains
     * selects that (lower-cased) option and gives true; otherwise the selection is kept.
     */
    method SelectModelByPreference(preferences: seq<string>) returns (found: bool)
      modifies this
      ensures var choice := PreferredOption(LowerAll(old(modelOptions)), preferences);
        && (found <==> choice.Some?)
        && modelValue == (if found then choice.value else old(modelValue))
      ensures modelOptions == old(modelOptions)
      ensures SameConnection() && SameControls() && SameEditor()
      ensures responseArea == old(responseArea) && applied == old(applied)
    {
      var options := LowerAll(modelOptions);
      for j := 0 to |preferences|
        invariant PreferredOption(options, preferences) == PreferredOption(options, preferences[j..])
        invariant modelValue == old(modelValue)
      {
        assert preferences[j..][1..] == preferences[j + 1..];
        var k := FindIndex(options, preferences[j]);
        if k != -1 && options[k] != "" {
          modelValue := options[k];
          return true;
        }
      }
      assert preferences[|preferences|..] == [];
      return false;
    }

    /**
     * The `switch` of `loadTaskApp`: a known app picks its preferred model and puts its
     * prompt template in the prompt box; an unknown app changes nothing.
     */
    method ApplyTaskApp(appType: string, template: string)
      modifies this
      ensures var prefs := TaskPreferences(appType);
        var choice := if prefs.Some? then PreferredOption(LowerAll(old(modelOptions)), prefs.value) else None;
        && userInput == (if prefs.Some? then template else old(userInput))
        && modelValue == (if choice.Some? then choice.value else old(modelValue))
      ensures modelOptions == old(modelOptions) && selection == old(selection)
      ensures SameConnection() && SameControls() && responseArea == old(responseArea) && applied == old(applied)
    {
      var prefs := TaskPreferences(appType);
      if prefs.Some? {
        var _ := SelectModelByPreference(prefs.value);
        userInput := template;
      }
    }

    /**
     * `loadTaskApp`: the app's model and template, then the placeholder range is selected
     * when the guard lets it through.
     */
    method LoadTaskApp(appType: string, template: string)
      modifies this
      ensures var prefs := TaskPreferences(appType);
        var choice := if prefs.Some? then PreferredOption(LowerAll(old(modelOptions)), prefs.value) else None;
        && userInput == (if prefs.Some? then template else old(userInput))
        && modelValue == (if choice.Some? then choice.value else old(modelValue))
      ensures selection == (if PlaceholderRange(userInput).Some? then PlaceholderRange(userInput) else old(selection))
      ensures modelOptions == old(modelOptions)
      ensures SameConnection() && SameControls() && responseArea == old(responseArea) && applied == old(applied)
    {
      ApplyTaskApp(appType, template);
      var range := PlaceholderRange(userInput);
      selection := if range.Some? then range else selection;
    }

    /**
     * `copyContent`: for 'last' the search from the end for a message starting with
     * `Assistant:`; for 'all' every message but the placeholder. The text is copied when it
     * is not empty.
     */
    method CopyContent(kind: string) returns (text: string)
      ensures text == Copied(kind, Texts(responseArea))
    {
      var messages := Texts(responseArea);
      text := "";
      if kind == "last" {
        var i := |messages|;
        assert messages[..i] == messages;
        while i > 0
          invariant 0 <= i <= |messages|
          invariant LastAssistantText(messages) == LastAssistantText(messages[..i])
        {
          LastAssistantStep(messages, i);
          if IsAssistantText(messages[i - 1]) {
            return messages[i - 1];
          }
          i := i - 1;
        }
      } else if kind == "all" {
        text := AllText(messages);
      }
    }

    /**
     * The part of `sendToOllama` after its checks: the prompt box is cleared, `generating`
     * is applied and the prompt shown, the reply is streamed, the answer is appended or the
     * error reported, and `idle` is applied whatever happened.
     */
    method Generate(prompt: string, reply: Reply, parse: Parser) returns (result: Outcome)
      modifies this
      ensures result == Streamed(reply, parse)
      ensures applied == old(applied) + [Generating, Idle]
      ensures SameConnection() && SameModels()
      ensures !isGenerating && !sendDisabled && sendLabel == "Send"
      ensures userInput == "" && selection == old(selection)
      ensures responseArea == (if result.Completed?
                               then [Paragraph(GeneratingText, Plain), UserMessage(prompt),
                                     AssistantMessage(result.progress.text)]
                               else GenerationErrorArea(result.message, modelValue))
    {
      userInput := "";
      UpdateUIState(Generating);
      responseArea := responseArea + [UserMessage(prompt)];
      assert responseArea == [Paragraph(GeneratingText, Plain), UserMessage(prompt)];
      result := StreamResponse(reply, parse);
      ShowOutcome(result);
      UpdateUIState(Idle);
    }

    /**
     * The `try`/`catch` around `streamResponse`: a completed stream leaves its full reply
     * as the last message; an error replaces the area with its report.
     */
    method ShowOutcome(result: Outcome)
      modifies this
      ensures responseArea == (if result.Completed?
                               then old(responseArea) + [AssistantMessage(result.progress.text)]
                               else GenerationErrorArea(result.message, modelValue))
      ensures SameConnection() && SameControls() && SameModels() && SameEditor() && applied == old(applied)
    {
      match result {
        case Completed(progress) =>
          responseArea := responseArea + [AssistantMessage(progress.text)];
        case Threw(message, _, _) =>
          HandleGenerationError(message);
      }
    }

    /**
     * `sendToOllama`: an empty prompt is refused with a warning; a page that is not
     * connected tries one reconnect and gives up if it fails; otherwise the request for the
     * trimmed prompt and the model selected on entry is sent and its reply streamed.
     */
    method Send(reconnect: TagsReply, reply: Reply, parse: Parser) returns (outcome: SendOutcome)
      modifies this
      ensures var prompt := Trim(old(userInput));
        && (outcome.Sent? <==> prompt != "" && (old(isConnected) || FetchModels(reconnect).Success?))
        && (outcome == EmptyPrompt <==> prompt == "")
        && (outcome.Sent? ==> outcome.request == Request(old(modelValue), prompt, true))
      ensures SameConnection()
      ensures old(isConnected) ==> SameModels()
      ensures outcome.Sent? && !old(isConnected) ==> modelOptions == OptionValues(FetchModels(reconnect).value)
      ensures !old(isConnected) && outcome != EmptyPrompt ==> |modelOptions| > 0 && modelValue == modelOptions[0]
      ensures outcome == EmptyPrompt ==>
        && responseArea == ErrorArea(EmptyPromptWarning, "warning", "")
        && SameControls() && SameModels() && SameEditor() && applied == old(applied)
      ensures outcome == NotConnected ==>
        && responseArea == ErrorArea(ReconnectFailure, "error", "")
        && modelOptions == [DefaultModel]
        && SameControls() && SameEditor() && applied == old(applied)
      ensures outcome.Sent? ==>
        && outcome.result == Streamed(reply, parse)
        && applied == old(applied) + [Generating, Idle]
        && !isGenerating && !sendDisabled && sendLabel == "Send"
        && userInput == "" && selection == old(selection)
        && responseArea == (if outcome.result.Completed?
                            then [Paragraph(GeneratingText, Plain), UserMessage(outcome.request.prompt),
                                  AssistantMessage(outcome.result.progress.text)]
                            else GenerationErrorArea(outcome.result.message, modelValue))
    {
      var prompt := Trim(userInput);
      var selectedModel := modelValue;
      if prompt == "" {
        ShowError(EmptyPromptWarning, "warning", "");
        return EmptyPrompt;
      }
      if !isConnected {
        var reconnected := CheckConnection(reconnect);
        if !reconnected {
          ShowError(ReconnectFailure, "error", "");
          return NotConnected;
        }
      }
      var result := Generate(prompt, reply, parse);
      outcome := Sent(Request(selectedModel, prompt, true), result);
    }
  }
}
