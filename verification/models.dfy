/**
 * The model list: what `fetchModels` hands on (`data.models || []`), the option values
 * `populateModelDropdown` builds from it (or the `llama2` fallback), the case-insensitive
 * preference search of `selectModelByPreference`, the preferences each task app asks for,
 * and the placeholder selection of `loadTaskApp`.
 */
module Models {
  import opened Wrappers
  import opened Text
  import opened Errors

  /** One entry of the tags reply's `models` array; only its `name` is read. */
  datatype ModelInfo = ModelInfo(name: string)

  /**
   * What the tags request gave: a rejected `fetch`, a response that is not `ok`, a body
   * that is not JSON, or the parsed body's `models` field (`None` when absent or null).
   */
  datatype TagsReply =
    | Refused(message: string)
    | NotOk(status: nat)
    | Unreadable(message: string)
    | Listed(models: Option<seq<ModelInfo>>)

  /** `fetchModels`: the model list, or the message of the error it rethrows. */
  function FetchModels(reply: TagsReply): (r: Result<seq<ModelInfo>>)
    ensures r.Success? <==> reply.Listed?
    ensures reply.Listed? && reply.models.None? ==> r.value == []
    ensures reply.Listed? && reply.models.Some? ==> r.value == reply.models.value
    ensures reply.NotOk? ==> r.message == HttpErrorMessage(reply.status)
  {
    match reply
    case Refused(message) => Failure(message)
    case NotOk(status) => Failure(HttpErrorMessage(status))
    case Unreadable(message) => Failure(message)
    case Listed(models) => Success(if models.Some? then models.value else [])
  }

  /** The option `addDefaultModel` puts in the dropdown. */
  const DefaultModel := "llama2"

  /** The option values of the dropdown after `populateModelDropdown`: one per model, or the fallback. */
  function OptionValues(models: seq<ModelInfo>): (values: seq<string>)
    ensures |values| > 0
    ensures models == [] ==> values == [DefaultModel]
    ensures models != [] ==> |values| == |models| && forall i :: 0 <= i < |models| ==> values[i] == models[i].name
  {
    if models == [] then [DefaultModel]
    else seq(|models|, i requires 0 <= i < |models| => models[i].name)
  }

  /** `Array.from(modelSelect.options).map(opt => opt.value.toLowerCase())`. */
  function LowerAll(values: seq<string>): (lowered: seq<string>)
    ensures |lowered| == |values| && forall i :: 0 <= i < |values| ==> lowered[i] == Lower(values[i])
  {
    seq(|values|, i requires 0 <= i < |values| => Lower(values[i]))
  }

  /** `option.toLowerCase().includes(preference.toLowerCase())`. */
  predicate Matches(option: string, preference: string) {
    Contains(Lower(option), Lower(preference))
  }

  /** Lower-casing the options first, as the script does, changes no match. */
  lemma MatchesIgnoresCase(option: string, preference: string)
    ensures Matches(Lower(option), preference) == Matches(option, preference)
  {
    LowerIdempotent(option);
  }

  /** `options.find(...)` for one preference: the index of the first matching option, or -1. */
  function FindIndex(options: seq<string>, preference: string): (k: int)
    ensures -1 <= k < |options|
    ensures k == -1 <==> forall i :: 0 <= i < |options| ==> !Matches(options[i], preference)
    ensures k != -1 ==> Matches(options[k], preference) && forall i :: 0 <= i < k ==> !Matches(options[i], preference)
  {
    if options == [] then -1
    else if Matches(options[0], preference) then 0
    else
      var k := FindIndex(options[1..], preference);
      if k == -1 then -1 else k + 1
  }

  /** A preference is served when `find` yields an option that is truthy, i.e. not empty. */
  predicate Hit(options: seq<string>, preference: string) {
    FindIndex(options, preference) != -1 && options[FindIndex(options, preference)] != ""
  }

  /** The value `selectModelByPreference` stores, if any: `find`'s result for the first served preference. */
  function PreferredOption(options: seq<string>, preferences: seq<string>): (r: Option<string>)
    ensures r.Some? ==> r.value != "" && r.value in options
  {
    if preferences == [] then None
    else if Hit(options, preferences[0]) then Some(options[FindIndex(options, preferences[0])])
    else PreferredOption(options, preferences[1..])
  }

  /**
   * Preferences are tried in order and the earliest one that is served wins; within it the
   * earliest matching option wins. Nothing is chosen exactly when no preference is served.
   */
  lemma {:induction false} PreferredIsEarliest(options: seq<string>, preferences: seq<string>)
    ensures PreferredOption(options, preferences).None? <==> forall j :: 0 <= j < |preferences| ==> !Hit(options, preferences[j])
    ensures PreferredOption(options, preferences).Some? ==>
      exists j :: 0 <= j < |preferences| && Hit(options, preferences[j])
        && PreferredOption(options, preferences).value == options[FindIndex(options, preferences[j])]
        && forall i :: 0 <= i < j ==> !Hit(options, preferences[i])
  {
    if preferences != [] {
      var rest := preferences[1..];
      PreferredIsEarliest(options, rest);
      if Hit(options, preferences[0]) {
        assert PreferredOption(options, preferences).value == options[FindIndex(options, preferences[0])];
      } else {
        if PreferredOption(options, rest).Some? {
          var j :| 0 <= j < |rest| && Hit(options, rest[j])
            && PreferredOption(options, rest).value == options[FindIndex(options, rest[j])]
            && forall i :: 0 <= i < j ==> !Hit(options, rest[i]);
          assert preferences[j + 1] == rest[j];
          assert forall i :: 0 <= i < j + 1 ==> !Hit(options, preferences[i]) by {
            forall i | 0 <= i < j + 1 ensures !Hit(options, preferences[i]) {
              if i > 0 {
                assert preferences[i] == rest[i - 1];
              }
            }
          }
        } else {
          assert forall j :: 0 <= j < |preferences| ==> !Hit(options, preferences[j]) by {
            forall j | 0 <= j < |preferences| ensures !Hit(options, preferences[j]) {
              if j > 0 {
                assert preferences[j] == rest[j - 1];
              }
            }
          }
        }
      }
    }
  }

  const CodeGenerator := "codeGenerator"
  const Summarizer := "summarizer"
  const QuestionAnswering := "questionAnswering"
  const CreativeWriter := "creativeWriter"
  const Translator := "translator"
  const DataAnalyzer := "dataAnalyzer"
  /** The app names the `switch` of `loadTaskApp` knows. */
  const TaskApps := [CodeGenerator, Summarizer, QuestionAnswering, CreativeWriter, Translator, DataAnalyzer]
  const CodePreferences := ["codellama", DefaultModel]
  const TextPreferences := [DefaultModel, "mistral"]

  /** The model preferences of each task app `loadTaskApp` knows; `None` for any other name. */
  function TaskPreferences(appType: string): (r: Option<seq<string>>)
    ensures r.Some? <==> appType in TaskApps
    ensures r.Some? ==> |r.value| == 2 && DefaultModel in r.value
  {
    if appType == CodeGenerator then Some(CodePreferences)
    else if || appType == Summarizer || appType == QuestionAnswering || appType == CreativeWriter
            || appType == Translator || appType == DataAnalyzer
    then Some(TextPreferences)
    else None
  }

  /**
   * With only the fallback option in the dropdown (the models could not be listed), every
   * known task app selects it.
   */
  lemma FallbackServesEveryTask(appType: string)
    requires TaskPreferences(appType).Some?
    ensures PreferredOption([DefaultModel], TaskPreferences(appType).value) == Some(DefaultModel)
  {
    var options := [DefaultModel];
    assert Lower(DefaultModel) == DefaultModel;
    assert Matches(DefaultModel, DefaultModel) by {
      assert OccursAt(DefaultModel, DefaultModel, 0);
    }
    assert FindIndex(options, DefaultModel) == 0;
    if appType == CodeGenerator {
      assert !Matches(DefaultModel, CodePreferences[0]) by {
        assert |Lower(CodePreferences[0])| > |Lower(DefaultModel)|;
      }
      assert FindIndex(options, CodePreferences[0]) == -1;
      assert CodePreferences[1..] == [DefaultModel];
    }
  }

  /** `value.indexOf('[')` and `value.lastIndexOf(']') + 1`, kept when both differ from -1. */
  function PlaceholderRange(text: string): (r: Option<(int, int)>)
  {
    var start := IndexOf(text, '[');
    var end := LastIndexOf(text, ']') + 1;
    if start != -1 && end != -1 then Some((start, end)) else None
  }

  /**
   * The end test never fails, since `lastIndexOf` is at least -1: a range is selected
   * exactly when the text holds `[`. It starts at the first `[`; it ends just after the
   * last `]` when there is one, and at 0 otherwise, which is before its start.
   */
  lemma PlaceholderRangeGuard(text: string)
    ensures PlaceholderRange(text).Some? <==> '[' in text
    ensures PlaceholderRange(text).Some? ==>
      var (start, end) := PlaceholderRange(text).value;
      && 0 <= start < |text| && text[start] == '[' && '[' !in text[..start]
      && (']' in text ==> 0 < end <= |text| && text[end - 1] == ']' && ']' !in text[end..])
      && (']' !in text ==> end == 0)
  {
  }
}
