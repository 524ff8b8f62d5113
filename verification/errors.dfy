/**
 * `handleGenerationError` and the messages of the errors it sorts: the message of an
 * error is searched for fixed phrases in a fixed order, and the first phrase found
 * picks the headline and the details shown to the user.
 */
module Errors {
  import opened Text

  /** The message of the `Error` thrown when a response is not `ok`. */
  function HttpErrorMessage(status: nat): string {
    "HTTP error! Status: " + Decimal(status)
  }

  /** The four branches of the classification chain. */
  datatype Category = NetworkFailure | ServerFailure | MissingModel | Other

  /**
   * The `if`/`else if` chain on `error.message`: a network phrase wins over everything,
   * then `HTTP error`, then `model not found`; anything else is generic.
   */
  function Classify(message: string): (c: Category)
    ensures c == NetworkFailure <==> Contains(message, "Failed to fetch") || Contains(message, "NetworkError")
    ensures c == ServerFailure <==> c != NetworkFailure && Contains(message, "HTTP error")
    ensures c == MissingModel <==> c != NetworkFailure && c != ServerFailure && Contains(message, "model not found")
  {
    if Contains(message, "Failed to fetch") || Contains(message, "NetworkError") then NetworkFailure
    else if Contains(message, "HTTP error") then ServerFailure
    else if Contains(message, "model not found") then MissingModel
    else Other
  }

  /** What `showError` is given: the headline and the details (empty when there are none). */
  datatype Report = Report(headline: string, details: string)

  const NetworkHeadline := "Network error: Could not connect to Ollama API."
  const NetworkDetails := "Make sure Ollama is running and accessible."
  const ServerPrefix := "Server error: "
  const ServerDetails := "The Ollama server returned an error. Check the server logs for more details."
  const MissingHeadline := "Model not found error."
  const MissingLead := "The selected model \""
  const MissingMiddle := "\" is not installed. Run \"ollama pull "
  const MissingEnd := "\" to install it."
  const GenericHeadline := "An error occurred while generating the response."

  /** The headline and details `handleGenerationError` picks for a category, given the model selected at that moment. */
  function Explain(category: Category, message: string, model: string): Report {
    match category
    case NetworkFailure => Report(NetworkHeadline, NetworkDetails)
    case ServerFailure => Report(ServerPrefix + message, ServerDetails)
    case MissingModel => Report(MissingHeadline, MissingLead + model + MissingMiddle + model + MissingEnd)
    case Other => Report(GenericHeadline, "")
  }

  /**
   * Every category but the generic one gives details, so `showError` adds a second
   * paragraph exactly for the recognised errors.
   */
  lemma ExplainDetails(category: Category, message: string, model: string)
    ensures Explain(category, message, model).details == "" <==> category == Other
  {
  }

  /** A pattern whose first character is missing from `s` does not occur in `s`. */
  lemma AbsentFirstChar(s: string, pattern: string)
    requires pattern != [] && pattern[0] !in s
    ensures !Contains(s, pattern)
  {
  }

  /** `s` holds `pattern` from index `i` on. */
  lemma ContainsAt(s: string, pattern: string, i: nat)
    requires i + |pattern| <= |s| && s[i..i + |pattern|] == pattern
    ensures Contains(s, pattern)
  {
    assert OccursAt(s, pattern, i);
  }

  /**
   * The error thrown for a reply that is not `ok` is always reported as a server error
   * quoting the message, whatever its status: it never reaches the network or the
   * missing-model branch.
   */
  lemma HttpErrorIsServerError(status: nat)
    ensures Classify(HttpErrorMessage(status)) == ServerFailure
  {
    var prefix := "HTTP error! Status: ";
    var digits := Decimal(status);
    var m := HttpErrorMessage(status);
    assert 'F' !in m && 'N' !in m by {
      forall k | 0 <= k < |m|
        ensures m[k] != 'F' && m[k] != 'N'
      {
        if k >= |prefix| {
          assert m[k] == digits[k - |prefix|];
        }
      }
    }
    AbsentFirstChar(m, "Failed to fetch");
    AbsentFirstChar(m, "NetworkError");
    ContainsAt(m, "HTTP error", 0);
  }

  /** The details of a missing-model error name the selected model. */
  lemma MissingModelNamesModel(message: string, model: string)
    ensures Contains(Explain(MissingModel, message, model).details, model)
  {
    var details := Explain(MissingModel, message, model).details;
    assert details[|MissingLead|..|MissingLead| + |model|] == model;
    ContainsAt(details, model, |MissingLead|);
  }
}
