/**
 * The response area as a list of child elements, each with the `textContent` the copy
 * actions read, and the two texts `copyContent` can take from it: the last assistant
 * message, or every message except the placeholder, separated by blank lines.
 */
module Transcript {
  import opened Text

  /** The colour `showError` gives its first paragraph. */
  datatype Tone = Plain | Red | Orange | Blue

  /** A child of the response area. */
  datatype Entry =
    | UserMessage(prompt: string)
    | AssistantMessage(reply: string)
    | Paragraph(text: string, tone: Tone)
    | HelpList

  const UserPrefix := "You: "
  const AssistantPrefix := "Assistant: "
  const AssistantMarker := "Assistant:"
  const PlaceholderText := "Response will appear here..."
  const HelpItems := ["Is Ollama installed? Download here", "Is the Ollama service running?",
                      "Is it running on the default port (11434)?"]

  /** The `textContent` of a child. */
  function TextContent(e: Entry): string {
    match e
    case UserMessage(prompt) => UserPrefix + prompt
    case AssistantMessage(reply) => AssistantPrefix + reply
    case Paragraph(text, _) => text
    case HelpList => Join(HelpItems, "\n")
  }

  /** The texts of all children, in order. */
  function Texts(area: seq<Entry>): (texts: seq<string>)
    ensures |texts| == |area| && forall i :: 0 <= i < |area| ==> texts[i] == TextContent(area[i])
  {
    seq(|area|, i requires 0 <= i < |area| => TextContent(area[i]))
  }

  predicate IsAssistantText(text: string) {
    StartsWith(text, AssistantMarker)
  }

  /** The text of the last child whose text starts with `Assistant:`, or "" when there is none. */
  function LastAssistantText(texts: seq<string>): string {
    if texts == [] then ""
    else if IsAssistantText(texts[|texts| - 1]) then texts[|texts| - 1]
    else LastAssistantText(texts[..|texts| - 1])
  }

  /**
   * The search finds nothing exactly when no text starts with `Assistant:`; otherwise it
   * finds such a text with none after it.
   */
  lemma {:induction false} LastAssistantIsLast(texts: seq<string>)
    ensures var r := LastAssistantText(texts);
      && (r == "" <==> forall i :: 0 <= i < |texts| ==> !IsAssistantText(texts[i]))
      && (r != "" ==> exists i :: 0 <= i < |texts| && texts[i] == r && IsAssistantText(r)
                        && forall j :: i < j < |texts| ==> !IsAssistantText(texts[j]))
  {
    if texts != [] {
      var n := |texts| - 1;
      if IsAssistantText(texts[n]) {
        assert |AssistantMarker| > 0;
        assert texts[n] != "";
      } else {
        var init := texts[..n];
        assert LastAssistantText(texts) == LastAssistantText(init);
        assert forall j :: 0 <= j < n ==> init[j] == texts[j];
        LastAssistantIsLast(init);
        var r := LastAssistantText(init);
        if r != "" {
          var i :| 0 <= i < n && init[i] == r && IsAssistantText(r)
                   && forall j :: i < j < n ==> !IsAssistantText(init[j]);
          assert texts[i] == r;
        }
      }
    }
  }

  /** One step of the backward search: the last element of a prefix, then the shorter prefix. */
  lemma LastAssistantStep(texts: seq<string>, i: nat)
    requires 0 < i <= |texts|
    ensures LastAssistantText(texts[..i])
         == if IsAssistantText(texts[i - 1]) then texts[i - 1] else LastAssistantText(texts[..i - 1])
  {
    assert texts[..i][..i - 1] == texts[..i - 1];
  }

  /** `texts.filter(text => text !== unwanted)`. */
  function Without(texts: seq<string>, unwanted: string): (kept: seq<string>)
    ensures |kept| <= |texts|
    ensures forall t :: t in kept <==> t in texts && t != unwanted
  {
    if texts == [] then []
    else Without(texts[..|texts| - 1], unwanted) + (if texts[|texts| - 1] != unwanted then [texts[|texts| - 1]] else [])
  }

  /** Filtering `xs + ys` is filtering `xs`, then `ys`: order and repetitions are kept. */
  lemma {:induction false} WithoutAppend(xs: seq<string>, ys: seq<string>, unwanted: string)
    ensures Without(xs + ys, unwanted) == Without(xs, unwanted) + Without(ys, unwanted)
    decreases |ys|
  {
    if ys == [] {
      assert xs + ys == xs;
    } else {
      var zs := xs + ys;
      var n := |ys| - 1;
      assert zs[..|zs| - 1] == xs + ys[..n];
      assert zs[|zs| - 1] == ys[n];
      WithoutAppend(xs, ys[..n], unwanted);
      var last := if ys[n] != unwanted then [ys[n]] else [];
      assert Without(ys, unwanted) == Without(ys[..n], unwanted) + last;
      assert Without(xs, unwanted) + Without(ys[..n], unwanted) + last
          == Without(xs, unwanted) + (Without(ys[..n], unwanted) + last);
    }
  }

  /** A single text is kept exactly when it is not the unwanted one. */
  lemma WithoutOne(text: string, unwanted: string)
    ensures Without([text], unwanted) == if text != unwanted then [text] else []
  {
    assert [text][..0] == [];
  }

  /** The 'all' text: every message text but the placeholder, joined with a blank line. */
  function AllText(texts: seq<string>): string {
    Join(Without(texts, PlaceholderText), "\n\n")
  }

  /** What `copyContent(kind)` would put on the clipboard; "" means nothing is copied. */
  function Copied(kind: string, texts: seq<string>): string {
    if kind == "last" then LastAssistantText(texts)
    else if kind == "all" then AllText(texts)
    else ""
  }

  /** An assistant message's text is found by the 'last' search. */
  lemma AssistantTextIsMarked(reply: string)
    ensures IsAssistantText(TextContent(AssistantMessage(reply)))
  {
    assert (AssistantPrefix + reply)[..|AssistantMarker|] == AssistantMarker;
  }

  /** After an assistant message is appended, the 'last' copy is exactly that message. */
  lemma LastCopyAfterReply(area: seq<Entry>, reply: string)
    ensures Copied("last", Texts(area + [AssistantMessage(reply)])) == AssistantPrefix + reply
  {
    var texts := Texts(area + [AssistantMessage(reply)]);
    assert texts[|texts| - 1] == AssistantPrefix + reply;
    AssistantTextIsMarked(reply);
  }
}
