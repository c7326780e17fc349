/** The shaping the Gemini handler does around each SDK call: the prompt it
    sends, the multi-turn contents it builds from a stored history, and how it
    reads text and generated images back out of a response. The SDK call
    itself is not modelled: its outcome (a response, or the exception it
    raised) is a parameter. */
module GeminiHandler {
  import opened Common

  type Bytes = seq<bv8>

  /** What a call into the SDK did: returned a response or raised. */
  datatype SdkOutcome<T> = Returned(response: T) | Raised(error: string)

  // ---------------------------------------------------------------------
  // Prompts and text replies
  // ---------------------------------------------------------------------

  const Separator: string := "\n\nUser: "

  /** `generate_response`'s prompt: the context, the separator and the
      prompt when a context is given, otherwise the prompt alone. */
  function FullPrompt(prompt: string, context: string): (r: string)
    ensures context == "" ==> r == prompt
    ensures context != "" ==>
              |r| == |context| + |Separator| + |prompt|
              && r[..|context|] == context
              && r[|context|..|context| + |Separator|] == Separator
              && r[|r| - |prompt|..] == prompt
  {
    if context != "" then context + Separator + prompt else prompt
  }

  const DefaultAnalysisPrompt: string :=
    "Analyze this image in detail. Describe what you see, including objects, "
    + "people, activities, colors, composition, and any notable aspects. "
    + "Provide a comprehensive analysis."

  /** `analyze_image`'s prompt: the caller's prompt, or the built-in one when
      the caller's is empty; so the model is always asked something. */
  function AnalysisPrompt(prompt: string): (r: string)
    ensures r != ""
    ensures r == prompt <==> prompt != ""
    ensures prompt == "" ==> r == DefaultAnalysisPrompt
  {
    if prompt != "" then prompt else DefaultAnalysisPrompt
  }

  /** The text `generate_image` sends. */
  function ImagePrompt(prompt: string): (r: string)
    ensures |r| == |"Generate an image: "| + |prompt|
    ensures r[..|"Generate an image: "|] == "Generate an image: "
    ensures r[|r| - |prompt|..] == prompt
  {
    "Generate an image: " + prompt
  }

  const NoTextReply: string := "Sorry, I couldn't generate a response."
  const NoAnalysisReply: string := "Sorry, I couldn't analyze this image."

  /** `response.text or fallback`, and the message an exception turns into.
      `text` is the SDK's `response.text`, which may be absent or empty. */
  function TextReply(outcome: SdkOutcome<Option<string>>, fallback: string, errorPrefix: string): (r: string)
    requires fallback != "" && errorPrefix != ""
    ensures r != ""
    ensures outcome.Returned? && outcome.response.Some? && outcome.response.value != "" ==>
              r == outcome.response.value
    ensures outcome.Returned? && (outcome.response.None? || outcome.response.value == "") ==>
              r == fallback
    ensures outcome.Raised? ==> |r| == |errorPrefix| + |outcome.error|
                                && r[..|errorPrefix|] == errorPrefix && r[|errorPrefix|..] == outcome.error
  {
    match outcome
    case Raised(e) => errorPrefix + e
    case Returned(text) =>
      if text.Some? && text.value != "" then text.value else fallback
  }

  /** `generate_response` and `chat_with_context`: never raise, always hand
      back a non-empty reply. */
  function ResponseReply(outcome: SdkOutcome<Option<string>>): (r: string)
    ensures r != ""
    ensures outcome.Raised? ==> r == "Error: " + outcome.error
  {
    TextReply(outcome, NoTextReply, "Error: ")
  }

  /** `analyze_image`: never raises, always hands back a non-empty reply. */
  function AnalysisReply(outcome: SdkOutcome<Option<string>>): (r: string)
    ensures r != ""
    ensures outcome.Raised? ==> r == "Error analyzing image: " + outcome.error
  {
    TextReply(outcome, NoAnalysisReply, "Error analyzing image: ")
  }

  // ---------------------------------------------------------------------
  // chat_with_context
  // ---------------------------------------------------------------------

  /** A stored history entry as `chat_with_context` reads it, through
      `msg.get('role')` and `msg.get('content', '')`. */
  datatype Message = Message(role: Option<string>, content: Option<string>)

  /** `types.Content(role=..., parts=[types.Part(text=...)])`. */
  datatype ChatContent = ChatContent(role: string, text: string)

  const ContextWindow: nat := 10

  /** `content` is what `chat_with_context` makes of `message`: 'user' stays
      "user", every other or missing role becomes "model", and missing
      content becomes the empty text. */
  predicate ContentFor(message: Message, content: ChatContent)
  {
    && (content.role == "user" <==> message.role == Some("user"))
    && (content.role == "user" || content.role == "model")
    && content.text == (if message.content.Some? then message.content.value else "")
  }

  /** `contents` is what `chat_with_context` sends for `messages`: one entry
      for each of the last ten messages, in order. */
  predicate ContentsFor(messages: seq<Message>, contents: seq<ChatContent>)
  {
    && |contents| == Min(ContextWindow, |messages|)
    && forall i :: 0 <= i < |contents| ==> ContentFor(messages[|messages| - |contents| + i], contents[i])
  }

  /** The loop of `chat_with_context` that builds its contents. */
  method BuildContents(messages: seq<Message>) returns (contents: seq<ChatContent>)
    ensures ContentsFor(messages, contents)
  {
    var window := LastN(messages, ContextWindow);
    var offset := |messages| - |window|;
    contents := [];
    var i := 0;
    while i < |window|
      invariant 0 <= i <= |window|
      invariant |contents| == i
      invariant forall j :: 0 <= j < i ==> ContentFor(messages[offset + j], contents[j])
    {
      var msg := window[i];
      var role := if msg.role == Some("user") then "user" else "model";
      var text := if msg.content.Some? then msg.content.value else "";
      assert msg == messages[offset + i];
      assert ContentFor(msg, ChatContent(role, text));
      contents := contents + [ChatContent(role, text)];
      i := i + 1;
    }
  }

  // ---------------------------------------------------------------------
  // generate_image
  // ---------------------------------------------------------------------

  datatype Blob = Blob(data: Option<Bytes>)
  datatype Part = Part(text: Option<string>, inlineData: Option<Blob>)
  datatype Content = Content(parts: Option<seq<Part>>)
  datatype Candidate = Candidate(content: Option<Content>)
  datatype ImageResponse = ImageResponse(candidates: Option<seq<Candidate>>)

  /** `if part.text:` — present and non-empty. */
  predicate IsTextPart(p: Part)
  {
    p.text.Some? && p.text.value != ""
  }

  /** The `elif` branch: not a text part, and inline data that is present
      and non-empty. */
  predicate IsImagePart(p: Part)
  {
    !IsTextPart(p) && p.inlineData.Some? && p.inlineData.value.data.Some?
    && p.inlineData.value.data.value != []
  }

  function ImageData(p: Part): Bytes
    requires IsImagePart(p)
  {
    p.inlineData.value.data.value
  }

  /** The texts of the text parts, concatenated in order. It is empty
      exactly when no part carries text, which is when the caller falls
      back to its default message. */
  function Description(parts: seq<Part>): (r: string)
    ensures r == "" <==> forall i :: 0 <= i < |parts| ==> !IsTextPart(parts[i])
    ensures forall i :: 0 <= i < |parts| && IsTextPart(parts[i]) ==> |parts[i].text.value| <= |r|
  {
    if parts == [] then ""
    else
      var init, last := parts[..|parts| - 1], parts[|parts| - 1];
      assert forall i :: 0 <= i < |init| ==> init[i] == parts[i];
      Description(init) + (if IsTextPart(last) then last.text.value else "")
  }

  /** The data of the last image part; a later image replaces an earlier
      one. */
  function LastImage(parts: seq<Part>): (r: Option<Bytes>)
    ensures r.None? <==> forall i :: 0 <= i < |parts| ==> !IsImagePart(parts[i])
    ensures r.Some? ==> exists i :: 0 <= i < |parts| && IsImagePart(parts[i]) && ImageData(parts[i]) == r.value
                                    && forall j :: i < j < |parts| ==> !IsImagePart(parts[j])
    ensures r.Some? ==> r.value != []
  {
    if parts == [] then None
    else
      var init, last := parts[..|parts| - 1], parts[|parts| - 1];
      if IsImagePart(last) then Some(ImageData(last))
      else
        var r := LastImage(init);
        assert forall i :: 0 <= i < |init| ==> init[i] == parts[i];
        r
  }

  /** A text part adds to the description and never becomes the image. */
  lemma TextPartIsNeverTheImage(parts: seq<Part>, p: Part)
    requires IsTextPart(p)
    ensures LastImage(parts + [p]) == LastImage(parts)
    ensures Description(parts + [p]) == Description(parts) + p.text.value
  {
    assert (parts + [p])[..|parts|] == parts;
  }

  /** The description of a list of parts is the descriptions of its pieces,
      joined in order. */
  lemma {:induction false} DescriptionAppend(a: seq<Part>, b: seq<Part>)
    ensures Description(a + b) == Description(a) + Description(b)
    decreases |b|
  {
    if b == [] {
      assert a + b == a;
    } else {
      var b', last := b[..|b| - 1], b[|b| - 1];
      var tail := if IsTextPart(last) then last.text.value else "";
      assert (a + b)[..|a + b| - 1] == a + b' && (a + b)[|a + b| - 1] == last;
      assert Description(a + b) == Description(a + b') + tail;
      assert Description(b) == Description(b') + tail;
      DescriptionAppend(a, b');
    }
  }

  /** The loop over `content.parts`: text parts are appended to the
      description, and each image part replaces the image seen so far. */
  method FoldParts(parts: seq<Part>) returns (imageData: Option<Bytes>, description: string)
    ensures imageData == LastImage(parts)
    ensures description == Description(parts)
  {
    imageData := None;
    description := "";
    var i := 0;
    while i < |parts|
      invariant 0 <= i <= |parts|
      invariant imageData == LastImage(parts[..i])
      invariant description == Description(parts[..i])
    {
      var part := parts[i];
      assert parts[..i + 1][..i] == parts[..i];
      if part.text.Some? && part.text.value != "" {
        description := description + part.text.value;
      } else if part.inlineData.Some? && part.inlineData.value.data.Some?
                && part.inlineData.value.data.value != [] {
        imageData := part.inlineData.value.data;
      }
      i := i + 1;
    }
    assert parts[..i] == parts;
  }

  /** The parts `generate_image` folds over: those of the first candidate's
      content, when the call returned a candidate with a non-empty list of
      parts. */
  function FirstParts(outcome: SdkOutcome<ImageResponse>): (r: Option<seq<Part>>)
    ensures r.Some? ==> r.value != []
  {
    match outcome
    case Raised(_) => None
    case Returned(response) =>
      if response.candidates.None? || response.candidates.value == [] then None
      else
        var content := response.candidates.value[0].content;
        if content.None? || content.value.parts.None? || content.value.parts.value == [] then None
        else Some(content.value.parts.value)
  }

  const NoImageGenerated: string := "No image generated"
  const NoImageContent: string := "No image content received"
  const NoImageData: string := "No image data received"
  const ImageGenerated: string := "Image generated successfully"

  /** `generate_image` after the SDK call: no candidates, a first
      candidate without content or parts, and a response without image data
      each give no image and their own message; with image data the message
      is the description, or a fixed text when there is none; an exception
      gives no image and its text. */
  method GenerateImage(outcome: SdkOutcome<ImageResponse>) returns (image: Option<Bytes>, message: string)
    ensures outcome.Raised? ==> image.None? && message == "Error generating image: " + outcome.error
    ensures outcome.Returned? && (outcome.response.candidates.None? || outcome.response.candidates.value == []) ==>
              image.None? && message == NoImageGenerated
    ensures outcome.Returned? && outcome.response.candidates.Some? && outcome.response.candidates.value != [] ==>
              var content := outcome.response.candidates.value[0].content;
              if content.None? || content.value.parts.None? || content.value.parts.value == [] then
                image.None? && message == NoImageContent
              else
                var parts := content.value.parts.value;
                && image == LastImage(parts)
                && (image.None? ==> message == NoImageData)
                && (image.Some? ==> message == if Description(parts) != "" then Description(parts) else ImageGenerated)
    ensures image.Some? ==> image.value != [] && message != ""
    ensures FirstParts(outcome).None? ==> image.None?
    ensures FirstParts(outcome).Some? ==>
              && image == LastImage(FirstParts(outcome).value)
              && (image.Some? ==> message == if Description(FirstParts(outcome).value) != "" then
                                               Description(FirstParts(outcome).value) else ImageGenerated)
  {
    match outcome
    case Raised(e) =>
      return None, "Error generating image: " + e;
    case Returned(response) =>
      if response.candidates.None? || response.candidates.value == [] {
        return None, NoImageGenerated;
      }
      var content := response.candidates.value[0].content;
      if content.None? || content.value.parts.None? || content.value.parts.value == [] {
        return None, NoImageContent;
      }
      var imageData, description := FoldParts(content.value.parts.value);
      if imageData.Some? {
        return imageData, if description != "" then description else ImageGenerated;
      }
      return None, NoImageData;
  }
}
