/** `POST /api/emoji-generate`: validate the word, build the prompt, call the image provider once,
    check that it returned base64 image data, post-process it, and answer with the PNG in base64
    and a suggested emoji name. The provider, the base64 codec and the image library are
    parameters. */
module EmojiGenerate {
  import opened Common
  import opened Text
  import Process

  /** The request body once `request.json()` has run; `Unparsable` is a body that is not JSON
      (or is `null`, which the destructuring `const { word } = ...` rejects). */
  datatype Request = Unparsable | Body(word: JsValue)

  /** The provider's answer to `images.generate`: the call failed, or it returned `response.data`,
      which may be absent; each element carries an optional `b64_json`. */
  datatype ProviderReply = ProviderFailed | Reply(data: Option<seq<Option<string>>>)

  /** The JSON the handler answers with. A success carries exactly the two fields. */
  datatype Response =
    | Generated(base64Png: string, suggestedName: string)
    | Failed(status: nat, error: string)

  /** The response together with the prompt sent to the provider, if the provider was called. */
  datatype Outcome = Outcome(response: Response, prompt: Option<string>)

  const WordRequired := "Word is required"
  const GenerateFailed := "Failed to generate emoji"

  /** The template text before and after the word (lines of the template literal, with their
      four-space indentation and the surrounding newlines). */
  const PromptHead := "\n    Flat emoji-style illustration of a single **"
  const PromptTail :=
    "**.\n    \n    Canvas:\n" +
    "    \U{2022} Square, 1024 \U{D7} 1024 px, RGBA, background white.\n    \n    Object:\n" +
    "    \U{2022} Centered and fills 80\U{2013}90 % of the image (minimal even margin).\n" +
    "    \U{2022} No border or outline stroke.\n" +
    "    \U{2022} No background color or card.\n" +
    "    \U{2022} No text, no other elements.\n" +
    "    \U{2022} No drop shadow.\n" +
    "    \U{2022} No glow.\n" +
    "    \U{2022} No gradient.\n" +
    "    \U{2022} No checkerboard.\n    "

  function BuildPrompt(word: string): (r: string)
  {
    PromptHead + word + PromptTail
  }

  /** The prompt holds the word verbatim, at a fixed place, so distinct words give distinct prompts. */
  lemma PromptContainsWord(word: string, other: string)
    ensures |BuildPrompt(word)| == |PromptHead| + |word| + |PromptTail|
    ensures BuildPrompt(word)[|PromptHead|..|PromptHead| + |word|] == word
    ensures BuildPrompt(word) == BuildPrompt(other) ==> word == other
  {
    var p := BuildPrompt(word);
    assert p[|PromptHead|..|PromptHead| + |word|] == word;
    if p == BuildPrompt(other) {
      assert |other| == |word|;
      assert BuildPrompt(other)[|PromptHead|..|PromptHead| + |other|] == other;
    }
  }

  /** `:${word.toLowerCase().replace(/\s+/g, '-')}:` */
  function SuggestedName(word: string): (r: string)
  {
    ":" + DashSpaceRuns(Lower(word)) + ":"
  }

  /** The suggested name is wrapped in colons, holds no white space and no upper-case letter, and between the colons keeps
      every character of the lower-cased word other than white space and '-', in order. */
  lemma SuggestedNameShape(word: string)
    ensures var n := SuggestedName(word);
            2 <= |n| <= |word| + 2 && n[0] == ':' && n[|n| - 1] == ':' &&
            NoSpaces(n) && NoUpper(n) && Letters(n[1..|n| - 1]) == Letters(Lower(word))
  {
    var l := Lower(word);
    var d := DashSpaceRuns(l);
    var n := SuggestedName(word);
    assert n[1..|n| - 1] == d;
    DashSpaceRunsKeepsLetters(l);
    DashSpaceRunsShorter(l);
    DashSpaceRunsHasNoSpaces(l);
    LowerNoUpper(word);
    DashSpaceRunsNoUpper(l);
    forall i | 0 <= i < |n| ensures !IsSpace(n[i]) && !('A' <= n[i] <= 'Z') {
      if 1 <= i < |n| - 1 { assert n[i] == d[i - 1]; }
    }
  }

  /** Surrounding white space is not trimmed: it turns into a leading or trailing '-'. */
  lemma SuggestedNameEdges(word: string)
    requires word != []
    ensures var n := SuggestedName(word);
            |n| >= 3 &&
            (IsSpace(word[0]) ==> n[1] == '-') &&
            (IsSpace(word[|word| - 1]) ==> n[|n| - 2] == '-')
  {
    var l := Lower(word);
    var d := DashSpaceRuns(l);
    var n := SuggestedName(word);
    assert n == ":" + d + ":";
    DashSpaceRunsLast(l);
    assert |d| >= 1 && |n| == |d| + 2;
    assert n[1] == d[0] && n[|n| - 2] == d[|d| - 1];
    assert l[0] == LowerChar(word[0]) && l[|l| - 1] == LowerChar(word[|word| - 1]);
    if IsSpace(word[0]) {
      assert IsSpace(l[0]);
      assert d[0] == '-';
    }
  }

  /** A word with no white space is only lower-cased. */
  lemma SuggestedNameOfSingleWord(word: string)
    requires NoSpaces(word)
    ensures SuggestedName(word) == ":" + Lower(word) + ":"
  {
    LowerKeepsSpacesAndColons(word);
    DashSpaceRunsWithoutSpaces(Lower(word));
  }

  lemma SuggestedNameExample()
    ensures SuggestedName("Rocket  Ship") == ":rocket-ship:"
  {
    LowerExample();
    DashExample();
  }

  lemma LowerExample()
    ensures Lower("Rocket  Ship") == "rocket" + ("  " + "ship")
  {
    LowerConcat("Rocket", "  Ship");
    LowerConcat("  ", "Ship");
    assert Lower("Rocket") == "rocket";
    assert Lower("  ") == "  ";
    assert Lower("Ship") == "ship";
    assert "Rocket  Ship" == "Rocket" + ("  " + "Ship");
  }

  lemma DashExample()
    ensures DashSpaceRuns("rocket" + ("  " + "ship")) == "rocket-ship"
  {
    DashOfWordRunWord("rocket", "  ", "ship");
  }

  /** The handler. Every thrown error is caught and answered with status 500. */
  function Handle(request: Request, provider: string -> ProviderReply,
                  sharp: Process.Sharp, base64: Base64): (r: Outcome)
  {
    match request
    case Unparsable => Outcome(Failed(500, GenerateFailed), None)
    case Body(w) =>
      match NonEmptyString(w)
      case None => Outcome(Failed(400, WordRequired), None)
      case Some(word) =>
        var prompt := BuildPrompt(word);
        Outcome(AfterProvider(word, provider(prompt), sharp, base64), Some(prompt))
  }

  /** The part of the handler after the provider call (lines 67-91). */
  function AfterProvider(word: string, reply: ProviderReply, sharp: Process.Sharp, base64: Base64): (r: Response)
  {
    match reply
    case ProviderFailed => Failed(500, GenerateFailed)
    case Reply(data) =>
      if data.None? || |data.value| == 0 then Failed(500, GenerateFailed)
      else
        var imageBase64 := data.value[0];
        if imageBase64.None? || imageBase64.value == "" then Failed(500, GenerateFailed)
        else
          match Process.Processed(sharp, base64.decode(imageBase64.value))
          case None => Failed(500, GenerateFailed)
          case Some(processed) => Generated(base64.encode(processed.png), SuggestedName(word))
  }

  /** A missing, empty or non-string word gets 400 "Word is required" and the provider is not
      called; no other request gets a 400. */
  lemma WordRequiredIff(request: Request, provider: string -> ProviderReply,
                        sharp: Process.Sharp, base64: Base64)
    ensures var o := Handle(request, provider, sharp, base64);
            (o.response.Failed? && o.response.status == 400) <==>
            (request.Body? && !(Truthy(request.word) && request.word.Str?))
    ensures request.Body? && !(Truthy(request.word) && request.word.Str?) ==>
            Handle(request, provider, sharp, base64) == Outcome(Failed(400, WordRequired), None)
  {
  }

  /** The provider is called, once, exactly for a request whose word passed validation, and it is
      given the prompt built from that word. */
  lemma ProviderCalledIff(request: Request, provider: string -> ProviderReply,
                          sharp: Process.Sharp, base64: Base64)
    ensures var o := Handle(request, provider, sharp, base64);
            o.prompt.Some? <==> request.Body? && request.word.Str? && request.word.s != ""
    ensures var o := Handle(request, provider, sharp, base64);
            o.prompt.Some? ==> o.prompt.value == BuildPrompt(request.word.s)
  {
  }

  /** No `response.data`, an empty one, or no `b64_json` in its first element fails the whole
      request with 500 and no partial result. */
  lemma MissingImageFails(word: string, data: Option<seq<Option<string>>>,
                          sharp: Process.Sharp, base64: Base64)
    requires data.None? || |data.value| == 0 || data.value[0].None? || data.value[0].value == ""
    ensures AfterProvider(word, Reply(data), sharp, base64) == Failed(500, GenerateFailed)
  {
  }

  /** Every failure is one of the two fixed answers. */
  lemma FailuresAreFixed(request: Request, provider: string -> ProviderReply,
                         sharp: Process.Sharp, base64: Base64)
    ensures var r := Handle(request, provider, sharp, base64).response;
            r.Failed? ==> r == Failed(400, WordRequired) || r == Failed(500, GenerateFailed)
  {
  }

  /** A success comes from a valid word, a first `b64_json` that is present and non-empty, and a
      post-processing run that succeeded on its decoded bytes; it carries the processed PNG in
      base64 and the suggested name of the word as sent (not trimmed). */
  lemma SuccessIff(request: Request, provider: string -> ProviderReply,
                   sharp: Process.Sharp, base64: Base64)
    ensures Handle(request, provider, sharp, base64).response.Generated? <==>
      request.Body? && request.word.Str? && request.word.s != "" &&
      var reply := provider(BuildPrompt(request.word.s));
      reply.Reply? && reply.data.Some? && |reply.data.value| > 0 &&
      reply.data.value[0].Some? && reply.data.value[0].value != "" &&
      Process.Processed(sharp, base64.decode(reply.data.value[0].value)).Some?
    ensures var r := Handle(request, provider, sharp, base64).response;
      r.Generated? ==>
        var reply := provider(BuildPrompt(request.word.s));
        var processed := Process.Processed(sharp, base64.decode(reply.data.value[0].value)).value;
        r == Generated(base64.encode(processed.png), SuggestedName(request.word.s)) &&
        processed.encodes <= 2
  {
    var o := Handle(request, provider, sharp, base64);
    if o.response.Generated? {
      var reply := provider(BuildPrompt(request.word.s));
      Process.ProcessedEncodesAtMostTwice(sharp, base64.decode(reply.data.value[0].value));
    }
  }
}
