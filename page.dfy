/** The client page `Home`: the word field, the generate handler that moves the page through
    idle, loading and result or error, the download helper, and the guards that enable the
    button and show the result. The network call and `atob` are parameters; rendering is not
    modelled. */
module Page {
  import opened Common
  import opened Text
  import EmojiGenerate
  import Process

  /** The JSON the generate endpoint answers with on success. */
  datatype EmojiResult = EmojiResult(base64Png: string, suggestedName: string)

  /** What the page gets back from `fetch('/api/emoji-generate', ...)`: the fetch threw, or a
      response with its `ok` flag and its body parsed by `response.json()` (`None` when that throws). */
  datatype ServerReply = RequestFailed | ServerResponse(ok: bool, json: Option<EmojiResult>)

  /** The file the download link saves. */
  datatype Download = Download(bytes: seq<byte>, filename: string)

  const EmptyWordError := "Please enter a word or phrase"
  const RetryError := "Failed to generate emoji. Please try again."

  predicate Succeeded(reply: ServerReply)
  {
    reply.ServerResponse? && reply.ok && reply.json.Some?
  }

  /** `disabled={loading || !word.trim()}` on the Generate button. */
  function GenerateDisabled(loading: bool, word: string): (r: bool)
    ensures r <==> loading || AllSpaces(word)
  {
    TrimEmptyIff(word);
    loading || Trim(word) == ""
  }

  /** `{result && !loading && ...}`: the result panel. */
  predicate ResultVisible(result: Option<EmojiResult>, loading: bool)
  {
    result.Some? && !loading
  }

  /** `${suggestedName.replace(/:/g, '')}.png` */
  function DownloadName(suggestedName: string): (r: string)
  {
    RemoveAll(suggestedName, ':') + ".png"
  }

  /** What the download saves: each character's code, stored into a `Uint8Array` (which keeps
      the code modulo 256). */
  function ByteArray(decoded: string): (r: seq<byte>)
  {
    seq(|decoded|, i requires 0 <= i < |decoded| => (decoded[i] as int % 256) as byte)
  }

  /** `atob` produces only characters below 256, and for those the bytes are the characters'
      codes exactly, so the characters can be read back from the bytes. */
  lemma ByteArrayLatin1(decoded: string)
    requires forall i | 0 <= i < |decoded| :: decoded[i] as int < 256
    ensures |ByteArray(decoded)| == |decoded|
    ensures forall i | 0 <= i < |decoded| :: ByteArray(decoded)[i] as int == decoded[i] as int
    ensures seq(|decoded|, i requires 0 <= i < |decoded| => ByteArray(decoded)[i] as int as char) == decoded
  {
    var b := ByteArray(decoded);
    var back := seq(|decoded|, i requires 0 <= i < |decoded| => b[i] as int as char);
    forall i | 0 <= i < |decoded| ensures back[i] == decoded[i] {
      assert b[i] as int == decoded[i] as int;
    }
  }

  /** The download file name holds no ':' and ends in `.png`; for a name the server suggested,
      it is the dashed, lower-cased word itself, provided the word has no ':'. */
  lemma DownloadNameOfSuggested(word: string)
    ensures ':' !in DownloadName(EmojiGenerate.SuggestedName(word))
    ensures ':' !in word ==>
            DownloadName(EmojiGenerate.SuggestedName(word)) == DashSpaceRuns(Lower(word)) + ".png"
  {
    var d := DashSpaceRuns(Lower(word));
    var n := EmojiGenerate.SuggestedName(word);
    RemoveAllRemoves(n, ':');
    if ':' !in word {
      DashedHasNoColon(word);
      RemoveAllRemoves(d, ':');
      RemoveAllConcat(":" + d, ":", ':');
      RemoveAllConcat(":", d, ':');
      assert n == ":" + d + ":";
    }
  }

  lemma DashedHasNoColon(word: string)
    requires ':' !in word
    ensures ':' !in DashSpaceRuns(Lower(word))
  {
    assert ':' !in Lower(word) by {
      forall i | 0 <= i < |word| ensures Lower(word)[i] != ':' { assert word[i] != ':'; }
    }
    DashSpaceRunsAddsOnlyDashes(Lower(word), ':');
  }

  /** The two guards agree with the page invariant: while loading the button is disabled and the
      result panel hidden; an enabled button means a click sends a non-empty trimmed word. */
  lemma GuardsAgree(loading: bool, word: string, result: Option<EmojiResult>, error: string)
    requires loading ==> result.None? && error == ""
    ensures loading ==> GenerateDisabled(loading, word) && !ResultVisible(result, loading)
    ensures ResultVisible(result, loading) <==> result.Some?
    ensures !GenerateDisabled(loading, word) <==> !loading && Trim(word) != ""
  {
    TrimEmptyIff(word);
  }

  /** A word the page sends after trimming is never refused by the server for being missing:
      the provider is called with the prompt for exactly that word. */
  lemma SentWordIsAccepted(word: string, provider: string -> EmojiGenerate.ProviderReply,
                           sharp: Process.Sharp, base64: Base64)
    requires Trim(word) != ""
    ensures var o := EmojiGenerate.Handle(EmojiGenerate.Body(Str(Trim(word))), provider, sharp, base64);
            o.response != EmojiGenerate.Failed(400, EmojiGenerate.WordRequired) &&
            o.prompt == Some(EmojiGenerate.BuildPrompt(Trim(word)))
  {
  }

  class Home {
    var word: string
    var loading: bool
    var error: string
    var result: Option<EmojiResult>

    /** While a request is in flight there is neither a result nor an error. */
    ghost predicate Valid()
      reads this
    {
      loading ==> result.None? && error == ""
    }

    constructor ()
      ensures Valid()
      ensures word == "" && !loading && error == "" && result.None?
    {
      word := "";
      loading := false;
      error := "";
      result := None;
    }

    /** `onChange` of the input, which is disabled while loading. */
    method SetWord(w: string)
      requires Valid() && !loading
      modifies this`word
      ensures Valid() && word == w
    {
      word := w;
    }

    /** The synchronous start of `handleGenerate`, up to the request. An all-white-space word
        only sets the error; otherwise the page enters the loading state and sends the trimmed
        word. Both controls that call it are disabled while loading. */
    method BeginGenerate() returns (sent: Option<string>)
      requires Valid() && !loading
      modifies this`loading, this`error, this`result
      ensures Valid()
      ensures sent.None? <==> AllSpaces(word)
      ensures AllSpaces(word) ==>
              error == EmptyWordError && loading == old(loading) && result == old(result)
      ensures !AllSpaces(word) ==>
              sent == Some(Trim(word)) && loading && error == "" && result.None?
    {
      var trimmed := Trim(word);
      TrimEmptyIff(word);
      if trimmed == "" {
        error := EmptyWordError;
        sent := None;
        return;
      }
      loading := true;
      error := "";
      result := None;
      sent := Some(trimmed);
    }

    /** The rest of `handleGenerate` once the request has settled, including its `finally`. */
    method CompleteGenerate(reply: ServerReply)
      requires Valid() && loading
      modifies this`loading, this`error, this`result
      ensures Valid() && !loading
      ensures Succeeded(reply) ==> result == Some(reply.json.value) && error == ""
      ensures !Succeeded(reply) ==> result.None? && error == RetryError
    {
      if reply.RequestFailed? || !reply.ok || reply.json.None? {
        error := RetryError;
      } else {
        result := Some(reply.json.value);
      }
      loading := false;
    }

    /** `handleGenerate` as one sequential step: after any outcome the page is not loading. */
    method HandleGenerate(reply: ServerReply) returns (sent: Option<string>)
      requires Valid() && !loading
      modifies this`loading, this`error, this`result
      ensures Valid() && !loading
      ensures sent.None? <==> AllSpaces(word)
      ensures AllSpaces(word) ==> error == EmptyWordError && result == old(result)
      ensures !AllSpaces(word) ==> sent == Some(Trim(word))
      ensures !AllSpaces(word) && Succeeded(reply) ==> result == Some(reply.json.value) && error == ""
      ensures !AllSpaces(word) && !Succeeded(reply) ==> result.None? && error == RetryError
    {
      sent := BeginGenerate();
      if sent.Some? {
        CompleteGenerate(reply);
      }
    }

    /** `handleDownload`: nothing without a result; otherwise the base64 PNG is decoded with
        `atob` (which throws on malformed input, `None`), each character's code is collected in
        a loop, and the file is named after the suggested name without colons. */
    method HandleDownload(atob: string -> Option<string>) returns (d: Option<Download>)
      ensures d.Some? <==> result.Some? && atob(result.value.base64Png).Some?
      ensures d.Some? ==>
              var decoded := atob(result.value.base64Png).value;
              d.value.bytes == ByteArray(decoded) && |d.value.bytes| == |decoded| &&
              (forall i | 0 <= i < |decoded| :: d.value.bytes[i] as int == decoded[i] as int % 256) &&
              d.value.filename == DownloadName(result.value.suggestedName)
    {
      if result.None? {
        return None;
      }
      var byteCharacters := atob(result.value.base64Png);
      if byteCharacters.None? {
        return None;
      }
      var chars := byteCharacters.value;
      var byteNumbers := new int[|chars|];
      for i := 0 to |chars|
        invariant forall k | 0 <= k < i :: byteNumbers[k] == chars[k] as int
      {
        byteNumbers[i] := chars[i] as int;
      }
      var byteArray := seq(|chars|, k requires 0 <= k < |chars| reads byteNumbers => (byteNumbers[k] % 256) as byte);
      d := Some(Download(byteArray, DownloadName(result.value.suggestedName)));
    }
  }
}
