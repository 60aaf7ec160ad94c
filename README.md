# Slackmoji maker: a Dafny model of its sequential core

The application lets a user type a word, asks a hosted image model for a flat emoji of it,
post-processes the picture into a 128×128 PNG whose near-white background is made
transparent, re-encoding it once when it is over Slack's 128 KiB limit (a second encode that is
still too large is returned as it is), and offers it for download under a suggested `:name:`. A second endpoint
proxies remote image URLs as data URLs. This project models the parts of that system that
are logic rather than glue, and proves what they promise:

- `Process` (`lib/process.ts`): the near-white keying loop, as an in-place method over a byte
  array proved equal to a pointwise specification `Keyed`; the size-ceiling decision; and the
  whole `processEmojiImage` pipeline, with the image library's operations as parameters.
- `EmojiGenerate` (`app/api/emoji-generate/route.ts`): the `POST` handler as a function. It
  covers word validation, the prompt template, the checks on the provider's reply,
  post-processing and the `suggestedName` derivation.
- `ProxyImage` (`app/api/proxy-image/route.ts`): the `POST` handler as a function. It covers url
  validation, the protocol check, the fetch status check, the content-type check and the
  data-URL assembly.
- `Page` (`app/page.tsx`): the `Home` component. Its state `word`, `loading`, `error` and
  `result` is a class whose methods are `handleGenerate` (split at the request into
  `BeginGenerate` and `CompleteGenerate`) and `handleDownload`, with its character-code loop.
  The button and the result panel guards are functions.
- `Text`: the JavaScript string operations these rely on: the `\s` class, `trim()`, ASCII
  `toLowerCase()`, `replace(/\s+/g, '-')` and `replace(/:/g, '')`.
- `Common`: bytes, `Option`, JSON values with JavaScript truthiness, and the base64 codec as a
  pair of parameters.

External collaborators are function-typed parameters, never bodiless declarations. These are
the image library (`Process.Sharp`), the image provider (`string -> ProviderReply`), `fetch`,
the URL parser, Node's base64 conversions (`Common.Base64`) and `atob`. Each handler returns,
beside its response, what it passed to the outside world. For the generate handler that is the
prompt sent to the provider. For the proxy it is the URL fetched. So "no call is made" can be
stated and proved.

Where the design notes and the code disagree, the model follows the code:

- the keying threshold is `> 245` (a channel of exactly 245 is kept), not `≥ 245`;
- the image is not trimmed before resizing, and the contain-resize pads with opaque white,
  which the keying then makes transparent;
- a re-encode that is still over 128 KiB is returned as it is, not reported as an error
  (`CeilingNotGuaranteed`);
- the generate handler reads only `word`; `referenceImages` is ignored, and the prompt is
  always the fixed template;
- `suggestedName` is not trimmed on the server; surrounding white space becomes a leading or
  trailing `-` (`SuggestedNameEdges`); only the page trims before sending.

## Model

| member | source | states |
|---|---|---|
| Common.NonEmptyString | app/api/emoji-generate/route.ts:11 | the guard that rejects a falsy or non-string value passes exactly the non-empty strings |
| Process.NearWhite | lib/process.ts:32-33 | a pixel is near-white when r, g and b are all strictly above 245 |
| Process.KeyedAt | lib/process.ts:27-35 | one byte after keying: an alpha byte behind three near-white colour bytes becomes 0, every other byte is kept; its properties are the `Keyed*` lemmas |
| Process.Keyed | lib/process.ts:24-36 | the whole RGBA buffer after the keying loop, byte by byte; `KeyNearWhite` is proved equal to it |
| Process.KeyNearWhite | lib/process.ts:24-36 | the stride-4 loop leaves the buffer equal to `Keyed` of its old contents |
| Process.KeyedLength | lib/process.ts:24-27 | keying preserves the buffer length |
| Process.KeyedClearsNearWhite | lib/process.ts:27-35 | a pixel with r, g and b all > 245 ends with alpha 0 and its colour kept |
| Process.KeyedKeepsOtherPixels | lib/process.ts:33 | a pixel with some channel ≤ 245 keeps all four bytes |
| Process.KeyedWritesOnlyAlpha | lib/process.ts:34 | only bytes at index 4k+3 change, and only to 0; R, G, B are never written |
| Process.ThresholdIsStrict | lib/process.ts:33 | a channel of exactly 245 leaves the pixel unkeyed |
| Process.PaddingBecomesTransparent | lib/process.ts:11-14 | the white (255,255,255) contain padding always ends transparent |
| Process.KeyedIdempotent | lib/process.ts:27-36 | keying twice equals keying once |
| Process.KeyedConcat | lib/process.ts:27-36 | pixels are keyed independently: keying splits over concatenation at a pixel boundary |
| Process.EnforceCeiling | lib/process.ts:54-66 | the first encode is returned iff it is ≤ 131072 bytes, otherwise the re-encode of it is returned; `encodes` records which branch ran (1 or 2), not calls into the encoder |
| Process.CeilingMetIff | lib/process.ts:54-66 | the output fits 128 KiB iff the first encode or the re-encode does |
| Process.CeilingNotGuaranteed | lib/process.ts:56-63 | a re-encode still over 128 KiB is returned unchecked |
| Process.Processed | lib/process.ts:3-67 | `processEmojiImage` end to end: contain-resize, raw RGBA, keying, palette encode and the ceiling decision; `ProcessedEncodesAtMostTwice` states what it returns and `ProcessEmojiImage` computes it |
| Process.ProcessedEncodesAtMostTwice | lib/process.ts:3-67 | the pipeline fails only when the resize fails, and returns the encode of the keyed pixels or the single re-encode of it, the former whenever it fits 128 KiB |
| Process.ProcessEmojiImage | lib/process.ts:3-67 | the pipeline with the in-place keying method computes `Processed` |
| EmojiGenerate.BuildPrompt | app/api/emoji-generate/route.ts:19-34 | the fixed template with the word inserted between its head and tail; `PromptContainsWord` states where the word sits |
| EmojiGenerate.PromptContainsWord | app/api/emoji-generate/route.ts:19-34 | the prompt holds the word verbatim at a fixed offset, so distinct words give distinct prompts |
| EmojiGenerate.SuggestedName | app/api/emoji-generate/route.ts:86-90 | `:${word.toLowerCase().replace(/\s+/g, '-')}:`; its shape is stated by the `SuggestedName*` lemmas |
| EmojiGenerate.SuggestedNameShape | app/api/emoji-generate/route.ts:86-90 | the name is wrapped in ':', has no white space and no upper-case letter, and keeps the lower-cased word's other characters in order |
| EmojiGenerate.SuggestedNameEdges | app/api/emoji-generate/route.ts:86-90 | leading or trailing white space becomes '-' because nothing is trimmed |
| EmojiGenerate.SuggestedNameOfSingleWord | app/api/emoji-generate/route.ts:86-90 | a word without white space is only lower-cased and wrapped in ':' |
| EmojiGenerate.SuggestedNameExample | app/api/emoji-generate/route.ts:86-90 | "Rocket  Ship" gives ":rocket-ship:" |
| EmojiGenerate.Handle | app/api/emoji-generate/route.ts:7-98 | the `POST` handler: a body that is not JSON gives 500, a bad word 400, otherwise one provider call with the prompt and the rest of the handler; its branches are characterised by the `*Iff` lemmas below |
| EmojiGenerate.AfterProvider | app/api/emoji-generate/route.ts:67-91 | the checks on `response.data` and its first `b64_json`, post-processing and the success body |
| EmojiGenerate.WordRequiredIff | app/api/emoji-generate/route.ts:11-16 | status 400 "Word is required" with no provider call iff the word is missing, empty or not a string |
| EmojiGenerate.ProviderCalledIff | app/api/emoji-generate/route.ts:19-65 | the provider is called exactly when the word is valid, with the prompt built from it |
| EmojiGenerate.MissingImageFails | app/api/emoji-generate/route.ts:67-74 | no `data`, empty `data` or no `b64_json` gives 500 "Failed to generate emoji" |
| EmojiGenerate.FailuresAreFixed | app/api/emoji-generate/route.ts:93-98 | every failure is 400 "Word is required" or 500 "Failed to generate emoji" |
| EmojiGenerate.SuccessIff | app/api/emoji-generate/route.ts:67-91 | success iff valid word, present first `b64_json` and successful processing; then exactly `base64Png` and `suggestedName` |
| ProxyImage.AllowedProtocol | app/api/proxy-image/route.ts:15 | only `http:` and `https:` are accepted |
| ProxyImage.IsImageType | app/api/proxy-image/route.ts:34 | `contentType.startsWith('image/')` |
| ProxyImage.DataUrl | app/api/proxy-image/route.ts:41 | `data:${contentType};base64,${base64}`; `DataUrlParts` states how it splits back |
| ProxyImage.Handle | app/api/proxy-image/route.ts:3-51 | the `POST` handler: url check, parse and protocol check, then one fetch of the serialised URL; its branches are characterised by the `*Iff` lemmas below |
| ProxyImage.AfterFetch | app/api/proxy-image/route.ts:29-43 | the status check, then the content-type check, then the data URL |
| ProxyImage.DataUrlParts | app/api/proxy-image/route.ts:41 | the data URL is `data:` + content type + `;base64,` + payload, each readable back at fixed offsets |
| ProxyImage.InvalidUrlIff | app/api/proxy-image/route.ts:7-9 | 400 "Invalid URL" iff the url is missing, empty or not a string; nothing is fetched |
| ProxyImage.InvalidUrlFormatIff | app/api/proxy-image/route.ts:12-20 | 400 "Invalid URL format" iff the url does not parse or its protocol is not http:/https:; nothing is fetched |
| ProxyImage.FetchIff | app/api/proxy-image/route.ts:23-27 | a fetch happens iff the url passed both checks, and it is of the parsed url |
| ProxyImage.FailedFetchIsServerError | app/api/proxy-image/route.ts:29-31 | a failed or non-ok fetch gives 500 "Failed to fetch image" whatever the content type |
| ProxyImage.NotAnImageIff | app/api/proxy-image/route.ts:33-36 | an ok response gives 400 "URL does not point to an image" iff its content type is missing or not `image/...` |
| ProxyImage.ProxiedIff | app/api/proxy-image/route.ts:38-43 | success iff ok and an image content type; the data URL copies the header verbatim and starts `data:image/` |
| ProxyImage.FtpRefused | app/api/proxy-image/route.ts:15-19 | an ftp: url is refused with 400 before any fetch |
| ProxyImage.HtmlRefused | app/api/proxy-image/route.ts:33-36 | a `text/html` response is refused with 400 |
| Page.Succeeded | app/page.tsx:35-40 | the request succeeds when the fetch resolves, `response.ok` holds and the body parses |
| Page.GenerateDisabled | app/page.tsx:100 | the button is disabled iff loading or the word is all white space |
| Page.ResultVisible | app/page.tsx:121 | the result panel shows when there is a result and the page is not loading; `GuardsAgree` relates it to the page invariant |
| Page.DownloadName | app/page.tsx:65 | the suggested name with every ':' removed, plus `.png`; `DownloadNameOfSuggested` states what it is for a server name |
| Page.ByteArray | app/page.tsx:53-58 | each decoded character's code kept modulo 256, as a `Uint8Array` stores it; `ByteArrayLatin1` states the round trip for `atob` output |
| Page.GuardsAgree | app/page.tsx:100-121 | while loading the button is disabled and the result hidden; an enabled button means a non-empty trimmed word |
| Page.ByteArrayLatin1 | app/page.tsx:53-58 | for `atob` output the bytes are the character codes and give the characters back |
| Page.DownloadNameOfSuggested | app/page.tsx:65 | the file name has no ':'; for a suggested name it is the dashed lower-cased word + ".png" |
| Page.SentWordIsAccepted | app/page.tsx:17-32 | the trimmed word the page sends always passes the server's word check |
| Page.Home.constructor | app/page.tsx:11-14 | the page starts with an empty word, not loading, no error, no result |
| Page.Home.SetWord | app/page.tsx:89-94 | editing the word changes only `word` |
| Page.Home.BeginGenerate | app/page.tsx:16-24 | an all-white-space word only sets "Please enter a word or phrase"; otherwise loading, no error, no result, and the trimmed word is sent |
| Page.Home.CompleteGenerate | app/page.tsx:35-46 | afterwards not loading; success sets the result with no error, failure the retry message with no result |
| Page.Home.HandleGenerate | app/page.tsx:16-47 | the whole handler keeps the page invariant and ends not loading |
| Page.Home.HandleDownload | app/page.tsx:49-65 | nothing without a result; otherwise one byte per decoded character (its code mod 256) and the name without ':' plus ".png" |
| Text.IsSpace | app/api/emoji-generate/route.ts:86 | the `\s` class and the `trim()` set: the ECMA-262 WhiteSpace and LineTerminator code points |
| Text.LowerChar | app/api/emoji-generate/route.ts:86 | 'A'..'Z' map to 'a'..'z', every other character is kept, and white space stays white space both ways |
| Text.Lower | app/api/emoji-generate/route.ts:86 | `toLowerCase()` applied character by character; what the result means is stated by `LowerNoUpper` |
| Text.LowerNoUpper | app/api/emoji-generate/route.ts:85-86 | the lower-cased word holds no upper-case letter, and only upper-case letters were changed |
| Text.SkipSpaces | app/page.tsx:17 | the result is a suffix of the input that does not start with white space, and shorter whenever the input does |
| Text.SkipSpacesDropsSpaces | app/page.tsx:17 | everything the start-trim drops is white space, so together with `SkipSpaces` it drops exactly the longest white-space prefix |
| Text.TrimEnd | app/page.tsx:17 | the result is a prefix of the input that does not end with white space |
| Text.TrimEndDropsSpaces | app/page.tsx:17 | everything the end-trim drops is white space, so together with `TrimEnd` it drops exactly the longest white-space suffix |
| Text.Trim | app/page.tsx:17 | `trim()` as the start-trim followed by the end-trim; its meaning is stated by the `Trim*` lemmas |
| Text.TrimIsInfix | app/page.tsx:17 | the trimmed word is a contiguous part of the word |
| Text.TrimDropsOnlySpaces | app/page.tsx:17 | what trimming drops on either side is white space |
| Text.TrimEdges | app/page.tsx:17 | the trimmed word neither starts nor ends with white space |
| Text.TrimEmptyIff | app/page.tsx:17 | `word.trim()` is empty iff the word is all white space |
| Text.TrimIdempotent | app/page.tsx:32 | trimming twice equals trimming once |
| Text.DashSpaceRuns | app/api/emoji-generate/route.ts:86 | `replace(/\s+/g, '-')`: each maximal white-space run becomes one '-'; its meaning is stated by the `DashSpaceRuns*` lemmas |
| Text.DashSpaceRunsHasNoSpaces | app/api/emoji-generate/route.ts:86 | `replace(/\s+/g, '-')` leaves no white space |
| Text.DashSpaceRunsNoUpper | app/api/emoji-generate/route.ts:86 | the replacement introduces no upper-case letter, so the suggested name stays lower-case |
| Text.DashSpaceRunsWithoutSpaces | app/api/emoji-generate/route.ts:86 | a string without white space is unchanged |
| Text.DashSpaceRunsIdempotent | app/api/emoji-generate/route.ts:86 | replacing twice equals replacing once |
| Text.DashSpaceRunsKeepsLetters | app/api/emoji-generate/route.ts:86 | characters other than white space and '-' are kept, in order |
| Text.DashSpaceRunsWord | app/api/emoji-generate/route.ts:86 | a stretch without white space is copied |
| Text.DashSpaceRunsRun | app/api/emoji-generate/route.ts:86 | a maximal white-space run of any length becomes one '-' |
| Text.DashSpaceRunsAddsOnlyDashes | app/api/emoji-generate/route.ts:86 | the replacement introduces no character but '-' |
| Text.DashSpaceRunsFirst | app/api/emoji-generate/route.ts:86 | a leading run becomes a leading '-'; the result is no longer than the input |
| Text.DashSpaceRunsLast | app/api/emoji-generate/route.ts:86 | a trailing run becomes a trailing '-' |
| Text.RemoveAll | app/page.tsx:65 | `replace(/:/g, '')`, never longer than its input |
| Text.RemoveAllRemoves | app/page.tsx:65 | `replace(/:/g, '')` leaves no ':' and changes a string without ':' not at all |
| Text.RemoveAllConcat | app/page.tsx:65 | removal distributes over concatenation |

## Left out

- The `sharp` operations (contain-resize, `ensureAlpha`, raw decode, palette quantisation, PNG
  encoding) are uninterpreted parameters: nothing is proved about dimensions, encoded sizes
  or pixel contents beyond the keying.
- Process.Processed: only the first library call (decoding the provider's bytes) may fail; a
  failure of a later library call, which would also end in the handler's 500, is not modelled.
- The provider client call and the commented-out DALL-E variant are not modelled; the
  provider is a parameter from prompt to reply.
- `fetchImageBuffer` (`lib/process.ts:69-76`) is used only by the commented-out variant, so it
  is not modelled. The proxy's `fetch` is a parameter, and its `User-Agent` header is not
  represented.
- The base64 conversions and `atob` are parameters. Their RFC 4648 section 4 round trip is not
  stated.
- WHATWG URL parsing is a parameter that yields only the protocol and the serialised URL.
- Text.LowerChar: `toLowerCase` is modelled on ASCII letters only; other scripts' case mapping
  is left out.
- Common.JsValue: numbers are integers, so `NaN` (falsy) is not represented; it is rejected by
  the string check either way.
- Page.Home.HandleDownload: `charCodeAt` gives UTF-16 code units while the model uses code
  points; they agree on `atob` output, whose characters are all below 256. The Blob, the object
  URL and the anchor click are browser I/O and are left out.
- Page.Home.BeginGenerate requires that the page is not loading: both controls that trigger it
  (the input's Enter key and the button) are disabled while loading.
- Async interleaving, React rendering, JSX, CSS and the loading skeleton are not modelled.
  `handleGenerate` is two sequential steps around the request.
- Logging with `console.error` and the static `next.config.js` are left out.
