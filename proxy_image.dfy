/** `POST /api/proxy-image`: check the url, parse it, allow only http and https, fetch it, require
    a successful response with an image content type, and answer with the bytes as a base64 data
    URL. The URL parser, the fetch and the base64 encoder are parameters. */
module ProxyImage {
  import opened Common

  /** The request body once `request.json()` has run; `Unparsable` is a body that is not JSON
      (or is `null`, which the destructuring `const { url } = ...` rejects). */
  datatype Request = Unparsable | Body(url: JsValue)

  /** What the handler reads of a parsed `URL`: its `protocol` and its `toString()`. */
  datatype ParsedUrl = ParsedUrl(protocol: string, href: string)

  /** The outcome of `fetch`: it threw, or it produced a response with its `ok` flag, its
      `content-type` header (absent is `None`) and its body. */
  datatype FetchReply = NetworkError | Fetched(ok: bool, contentType: Option<string>, body: seq<byte>)

  datatype Response = Proxied(dataUrl: string) | Failed(status: nat, error: string)

  /** The response together with the URL that was fetched, if a fetch was made. */
  datatype Outcome = Outcome(response: Response, fetched: Option<string>)

  const InvalidUrl := "Invalid URL"
  const InvalidUrlFormat := "Invalid URL format"
  const NotAnImage := "URL does not point to an image"
  const FetchFailed := "Failed to fetch image"

  predicate AllowedProtocol(protocol: string)
  {
    protocol == "http:" || protocol == "https:"
  }

  /** `contentType.startsWith('image/')` */
  predicate IsImageType(contentType: string)
  {
    "image/" <= contentType
  }

  function DataUrl(contentType: string, base64: string): (r: string)
  {
    "data:" + contentType + ";base64," + base64
  }

  /** The data URL carries the content type verbatim after `data:` and the payload at its end,
      so both can be read back from it. */
  lemma DataUrlParts(contentType: string, base64: string)
    ensures var d := DataUrl(contentType, base64);
            |d| == 13 + |contentType| + |base64| &&
            d[..5] == "data:" && d[5..5 + |contentType|] == contentType &&
            d[5 + |contentType|..13 + |contentType|] == ";base64," &&
            d[13 + |contentType|..] == base64
  {
    var d := DataUrl(contentType, base64);
    assert d == "data:" + contentType + ";base64," + base64;
  }

  /** The handler. A failed fetch throws, and the catch answers 500. */
  function Handle(request: Request, parse: string -> Option<ParsedUrl>,
                  fetch: string -> FetchReply, base64: Base64): (r: Outcome)
  {
    match request
    case Unparsable => Outcome(Failed(500, FetchFailed), None)
    case Body(u) =>
      match NonEmptyString(u)
      case None => Outcome(Failed(400, InvalidUrl), None)
      case Some(url) =>
        match parse(url)
        case None => Outcome(Failed(400, InvalidUrlFormat), None)
        case Some(validUrl) =>
          if !AllowedProtocol(validUrl.protocol) then Outcome(Failed(400, InvalidUrlFormat), None)
          else Outcome(AfterFetch(fetch(validUrl.href), base64), Some(validUrl.href))
  }

  /** The part of the handler after the fetch (lines 29-43). */
  function AfterFetch(reply: FetchReply, base64: Base64): (r: Response)
  {
    match reply
    case NetworkError => Failed(500, FetchFailed)
    case Fetched(ok, contentType, body) =>
      if !ok then Failed(500, FetchFailed)
      else if contentType.None? || contentType.value == "" || !IsImageType(contentType.value) then
        Failed(400, NotAnImage)
      else Proxied(DataUrl(contentType.value, base64.encode(body)))
  }

  /** The url must be a non-empty string; otherwise 400 "Invalid URL" and nothing is fetched. */
  lemma InvalidUrlIff(request: Request, parse: string -> Option<ParsedUrl>,
                      fetch: string -> FetchReply, base64: Base64)
    ensures var o := Handle(request, parse, fetch, base64);
            o.response == Failed(400, InvalidUrl) <==>
            request.Body? && !(Truthy(request.url) && request.url.Str?)
    ensures var o := Handle(request, parse, fetch, base64);
            o.response == Failed(400, InvalidUrl) ==> o.fetched.None?
  {
  }

  /** A url that does not parse, or whose protocol is neither `http:` nor `https:`, gets
      400 "Invalid URL format" and nothing is fetched. */
  lemma InvalidUrlFormatIff(request: Request, parse: string -> Option<ParsedUrl>,
                            fetch: string -> FetchReply, base64: Base64)
    ensures var o := Handle(request, parse, fetch, base64);
            o.response == Failed(400, InvalidUrlFormat) <==>
            request.Body? && request.url.Str? && request.url.s != "" &&
            (parse(request.url.s).None? || !AllowedProtocol(parse(request.url.s).value.protocol))
    ensures var o := Handle(request, parse, fetch, base64);
            o.response == Failed(400, InvalidUrlFormat) ==> o.fetched.None?
  {
  }

  /** A fetch happens exactly for a well-formed http or https url, and it is of that url. */
  lemma FetchIff(request: Request, parse: string -> Option<ParsedUrl>,
                 fetch: string -> FetchReply, base64: Base64)
    ensures var o := Handle(request, parse, fetch, base64);
            o.fetched.Some? <==>
            request.Body? && request.url.Str? && request.url.s != "" &&
            parse(request.url.s).Some? && AllowedProtocol(parse(request.url.s).value.protocol)
    ensures var o := Handle(request, parse, fetch, base64);
            o.fetched.Some? ==> o.fetched == Some(parse(request.url.s).value.href) &&
                                o.response == AfterFetch(fetch(o.fetched.value), base64)
  {
  }

  /** A failed fetch gets 500, whatever the content type: the status check comes first. */
  lemma FailedFetchIsServerError(reply: FetchReply, base64: Base64)
    requires reply.NetworkError? || !reply.ok
    ensures AfterFetch(reply, base64) == Failed(500, FetchFailed)
  {
  }

  /** A successful fetch whose content type is missing, or does not start with `image/`, gets 400. */
  lemma NotAnImageIff(reply: FetchReply, base64: Base64)
    ensures AfterFetch(reply, base64) == Failed(400, NotAnImage) <==>
            reply.Fetched? && reply.ok && (reply.contentType.None? || !IsImageType(reply.contentType.value))
  {
  }

  /** The only success: an ok response with an image content type, turned into
      `data:<content type>;base64,<body in base64>` with the header copied verbatim. */
  lemma ProxiedIff(reply: FetchReply, base64: Base64)
    ensures AfterFetch(reply, base64).Proxied? <==>
            reply.Fetched? && reply.ok && reply.contentType.Some? && IsImageType(reply.contentType.value)
    ensures AfterFetch(reply, base64).Proxied? ==>
            var d := AfterFetch(reply, base64).dataUrl;
            d == DataUrl(reply.contentType.value, base64.encode(reply.body)) &&
            d[..11] == "data:image/"
  {
    if AfterFetch(reply, base64).Proxied? {
      var ct := reply.contentType.value;
      DataUrlParts(ct, base64.encode(reply.body));
      assert ct[..6] == "image/";
    }
  }

  /** An ftp url is refused before any fetch. */
  lemma FtpRefused(url: string, parse: string -> Option<ParsedUrl>,
                   fetch: string -> FetchReply, base64: Base64)
    requires url != "" && parse(url).Some? && parse(url).value.protocol == "ftp:"
    ensures Handle(Body(Str(url)), parse, fetch, base64) == Outcome(Failed(400, InvalidUrlFormat), None)
  {
  }

  /** An HTML page is refused after the fetch. */
  lemma HtmlRefused(body: seq<byte>, base64: Base64)
    ensures AfterFetch(Fetched(true, Some("text/html"), body), base64) == Failed(400, NotAnImage)
  {
    assert !IsImageType("text/html") by { assert "text/html"[0] != "image/"[0]; }
  }
}
