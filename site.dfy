/**
 * The site resolver: the supported-URL check run before anything is fetched,
 * the derivation of the site key that selects a selector set, and the
 * stricter URL validation the program also defines.
 */
module Site {
  import opened Wrappers
  import opened Text

  /** What a parsed URL tells the scraper: its scheme and, when it has one, its host. */
  datatype Url = Url(scheme: string, host: Option<string>)

  /** `Url::parse` of the `url` crate, a foreign parser, passed in as a function. */
  type UrlParser = string -> Option<Url>

  /** The two origins the scraper accepts, matched literally against the raw input. */
  const FifteenGramOrigin: string := "https://15gram.be/"
  const DagelijkseKostOrigin: string := "https://dagelijksekost.vrt.be/"

  /**
   * `validate_supported_url`: the input must parse as a URL and must contain
   * one of the two origins somewhere in its raw, untrimmed text.
   */
  function ValidateSupportedUrl(parse: UrlParser, url: string): (ok: bool)
    ensures ok <==> parse(url).Some?
                    && (Occurs(FifteenGramOrigin, url) || Occurs(DagelijkseKostOrigin, url))
  {
    parse(url).Some? && (Contains(url, FifteenGramOrigin) || Contains(url, DagelijkseKostOrigin))
  }

  /**
   * The check is containment, not a prefix test: an origin anywhere in a
   * string that parses is enough, whatever comes before or after it.
   */
  lemma OriginAnywhereAccepted(parse: UrlParser, before: string, origin: string, after: string)
    requires origin == FifteenGramOrigin || origin == DagelijkseKostOrigin
    requires parse(before + origin + after).Some?
    ensures ValidateSupportedUrl(parse, before + origin + after)
  {
    var url := before + origin + after;
    assert url[|before|..|before| + |origin|] == origin;
    assert OccursAt(origin, url, |before|);
  }

  /** A string that lacks some character of each origin is rejected, whatever the parser says. */
  lemma MissingCharRejected(parse: UrlParser, url: string, c: char, d: char)
    requires c in FifteenGramOrigin && c !in url
    requires d in DagelijkseKostOrigin && d !in url
    ensures !ValidateSupportedUrl(parse, url)
  {
    if Occurs(FifteenGramOrigin, url) { OccursKeepsChars(FifteenGramOrigin, url, c); }
    if Occurs(DagelijkseKostOrigin, url) { OccursKeepsChars(DagelijkseKostOrigin, url, d); }
  }

  /** A string shorter than both origins is rejected. */
  lemma ShortUrlRejected(parse: UrlParser, url: string)
    requires |url| < |FifteenGramOrigin|
    ensures !ValidateSupportedUrl(parse, url)
  {
  }

  /** The same host over plain `http` is rejected. */
  lemma HttpVariantRejected(parse: UrlParser)
    ensures !ValidateSupportedUrl(parse, "http://15gram.be/")
  {
    MissingCharRejected(parse, "http://15gram.be/", 's', 's');
  }

  /** The same origin in upper case is rejected. */
  lemma UpperCaseVariantRejected(parse: UrlParser)
    ensures !ValidateSupportedUrl(parse, "HTTPS://15GRAM.BE/")
  {
    MissingCharRejected(parse, "HTTPS://15GRAM.BE/", 'h', 'h');
  }

  /** The origin without its trailing slash is rejected. */
  lemma NoTrailingSlashRejected(parse: UrlParser)
    ensures !ValidateSupportedUrl(parse, "https://15gram.be")
  {
    ShortUrlRejected(parse, "https://15gram.be");
  }

  /** An unrelated domain is rejected before any fetch is attempted. */
  lemma UnsupportedDomainRejected(parse: UrlParser)
    ensures !ValidateSupportedUrl(parse, "https://example.com/recipe")
  {
    MissingCharRejected(parse, "https://example.com/recipe", '1', 'd');
  }

  /**
   * `parse_website_name`: no key when the URL does not parse or has no host;
   * otherwise the host's first dot-separated label, which is a dot-free
   * prefix of the host that stops at the first dot.
   */
  function ParseWebsiteName(parse: UrlParser, url: string): (r: Option<string>)
    ensures r.None? <==> parse(url).None? || parse(url).value.host.None?
    ensures r.Some? ==> var host := parse(url).value.host.value;
                        r.value <= host && '.' !in r.value
                        && (|r.value| < |host| ==> host[|r.value|] == '.')
  {
    match parse(url)
    case None => None
    case Some(u) =>
      match u.host
      case None => None
      case Some(h) => Some(FirstLabel(h))
  }

  /** The two supported hosts give the site keys `15gram` and `dagelijksekost`. */
  lemma SupportedSiteKeys(parse: UrlParser, url: string)
    requires parse(url).Some? && parse(url).value.host.Some?
    ensures parse(url).value.host.value == "15gram.be"
            ==> ParseWebsiteName(parse, url) == Some("15gram")
    ensures parse(url).value.host.value == "dagelijksekost.vrt.be"
            ==> ParseWebsiteName(parse, url) == Some("dagelijksekost")
  {
    assert "15gram.be" == "15gram" + "." + "be";
    FirstLabelOfDotted("15gram", "be");
    assert "dagelijksekost.vrt.be" == "dagelijksekost" + "." + "vrt.be";
    FirstLabelOfDotted("dagelijksekost", "vrt.be");
  }

  /** A host without a dot is its own site key. */
  lemma UndottedHostIsKey(parse: UrlParser, url: string)
    requires parse(url).Some? && parse(url).value.host.Some?
    requires '.' !in parse(url).value.host.value
    ensures ParseWebsiteName(parse, url) == parse(url).value.host
  {
    FirstLabelUndotted(parse(url).value.host.value);
  }

  const InvalidFormatMessage: string := "Invalid URL format."
  const SchemeMessage: string := "URL must use http or https scheme."
  const HostMessage: string := "URL must contain a valid host."

  predicate IsWebScheme(scheme: string) {
    scheme == "http" || scheme == "https"
  }

  /**
   * `validate_url`: trims the input, parses it, then requires an http or
   * https scheme and then a host, each failure with its own message.
   */
  function ValidateUrl(parse: UrlParser, url: string): (r: Result<Url, string>)
    ensures r.Success? <==> parse(Trim(url)).Some? && IsWebScheme(parse(Trim(url)).value.scheme)
                            && parse(Trim(url)).value.host.Some?
    ensures r.Success? ==> parse(Trim(url)) == Some(r.value)
    ensures parse(Trim(url)).None? ==> r == Failure(InvalidFormatMessage)
    ensures parse(Trim(url)).Some? && !IsWebScheme(parse(Trim(url)).value.scheme)
            ==> r == Failure(SchemeMessage)
    ensures (parse(Trim(url)).Some? && IsWebScheme(parse(Trim(url)).value.scheme)
             && parse(Trim(url)).value.host.None?) ==> r == Failure(HostMessage)
  {
    match parse(Trim(url))
    case None => Failure(InvalidFormatMessage)
    case Some(u) =>
      if u.scheme == "http" || u.scheme == "https" then
        if u.host.Some? then Success(u) else Failure(HostMessage)
      else
        Failure(SchemeMessage)
  }

  /** Leading and trailing whitespace around the input never changes `validate_url`'s verdict. */
  lemma ValidateUrlIgnoresBlanks(parse: UrlParser, before: string, url: string, after: string)
    requires AllWhitespace(before) && AllWhitespace(after)
    ensures ValidateUrl(parse, before + url + after) == ValidateUrl(parse, url)
  {
    TrimAbsorbsBlanks(before, url, after);
  }
}
