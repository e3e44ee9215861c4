/** The stored entity, its API view, the HTTP responses the handlers send and the
    realtime click event (backend/src/routes/links.js, backend/src/routes/redirect.js). */
module LinkModel {
  import opened Wrappers
  import opened Builtins

  /** A row of the `links` table. `id` and `createdAt` are assigned by the store;
      `lastClickedAt` is null until the first visit. */
  datatype Link = Link(
    id: nat,
    code: string,
    targetUrl: string,
    totalClicks: nat,
    lastClickedAt: Option<nat>,
    createdAt: nat)

  /** A row as the API returns it: the row's fields plus `shortUrl`. */
  datatype LinkView = LinkView(link: Link, shortUrl: string)

  /** The `click_updated` event with payload `{ code }`. */
  datatype ClickEvent = ClickUpdated(code: string)

  /** JSON bodies. */
  datatype Body =
    | LinkBody(view: LinkView)
    | ListBody(views: seq<LinkView>)
    | ErrorBody(error: string)

  /** What a handler sends: `res.status(s).json(b)`, `res.status(s).send(text)`,
      `res.status(204).send()` or `res.redirect(302, location)`. */
  datatype Response =
    | Json(httpStatus: nat, body: Body)
    | Text(httpStatus: nat, text: string)
    | NoContent
    | RedirectTo(location: string)
  {
    function Status(): nat
    {
      match this
      case Json(c, _) => c
      case Text(c, _) => c
      case NoContent => 204
      case RedirectTo(_) => 302
    }
  }

  const INVALID_URL_ERROR := "Invalid or missing URL"
  const INVALID_CODE_ERROR := "Code must match [A-Za-z0-9]{6,8}"
  const CODE_EXISTS_ERROR := "Code already exists"
  const CODE_NOT_FOUND_ERROR := "Code not found"
  const INTERNAL_ERROR := "Internal server error"
  const NOT_FOUND_TEXT := "Not found"

  /** An environment variable as JavaScript reads it in a `||` chain: unset is as falsy as empty. */
  function EnvValue(v: Option<string>): string
  {
    if v.Some? then v.value else ""
  }

  /** `process.env.BASE_URL || \`http://localhost:${process.env.PORT || 4000}\``. */
  function BaseUrl(envBaseUrl: Option<string>, envPort: Option<string>): (base: string)
    ensures envBaseUrl.Some? && envBaseUrl.value != "" ==> base == envBaseUrl.value
    ensures (envBaseUrl == None || envBaseUrl == Some("")) && envPort.Some? && envPort.value != "" ==>
              base == "http://localhost:" + envPort.value
    ensures (envBaseUrl == None || envBaseUrl == Some("")) && (envPort == None || envPort == Some("")) ==>
              base == "http://localhost:4000"
  {
    OrElse(EnvValue(envBaseUrl), "http://localhost:" + OrElse(EnvValue(envPort), "4000"))
  }

  /** `${baseUrl}/${code}`. */
  function ShortUrl(baseUrl: string, code: string): (u: string)
    ensures |u| == |baseUrl| + 1 + |code| && u[..|baseUrl|] == baseUrl && u[|baseUrl|] == '/'
  {
    baseUrl + "/" + code
  }

  /** Under one base URL the short URL determines the code: stripping the base and
      the slash gives it back, so distinct codes never share a short URL. */
  lemma ShortUrlDeterminesCode(baseUrl: string, c1: string, c2: string)
    ensures ShortUrl(baseUrl, c1)[|baseUrl| + 1..] == c1
    ensures ShortUrl(baseUrl, c1) == ShortUrl(baseUrl, c2) <==> c1 == c2
  {
    var prefix := baseUrl + "/";
    assert ShortUrl(baseUrl, c1) == prefix + c1;
    assert ShortUrl(baseUrl, c2) == prefix + c2;
    assert (prefix + c1)[|prefix|..] == c1;
    assert (prefix + c2)[|prefix|..] == c2;
  }

  /** `{ ...row, shortUrl }`. */
  function ViewOf(baseUrl: string, link: Link): (v: LinkView)
    ensures v.link == link && v.shortUrl == ShortUrl(baseUrl, link.code)
  {
    LinkView(link, ShortUrl(baseUrl, link.code))
  }
}
