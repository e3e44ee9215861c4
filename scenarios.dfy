/** End-to-end runs of the registry and the redirect handler on a fresh store, for the
    behaviours the system documents: a generated link that is visited once, a custom code
    requested twice, and a code freed by deletion and taken again. */
module Scenarios {
  import opened Wrappers
  import opened Validate
  import opened CodeGenerator
  import opened LinkModel
  import opened Registry
  import Redirect

  /** Create a link with a generated code, visit it, then read its stats. */
  method CreateVisitGet(parse: UrlParser, url: string, random: seq<real>, now: nat)
    returns (created: Response, visited: Response, stats: Response)
    requires url != "" && parse(url) == Some("https")
    requires AllRandom(random) && |random| >= CANDIDATE_LENGTH
    ensures created.Status() == 201 && created.Json? && created.body.LinkBody?
    ensures |created.body.view.link.code| == 6 && IsValidCode(created.body.view.link.code)
    ensures created.body.view.link.targetUrl == url && created.body.view.link.totalClicks == 0
    ensures created.body.view.shortUrl == ShortUrl("http://localhost:4000", created.body.view.link.code)
    ensures visited == RedirectTo(url)
    ensures stats.Status() == 200 && stats.Json? && stats.body.LinkBody?
    ensures stats.body.view.link.totalClicks == 1 && stats.body.view.link.lastClickedAt == Some(now)
  {
    var store := new LinkStore(None, None, parse);
    IsValidUrlIff(parse, url);
    assert PlanCreate(parse, Some(url), None) == GenerateNew;
    assert Candidates(random)[0] !in store.links.Keys;
    created := store.Create(Some(url), None, random);
    var code := created.body.view.link.code;
    visited := Redirect.Visit(store, code, now);
    stats := store.Get(code);
  }

  /** Ask twice for the same custom code: the second request gets 409 and the first row stays. */
  method DuplicateCustomCode(parse: UrlParser, url1: string, url2: string, code: string, random: seq<real>)
    returns (first: Response, second: Response, stats: Response)
    requires url1 != "" && IsValidUrl(parse, url1) && url2 != "" && IsValidUrl(parse, url2)
    requires IsValidCode(code) && AllRandom(random)
    ensures first.Status() == 201
    ensures second == Json(409, ErrorBody(CODE_EXISTS_ERROR))
    ensures stats.Status() == 200 && stats.Json? && stats.body.LinkBody? && stats.body.view.link.targetUrl == url1
  {
    var store := new LinkStore(None, None, parse);
    first := store.Create(Some(url1), Some(code), random);
    second := store.Create(Some(url2), Some(code), random);
    stats := store.Get(code);
  }

  /** Delete a link: its stats are gone, and its code can be registered again. */
  method DeleteFreesCode(parse: UrlParser, url: string, code: string, random: seq<real>)
    returns (deleted: Response, stats: Response, again: Response)
    requires url != "" && IsValidUrl(parse, url) && IsValidCode(code) && AllRandom(random)
    ensures deleted == NoContent
    ensures stats == Json(404, ErrorBody(CODE_NOT_FOUND_ERROR))
    ensures again.Status() == 201 && again.Json? && again.body.LinkBody? && again.body.view.link.code == code
  {
    var store := new LinkStore(None, None, parse);
    var created := store.Create(Some(url), Some(code), random);
    deleted := store.Delete(code);
    stats := store.Get(code);
    again := store.Create(Some(url), Some(code), random);
  }
}
