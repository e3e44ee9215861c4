/** The link registry (backend/src/routes/links.js): the `links` table held in memory,
    and the create, list, get-by-code and delete handlers as operations on it. */
module Registry {
  import opened Wrappers
  import opened Builtins
  import opened Validate
  import opened CodeGenerator
  import opened LinkModel

  /** A JSON field is truthy: present and not the empty string. */
  predicate Truthy(field: Option<string>)
  {
    field.Some? && field.value != ""
  }

  /** What POST /api/links decides from the request body alone, before it touches the table. */
  datatype Plan = Reject(response: Response) | UseCustom(code: string) | GenerateNew

  /** The checks of POST /api/links in their order: `!url || !isValidUrl(url)` gives 400;
      a truthy `code` must pass `isValidCode` (else 400) and is used as given; an absent or
      empty `code` asks for a generated one. */
  function PlanCreate(parse: UrlParser, url: Option<string>, code: Option<string>): (p: Plan)
    ensures p.Reject? <==> !Truthy(url) || !IsValidUrl(parse, url.value) || (Truthy(code) && !IsValidCode(code.value))
    ensures p.Reject? ==> p.response.Status() == 400
    ensures !Truthy(url) || !IsValidUrl(parse, url.value) ==> p == Reject(Json(400, ErrorBody(INVALID_URL_ERROR)))
    ensures Truthy(url) && IsValidUrl(parse, url.value) && Truthy(code) && !IsValidCode(code.value) ==>
              p == Reject(Json(400, ErrorBody(INVALID_CODE_ERROR)))
    ensures !p.Reject? ==> Truthy(url) && IsValidUrl(parse, url.value)
    ensures p.UseCustom? <==> !p.Reject? && Truthy(code)
    ensures p.UseCustom? ==> p.code == code.value && IsValidCode(p.code)
  {
    if !Truthy(url) || !IsValidUrl(parse, url.value) then Reject(Json(400, ErrorBody(INVALID_URL_ERROR)))
    else if Truthy(code) then
      if !IsValidCode(code.value) then Reject(Json(400, ErrorBody(INVALID_CODE_ERROR)))
      else UseCustom(code.value)
    else GenerateNew
  }

  /** The length `generateUniqueCode` asks `generateCode` for. */
  const CANDIDATE_LENGTH: nat := 6

  /** The successive candidates `generateUniqueCode` draws from `random`, six values each. */
  function Candidates(random: seq<real>): (cs: seq<string>)
    requires AllRandom(random)
    ensures forall i :: 0 <= i < |cs| ==> |cs[i]| == CANDIDATE_LENGTH && IsValidCode(cs[i])
    decreases |random|
  {
    if |random| < CANDIDATE_LENGTH then []
    else
      GeneratedCodeIsValid(random[..CANDIDATE_LENGTH]);
      [CodeFrom(random[..CANDIDATE_LENGTH])] + Candidates(random[CANDIDATE_LENGTH..])
  }

  /** The first candidate that is not taken, if the supply holds one. */
  function FirstUnused(random: seq<real>, taken: set<string>): (r: Option<string>)
    requires AllRandom(random)
    ensures r.Some? ==> |r.value| == CANDIDATE_LENGTH && IsValidCode(r.value) && r.value !in taken
    ensures r.Some? ==> exists i :: 0 <= i < |Candidates(random)| && Candidates(random)[i] == r.value &&
                          forall j :: 0 <= j < i ==> Candidates(random)[j] in taken
    ensures r.None? <==> forall i :: 0 <= i < |Candidates(random)| ==> Candidates(random)[i] in taken
    decreases |random|
  {
    if |random| < CANDIDATE_LENGTH then None
    else
      var c := CodeFrom(random[..CANDIDATE_LENGTH]);
      var rest := random[CANDIDATE_LENGTH..];
      var cs := Candidates(random);
      assert cs == [c] + Candidates(rest);
      if c !in taken then
        assert cs[0] == c;
        Some(c)
      else
        var r := FirstUnused(rest, taken);
        assert forall i :: 1 <= i < |cs| ==> cs[i] == Candidates(rest)[i - 1];
        if r.Some? then
          var i :| 0 <= i < |Candidates(rest)| && Candidates(rest)[i] == r.value &&
                   forall j :: 0 <= j < i ==> Candidates(rest)[j] in taken;
          assert cs[i + 1] == r.value;
          r
        else
          r
  }

  /** Every stored row is filed under its own code, has a valid code and URL, and took
      its id and creation stamp from an earlier value of the counter. */
  predicate RowOk(parse: UrlParser, nextSeq: nat, c: string, l: Link)
  {
    l.code == c && IsValidCode(c) && IsValidUrl(parse, l.targetUrl) && l.id < nextSeq && l.createdAt < nextSeq
  }

  /** No two rows share an id. */
  predicate UniqueIds(m: map<string, Link>)
  {
    forall c1, c2 :: c1 in m && c2 in m && c1 != c2 ==> m[c1].id != m[c2].id
  }

  /** `order` lists rows strictly newer first (`ORDER BY created_at DESC`). */
  predicate NewestFirst(order: seq<string>, m: map<string, Link>)
  {
    forall i, j :: 0 <= i < j < |order| ==> Newer(m, order[i], order[j])
  }

  /** Both codes are stored and `a`'s row was created after `b`'s. */
  predicate Newer(m: map<string, Link>, a: string, b: string)
  {
    a in m && b in m && m[a].createdAt > m[b].createdAt
  }

  /** `order` without `code` (the table's index after `DELETE ... WHERE code = $1`). */
  function Without(order: seq<string>, code: string): (r: seq<string>)
    ensures |r| <= |order|
    ensures forall c :: c in r <==> c in order && c != code
  {
    Filter(order, (c: string) => c != code)
  }

  /** Deleting a row keeps the remaining index newest first. */
  lemma WithoutKeepsNewestFirst(order: seq<string>, m: map<string, Link>, code: string)
    requires NewestFirst(order, m)
    ensures NewestFirst(Without(order, code), m - {code})
  {
    var rel := (a: string, b: string) => Newer(m, a, b);
    var keep := (c: string) => c != code;
    assert Pairwise(order, rel);
    FilterPairwise(order, keep, rel);
    var w := Filter(order, keep);
    assert Without(order, code) == w;
    forall i, j | 0 <= i < j < |w| ensures Newer(m - {code}, w[i], w[j]) {
      assert rel(w[i], w[j]);
      assert w[i] in w && w[j] in w;
    }
  }

  /** `rows.map(row => ({ ...row, shortUrl }))` over the rows listed by `order`. */
  function Listing(baseUrl: string, m: map<string, Link>, order: seq<string>): (views: seq<LinkView>)
    requires forall i :: 0 <= i < |order| ==> order[i] in m
    ensures |views| == |order|
    ensures forall i :: 0 <= i < |order| ==> views[i] == ViewOf(baseUrl, m[order[i]])
  {
    seq(|order|, i requires 0 <= i < |order| => ViewOf(baseUrl, m[order[i]]))
  }

  /** What a row must keep from one state to a later one: its identity and contents,
      with a click count that never goes down. */
  predicate Persists(before: Link, after: Link)
  {
    && after.id == before.id
    && after.code == before.code
    && after.targetUrl == before.targetUrl
    && after.createdAt == before.createdAt
    && after.totalClicks >= before.totalClicks
  }

  /** The table and its creation counter. */
  datatype Snapshot = Snapshot(links: map<string, Link>, nextSeq: nat)

  /** `b` is a possible later state of `a`: the counter has not gone back, and every row
      of `b` that was created before `a` was taken is a row of `a` that persisted. Rows may
      disappear (deletion) and rows with new ids may appear (creation). */
  predicate Evolves(a: Snapshot, b: Snapshot)
  {
    && a.nextSeq <= b.nextSeq
    && forall c :: c in b.links && b.links[c].id < a.nextSeq ==> c in a.links && Persists(a.links[c], b.links[c])
  }

  /** Evolving composes: a row's clicks never decrease over any run of operations. */
  lemma {:induction false} EvolvesAlong(trace: seq<Snapshot>)
    requires |trace| > 0
    requires forall i :: 0 <= i < |trace| - 1 ==> Evolves(trace[i], trace[i + 1])
    ensures Evolves(trace[0], trace[|trace| - 1])
    decreases |trace|
  {
    if |trace| > 1 {
      var init := trace[..|trace| - 1];
      assert forall i :: 0 <= i < |init| ==> init[i] == trace[i];
      EvolvesAlong(init);
      var a, b, c := trace[0], trace[|trace| - 2], trace[|trace| - 1];
      assert Evolves(a, b) && Evolves(b, c);
      forall k | k in c.links && c.links[k].id < a.nextSeq
        ensures k in a.links && Persists(a.links[k], c.links[k])
      {
        assert k in b.links && Persists(b.links[k], c.links[k]);
      }
    }
  }

  class LinkStore {
    /** The `links` table, keyed by its unique `code`. */
    var links: map<string, Link>
    /** The table's codes, newest row first. */
    var order: seq<string>
    /** The store's creation counter (the next `id` and `created_at`). */
    var nextSeq: nat
    /** Every `click_updated` event emitted so far. */
    var events: seq<ClickEvent>
    /** The base of every `shortUrl` (see `BaseUrl`). */
    const baseUrl: string
    /** `new URL(...)`, as seen by `isValidUrl`. */
    const parse: UrlParser

    ghost predicate Valid()
      reads this
    {
      && (forall c :: c in links ==> RowOk(parse, nextSeq, c, links[c]))
      && UniqueIds(links)
      && (forall i :: 0 <= i < |order| ==> order[i] in links)
      && (forall c :: c in links ==> c in order)
      && NewestFirst(order, links)
    }

    function Snap(): Snapshot
      reads this
    {
      Snapshot(links, nextSeq)
    }

    /** A store started with the environment variables `BASE_URL` and `PORT`. */
    constructor (envBaseUrl: Option<string>, envPort: Option<string>, parse: UrlParser)
      ensures Valid()
      ensures baseUrl == BaseUrl(envBaseUrl, envPort) && this.parse == parse
      ensures links == map[] && order == [] && nextSeq == 0 && events == []
    {
      this.baseUrl := BaseUrl(envBaseUrl, envPort);
      this.parse := parse;
      links := map[];
      order := [];
      nextSeq := 0;
      events := [];
    }

    twostate predicate TableUnchanged()
      reads this
    {
      links == old(links) && order == old(order) && nextSeq == old(nextSeq)
    }

    /** `INSERT INTO links (code, target_url) ... RETURNING ...` followed by the 201 reply
        with the new row and its `shortUrl`. */
    twostate predicate Inserted(code: string, url: string, r: Response)
      reads this
    {
      && code !in old(links)
      && links == old(links)[code := Link(old(nextSeq), code, url, 0, None, old(nextSeq))]
      && order == [code] + old(order)
      && nextSeq == old(nextSeq) + 1
      && r == Json(201, LinkBody(ViewOf(baseUrl, links[code])))
    }

    /** `generateUniqueCode()`: draw 6-character codes until one is not in the table.
        Returns `None` when the supply runs out before that. */
    method GenerateUniqueCode(random: seq<real>) returns (code: Option<string>)
      requires AllRandom(random)
      ensures code == FirstUnused(random, links.Keys)
    {
      var pos := 0;
      var taken := true;
      var candidate := "";
      while taken
        invariant 0 <= pos <= |random|
        invariant taken ==> FirstUnused(random, links.Keys) == FirstUnused(random[pos..], links.Keys)
        invariant !taken ==> FirstUnused(random, links.Keys) == Some(candidate)
        decreases |random| - pos
      {
        if |random| - pos < CANDIDATE_LENGTH {
          return None;
        }
        var rest := random[pos..];
        assert rest[CANDIDATE_LENGTH..] == random[pos + CANDIDATE_LENGTH..];
        candidate := GenerateCode(rest, CANDIDATE_LENGTH);
        taken := candidate in links;
        pos := pos + CANDIDATE_LENGTH;
      }
      code := Some(candidate);
    }

    method Insert(code: string, url: string) returns (r: Response)
      requires Valid()
      requires code !in links && IsValidCode(code) && IsValidUrl(parse, url)
      modifies this
      ensures Valid() && events == old(events)
      ensures Inserted(code, url, r)
    {
      var row := Link(nextSeq, code, url, 0, None, nextSeq);
      links := links[code := row];
      order := [code] + order;
      nextSeq := nextSeq + 1;
      r := Json(201, LinkBody(ViewOf(baseUrl, row)));
    }

    /** POST /api/links with body `{ url, code }`; `random` feeds the code generator. */
    method Create(url: Option<string>, code: Option<string>, random: seq<real>) returns (r: Response)
      requires Valid() && AllRandom(random)
      modifies this
      ensures Valid() && events == old(events)
      ensures Evolves(old(Snap()), Snap())
      ensures match PlanCreate(parse, url, code)
        case Reject(response) => r == response && TableUnchanged()
        case UseCustom(c) =>
          if c in old(links) then r == Json(409, ErrorBody(CODE_EXISTS_ERROR)) && TableUnchanged()
          else Inserted(c, url.value, r)
        case GenerateNew =>
          match FirstUnused(random, old(links).Keys)
          case None => r == Json(500, ErrorBody(INTERNAL_ERROR)) && TableUnchanged()
          case Some(c) => Inserted(c, url.value, r)
    {
      match PlanCreate(parse, url, code)
      case Reject(response) =>
        r := response;
      case UseCustom(c) =>
        if c in links {
          r := Json(409, ErrorBody(CODE_EXISTS_ERROR));
        } else {
          r := Insert(c, url.value);
        }
      case GenerateNew =>
        var generated := GenerateUniqueCode(random);
        if generated.None? {
          r := Json(500, ErrorBody(INTERNAL_ERROR));
        } else {
          r := Insert(generated.value, url.value);
        }
    }

    /** GET /api/links: every row, newest first, each with its `shortUrl`. */
    function List(): (views: seq<LinkView>)
      reads this
      requires Valid()
      ensures forall i :: 0 <= i < |views| ==>
                views[i].link.code in links && views[i].link == links[views[i].link.code] &&
                views[i].shortUrl == ShortUrl(baseUrl, views[i].link.code)
      ensures forall c :: c in links ==> exists i :: 0 <= i < |views| && views[i].link == links[c]
      ensures forall i, j :: 0 <= i < j < |views| ==> views[i].link.createdAt > views[j].link.createdAt
    {
      var views := Listing(baseUrl, links, order);
      assert forall c :: c in links ==> exists i :: 0 <= i < |views| && views[i].link == links[c] by {
        forall c | c in links ensures exists i :: 0 <= i < |views| && views[i].link == links[c] {
          var i :| 0 <= i < |order| && order[i] == c;
          assert views[i].link == links[c];
        }
      }
      views
    }

    /** GET /api/links/:code: the row with its `shortUrl`, or 404. */
    function Get(code: string): (r: Response)
      reads this
      ensures code in links <==> r.Status() == 200
      ensures code in links ==> r == Json(200, LinkBody(ViewOf(baseUrl, links[code])))
      ensures code !in links ==> r == Json(404, ErrorBody(CODE_NOT_FOUND_ERROR))
    {
      if code in links then Json(200, LinkBody(ViewOf(baseUrl, links[code])))
      else Json(404, ErrorBody(CODE_NOT_FOUND_ERROR))
    }

    /** DELETE /api/links/:code: 204 after removing exactly that row, or 404 if there is none. */
    method Delete(code: string) returns (r: Response)
      requires Valid()
      modifies this
      ensures Valid() && events == old(events) && nextSeq == old(nextSeq)
      ensures Evolves(old(Snap()), Snap())
      ensures code in old(links) ==> r == NoContent && links == old(links) - {code} && order == Without(old(order), code)
      ensures code !in old(links) ==> r == Json(404, ErrorBody(CODE_NOT_FOUND_ERROR)) && TableUnchanged()
      ensures Get(code) == Json(404, ErrorBody(CODE_NOT_FOUND_ERROR))
    {
      if code in links {
        WithoutKeepsNewestFirst(order, links, code);
        links := links - {code};
        order := Without(order, code);
        r := NoContent;
      } else {
        r := Json(404, ErrorBody(CODE_NOT_FOUND_ERROR));
      }
    }
  }
}
