/** The redirect handler GET /:code (backend/src/routes/redirect.js): format check,
    lookup, click update, event emission and the 302 reply. */
module Redirect {
  import opened Wrappers
  import opened Validate
  import opened LinkModel
  import opened Registry

  /** The row after one visit at time `now`. */
  function Clicked(l: Link, now: nat): (r: Link)
    ensures r.totalClicks == l.totalClicks + 1 && r.lastClickedAt == Some(now)
    ensures Persists(l, r)
  {
    l.(totalClicks := l.totalClicks + 1, lastClickedAt := Some(now))
  }

  /** `UPDATE links SET total_clicks = total_clicks + 1, last_clicked_at = NOW() WHERE id = $1`. */
  function UpdateById(m: map<string, Link>, id: nat, now: nat): (r: map<string, Link>)
    ensures r.Keys == m.Keys
    ensures forall c :: c in m ==> Persists(m[c], r[c])
    ensures forall c :: c in m && m[c].id != id ==> r[c] == m[c]
  {
    map c | c in m :: if m[c].id == id then Clicked(m[c], now) else m[c]
  }

  /** With unique ids, the update by the id of the row at `code` changes that row alone:
      one more click, `lastClickedAt` set to `now`, and every other field and row as before. */
  lemma UpdateHitsOneRow(m: map<string, Link>, code: string, now: nat)
    requires code in m && UniqueIds(m)
    ensures UpdateById(m, m[code].id, now) == m[code := Clicked(m[code], now)]
    ensures UpdateById(m, m[code].id, now)[code].totalClicks == m[code].totalClicks + 1
    ensures UpdateById(m, m[code].id, now)[code].lastClickedAt == Some(now)
    ensures Persists(m[code], UpdateById(m, m[code].id, now)[code])
  {
    var u := UpdateById(m, m[code].id, now);
    forall c | c in m ensures u[c] == m[code := Clicked(m[code], now)][c] {
      if c != code {
        assert m[c].id != m[code].id;
      }
    }
  }

  /** Because every stored code is well formed, the early format check never turns away a
      code that the lookup would have found. */
  lemma FormatCheckLosesNothing(store: LinkStore, code: string)
    requires store.Valid()
    requires !IsValidCode(code)
    ensures code !in store.links
  {
  }

  /** GET /:code at time `now`. The handler's own `CODE_REGEX` is the pattern of
      `isValidCode`, so its format check is `IsValidCode`. */
  method Visit(store: LinkStore, code: string, now: nat) returns (r: Response)
    requires store.Valid()
    modifies store
    ensures store.Valid()
    ensures Evolves(old(store.Snap()), store.Snap())
    ensures !IsValidCode(code) ==> r == Text(404, NOT_FOUND_TEXT) && unchanged(store)
    ensures IsValidCode(code) && code !in old(store.links) ==> r == Text(404, NOT_FOUND_TEXT) && unchanged(store)
    ensures IsValidCode(code) && code in old(store.links) ==>
              && store.links == old(store.links)[code := Clicked(old(store.links)[code], now)]
              && store.order == old(store.order)
              && store.nextSeq == old(store.nextSeq)
              && store.events == old(store.events) + [ClickUpdated(code)]
              && r == RedirectTo(old(store.links)[code].targetUrl)
  {
    if !IsValidCode(code) {
      return Text(404, NOT_FOUND_TEXT);
    }
    if code !in store.links {
      return Text(404, NOT_FOUND_TEXT);
    }
    var link := store.links[code];
    UpdateHitsOneRow(store.links, code, now);
    store.links := UpdateById(store.links, link.id, now);
    store.events := store.events + [ClickUpdated(code)];
    r := RedirectTo(link.targetUrl);
  }
}
