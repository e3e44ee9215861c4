/** The dashboard's list state (frontend/src/pages/Dashboard.jsx): loading, prepending a
    created link and removing a deleted one. The awaited API calls are parameters that
    carry their outcome. */
module Dashboard {
  import opened Wrappers
  import opened Builtins
  import opened LinkModel

  /** `[newLink, ...prev]`. */
  function Prepended(prev: seq<LinkView>, newLink: LinkView): (r: seq<LinkView>)
    ensures |r| == |prev| + 1 && r[0] == newLink && r[1..] == prev
  {
    [newLink] + prev
  }

  /** `prev.filter((l) => l.code !== code)`. */
  function WithoutCode(prev: seq<LinkView>, code: string): (r: seq<LinkView>)
    ensures |r| <= |prev|
    ensures forall v :: v in r <==> v in prev && v.link.code != code
  {
    Filter(prev, (l: LinkView) => l.link.code != code)
  }

  /** The prepended list starts with the new link, followed by the old list unchanged. */
  lemma PrependedSpec(prev: seq<LinkView>, newLink: LinkView)
    ensures |Prepended(prev, newLink)| == |prev| + 1
    ensures Prepended(prev, newLink)[0] == newLink
    ensures forall i :: 0 <= i < |prev| ==> Prepended(prev, newLink)[i + 1] == prev[i]
  {
  }

  /** After removal no link has `code`, every other link is still there as often as before,
      and the order is kept. */
  lemma WithoutCodeSpec(prev: seq<LinkView>, code: string)
    ensures forall i :: 0 <= i < |WithoutCode(prev, code)| ==> WithoutCode(prev, code)[i].link.code != code
    ensures forall v :: v in WithoutCode(prev, code) <==> v in prev && v.link.code != code
    ensures IsSubsequence(WithoutCode(prev, code), prev)
    ensures forall v :: multiset(WithoutCode(prev, code))[v] == if v.link.code != code then multiset(prev)[v] else 0
  {
    FilterIsSubsequence(prev, (l: LinkView) => l.link.code != code);
    FilterCounts(prev, (l: LinkView) => l.link.code != code);
  }

  const LOAD_LINKS_ERROR := "Failed to load links"

  class DashboardState {
    var links: seq<LinkView>
    var loading: bool
    var error: string
    var filter: string

    constructor ()
      ensures links == [] && !loading && error == "" && filter == ""
    {
      links := [];
      loading := false;
      error := "";
      filter := "";
    }

    /** `loadLinks()`, given what `fetchLinks()` resolved to or the message it threw with.
        The `click_updated` listener calls this too. */
    method LoadLinks(fetched: Result<seq<LinkView>>)
      modifies this
      ensures !loading && filter == old(filter)
      ensures fetched.Ok? ==> links == fetched.value && error == ""
      ensures fetched.Fail? ==> links == old(links) && error == OrElse(fetched.message, LOAD_LINKS_ERROR)
    {
      loading := true;
      match fetched {
        case Ok(data) =>
          links := data;
          error := "";
        case Fail(message) =>
          error := OrElse(message, LOAD_LINKS_ERROR);
      }
      loading := false;
    }

    /** `handleCreated(newLink)`. */
    method HandleCreated(newLink: LinkView)
      modifies this`links
      ensures links == Prepended(old(links), newLink)
    {
      links := Prepended(links, newLink);
    }

    /** `handleDelete(code)`, given `None` when `deleteLink(code)` resolved and the error
        message when it threw; the thrown error propagates to the caller. */
    method HandleDelete(code: string, deleteError: Option<string>) returns (thrown: Option<string>)
      modifies this`links
      ensures deleteError.None? ==> links == WithoutCode(old(links), code) && thrown.None?
      ensures deleteError.Some? ==> links == old(links) && thrown == deleteError
    {
      if deleteError.Some? {
        return deleteError;
      }
      links := WithoutCode(links, code);
      thrown := None;
    }
  }
}
