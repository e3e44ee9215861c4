/** The search filter and the empty-state condition of the links table
    (frontend/src/components/LinksTable.jsx). */
module LinksTable {
  import opened Wrappers
  import opened Builtins
  import opened LinkModel

  /** `(filter || "").toLowerCase()`. */
  function SearchText(filter: Option<string>): string
  {
    Lower(if filter.Some? then filter.value else "")
  }

  /** The test `filtered` applies to each link. */
  predicate Matches(text: string, v: LinkView)
  {
    Includes(Lower(v.link.code), text) || Includes(Lower(v.link.targetUrl), text)
  }

  /** `(links || []).filter(...)`. */
  function Filtered(links: Option<seq<LinkView>>, filter: Option<string>): (r: seq<LinkView>)
    ensures links.None? ==> r == []
    ensures links.Some? ==> |r| <= |links.value|
    ensures forall v :: v in r <==> links.Some? && v in links.value && Matches(SearchText(filter), v)
  {
    var text := SearchText(filter);
    Filter(if links.Some? then links.value else [], (v: LinkView) => Matches(text, v))
  }

  /** A link is shown exactly when it is in the list and the lowered filter occurs at some
      position of its lowered code or of its lowered target URL. */
  lemma FilteredKeepsIff(links: seq<LinkView>, filter: Option<string>, v: LinkView)
    ensures v in Filtered(Some(links), filter) <==>
              && v in links
              && ((exists i :: OccursAt(Lower(v.link.code), SearchText(filter), i)) ||
                  (exists i :: OccursAt(Lower(v.link.targetUrl), SearchText(filter), i)))
  {
    IncludesIff(Lower(v.link.code), SearchText(filter));
    IncludesIff(Lower(v.link.targetUrl), SearchText(filter));
  }

  /** The shown links keep their order in `links`; a null list shows nothing. */
  lemma FilteredIsSubsequence(links: Option<seq<LinkView>>, filter: Option<string>)
    ensures links.Some? ==> IsSubsequence(Filtered(links, filter), links.value)
    ensures links.None? ==> Filtered(links, filter) == []
  {
    var text := SearchText(filter);
    if links.Some? {
      FilterIsSubsequence(links.value, (v: LinkView) => Matches(text, v));
    }
  }

  /** A null or empty filter shows every link. */
  lemma EmptyFilterKeepsAll(links: seq<LinkView>, filter: Option<string>)
    requires filter.None? || filter.value == ""
    ensures Filtered(Some(links), filter) == links
  {
    var text := SearchText(filter);
    assert text == "";
    forall i | 0 <= i < |links| ensures Matches(text, links[i]) {
      IncludesEmpty(Lower(links[i].link.code));
    }
    FilterKeepsAll(links, (v: LinkView) => Matches(text, v));
  }

  /** Filters that differ only in letter case show the same links. */
  lemma FilterIgnoresCase(links: Option<seq<LinkView>>, f1: string, f2: string)
    requires SameIgnoringCase(f1, f2)
    ensures Filtered(links, Some(f1)) == Filtered(links, Some(f2))
  {
    LowerCaseVariants(f1, f2);
  }

  /** The four mutually exclusive parts of the table's body. */
  datatype Panel = Spinner | ErrorText | EmptyState | Table

  /** Which parts render, for the `loading` flag, the `error` message and the filtered links. */
  function Panels(loading: bool, error: string, filtered: seq<LinkView>): (ps: set<Panel>)
    ensures Spinner in ps <==> loading && error == ""
    ensures Table in ps <==> !loading && error == "" && |filtered| > 0
  {
    (if loading && error == "" then {Spinner} else {}) +
    (if !loading && error != "" then {ErrorText} else {}) +
    (if !loading && error == "" && |filtered| == 0 then {EmptyState} else {}) +
    (if !loading && error == "" && |filtered| > 0 then {Table} else {})
  }

  /** The empty state shows exactly when nothing is loading, there is no error and no link
      passes the filter; at most one part renders, and none while loading after an error. */
  lemma PanelsExclusive(loading: bool, error: string, filtered: seq<LinkView>)
    ensures EmptyState in Panels(loading, error, filtered) <==> !loading && error == "" && |filtered| == 0
    ensures |Panels(loading, error, filtered)| <= 1
    ensures Panels(loading, error, filtered) == {} <==> loading && error != ""
  {
    var ps := Panels(loading, error, filtered);
    if loading && error == "" {
      assert ps == {Spinner};
    } else if !loading && error != "" {
      assert ps == {ErrorText};
    } else if !loading && |filtered| == 0 {
      assert ps == {EmptyState};
    } else if !loading {
      assert ps == {Table};
    } else {
      assert ps == {};
    }
  }
}
