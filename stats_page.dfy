/** The stats page (frontend/src/pages/StatsPage.jsx): reading the code from the path,
    loading the link's stats, and reloading on a matching `click_updated` event. */
module StatsPage {
  import opened Wrappers
  import opened Builtins
  import opened Validate
  import opened LinkModel

  const STATS_PREFIX := "/code/"
  const INVALID_STATS_URL := "Invalid stats URL"
  const LOAD_STATS_ERROR := "Failed to load stats"

  /** `pathname.match(/^\/code\/([A-Za-z0-9]{6,8})$/)`, yielding the captured group. */
  function MatchStatsPath(path: string): (r: Option<string>)
    ensures r.Some? ==> |path| == |STATS_PREFIX| + |r.value| && path[|STATS_PREFIX|..] == r.value
  {
    if StartsWith(path, STATS_PREFIX) && RepeatMatch(path[|STATS_PREFIX|..], MIN_CODE_LENGTH, MAX_CODE_LENGTH)
    then Some(path[|STATS_PREFIX|..])
    else None
  }

  /** The path names a code exactly when it is `/code/` followed by a valid code, and the
      captured group is that code. */
  lemma MatchStatsPathIff(path: string, c: string)
    ensures MatchStatsPath(path) == Some(c) <==> path == STATS_PREFIX + c && IsValidCode(c)
  {
    if StartsWith(path, STATS_PREFIX) {
      RepeatMatchIff(path[|STATS_PREFIX|..], MIN_CODE_LENGTH, MAX_CODE_LENGTH);
      assert path == STATS_PREFIX + path[|STATS_PREFIX|..];
    }
    if path == STATS_PREFIX + c {
      assert path[..|STATS_PREFIX|] == STATS_PREFIX;
      assert path[|STATS_PREFIX|..] == c;
    }
  }

  /** A trailing slash, a further segment or a 9-character code leaves no match. */
  lemma RejectedStatsPaths(c: string, rest: string)
    ensures MatchStatsPath(STATS_PREFIX + c + "/") == None
    ensures MatchStatsPath(STATS_PREFIX + c + "/" + rest) == None
    ensures |c| == 9 ==> MatchStatsPath(STATS_PREFIX + c) == None
  {
    var p1, p2, p3 := STATS_PREFIX + c + "/", STATS_PREFIX + c + "/" + rest, STATS_PREFIX + c;
    assert p1[|STATS_PREFIX|..] == c + "/" && (c + "/")[|c|] == '/';
    assert p2[|STATS_PREFIX|..] == c + "/" + rest && (c + "/" + rest)[|c|] == '/';
    assert p3[|STATS_PREFIX|..] == c;
    RepeatMatchIff(c + "/", MIN_CODE_LENGTH, MAX_CODE_LENGTH);
    RepeatMatchIff(c + "/" + rest, MIN_CODE_LENGTH, MAX_CODE_LENGTH);
    RepeatMatchIff(c, MIN_CODE_LENGTH, MAX_CODE_LENGTH);
  }

  /** The `click_updated` listener's test `data.code === code`; it is registered only once
      a code is known. */
  predicate ShouldReload(current: Option<string>, ev: ClickEvent)
    ensures ShouldReload(current, ev) <==> current == Some(ev.code)
  {
    current.Some? && ev.code == current.value
  }

  /** A page opened at `path` reloads on a click event exactly when the event is for the
      code in its own path. */
  lemma ReloadsForOwnPath(path: string, ev: ClickEvent)
    ensures ShouldReload(MatchStatsPath(path), ev) <==> path == STATS_PREFIX + ev.code && IsValidCode(ev.code)
  {
    MatchStatsPathIff(path, ev.code);
  }

  class StatsPageState {
    var code: Option<string>
    var link: Option<LinkView>
    var loading: bool
    var error: string

    constructor ()
      ensures code.None? && link.None? && !loading && error == ""
    {
      code := None;
      link := None;
      loading := false;
      error := "";
    }

    /** The mount effect: take the code from the path, or report an invalid stats URL. */
    method ReadLocation(path: string)
      modifies this
      ensures MatchStatsPath(path).Some? ==> code == MatchStatsPath(path) && error == old(error)
      ensures MatchStatsPath(path).None? ==> code == old(code) && error == INVALID_STATS_URL
      ensures link == old(link) && loading == old(loading)
    {
      var m := MatchStatsPath(path);
      if m.Some? {
        code := m;
      } else {
        error := INVALID_STATS_URL;
      }
    }

    /** `loadStats()`, given what `fetchLinkStats(code)` resolved to or the message it threw
        with; returns whether a load was made. A successful load does not clear `error`. */
    method LoadStats(fetched: Result<LinkView>) returns (loaded: bool)
      modifies this
      ensures loaded <==> old(code).Some?
      ensures !loaded ==> unchanged(this)
      ensures loaded ==> !loading && code == old(code)
      ensures loaded && fetched.Ok? ==> link == Some(fetched.value) && error == old(error)
      ensures loaded && fetched.Fail? ==> link == old(link) && error == OrElse(fetched.message, LOAD_STATS_ERROR)
    {
      if code.None? {
        return false;
      }
      loaded := true;
      loading := true;
      match fetched {
        case Ok(data) =>
          link := Some(data);
        case Fail(message) =>
          error := OrElse(message, LOAD_STATS_ERROR);
      }
      loading := false;
    }

    /** The `click_updated` listener: reload only for an event about this page's code. */
    method OnClickUpdated(ev: ClickEvent, fetched: Result<LinkView>) returns (reloaded: bool)
      modifies this
      ensures reloaded <==> ShouldReload(old(code), ev)
      ensures !reloaded ==> unchanged(this)
      ensures reloaded ==> !loading && code == old(code)
      ensures reloaded && fetched.Ok? ==> link == Some(fetched.value) && error == old(error)
      ensures reloaded && fetched.Fail? ==> link == old(link) && error == OrElse(fetched.message, LOAD_STATS_ERROR)
    {
      reloaded := false;
      if ShouldReload(code, ev) {
        reloaded := LoadStats(fetched);
      }
    }
  }
}
