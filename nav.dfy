/**
 * `setActiveNavLink`: the current page is the last `/`-separated segment of
 * the URL path, or `index.html` when that segment is empty, and exactly the
 * nav links whose `href` equals it are marked active.
 */
module Nav {
  import opened Wrappers

  const DefaultPage := "index.html"

  /** `parts.join('/')`. */
  function Join(parts: seq<string>): string
    requires parts != []
  {
    if |parts| == 1 then parts[0] else Join(parts[..|parts| - 1]) + "/" + parts[|parts| - 1]
  }

  /** `path.split('/')`: the pieces between slashes, none of them holding a
      slash, which joined back with `/` give the path again. */
  function Split(path: string): (parts: seq<string>)
    ensures parts != []
    ensures forall i :: 0 <= i < |parts| ==> '/' !in parts[i]
    ensures Join(parts) == path
  {
    if path == [] then [[]]
    else
      var init := Split(path[..|path| - 1]);
      var c := path[|path| - 1];
      assert path == path[..|path| - 1] + [c];
      if c == '/' then
        init + [[]]
      else
        var last := init[|init| - 1] + [c];
        var parts := init[..|init| - 1] + [last];
        assert parts[..|parts| - 1] == init[..|init| - 1];
        assert |init| > 1 ==> Join(init) == Join(init[..|init| - 1]) + "/" + init[|init| - 1];
        parts
  }

  /** The last piece of a split is the suffix of the path after its last
      slash (the whole path when it has none). */
  lemma {:induction false} LastPieceIsFinalSegment(path: string)
    ensures var parts := Split(path);
            var last := parts[|parts| - 1];
            && |last| <= |path| && last == path[|path| - |last|..] && '/' !in last
            && (|last| == |path| || path[|path| - |last| - 1] == '/')
  {
    var parts := Split(path);
    var last := parts[|parts| - 1];
    if |parts| > 1 {
      assert path == Join(parts[..|parts| - 1]) + "/" + last;
    }
  }

  /** `window.location.pathname.split('/').pop() || 'index.html'`: never
      empty and never holding a slash; a path ending in `/` (or empty) names
      the default page, any other path names its final segment. */
  function CurrentPage(path: string): (page: string)
    ensures page != [] && '/' !in page
    ensures path == [] || path[|path| - 1] == '/' ==> page == DefaultPage
    ensures path != [] && path[|path| - 1] != '/' ==>
              |page| <= |path| && page == path[|path| - |page|..]
              && (|page| == |path| || path[|path| - |page| - 1] == '/')
  {
    var parts := Split(path);
    var last := parts[|parts| - 1];
    LastPieceIsFinalSegment(path);
    assert path != [] && path[|path| - 1] != '/' ==> last != [] by {
      if path != [] && last == [] { assert path[|path| - 1] == '/'; }
    }
    if last == [] then DefaultPage else last
  }

  /** `setActiveNavLink`: every link loses `active`, then a link gets it back
      exactly when its `href` attribute equals the current page. `hrefs[i]`
      is `None` for a link without the attribute. */
  method SetActiveNavLink(path: string, hrefs: seq<Option<string>>, active: array<bool>)
    requires active.Length == |hrefs|
    modifies active
    ensures forall i :: 0 <= i < active.Length ==> (active[i] <==> hrefs[i] == Some(CurrentPage(path)))
  {
    var currentPage := CurrentPage(path);
    for i := 0 to active.Length
      invariant forall j :: 0 <= j < i ==> (active[j] <==> hrefs[j] == Some(currentPage))
    {
      active[i] := false;
      var href := hrefs[i];
      if href == Some(currentPage) || (currentPage == "" && href == Some(DefaultPage)) {
        active[i] := true;
      }
    }
  }

  /** When the path's last slash is at `k` and something follows it, the
      current page is exactly what follows. */
  lemma CurrentPageAfterLastSlash(path: string, k: nat)
    requires k < |path| - 1 && path[k] == '/'
    requires forall j :: k < j < |path| ==> path[j] != '/'
    ensures CurrentPage(path) == path[k + 1..]
  {
    var page := CurrentPage(path);
    forall j | |path| - |page| <= j < |path| ensures path[j] != '/' {
      assert path[j] == page[j - (|path| - |page|)];
    }
  }

  lemma CurrentPageExamples()
    ensures CurrentPage("/services/hair.html") == "hair.html"
    ensures CurrentPage("/") == DefaultPage
    ensures CurrentPage("") == DefaultPage
  {
    CurrentPageAfterLastSlash("/services/hair.html", 9);
  }
}
