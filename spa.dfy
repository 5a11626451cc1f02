/**
 * The single-page navigation of spa.js: which link clicks are taken over,
 * which page a `popstate` event reloads, and `loadIntoMain`, one navigation
 * seen as a state change of the page given the outcome of its fetch.
 */
module Spa {
  import opened JsStrings

  /* ---------------- Link filter ---------------- */

  /** What the click listener of `hijackNavLinks` does with a click. */
  datatype ClickAction =
    | Default                           // returns early: the browser follows the link itself
    | Intercept(href: string, push: bool) // `preventDefault()`, then `loadIntoMain(href, push)`

  /** `href` is the clicked anchor's `href` attribute, `None` when no anchor was hit
      or it has no such attribute. An empty `href`, an in-page anchor, anything
      starting with `http` and a `mailto:` link are left alone; everything else is
      loaded in place with a history entry. */
  function ClickTarget(href: Option<string>): (a: ClickAction)
    ensures a.Intercept? ==> href.Some? && a == Intercept(href.value, true)
    ensures a.Intercept? <==>
      && href.Some? && href.value != ""
      && href.value[0] != '#'
      && (|href.value| < 4 || href.value[..4] != "http")
      && (|href.value| < 7 || href.value[..7] != "mailto:")
  {
    match href
    case None => Default
    case Some(h) =>
      if h == "" then Default
      else if StartsWith(h, "#") || StartsWith(h, "http") || StartsWith(h, "mailto:") then Default
      else Intercept(h, true)
  }

  /** The `http` test is a plain prefix test: secure links and relative names that
      happen to begin with `http` are left alone too. */
  lemma ClickTargetLeftAlone()
    ensures ClickTarget(Some("https://example.org/")) == Default
    ensures ClickTarget(Some("httpx.html")) == Default
    ensures ClickTarget(Some("#contato")) == Default
    ensures ClickTarget(Some("mailto:ong@example.org")) == Default
    ensures ClickTarget(Some("")) == Default && ClickTarget(None) == Default
  {
    assert "https://example.org/"[..4] == "http";
    assert "httpx.html"[..4] == "http";
    assert "mailto:ong@example.org"[..7] == "mailto:";
  }

  /** Links are taken over unless they match one of the three prefixes exactly:
      protocol-relative and other-scheme links are loaded in place, and the test is
      case-sensitive. */
  lemma ClickTargetTakenOver()
    ensures ClickTarget(Some("projetos.html")) == Intercept("projetos.html", true)
    ensures ClickTarget(Some("//example.org/x")) == Intercept("//example.org/x", true)
    ensures ClickTarget(Some("tel:+5511999999999")) == Intercept("tel:+5511999999999", true)
    ensures ClickTarget(Some("HTTP://example.org/")) == Intercept("HTTP://example.org/", true)
  {
    TakenOver("projetos.html");
    TakenOver("//example.org/x");
    TakenOver("tel:+5511999999999");
    TakenOver("HTTP://example.org/");
  }

  lemma TakenOver(h: string)
    requires |h| >= 7 && h[0] != '#' && h[0] != 'h' && h[0] != 'm'
    ensures ClickTarget(Some(h)) == Intercept(h, true)
  {
    assert h[..4][0] != 'h';
    assert h[..7][0] != 'm';
  }

  /* ---------------- popstate target ---------------- */

  /** `path.split('/').pop()`: the text after the last `/`, or all of `path` when it
      has none. */
  function LastSegment(path: string): (r: string)
    ensures '/' !in r
    ensures |r| <= |path| && r == path[|path| - |r|..]
    ensures |r| == |path| || path[|path| - |r| - 1] == '/'
  {
    if path == [] || path[|path| - 1] == '/' then []
    else LastSegment(path[..|path| - 1]) + [path[|path| - 1]]
  }

  /** Splitting at the last `/`: the path is whatever precedes it, a `/`, and the
      segment. */
  lemma {:induction false} LastSegmentSplit(prefix: string, segment: string)
    requires '/' !in segment
    ensures LastSegment(prefix + "/" + segment) == segment
    ensures LastSegment(segment) == segment
  {
    var p := prefix + "/" + segment;
    if segment == [] {
      assert p[|p| - 1] == '/';
    } else {
      var init := segment[..|segment| - 1];
      assert p[..|p| - 1] == prefix + "/" + init;
      assert segment == init + [segment[|segment| - 1]];
      LastSegmentSplit(prefix, init);
    }
  }

  const IndexPage: string := "index.html"

  lemma IndexPageIsFileName()
    ensures IndexPage != [] && '/' !in IndexPage
  {
  }

  /** The page the `popstate` listener reloads: the last segment of
      `location.pathname`, or `index.html` when that segment is empty. */
  function PopTarget(pathname: string): (r: string)
    ensures r != [] && '/' !in r
    ensures LastSegment(pathname) == [] ==> r == IndexPage
    ensures LastSegment(pathname) != [] ==> r == LastSegment(pathname)
  {
    var seg := LastSegment(pathname);
    if seg == [] then IndexPageIsFileName(); IndexPage else seg
  }

  /** A path ending in `/` (the site root, say) reloads the index page. */
  lemma PopTargetAtDirectory(dir: string)
    ensures PopTarget(dir + "/") == IndexPage
    ensures PopTarget("") == IndexPage
  {
    assert (dir + "/")[|dir + "/"| - 1] == '/';
  }

  /** A file name under any directory reloads that file. */
  lemma PopTargetOfFile(dir: string, file: string)
    requires file != [] && '/' !in file
    ensures PopTarget(dir + "/" + file) == file
  {
    LastSegmentSplit(dir, file);
  }

  /* ---------------- loadIntoMain ---------------- */

  /** A retrieved document, read through the three things `loadIntoMain` uses: the
      contents of its `main`, the text of its `title`, and the contents of its `body`. */
  datatype Doc = Doc(main: Option<string>, title: Option<string>, body: string)

  /** The fetch outcome: a rejected fetch, a non-ok response or a failed read of the
      body are `Failed`. */
  datatype Fetched = Failed | Loaded(doc: Doc)

  /** What one navigation can change: the contents of the current `main` (`None`
      when the page has none), the document title, the entries pushed on the
      history, the address assigned to `location.href` by the fallback, and the
      number of `spa:loaded` events dispatched. */
  datatype View = View(mainHtml: Option<string>, title: string, history: seq<string>,
                       location: Option<string>, signals: nat)

  /** The swap goes through: the fetch succeeded and the current page has a `main`
      to write into. Otherwise the assignment to its contents throws and the handler
      falls back to normal navigation. */
  predicate Swaps(v: View, res: Fetched)
  {
    res.Loaded? && v.mainHtml.Some?
  }

  /** The contents a successful swap puts into `main`. */
  function NewMain(d: Doc): string
  {
    if d.main.Some? then d.main.value else d.body
  }

  /** One `loadIntoMain(href, push)` whose fetch ended in `res`. */
  function Step(v: View, href: string, push: bool, res: Fetched): View
  {
    if !Swaps(v, res) then v.(location := Some(href))
    else
      var d := res.doc;
      v.(mainHtml := Some(NewMain(d)),
         title := if d.main.Some? && d.title.Some? then d.title.value else v.title,
         signals := v.signals + 1,
         history := if push then v.history + [href] else v.history)
  }

  /** A failed navigation only sets `location.href`: no content, title, history
      entry or `spa:loaded` event comes from it. */
  lemma StepFailure(v: View, href: string, push: bool, res: Fetched)
    requires !Swaps(v, res)
    ensures var w := Step(v, href, push, res);
      && w.location == Some(href)
      && w.mainHtml == v.mainHtml && w.title == v.title
      && w.history == v.history && w.signals == v.signals
  {
  }

  /** A successful navigation replaces the `main` contents by the document's `main`,
      or by its `body` when it has none, and never touches `location`. */
  lemma StepContent(v: View, href: string, push: bool, d: Doc)
    requires v.mainHtml.Some?
    ensures var w := Step(v, href, push, Loaded(d));
      && w.location == v.location
      && (d.main.Some? ==> w.mainHtml == d.main)
      && (d.main.None? ==> w.mainHtml == Some(d.body))
  {
  }

  /** The title changes only to the document's own title, and only when the document
      has both a `main` and a `title`. */
  lemma StepTitle(v: View, href: string, push: bool, res: Fetched)
    ensures var w := Step(v, href, push, res);
      w.title != v.title ==> Swaps(v, res) && res.doc.main.Some? && w.title == res.doc.title.value
    ensures Swaps(v, res) && res.doc.main.Some? && res.doc.title.Some? ==>
      Step(v, href, push, res).title == res.doc.title.value
  {
  }

  /** Exactly one `spa:loaded` per successful swap, and one history entry, holding
      `href`, exactly when a successful swap asked for it. */
  lemma StepHistory(v: View, href: string, push: bool, res: Fetched)
    ensures var w := Step(v, href, push, res);
      && (w.signals == v.signals + 1 <==> Swaps(v, res))
      && (w.signals == v.signals <==> !Swaps(v, res))
      && (w.history == v.history + [href] <==> push && Swaps(v, res))
      && (w.history == v.history <==> !(push && Swaps(v, res)))
  {
    var w := Step(v, href, push, res);
    if push && Swaps(v, res) {
      assert |w.history| == |v.history| + 1;
    }
  }

  /** Loading the same document twice shows what loading it once shows. */
  lemma StepRepeat(v: View, href: string, push: bool, d: Doc)
    requires v.mainHtml.Some?
    ensures var once := Step(v, href, push, Loaded(d));
      var twice := Step(once, href, push, Loaded(d));
      twice.mainHtml == once.mainHtml && twice.title == once.title
  {
  }

  /** One navigation: the target, whether it asks for a history entry, and its fetch
      outcome. */
  datatype Nav = Nav(href: string, push: bool, res: Fetched)

  /** Navigations applied one after another. */
  function Run(v: View, navs: seq<Nav>): View
    decreases |navs|
  {
    if navs == [] then v
    else
      var last := navs[|navs| - 1];
      Step(Run(v, navs[..|navs| - 1]), last.href, last.push, last.res)
  }

  /** Over any run, the history only grows at its end, and by no more entries than
      `spa:loaded` events were dispatched. */
  lemma {:induction false} RunHistoryBound(v: View, navs: seq<Nav>)
    ensures var w := Run(v, navs);
      && |v.history| <= |w.history| && w.history[..|v.history|] == v.history
      && |w.history| - |v.history| <= w.signals - v.signals
  {
    if navs != [] {
      var init := navs[..|navs| - 1];
      var last := navs[|navs| - 1];
      RunHistoryBound(v, init);
      var u := Run(v, init);
      StepHistory(u, last.href, last.push, last.res);
      var w := Step(u, last.href, last.push, last.res);
      if w.history != u.history {
        assert w.history[..|v.history|] == u.history[..|v.history|];
      }
    }
  }

  /** Navigations that never ask for a history entry (the `popstate` reloads) leave
      the history as it was. */
  lemma {:induction false} RunWithoutPushKeepsHistory(v: View, navs: seq<Nav>)
    requires forall i :: 0 <= i < |navs| ==> !navs[i].push
    ensures Run(v, navs).history == v.history
  {
    if navs != [] {
      var init := navs[..|navs| - 1];
      assert forall i :: 0 <= i < |init| ==> init[i] == navs[i];
      RunWithoutPushKeepsHistory(v, init);
    }
  }

  /** The page as the navigation code changes it. */
  class Page {
    var mainHtml: Option<string>
    var title: string
    var history: seq<string>
    var location: Option<string>
    var signals: nat
    /** The history as it stood when the page was set up. */
    ghost const history0: seq<string>

    function State(): View
      reads this
    {
      View(mainHtml, title, history, location, signals)
    }

    /** Every history entry beyond the initial ones was pushed by a successful swap. */
    ghost predicate Valid()
      reads this
    {
      |history0| <= |history| && history[..|history0|] == history0
      && |history| - |history0| <= signals
    }

    constructor (mainHtml: Option<string>, title: string, history: seq<string>)
      ensures State() == View(mainHtml, title, history, None, 0)
      ensures history0 == history && Valid()
    {
      this.mainHtml := mainHtml;
      this.title := title;
      this.history := history;
      this.history0 := history;
      location := None;
      signals := 0;
    }

    /** `loadIntoMain(href, pushState)` once its fetch has ended in `res`. */
    method LoadIntoMain(href: string, pushState: bool, res: Fetched)
      requires Valid()
      modifies this
      ensures State() == Step(old(State()), href, pushState, res)
      ensures Valid()
    {
      StepHistory(State(), href, pushState, res);
      if res.Failed? {
        location := Some(href);
        return;
      }
      var doc := res.doc;
      if doc.main.None? {
        if mainHtml.None? {
          location := Some(href);
          return;
        }
        mainHtml := Some(doc.body);
      } else {
        if mainHtml.None? {
          location := Some(href);
          return;
        }
        mainHtml := Some(doc.main.value);
        if doc.title.Some? {
          title := doc.title.value;
        }
      }
      signals := signals + 1;
      if pushState {
        history := history + [href];
        assert history[..|history0|] == old(history)[..|history0|];
      }
    }

    /** The `popstate` listener: reload the page the address now names, without a
        history entry. */
    method OnPopState(pathname: string, res: Fetched)
      requires Valid()
      modifies this
      ensures State() == Step(old(State()), PopTarget(pathname), false, res)
      ensures history == old(history) && Valid()
    {
      StepHistory(State(), PopTarget(pathname), false, res);
      LoadIntoMain(PopTarget(pathname), false, res);
    }

    /** The click listener of `hijackNavLinks`; `prevented` tells whether it called
        `preventDefault()`. A click it leaves alone changes nothing here. */
    method OnLinkClick(href: Option<string>, res: Fetched) returns (prevented: bool)
      requires Valid()
      modifies this
      ensures prevented <==> ClickTarget(href).Intercept?
      ensures prevented ==> State() == Step(old(State()), href.value, true, res)
      ensures !prevented ==> State() == old(State())
      ensures Valid()
    {
      var action := ClickTarget(href);
      if action.Default? {
        return false;
      }
      LoadIntoMain(action.href, action.push, res);
      prevented := true;
    }
  }
}
