/**
 * The two navigation helpers: marking the link of the current page, and the
 * decision the click handler makes for same-page "#id" links.
 */
module Navigation {
  import opened Wrappers

  // ---------------------------------------------------------------------------
  // Active link
  // ---------------------------------------------------------------------------

  /** `parts.join(sep)`. */
  function Join(parts: seq<string>, sep: char): string
    requires |parts| >= 1
  {
    if |parts| == 1 then parts[0] else parts[0] + [sep] + Join(parts[1..], sep)
  }

  /** `s.split(sep)`: the pieces between the occurrences of `sep`, from first to last. */
  function Split(s: string, sep: char): (parts: seq<string>)
    ensures |parts| >= 1
    ensures forall k | 0 <= k < |parts| :: sep !in parts[k]
    ensures Join(parts, sep) == s
  {
    if s == [] then [[]]
    else
      var rest := Split(s[1..], sep);
      if s[0] == sep then
        assert ([[]] + rest)[1..] == rest;
        [[]] + rest
      else
        var parts := [[s[0]] + rest[0]] + rest[1..];
        assert parts[1..] == rest[1..];
        assert |rest| >= 2 ==> Join(rest, sep) == rest[0] + [sep] + Join(rest[1..], sep);
        parts
  }

  /** The last piece of a join is what follows its last separator. */
  lemma {:induction false} JoinLast(parts: seq<string>, sep: char)
    requires |parts| >= 2
    ensures Join(parts, sep) == Join(parts[..|parts| - 1], sep) + [sep] + parts[|parts| - 1]
  {
    if |parts| > 2 {
      JoinLast(parts[1..], sep);
      assert parts[1..][..|parts| - 2] == parts[..|parts| - 1][1..];
    }
  }

  /**
   * `seg` is the part of `path` after its last '/': a suffix holding no '/'
   * that is either all of `path` or comes right after a '/'.
   */
  ghost predicate IsLastSegment(path: string, seg: string)
  {
    '/' !in seg && |seg| <= |path| && path[|path| - |seg|..] == seg &&
    (|seg| == |path| || path[|path| - |seg| - 1] == '/')
  }

  /** Each path has at most one last segment. */
  lemma LastSegmentUnique(path: string, a: string, b: string)
    requires IsLastSegment(path, a) && IsLastSegment(path, b)
    ensures a == b
  {
  }

  /** `path.split('/').pop()` is the last segment of `path`. */
  lemma SplitLastIsLastSegment(path: string)
    ensures IsLastSegment(path, Split(path, '/')[|Split(path, '/')| - 1])
  {
    var parts := Split(path, '/');
    var last := parts[|parts| - 1];
    assert '/' !in last;
    if |parts| >= 2 {
      JoinLast(parts, '/');
      var prefix := Join(parts[..|parts| - 1], '/');
      assert path == prefix + ['/'] + last;
      assert path[|path| - |last|..] == last;
      assert path[|path| - |last| - 1] == '/';
    }
  }

  /** The current page's file name, with "index.html" when the path ends in '/' (or is empty). */
  function CurrentFile(path: string): (r: string)
    ensures r != []
    ensures '/' !in r
  {
    var parts := Split(path, '/');
    var last := parts[|parts| - 1];
    if last == [] then "index.html" else last
  }

  /**
   * The file name is the last segment of the path, replaced by "index.html"
   * exactly when that segment is empty; so it is "index.html" iff the segment
   * is empty or is itself "index.html".
   */
  lemma CurrentFileSpec(path: string, seg: string)
    requires IsLastSegment(path, seg)
    ensures seg != [] ==> CurrentFile(path) == seg
    ensures seg == [] ==> CurrentFile(path) == "index.html"
    ensures CurrentFile(path) == "index.html" <==> seg == [] || seg == "index.html"
  {
    SplitLastIsLastSegment(path);
    var parts := Split(path, '/');
    LastSegmentUnique(path, seg, parts[|parts| - 1]);
  }

  /** "/clinic/contact.html" names the page "contact.html". */
  lemma CurrentFileOfPage()
    ensures CurrentFile("/clinic/contact.html") == "contact.html"
  {
    var p := "/clinic/contact.html";
    assert p[|p| - 12..] == "contact.html";
    assert p[|p| - 13] == '/';
    CurrentFileSpec(p, "contact.html");
  }

  /** A directory path, or the empty path, names "index.html". */
  lemma CurrentFileOfDirectory()
    ensures CurrentFile("/clinic/") == "index.html"
    ensures CurrentFile("") == "index.html"
  {
    CurrentFileSpec("/clinic/", "");
    CurrentFileSpec("", "");
  }

  /** A navigation link: its `href` attribute and its `aria-current` attribute. */
  class NavLink {
    var href: Option<string>
    var ariaCurrent: Option<string>

    constructor (href: Option<string>, ariaCurrent: Option<string>)
      ensures this.href == href && this.ariaCurrent == ariaCurrent
    {
      this.href := href;
      this.ariaCurrent := ariaCurrent;
    }
  }

  /**
   * `setActiveNavLink`: every link whose href is exactly the current file name
   * gets `aria-current="page"`; every other link keeps what it had. The links
   * are distinct elements, as `querySelectorAll` returns each element once.
   */
  method SetActiveNavLink(links: seq<NavLink>, path: string)
    requires forall i, j | 0 <= i < j < |links| :: links[i] != links[j]
    modifies links
    ensures forall i | 0 <= i < |links| :: links[i].href == old(links[i].href)
    ensures forall i | 0 <= i < |links| ::
      links[i].ariaCurrent == if links[i].href == Some(CurrentFile(path)) then Some("page") else old(links[i].ariaCurrent)
  {
    var current := Some(CurrentFile(path));
    for i := 0 to |links|
      invariant forall j | 0 <= j < |links| :: links[j].href == old(links[j].href)
      invariant forall j | 0 <= j < i ::
        links[j].ariaCurrent == if links[j].href == current then Some("page") else old(links[j].ariaCurrent)
      invariant forall j | i <= j < |links| :: links[j].ariaCurrent == old(links[j].ariaCurrent)
    {
      var a := links[i];
      assert forall j | 0 <= j < |links| && j != i :: links[j] != a;
      if a.href == current {
        a.ariaCurrent := Some("page");
      }
    }
  }

  // ---------------------------------------------------------------------------
  // Same-page anchors
  // ---------------------------------------------------------------------------

  /** An element on the path from a click's target up to the document root. */
  datatype Element = Element(isAnchor: bool, href: Option<string>)

  /** The selector `a[href^="#"]`: an anchor whose href attribute starts with '#'. */
  predicate IsHashLink(e: Element)
  {
    e.isAnchor && e.href.Some? && |e.href.value| >= 1 && e.href.value[0] == '#'
  }

  /** `closest('a[href^="#"]')`: the first hash link in `chain` at or after `from`. */
  function Closest(chain: seq<Element>, from: nat): (r: Option<nat>)
    ensures r.Some? ==> from <= r.value < |chain| && IsHashLink(chain[r.value])
    ensures r.Some? ==> forall k | from <= k < r.value :: !IsHashLink(chain[k])
    ensures r.None? ==> forall k | from <= k < |chain| :: !IsHashLink(chain[k])
    decreases |chain| - from
  {
    if from >= |chain| then None
    else if IsHashLink(chain[from]) then Some(from)
    else Closest(chain, from + 1)
  }

  /** `document.getElementById(id)` finds an element; no element has the empty id. */
  predicate HasElementWithId(ids: set<string>, id: string)
  {
    id != [] && id in ids
  }

  /** What the click handler does: nothing, or prevent the default, scroll to `target` and push `fragment`. */
  datatype ClickOutcome = Ignored | Scrolled(target: string, fragment: string)

  /**
   * The click handler, for a click whose target and its ancestors are `chain`
   * (target first) in a document whose element ids are `ids`.
   */
  function HandleClick(chain: seq<Element>, ids: set<string>): (o: ClickOutcome)
    ensures o.Scrolled? ==> HasElementWithId(ids, o.target) && o.fragment == "#" + o.target
  {
    match Closest(chain, 0)
    case None => Ignored
    case Some(k) =>
      var id := chain[k].href.value[1..];
      if HasElementWithId(ids, id) then Scrolled(id, "#" + id) else Ignored
  }

  /**
   * The handler acts exactly when the nearest enclosing hash link names an
   * existing element; it then scrolls to that element, and the fragment it
   * pushes is the link's own href.
   */
  lemma HandleClickSpec(chain: seq<Element>, ids: set<string>, k: nat)
    requires k < |chain| && IsHashLink(chain[k])
    requires forall j | 0 <= j < k :: !IsHashLink(chain[j])
    ensures var h := chain[k].href.value;
      HandleClick(chain, ids) == if HasElementWithId(ids, h[1..]) then Scrolled(h[1..], h) else Ignored
  {
    var h := chain[k].href.value;
    assert "#" + h[1..] == h;
  }

  /** With no hash link around the click target, the handler does nothing. */
  lemma HandleClickNoLink(chain: seq<Element>, ids: set<string>)
    requires forall j | 0 <= j < |chain| :: !IsHashLink(chain[j])
    ensures HandleClick(chain, ids) == Ignored
  {
  }

  /** `href="#"` names the empty id, which no element has: the handler does nothing. */
  lemma BareHashIgnored(ids: set<string>)
    ensures HandleClick([Element(true, Some("#"))], ids) == Ignored
  {
    assert IsHashLink(Element(true, Some("#")));
    assert "#"[1..] == [];
  }
}
