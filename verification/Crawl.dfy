/** Recursive discovery over HTTP: a bounded crawl whose fetches complete in
    any order. URL parsing, scope and path rules, and the site itself, are
    parameters. */
module Crawl {
  import opened Prelude

  const MAX_PAGES: nat := 1024
  const MAX_FILES: nat := 10_000

  type Url = seq<byte>
  type Path = seq<byte>

  /** What fetching a page yields: nothing, a page with its links (`None` for a
      malformed one), or a plain file. */
  datatype Response = Failed | Html(finalUrl: Url, links: seq<Option<Url>>) | Plain(finalUrl: Url)

  datatype Site = Site(
    fetch: Url -> Response,
    inScope: Url -> bool,
    isDirectory: Url -> bool,
    withoutQuery: Url -> Url,
    relativePath: Url -> Option<Path>,
    selected: Path -> bool,
    maxDepth: nat,
    overwrite: bool)

  /** A page and the depth at which it was found. */
  datatype Item = Item(url: Url, depth: nat)

  /** The variables of the crawl. */
  datatype State = State(queue: seq<Item>, seen: set<Url>, found: map<Path, Url>, truncated: bool)

  /** How processing a page ends: the crawl goes on, ends early at the file
      cap, or fails. */
  datatype Progress = Continue(state: State) | Stop(state: State) | Abort

  datatype Outcome = Manifest(files: map<Path, Url>) | Failure

  // ------------------------------------------------------------ one response

  function InsertEntry(found: map<Path, Url>, path: Path, url: Url, overwrite: bool): Option<map<Path, Url>> {
    if path in found && found[path] == url then Some(found)
    else if path in found && !overwrite then None
    else Some(found[path := url])
  }

  function AddFile(site: Site, st: State, url: Url): Progress {
    match site.relativePath(url)
    case None => Abort
    case Some(path) =>
      if !site.selected(path) then Continue(st)
      else if |st.found| >= MAX_FILES then Stop(st)
      else match InsertEntry(st.found, path, url, site.overwrite)
        case None => Abort
        case Some(found) => Continue(st.(found := found))
  }

  function AddDirectory(site: Site, st: State, depth: nat, url: Url): State {
    var page := site.withoutQuery(url);
    if depth + 1 >= site.maxDepth || st.truncated then st
    else if page in st.seen then st
    else if |st.seen| >= MAX_PAGES then st.(truncated := true)
    else st.(seen := st.seen + {page}, queue := st.queue + [Item(page, depth + 1)])
  }

  /** A directory link is dropped for good only at the page cap, and then it is
      noted, and no page is added after that; a page is never added twice. */
  lemma DirectoryExactly(site: Site, st: State, depth: nat, url: Url)
    ensures var page, st' := site.withoutQuery(url), AddDirectory(site, st, depth, url);
      var wanted := depth + 1 < site.maxDepth && page !in st.seen;
      && (st'.truncated <==> st.truncated || (wanted && |st.seen| >= MAX_PAGES))
      && (st'.queue != st.queue <==> wanted && !st.truncated && |st.seen| < MAX_PAGES)
      && (st'.queue != st.queue ==> st'.queue == st.queue + [Item(page, depth + 1)] && st'.seen == st.seen + {page})
      && (st'.queue == st.queue ==> st'.seen == st.seen)
      && st'.found == st.found
  {
  }

  function AddLink(site: Site, st: State, depth: nat, link: Option<Url>): Progress {
    if link.None? || !site.inScope(link.value) then Continue(st)
    else if depth + 1 > site.maxDepth then Continue(st)
    else if site.isDirectory(link.value) then Continue(AddDirectory(site, st, depth, link.value))
    else AddFile(site, st, link.value)
  }

  function AddLinks(site: Site, st: State, depth: nat, links: seq<Option<Url>>): Progress
    decreases |links|
  {
    if links == [] then Continue(st)
    else match AddLink(site, st, depth, links[0])
      case Continue(st1) => AddLinks(site, st1, depth, links[1..])
      case other => other
  }

  function Visit(site: Site, st: State, item: Item): Progress {
    match site.fetch(item.url)
    case Failed => if item.depth == 0 then Abort else Continue(st)
    case Html(finalUrl, links) =>
      if !site.inScope(finalUrl) then Abort
      else if item.depth >= site.maxDepth then Continue(st)
      else AddLinks(site, st, item.depth, links)
    case Plain(finalUrl) =>
      if !site.inScope(finalUrl) then Abort else AddFile(site, st, finalUrl)
  }

  // ---------------------------------------------- what a crawl ought to find

  /** Page `p` leads to page `q`. */
  ghost predicate Leads(site: Site, p: Url, q: Url) {
    var r := site.fetch(p);
    r.Html? && exists link :: link in r.links && LeadsBy(site, link, q)
  }

  predicate LeadsBy(site: Site, link: Option<Url>, q: Url) {
    link.Some? && site.inScope(link.value) && site.isDirectory(link.value) && site.withoutQuery(link.value) == q
  }

  /** The in-scope, non-directory links of a page, or the file it is. */
  predicate LinksFile(site: Site, link: Option<Url>, url: Url) {
    link == Some(url) && site.inScope(url) && !site.isDirectory(url)
  }

  ghost predicate Mentions(site: Site, p: Url, url: Url) {
    var r := site.fetch(p);
    match r
    case Failed => false
    case Html(_, links) => exists link :: link in links && LinksFile(site, link, url)
    case Plain(finalUrl) => url == finalUrl
  }

  predicate IsFile(site: Site, url: Url, path: Path) {
    site.relativePath(url) == Some(path) && site.selected(path)
  }

  /** Page `p` puts `url` at `path`. */
  ghost predicate Contributes(site: Site, p: Url, path: Path, url: Url) {
    Mentions(site, p, url) && IsFile(site, url, path)
  }

  /** A page that cannot be processed: the root is dead, a redirect leaves the
      scope, or a file has no usable path. */
  ghost predicate Broken(site: Site, root: Url, p: Url) {
    var r := site.fetch(p);
    || (r.Failed? && p == root)
    || (!r.Failed? && !site.inScope(r.finalUrl))
    || exists url :: Mentions(site, p, url) && site.relativePath(url).None?
  }

  ghost predicate Walk(site: Site, pages: seq<Url>) {
    pages != [] && forall i :: 0 <= i < |pages| - 1 ==> Leads(site, pages[i], pages[i + 1])
  }

  ghost predicate Reachable(site: Site, root: Url, p: Url) {
    exists pages :: Walk(site, pages) && pages[0] == root && pages[|pages| - 1] == p
  }

  /** Every reachable page can be processed, and no path has two URLs. */
  ghost predicate Consistent(site: Site, root: Url) {
    && (forall p :: Reachable(site, root, p) ==> !Broken(site, root, p))
    && (forall p, q, path, a, b ::
          (Reachable(site, root, p) && Contributes(site, p, path, a)
           && Reachable(site, root, q) && Contributes(site, q, path, b)) ==> a == b)
  }

  ghost predicate Found(site: Site, root: Url, path: Path, url: Url) {
    exists p :: Reachable(site, root, p) && Contributes(site, p, path, url)
  }

  /** The outcome a crawl without limits must have: failure if anything
      reachable is inconsistent, and otherwise exactly the selected in-scope
      files reachable from the root. */
  ghost predicate Correct(site: Site, root: Url, outcome: Outcome) {
    if Consistent(site, root) then
      && outcome.Manifest?
      && forall path, url :: path in outcome.files && outcome.files[path] == url <==> Found(site, root, path, url)
    else outcome.Failure?
  }

  /** There is only one correct outcome, so every order of completion that
      meets no limit gives the same one. */
  lemma CorrectIsUnique(site: Site, root: Url, a: Outcome, b: Outcome)
    requires Correct(site, root, a) && Correct(site, root, b)
    ensures a == b
  {
    hide Consistent, Found;
    if a.Manifest? {
      forall path | path in a.files ensures path in b.files && b.files[path] == a.files[path] {
        assert Found(site, root, path, a.files[path]);
      }
      forall path | path in b.files ensures path in a.files {
        assert Found(site, root, path, b.files[path]);
      }
    }
  }

  lemma ReachableStep(site: Site, root: Url, p: Url, q: Url)
    requires Reachable(site, root, p) && Leads(site, p, q)
    ensures Reachable(site, root, q)
  {
    hide Leads;
    var pages :| Walk(site, pages) && pages[0] == root && pages[|pages| - 1] == p;
    var more := pages + [q];
    assert Walk(site, more) && more[|more| - 1] == q;
  }

  lemma ReachableRoot(site: Site, root: Url)
    ensures Reachable(site, root, root)
  {
    assert Walk(site, [root]) && [root][0] == root;
  }

  /** A set of pages that holds the root and is closed under links holds every
      reachable page. */
  lemma {:induction false} ClosedHoldsReachable(site: Site, s: set<Url>, pages: seq<Url>)
    requires Walk(site, pages) && pages[0] in s
    requires forall p, q :: p in s && Leads(site, p, q) ==> q in s
    ensures pages[|pages| - 1] in s
    decreases |pages|
  {
    hide Leads;
    if |pages| > 1 {
      assert Leads(site, pages[0], pages[1]);
      assert forall i {:trigger pages[1..][i]} :: 0 <= i < |pages| - 1 ==> pages[1..][i] == pages[i + 1];
      ClosedHoldsReachable(site, s, pages[1..]);
    }
  }

  // --------------------------------------------------------- one page's work

  /** `path` has been found, for `url` unless files may be overwritten. */
  predicate Keeps(site: Site, found: map<Path, Url>, path: Path, url: Url) {
    path in found && (site.overwrite || found[path] == url)
  }

  /** No directory link is dropped before the page cap is reached. */
  predicate Capped(st: State) { st.truncated ==> |st.seen| >= MAX_PAGES }

  /** A directory link `q` of a page at `depth` is a known page, unless it is
      too deep or the page cap is reached. */
  predicate Enqueued(site: Site, st: State, depth: nat, q: Url) {
    q in st.seen || depth + 1 >= site.maxDepth || |st.seen| >= MAX_PAGES
  }

  /** `st'` forgets nothing `st` has, and drops no link before the cap. */
  ghost predicate Extends(site: Site, st: State, st': State) {
    && st.seen <= st'.seen && |st.seen| <= |st'.seen|
    && (Capped(st) ==> Capped(st'))
    && (forall path, url :: Keeps(site, st.found, path, url) ==> Keeps(site, st'.found, path, url))
  }

  predicate NewPage(site: Site, seen: set<Url>, item: Item, depth: nat) {
    item.url !in seen && item.depth == depth + 1 && depth + 1 < site.maxDepth
  }

  /** Items `queue` gained, all new pages one level down. */
  ghost predicate Grew(site: Site, st: State, st': State, depth: nat) {
    && |st.queue| <= |st'.queue| && st'.queue[..|st.queue|] == st.queue
    && |st'.seen| == |st.seen| + (|st'.queue| - |st.queue|)
    && (|st.seen| <= MAX_PAGES ==> |st'.seen| <= MAX_PAGES)
    && (|st.found| <= MAX_FILES ==> |st'.found| <= MAX_FILES)
    && Gained(st, st')
    && (forall i :: |st.queue| <= i < |st'.queue| ==> NewPage(site, st.seen, st'.queue[i], depth))
    && (forall i, j :: |st.queue| <= i < j < |st'.queue| ==> st'.queue[i].url != st'.queue[j].url)
  }

  lemma GrewRefl(site: Site, st: State, st': State, depth: nat)
    requires st'.queue == st.queue && st'.seen == st.seen
    requires |st.found| <= MAX_FILES ==> |st'.found| <= MAX_FILES
    ensures Grew(site, st, st', depth)
  {
  }

  lemma GrewOnce(site: Site, st: State, depth: nat, page: Url)
    requires page !in st.seen && |st.seen| < MAX_PAGES && depth + 1 < site.maxDepth
    ensures Grew(site, st, st.(seen := st.seen + {page}, queue := st.queue + [Item(page, depth + 1)]), depth)
  {
    var st' := st.(seen := st.seen + {page}, queue := st.queue + [Item(page, depth + 1)]);
    assert st'.queue[|st.queue|].url == page;
  }

  /** The items `queue` gained, and only they, are the new pages. */
  ghost predicate Gained(st: State, st': State) {
    forall u :: u in st'.seen <==> u in st.seen || GainedAt(st, st', u)
  }

  ghost predicate GainedAt(st: State, st': State, u: Url) {
    exists i :: |st.queue| <= i < |st'.queue| && st'.queue[i].url == u
  }

  lemma GrewTrans(site: Site, a: State, b: State, c: State, depth: nat)
    requires Grew(site, a, b, depth) && Grew(site, b, c, depth)
    ensures Grew(site, a, c, depth)
  {
    assert c.queue[..|a.queue|] == c.queue[..|b.queue|][..|a.queue|];
    forall i | |a.queue| <= i < |b.queue| ensures c.queue[i] == b.queue[i] {
      assert c.queue[i] == c.queue[..|b.queue|][i];
    }
    assert Gained(a, b) && Gained(b, c);
    forall u ensures GainedAt(a, c, u) <==> GainedAt(a, b, u) || GainedAt(b, c, u) {
      if GainedAt(a, b, u) {
        var i :| |a.queue| <= i < |b.queue| && b.queue[i].url == u;
        assert c.queue[i].url == u;
      }
    }
    assert Gained(a, c);
    forall i | |a.queue| <= i < |c.queue| ensures NewPage(site, a.seen, c.queue[i], depth) {
      if i < |b.queue| {
        assert c.queue[i] == b.queue[i] && NewPage(site, a.seen, b.queue[i], depth);
      } else {
        assert NewPage(site, b.seen, c.queue[i], depth);
      }
    }
    forall i, j | |a.queue| <= i < j < |c.queue| ensures c.queue[i].url != c.queue[j].url {
      if i < |b.queue| <= j { assert GainedAt(a, b, b.queue[i].url); }
    }
  }

  /** What one link of a page at `depth` can add, and what it must add unless
      the crawl ends with it. */
  ghost predicate LinkAdded(site: Site, st: State, st': State, depth: nat, link: Option<Url>, all: bool) {
    && (forall q :: q in st'.seen ==> q in st.seen || LeadsBy(site, link, q))
    && (forall path, url :: Holds(st'.found, path, url) ==> Holds(st.found, path, url) || Linked(site, link, path, url))
    && Extends(site, st, st')
    && (all && Capped(st) ==> forall q :: LeadsBy(site, link, q) ==> Enqueued(site, st', depth, q))
    && (all && depth < site.maxDepth ==>
          && (forall path, url :: Linked(site, link, path, url) ==> Keeps(site, st'.found, path, url))
          && (forall url :: LinksFile(site, link, url) ==> site.relativePath(url).Some?))
  }

  predicate Linked(site: Site, link: Option<Url>, path: Path, url: Url) {
    LinksFile(site, link, url) && IsFile(site, url, path)
  }

  /** Why one link can fail. */
  ghost predicate LinkFails(site: Site, st: State, link: Option<Url>) {
    exists url :: LinksFile(site, link, url) && FileFails(site, st, url)
  }

  ghost predicate FileFails(site: Site, st: State, url: Url) {
    || site.relativePath(url).None?
    || (site.relativePath(url).value in st.found && st.found[site.relativePath(url).value] != url
        && IsFile(site, url, site.relativePath(url).value))
  }

  lemma DirectoryEffect(site: Site, st: State, depth: nat, link: Option<Url>)
    requires link.Some? && site.inScope(link.value) && site.isDirectory(link.value)
    ensures Grew(site, st, AddDirectory(site, st, depth, link.value), depth)
    ensures LinkAdded(site, st, AddDirectory(site, st, depth, link.value), depth, link, true)
  {
    hide Grew, LinkAdded;
    var st' := AddDirectory(site, st, depth, link.value);
    var page := site.withoutQuery(link.value);
    if st'.queue != st.queue {
      GrewOnce(site, st, depth, page);
    } else {
      GrewRefl(site, st, st', depth);
    }
    DirectoryAdds(site, st, st', depth, link);
  }

  lemma DirectoryAdds(site: Site, st: State, st': State, depth: nat, link: Option<Url>)
    requires link.Some? && site.inScope(link.value) && site.isDirectory(link.value)
    requires st'.found == st.found && (Capped(st) ==> Capped(st')) && |st.seen| <= |st'.seen|
    requires st'.seen == st.seen || st'.seen == st.seen + {site.withoutQuery(link.value)}
    requires Capped(st) ==> Enqueued(site, st', depth, site.withoutQuery(link.value))
    ensures LinkAdded(site, st, st', depth, link, true)
  {
    hide Holds, Keeps, IsFile, Capped;
  }

  lemma IgnoredAdds(site: Site, st: State, depth: nat, link: Option<Url>)
    requires link.None? || !site.inScope(link.value) || depth >= site.maxDepth
    ensures LinkAdded(site, st, st, depth, link, true)
  {
    hide Holds, Keeps, IsFile, Capped;
  }

  predicate AtFileCap(st: State) { |st.found| >= MAX_FILES }

  /** What one file can add, and what it must add unless the crawl ends with
      it. */
  ghost predicate FileAdded(site: Site, st: State, st': State, url: Url, all: bool) {
    && st'.seen == st.seen
    && (forall path, u :: Holds(st'.found, path, u) ==> Holds(st.found, path, u) || (u == url && IsFile(site, url, path)))
    && Extends(site, st, st')
    && (all ==> site.relativePath(url).Some? && forall path :: IsFile(site, url, path) ==> Keeps(site, st'.found, path, url))
  }

  ghost predicate FileDone(site: Site, st: State, depth: nat, url: Url, r: Progress) {
    match r
    case Continue(st') => Grew(site, st, st', depth) && FileAdded(site, st, st', url, true)
    case Stop(st') => Grew(site, st, st', depth) && FileAdded(site, st, st', url, false) && AtFileCap(st')
    case Abort => FileFails(site, st, url)
  }

  lemma AddFileEffect(site: Site, st: State, depth: nat, url: Url)
    ensures FileDone(site, st, depth, url, AddFile(site, st, url))
  {
    hide Grew, FileAdded;
    match AddFile(site, st, url) {
      case Continue(st') =>
        GrewRefl(site, st, st', depth);
        FileContinues(site, st, url);
      case Stop(st') =>
        GrewRefl(site, st, st', depth);
        FileStops(site, st, url);
      case Abort =>
    }
  }

  lemma FileContinues(site: Site, st: State, url: Url)
    requires AddFile(site, st, url).Continue?
    ensures FileAdded(site, st, AddFile(site, st, url).state, url, true)
  {
    var st' := AddFile(site, st, url).state;
    assert forall path :: path !in {site.relativePath(url).value} ==> (path in st'.found <==> path in st.found);
  }

  lemma FileStops(site: Site, st: State, url: Url)
    ensures FileAdded(site, st, st, url, false)
  {
    hide Holds, Keeps, IsFile, Capped;
  }

  lemma FileEffect(site: Site, st: State, st': State, depth: nat, link: Option<Url>, url: Url, all: bool)
    requires link == Some(url) && site.inScope(url) && !site.isDirectory(url)
    requires FileAdded(site, st, st', url, all)
    ensures LinkAdded(site, st, st', depth, link, all)
  {
    hide IsFile, Holds, Keeps, Extends, Enqueued;
  }

  ghost predicate LinkDone(site: Site, st: State, depth: nat, link: Option<Url>, r: Progress) {
    match r
    case Continue(st') => Grew(site, st, st', depth) && LinkAdded(site, st, st', depth, link, true)
    case Stop(st') => Grew(site, st, st', depth) && LinkAdded(site, st, st', depth, link, false) && AtFileCap(st')
    case Abort => LinkFails(site, st, link)
  }

  lemma LinkEffect(site: Site, st: State, depth: nat, link: Option<Url>)
    ensures LinkDone(site, st, depth, link, AddLink(site, st, depth, link))
  {
    hide Grew, AddFile, AddDirectory, FileFails, FileAdded, LinkAdded;
    if link.Some? && site.inScope(link.value) && depth + 1 <= site.maxDepth {
      if site.isDirectory(link.value) {
        DirectoryEffect(site, st, depth, link);
      } else {
        assert LinksFile(site, link, link.value);
        AddFileEffect(site, st, depth, link.value);
        var r := AddFile(site, st, link.value);
        if !r.Abort? { FileEffect(site, st, r.state, depth, link, link.value, r.Continue?); }
      }
    } else {
      GrewRefl(site, st, st, depth);
      IgnoredAdds(site, st, depth, link);
    }
  }

  ghost predicate MentionsIn(site: Site, links: seq<Option<Url>>, url: Url) {
    exists link :: link in links && LinksFile(site, link, url)
  }

  ghost predicate LeadsIn(site: Site, links: seq<Option<Url>>, q: Url) {
    exists link :: link in links && LeadsBy(site, link, q)
  }

  ghost predicate Holds(found: map<Path, Url>, path: Path, url: Url) { path in found && found[path] == url }

  /** What a list of links can add, and what it must add unless the crawl
      ends with it. */
  ghost predicate LinksAdded(site: Site, st: State, st': State, depth: nat, links: seq<Option<Url>>, all: bool) {
    && (forall q :: q in st'.seen ==> q in st.seen || LeadsIn(site, links, q))
    && (forall path, url :: Holds(st'.found, path, url) ==> Holds(st.found, path, url) || LinkedIn(site, links, path, url))
    && Extends(site, st, st')
    && (all && Capped(st) ==> forall q :: LeadsIn(site, links, q) ==> Enqueued(site, st', depth, q))
    && (all && depth < site.maxDepth ==>
          && (forall path, url :: LinkedIn(site, links, path, url) ==> Keeps(site, st'.found, path, url))
          && (forall url :: MentionsIn(site, links, url) ==> site.relativePath(url).Some?))
  }

  ghost predicate LinkedIn(site: Site, links: seq<Option<Url>>, path: Path, url: Url) {
    MentionsIn(site, links, url) && IsFile(site, url, path)
  }

  /** Why a list of links can fail: a file without a path, or two URLs for one
      path, the first from before or from the same list. */
  ghost predicate LinksFail(site: Site, st: State, links: seq<Option<Url>>) {
    || (exists url :: MentionsIn(site, links, url) && site.relativePath(url).None?)
    || (exists url, a, path :: Clash(site, st, links, url, a, path))
  }

  ghost predicate Clash(site: Site, st: State, links: seq<Option<Url>>, url: Url, a: Url, path: Path) {
    && MentionsIn(site, links, url) && IsFile(site, url, path) && a != url
    && (Holds(st.found, path, a) || (MentionsIn(site, links, a) && IsFile(site, a, path)))
  }

  lemma MentionsSplit(site: Site, links: seq<Option<Url>>, url: Url)
    requires links != []
    ensures MentionsIn(site, links, url) <==> LinksFile(site, links[0], url) || MentionsIn(site, links[1..], url)
    ensures LeadsIn(site, links, url) <==> LeadsBy(site, links[0], url) || LeadsIn(site, links[1..], url)
  {
    hide LinksFile, LeadsBy;
    assert links == [links[0]] + links[1..];
  }

  ghost predicate LinksDone(site: Site, st: State, depth: nat, links: seq<Option<Url>>, r: Progress) {
    match r
    case Continue(st') => Grew(site, st, st', depth) && LinksAdded(site, st, st', depth, links, true)
    case Stop(st') => Grew(site, st, st', depth) && LinksAdded(site, st, st', depth, links, false) && AtFileCap(st')
    case Abort => LinksFail(site, st, links)
  }

  lemma {:induction false} LinksEffect(site: Site, st: State, depth: nat, links: seq<Option<Url>>)
    ensures LinksDone(site, st, depth, links, AddLinks(site, st, depth, links))
    decreases |links|
  {
    hide Grew, LinkAdded, LinksAdded, LinksFail, LinkFails, AtFileCap, AddLinks, AddLink;
    if links == [] {
      GrewRefl(site, st, st, depth);
      NothingAdded(site, st, depth);
      AddLinksStep(site, st, depth, links);
    } else {
      AddLinksStep(site, st, depth, links);
      LinkEffect(site, st, depth, links[0]);
      match AddLink(site, st, depth, links[0]) {
        case Continue(st1) =>
          LinksEffect(site, st1, depth, links[1..]);
          match AddLinks(site, st1, depth, links[1..]) {
            case Continue(st') =>
              GrewTrans(site, st, st1, st', depth);
              AddedTogether(site, st, st1, st', depth, links, true);
            case Stop(st') =>
              GrewTrans(site, st, st1, st', depth);
              AddedTogether(site, st, st1, st', depth, links, false);
            case Abort => FailedLater(site, st, st1, depth, links);
          }
        case Stop(st') => AddedAtCap(site, st, st', depth, links);
        case Abort => FailedFirst(site, st, links);
      }
    }
  }

  lemma AddLinksStep(site: Site, st: State, depth: nat, links: seq<Option<Url>>)
    ensures links == [] ==> AddLinks(site, st, depth, links) == Continue(st)
    ensures links != [] ==> var first := AddLink(site, st, depth, links[0]);
      AddLinks(site, st, depth, links) == if first.Continue? then AddLinks(site, first.state, depth, links[1..]) else first
  {
  }

  lemma NothingAdded(site: Site, st: State, depth: nat)
    ensures LinksAdded(site, st, st, depth, [], true)
  {
  }

  lemma ExtendsTrans(site: Site, a: State, b: State, c: State)
    requires Extends(site, a, b) && Extends(site, b, c)
    ensures Extends(site, a, c)
    ensures Capped(a) ==> Capped(b)
    ensures forall depth, q :: Enqueued(site, b, depth, q) ==> Enqueued(site, c, depth, q)
    ensures forall path, url :: Keeps(site, b.found, path, url) ==> Keeps(site, c.found, path, url)
  {
    hide Keeps, Capped;
  }

  lemma AddedTogether(site: Site, st: State, st1: State, st': State, depth: nat, links: seq<Option<Url>>, all: bool)
    requires links != [] && LinkAdded(site, st, st1, depth, links[0], true)
    requires LinksAdded(site, st1, st', depth, links[1..], all)
    ensures LinksAdded(site, st, st', depth, links, all)
  {
    ExtendsTrans(site, st, st1, st');
    hide Extends, Capped, Enqueued, Keeps, MentionsIn, LeadsIn, LinksFile, LeadsBy, IsFile;
    forall u: Url
      ensures MentionsIn(site, links, u) <==> LinksFile(site, links[0], u) || MentionsIn(site, links[1..], u)
      ensures LeadsIn(site, links, u) <==> LeadsBy(site, links[0], u) || LeadsIn(site, links[1..], u)
    {
      MentionsSplit(site, links, u);
    }
  }

  lemma AddedAtCap(site: Site, st: State, st': State, depth: nat, links: seq<Option<Url>>)
    requires links != [] && LinkAdded(site, st, st', depth, links[0], false)
    ensures LinksAdded(site, st, st', depth, links, false)
  {
    hide Extends, MentionsIn, LeadsIn, LinksFile, LeadsBy, IsFile;
    forall u: Url
      ensures LinksFile(site, links[0], u) ==> MentionsIn(site, links, u)
      ensures LeadsBy(site, links[0], u) ==> LeadsIn(site, links, u)
    {
      MentionsSplit(site, links, u);
    }
  }

  lemma FailedFirst(site: Site, st: State, links: seq<Option<Url>>)
    requires links != [] && LinkFails(site, st, links[0])
    ensures LinksFail(site, st, links)
  {
    hide MentionsIn, LinksFile;
    var url :| LinksFile(site, links[0], url) && FileFails(site, st, url);
    MentionsSplit(site, links, url);
    if site.relativePath(url).Some? {
      var path := site.relativePath(url).value;
      assert Clash(site, st, links, url, st.found[path], path);
    }
  }

  lemma FailedLater(site: Site, st: State, st1: State, depth: nat, links: seq<Option<Url>>)
    requires links != [] && LinkAdded(site, st, st1, depth, links[0], true) && LinksFail(site, st1, links[1..])
    ensures LinksFail(site, st, links)
  {
    hide MentionsIn, LinksFile, IsFile;
    forall u: Url ensures MentionsIn(site, links, u) <==> LinksFile(site, links[0], u) || MentionsIn(site, links[1..], u) {
      MentionsSplit(site, links, u);
    }
    if url :| MentionsIn(site, links[1..], url) && site.relativePath(url).None? {
      assert MentionsIn(site, links, url);
    } else {
      var url, a, path :| Clash(site, st1, links[1..], url, a, path);
      assert Clash(site, st, links, url, a, path);
    }
  }

  // ------------------------------------------------------------ a whole page

  /** What processing page `item` can add, and what it must add unless the
      crawl ends with it. */
  ghost predicate PageAdded(site: Site, root: Url, st: State, st': State, item: Item, all: bool) {
    && (forall q :: q in st'.seen ==> q in st.seen || Leads(site, item.url, q))
    && (forall path, url :: Holds(st'.found, path, url) ==> Holds(st.found, path, url) || Contributes(site, item.url, path, url))
    && Extends(site, st, st')
    && (all && Capped(st) && item.depth < site.maxDepth ==> PageKept(site, root, st', item))
  }

  /** A page of which nothing is missing: it can be processed, its directory
      links are known pages unless a limit was met, and its files are found. */
  ghost predicate PageKept(site: Site, root: Url, st: State, item: Item) {
    && !Broken(site, root, item.url)
    && (forall q :: Leads(site, item.url, q) ==> Enqueued(site, st, item.depth, q))
    && (forall path, url :: Contributes(site, item.url, path, url) ==> Keeps(site, st.found, path, url))
  }

  /** Why processing page `p` can fail. */
  ghost predicate PageFails(site: Site, root: Url, st: State, p: Url) {
    || Broken(site, root, p)
    || exists path, url, a :: PageClash(site, st, p, path, url, a)
  }

  ghost predicate PageClash(site: Site, st: State, p: Url, path: Path, url: Url, a: Url) {
    Contributes(site, p, path, url) && a != url && (Holds(st.found, path, a) || Contributes(site, p, path, a))
  }

  ghost predicate PageDone(site: Site, root: Url, st: State, item: Item, r: Progress) {
    match r
    case Continue(st') => Grew(site, st, st', item.depth) && PageAdded(site, root, st, st', item, true)
    case Stop(st') => Grew(site, st, st', item.depth) && PageAdded(site, root, st, st', item, false) && AtFileCap(st')
    case Abort => PageFails(site, root, st, item.url)
  }

  lemma VisitEffect(site: Site, root: Url, st: State, item: Item)
    requires (item.depth == 0 <==> item.url == root)
    ensures PageDone(site, root, st, item, Visit(site, st, item))
  {
    hide Grew, AddLinks, AddFile, LinksAdded, LinksFail, PageAdded, PageFails;
    var p := item.url;
    match site.fetch(p) {
      case Failed =>
        GrewRefl(site, st, st, item.depth);
        FailedPage(site, root, st, item);
      case Html(finalUrl, links) =>
        if !site.inScope(finalUrl) {
          assert PageFails(site, root, st, p) by { FinalOutOfScope(site, root, st, p); }
        } else if item.depth >= site.maxDepth {
          GrewRefl(site, st, st, item.depth);
          DepthLimited(site, root, st, item);
        } else {
          LinksEffect(site, st, item.depth, links);
          HtmlPage(site, root, st, item, AddLinks(site, st, item.depth, links));
        }
      case Plain(finalUrl) =>
        if !site.inScope(finalUrl) {
          FinalOutOfScope(site, root, st, p);
        } else {
          PlainPage(site, root, st, item);
        }
    }
  }

  lemma FailedPage(site: Site, root: Url, st: State, item: Item)
    requires site.fetch(item.url).Failed?
    ensures if item.url == root then PageFails(site, root, st, item.url) else PageAdded(site, root, st, st, item, true)
  {
  }

  lemma DepthLimited(site: Site, root: Url, st: State, item: Item)
    requires item.depth >= site.maxDepth
    ensures PageAdded(site, root, st, st, item, true)
  {
  }

  lemma FinalOutOfScope(site: Site, root: Url, st: State, p: Url)
    requires !site.fetch(p).Failed? && !site.inScope(site.fetch(p).finalUrl)
    ensures PageFails(site, root, st, p)
  {
  }

  lemma HtmlPage(site: Site, root: Url, st: State, item: Item, r: Progress)
    requires site.fetch(item.url).Html? && site.inScope(site.fetch(item.url).finalUrl)
    ensures !r.Abort? && LinksAdded(site, st, r.state, item.depth, site.fetch(item.url).links, r.Continue?) ==>
              PageAdded(site, root, st, r.state, item, r.Continue?)
    ensures LinksFail(site, st, site.fetch(item.url).links) ==> PageFails(site, root, st, item.url)
  {
    hide LinksFile, LeadsBy, IsFile, Extends, Enqueued, Keeps, Capped;
    var p := item.url;
    var links := site.fetch(p).links;
    assert forall u :: Mentions(site, p, u) <==> MentionsIn(site, links, u);
    assert forall u :: Leads(site, p, u) <==> LeadsIn(site, links, u);
    hide Mentions, MentionsIn, Leads, LeadsIn;
    if LinksFail(site, st, links) {
      if url :| MentionsIn(site, links, url) && site.relativePath(url).None? {
        assert Mentions(site, p, url);
      } else {
        var url, a, path :| Clash(site, st, links, url, a, path);
        assert Mentions(site, p, url) && (MentionsIn(site, links, a) ==> Mentions(site, p, a));
        assert PageClash(site, st, p, path, url, a);
      }
    }
  }

  lemma PlainPage(site: Site, root: Url, st: State, item: Item)
    requires site.fetch(item.url).Plain? && site.inScope(site.fetch(item.url).finalUrl)
    ensures PageDone(site, root, st, item, AddFile(site, st, site.fetch(item.url).finalUrl))
  {
    hide Grew, AddFile, FileAdded, PageAdded, PageFails, FileFails;
    var url := site.fetch(item.url).finalUrl;
    AddFileEffect(site, st, item.depth, url);
    match AddFile(site, st, url) {
      case Continue(st') => PlainAdded(site, root, st, st', item, true);
      case Stop(st') => PlainAdded(site, root, st, st', item, false);
      case Abort => PlainFails(site, root, st, item.url);
    }
  }

  lemma PlainAdded(site: Site, root: Url, st: State, st': State, item: Item, all: bool)
    requires site.fetch(item.url).Plain? && site.inScope(site.fetch(item.url).finalUrl)
    requires FileAdded(site, st, st', site.fetch(item.url).finalUrl, all)
    ensures PageAdded(site, root, st, st', item, all)
  {
    hide IsFile, Holds, Keeps, Extends, Capped, Enqueued;
    assert forall u :: Mentions(site, item.url, u) <==> u == site.fetch(item.url).finalUrl;
  }

  lemma PlainFails(site: Site, root: Url, st: State, p: Url)
    requires site.fetch(p).Plain? && site.inScope(site.fetch(p).finalUrl)
    requires FileFails(site, st, site.fetch(p).finalUrl)
    ensures PageFails(site, root, st, p)
  {
    var url := site.fetch(p).finalUrl;
    assert Mentions(site, p, url);
    if site.relativePath(url).Some? {
      var path := site.relativePath(url).value;
      assert PageClash(site, st, p, path, url, st.found[path]);
    }
  }

  // --------------------------------------------------------------- the crawl

  predicate Distinct(order: seq<Item>) {
    forall i, j :: 0 <= i < j < |order| ==> order[i].url != order[j].url
  }

  /** Every page ever enqueued, in order: the first `started` have been
      fetched, those in flight have not yet been processed. */
  ghost predicate Frontier(site: Site, root: Url, order: seq<Item>, started: nat, inFlight: set<Item>, st: State) {
    && started <= |order| && st.queue == order[started..]
    && order != [] && order[0] == Item(root, 0)
    && Distinct(order)
    && |order| == |st.seen| <= MAX_PAGES && |st.found| <= MAX_FILES
    && (forall u :: u in st.seen <==> exists i :: 0 <= i < |order| && order[i].url == u)
    && (forall i :: 0 < i < |order| ==> 0 < order[i].depth < site.maxDepth)
    && (forall item :: item in inFlight ==> item in order[..started])
  }

  ghost predicate Done(order: seq<Item>, started: nat, inFlight: set<Item>, i: int) {
    0 <= i < started <= |order| && order[i] !in inFlight
  }

  /** Only reachable pages are crawled, of a processed page nothing is
      missing, and what has been found comes from one. */
  ghost predicate Explored(site: Site, root: Url, order: seq<Item>, started: nat, inFlight: set<Item>, st: State) {
    && Capped(st)
    && (forall i :: 0 <= i < |order| ==> Reachable(site, root, order[i].url))
    && (forall i :: Done(order, started, inFlight, i) && order[i].depth < site.maxDepth ==> PageKept(site, root, st, order[i]))
    && (forall path, url :: Holds(st.found, path, url) ==> FromDone(site, order, started, inFlight, path, url))
  }

  ghost predicate FromDone(site: Site, order: seq<Item>, started: nat, inFlight: set<Item>, path: Path, url: Url) {
    exists i :: Done(order, started, inFlight, i) && Contributes(site, order[i].url, path, url)
  }

  lemma StartOne(site: Site, root: Url, order: seq<Item>, started: nat, inFlight: set<Item>, st: State)
    requires Frontier(site, root, order, started, inFlight, st) && st.queue != []
    ensures var st', inFlight' := st.(queue := st.queue[1..]), inFlight + {st.queue[0]};
      && started < |order| && order[started] == st.queue[0]
      && Frontier(site, root, order, started + 1, inFlight', st')
      && |inFlight'| == |inFlight| + 1
      && (Explored(site, root, order, started, inFlight, st) ==> Explored(site, root, order, started + 1, inFlight', st'))
  {
    hide PageKept, Contributes, Reachable;
    var item := st.queue[0];
    assert order[started] == item;
    assert item !in inFlight;
    hide Explored;
    if Explored(site, root, order, started, inFlight, st) { StartExplored(site, root, order, started, inFlight, st); }
  }

  lemma StartExplored(site: Site, root: Url, order: seq<Item>, started: nat, inFlight: set<Item>, st: State)
    requires started < |order| && Distinct(order) && st.queue != [] && order[started] == st.queue[0]
    requires Explored(site, root, order, started, inFlight, st)
    ensures Explored(site, root, order, started + 1, inFlight + {st.queue[0]}, st.(queue := st.queue[1..]))
  {
    hide PageKept, Contributes, Reachable;
    var st', inFlight' := st.(queue := st.queue[1..]), inFlight + {st.queue[0]};
    forall i ensures Done(order, started + 1, inFlight', i) <==> Done(order, started, inFlight, i) {
      if Done(order, started, inFlight, i) { assert order[i].url != order[started].url; }
    }
    forall i | Done(order, started + 1, inFlight', i) && order[i].depth < site.maxDepth
      ensures PageKept(site, root, st', order[i])
    {
      SameKept(site, root, st, st', order[i]);
    }
    forall path, url | FromDone(site, order, started, inFlight, path, url)
      ensures FromDone(site, order, started + 1, inFlight', path, url)
    {
      var i :| Done(order, started, inFlight, i) && Contributes(site, order[i].url, path, url);
      assert Done(order, started + 1, inFlight', i);
    }
  }

  lemma SameKept(site: Site, root: Url, st: State, st': State, item: Item)
    requires PageKept(site, root, st, item) && Extends(site, st, st')
    ensures PageKept(site, root, st', item)
  {
    hide Broken, Leads, Contributes, Keeps;
  }

  lemma FrontierGrows(site: Site, root: Url, order: seq<Item>, started: nat, inFlight: set<Item>, st: State, st': State, depth: nat)
    requires Frontier(site, root, order, started, inFlight, st) && Grew(site, st, st', depth)
    ensures Frontier(site, root, order + st'.queue[|st.queue|..], started, inFlight, st')
  {
    var added := st'.queue[|st.queue|..];
    var order' := order + added;
    GrownQueue(order, st.queue, st'.queue, started);
    assert order'[..started] == order[..started];
    assert forall i :: |order| <= i < |order'| ==> order'[i] == added[i - |order|];
    SeenGrows(site, root, order, started, inFlight, st, st', depth);
  }

  lemma GrownQueue(order: seq<Item>, queue: seq<Item>, queue': seq<Item>, started: nat)
    requires started <= |order| && queue == order[started..]
    requires |queue| <= |queue'| && queue'[..|queue|] == queue
    ensures (order + queue'[|queue|..])[started..] == queue'
  {
    assert queue' == queue + queue'[|queue|..];
  }

  lemma SeenGrows(site: Site, root: Url, order: seq<Item>, started: nat, inFlight: set<Item>, st: State, st': State, depth: nat)
    requires Frontier(site, root, order, started, inFlight, st) && Grew(site, st, st', depth)
    ensures var order' := order + st'.queue[|st.queue|..];
      && (forall u :: u in st'.seen <==> exists i :: 0 <= i < |order'| && order'[i].url == u)
      && Distinct(order')
  {
    var added := st'.queue[|st.queue|..];
    var order' := order + added;
    assert forall i :: |order| <= i < |order'| ==> order'[i] == st'.queue[|st.queue| + (i - |order|)];
    forall u | u in st'.seen ensures exists i :: 0 <= i < |order'| && order'[i].url == u {
      if u in st.seen {
        var i :| 0 <= i < |order| && order[i].url == u;
        assert order'[i].url == u;
      } else {
        var i :| |st.queue| <= i < |st'.queue| && st'.queue[i].url == u;
        assert order'[|order| + (i - |st.queue|)].url == u;
      }
    }
  }

  lemma RootIsShallow(site: Site, root: Url, order: seq<Item>, started: nat, inFlight: set<Item>, st: State, item: Item) returns (i: nat)
    requires Frontier(site, root, order, started, inFlight, st) && item in inFlight
    ensures i < started && order[i] == item
    ensures item.depth == 0 <==> item.url == root
  {
    i :| 0 <= i < started && order[..started][i] == item;
  }

  lemma FinishOne(site: Site, root: Url, order: seq<Item>, started: nat, inFlight: set<Item>, st: State, item: Item)
    requires Frontier(site, root, order, started, inFlight, st) && item in inFlight
    requires Visit(site, st, item).Continue?
    ensures var st' := Visit(site, st, item).state;
      && |st.queue| <= |st'.queue|
      && var order', inFlight' := order + st'.queue[|st.queue|..], inFlight - {item};
      && Frontier(site, root, order', started, inFlight', st')
      && (Explored(site, root, order, started, inFlight, st) ==> Explored(site, root, order', started, inFlight', st'))
  {
    hide Visit, PageAdded, Explored, PageKept, Grew;
    var at := RootIsShallow(site, root, order, started, inFlight, st, item);
    VisitEffect(site, root, st, item);
    var st' := Visit(site, st, item).state;
    FrontierGrows(site, root, order, started, inFlight, st, st', item.depth);
    assert |st.queue| <= |st'.queue| by { GrewGrows(site, st, st', item.depth); }
    if Explored(site, root, order, started, inFlight, st) {
      ExploredGrows(site, root, order, st'.queue[|st.queue|..], started, inFlight, st, st', at);
    }
  }

  lemma GrewGrows(site: Site, st: State, st': State, depth: nat)
    requires Grew(site, st, st', depth)
    ensures |st.queue| <= |st'.queue|
  {
  }

  lemma ExploredGrows(site: Site, root: Url, order: seq<Item>, added: seq<Item>, started: nat, inFlight: set<Item>,
                      st: State, st': State, at: nat)
    requires Frontier(site, root, order, started, inFlight, st)
    requires at < started && order[at] in inFlight
    requires Frontier(site, root, order + added, started, inFlight - {order[at]}, st')
    requires Explored(site, root, order, started, inFlight, st)
    requires PageAdded(site, root, st, st', order[at], true)
    ensures Explored(site, root, order + added, started, inFlight - {order[at]}, st')
  {
    hide PageKept, Contributes, Leads, Reachable, Keeps;
    var item, order', inFlight' := order[at], order + added, inFlight - {order[at]};
    forall i | 0 <= i < |order'| ensures Reachable(site, root, order'[i].url) {
      if i >= |order| {
        assert order'[i].url in st'.seen;
        NewIsLinked(site, root, order, added, started, inFlight, st, i);
        ReachableStep(site, root, item.url, order'[i].url);
      }
    }
    forall i | Done(order', started, inFlight', i) && order'[i].depth < site.maxDepth
      ensures PageKept(site, root, st', order'[i])
    {
      if order[i] != item {
        assert Done(order, started, inFlight, i);
        SameKept(site, root, st, st', order[i]);
      }
    }
    forall path, url | Holds(st'.found, path, url) ensures FromDone(site, order', started, inFlight', path, url) {
      if Contributes(site, item.url, path, url) {
        assert Done(order', started, inFlight', at);
      } else {
        var i :| Done(order, started, inFlight, i) && Contributes(site, order[i].url, path, url);
        assert Done(order', started, inFlight', i) && order'[i] == order[i];
      }
    }
  }

  lemma NewIsLinked(site: Site, root: Url, order: seq<Item>, added: seq<Item>, started: nat, inFlight: set<Item>, st: State, i: nat)
    requires Frontier(site, root, order, started, inFlight, st)
    requires Distinct(order + added) && |order| <= i < |order + added|
    ensures (order + added)[i].url !in st.seen
  {
    var order' := order + added;
    forall j | 0 <= j < |order| ensures order[j].url != order'[i].url {
      assert order'[j] == order[j];
    }
  }

  /** Whatever has been found so far is really there. */
  lemma FoundIsReachable(site: Site, root: Url, order: seq<Item>, started: nat, inFlight: set<Item>, st: State)
    requires Explored(site, root, order, started, inFlight, st)
    ensures forall path, url :: Holds(st.found, path, url) ==> Found(site, root, path, url)
  {
    hide Contributes, Reachable, PageKept;
    forall path, url | Holds(st.found, path, url) ensures Found(site, root, path, url) {
      var i :| Done(order, started, inFlight, i) && Contributes(site, order[i].url, path, url);
      assert Reachable(site, root, order[i].url);
    }
  }

  /** A crawl that fails is right to, limits or not. */
  lemma AbortIsRight(site: Site, root: Url, order: seq<Item>, started: nat, inFlight: set<Item>, st: State, item: Item)
    requires Frontier(site, root, order, started, inFlight, st) && item in inFlight
    requires Explored(site, root, order, started, inFlight, st)
    requires Visit(site, st, item).Abort?
    ensures !Consistent(site, root)
  {
    hide Visit, Broken, Contributes, Reachable, PageKept, Extends;
    var at := RootIsShallow(site, root, order, started, inFlight, st, item);
    VisitEffect(site, root, st, item);
    assert Reachable(site, root, item.url);
    if !Broken(site, root, item.url) {
      var path, url, a :| PageClash(site, st, item.url, path, url, a);
      if Holds(st.found, path, a) {
        var i :| Done(order, started, inFlight, i) && Contributes(site, order[i].url, path, a);
        assert Reachable(site, root, order[i].url);
      }
    }
  }

  // ------------------------------------------------- what a whole crawl keeps

  /** A page of `order` puts `url` at `path`. */
  ghost predicate FoundIn(site: Site, order: seq<Item>, path: Path, url: Url) {
    exists i :: 0 <= i < |order| && Contributes(site, order[i].url, path, url)
  }

  ghost predicate Listed(order: seq<Item>, q: Url) { exists i :: 0 <= i < |order| && order[i].url == q }

  /** No directory link of an enqueued page was dropped for good. */
  ghost predicate Closed(site: Site, order: seq<Item>) {
    forall i, q :: 0 <= i < |order| && Leads(site, order[i].url, q) ==> Listed(order, q)
  }

  /** The enqueued pages are reachable, and one that they lead to is missing
      only below the depth limit or once the page cap is reached. */
  ghost predicate Surveyed(site: Site, root: Url, order: seq<Item>) {
    && Listed(order, root)
    && (forall i :: 0 <= i < |order| ==> Reachable(site, root, order[i].url))
    && (forall i, q :: 0 <= i < |order| && Leads(site, order[i].url, q) ==>
          Listed(order, q) || order[i].depth + 1 >= site.maxDepth || |order| >= MAX_PAGES)
  }

  /** Every enqueued page can be processed, and the files are exactly those
      the enqueued pages contribute; overwriting keeps one URL of each path. */
  ghost predicate Collected(site: Site, root: Url, order: seq<Item>, files: map<Path, Url>) {
    && (forall i :: 0 <= i < |order| ==> !Broken(site, root, order[i].url))
    && (forall path, url :: Holds(files, path, url) ==> FoundIn(site, order, path, url))
    && (forall path, url :: FoundIn(site, order, path, url) ==> Keeps(site, files, path, url))
  }

  /** A drained crawl has surveyed and collected everything it enqueued. */
  lemma DrainedIsExact(site: Site, root: Url, order: seq<Item>, started: nat, st: State)
    requires Frontier(site, root, order, started, {}, st) && Explored(site, root, order, started, {}, st)
    requires st.queue == [] && site.maxDepth > 0
    ensures Surveyed(site, root, order) && Collected(site, root, order, st.found)
  {
    hide Broken, Contributes, Leads, Reachable, Keeps;
    forall i | 0 <= i < |order| ensures PageKept(site, root, st, order[i]) {
      assert Done(order, started, {}, i);
    }
    assert order[0].url == root;
    forall path, url | Holds(st.found, path, url) ensures FoundIn(site, order, path, url) {
      assert FromDone(site, order, started, {}, path, url);
    }
  }

  /** When no enqueued page leads to another page, what a drained crawl has
      found is the one right outcome. */
  lemma ClosedIsCorrect(site: Site, root: Url, order: seq<Item>, files: map<Path, Url>)
    requires Surveyed(site, root, order) && Collected(site, root, order, files)
    requires Closed(site, order) && !site.overwrite
    ensures Correct(site, root, Manifest(files))
  {
    hide Broken, Contributes, Leads, Reachable;
    var pages := set i | 0 <= i < |order| :: order[i].url;
    assert forall u :: u in pages <==> Listed(order, u);
    forall p | Reachable(site, root, p) ensures Listed(order, p) { ReachableIsIn(site, root, pages, p); }
    CollectedIsFound(site, root, order, files);
    forall p | Reachable(site, root, p) ensures !Broken(site, root, p) {
      var i :| 0 <= i < |order| && order[i].url == p;
    }
  }

  lemma ReachableIsIn(site: Site, root: Url, s: set<Url>, p: Url)
    requires root in s && Reachable(site, root, p)
    requires forall p, q :: p in s && Leads(site, p, q) ==> q in s
    ensures p in s
  {
    hide Leads;
    var pages :| Walk(site, pages) && pages[0] == root && pages[|pages| - 1] == p;
    ClosedHoldsReachable(site, s, pages);
  }

  lemma CollectedIsFound(site: Site, root: Url, order: seq<Item>, files: map<Path, Url>)
    requires Surveyed(site, root, order) && Collected(site, root, order, files) && !site.overwrite
    ensures forall path, url :: Holds(files, path, url) <==> FoundIn(site, order, path, url)
    ensures forall path, url :: FoundIn(site, order, path, url) ==> Found(site, root, path, url)
    ensures forall p, path, url :: Listed(order, p) && Contributes(site, p, path, url) ==> Holds(files, path, url)
  {
    hide Broken, Contributes, Leads, Reachable;
    forall p, path, url | Listed(order, p) && Contributes(site, p, path, url) ensures Holds(files, path, url) {
      var i :| 0 <= i < |order| && order[i].url == p;
      assert FoundIn(site, order, path, url);
    }
  }

  /** A drained crawl that dropped links is still correct exactly when the
      site is consistent and the pages it missed hold no further file. */
  lemma CorrectExactly(site: Site, root: Url, order: seq<Item>, files: map<Path, Url>)
    requires Surveyed(site, root, order) && Collected(site, root, order, files) && !site.overwrite
    ensures Correct(site, root, Manifest(files)) <==>
              && Consistent(site, root)
              && forall path, url :: Found(site, root, path, url) ==> FoundIn(site, order, path, url)
  {
    CollectedIsFound(site, root, order, files);
    hide Consistent, Found, FoundIn, Surveyed, Collected;
  }

  // ---------------------------------------------------------------- the loop

  /** The loop invariant: `order` lists every page enqueued so far. */
  ghost predicate Crawling(site: Site, root: Url, order: seq<Item>, fetched: seq<Item>, inFlight: set<Item>, st: State) {
    && Frontier(site, root, order, |fetched|, inFlight, st) && |fetched| <= |order| && fetched == order[..|fetched|]
    && Explored(site, root, order, |fetched|, inFlight, st)
  }

  lemma AtStart(site: Site, root: Url)
    ensures Distinct([])
    ensures Crawling(site, root, [Item(root, 0)], [], {}, State([Item(root, 0)], {root}, map[], false))
  {
    hide Reachable;
    ReachableRoot(site, root);
  }

  lemma CrawlingBounds(site: Site, root: Url, order: seq<Item>, fetched: seq<Item>, inFlight: set<Item>, st: State)
    requires Crawling(site, root, order, fetched, inFlight, st)
    ensures Distinct(order) && |order| <= MAX_PAGES && |fetched| <= |order| && fetched <= order && |st.found| <= MAX_FILES
  {
  }

  lemma StartKeeps(site: Site, root: Url, order: seq<Item>, fetched: seq<Item>, inFlight: set<Item>, st: State)
    requires Crawling(site, root, order, fetched, inFlight, st) && st.queue != []
    ensures Crawling(site, root, order, fetched + [st.queue[0]], inFlight + {st.queue[0]}, st.(queue := st.queue[1..]))
    ensures |inFlight + {st.queue[0]}| == |inFlight| + 1
  {
    hide Frontier, Explored;
    StartOne(site, root, order, |fetched|, inFlight, st);
  }

  lemma FinishKeeps(site: Site, root: Url, order: seq<Item>, fetched: seq<Item>, inFlight: set<Item>, st: State, item: Item)
    requires Crawling(site, root, order, fetched, inFlight, st) && item in inFlight
    requires Visit(site, st, item).Continue?
    ensures var st' := Visit(site, st, item).state;
      |st.queue| <= |st'.queue| && Crawling(site, root, order + st'.queue[|st.queue|..], fetched, inFlight - {item}, st')
  {
    hide Frontier, Explored, Visit;
    FinishOne(site, root, order, |fetched|, inFlight, st, item);
    var st' := Visit(site, st, item).state;
    var order' := order + st'.queue[|st.queue|..];
    assert order'[..|fetched|] == order[..|fetched|];
  }

  /** Reaching the file cap in the middle of a page keeps nothing wrong. */
  lemma StopIsRight(site: Site, root: Url, order: seq<Item>, fetched: seq<Item>, inFlight: set<Item>, st: State, item: Item)
    requires Crawling(site, root, order, fetched, inFlight, st) && item in inFlight
    requires Visit(site, st, item).Stop?
    ensures |Visit(site, st, item).state.found| == MAX_FILES
    ensures forall path, url :: Holds(Visit(site, st, item).state.found, path, url) ==> Found(site, root, path, url)
  {
    hide Visit, Contributes, Reachable, PageKept, Extends;
    var at := RootIsShallow(site, root, order, |fetched|, inFlight, st, item);
    VisitEffect(site, root, st, item);
    FoundIsReachable(site, root, order, |fetched|, inFlight, st);
    assert Reachable(site, root, item.url);
  }

  /** Processing one response, link by link. */
  method Process(site: Site, st: State, item: Item) returns (r: Progress)
    ensures r == Visit(site, st, item)
  {
    match site.fetch(item.url) {
      case Failed =>
        r := if item.depth == 0 then Abort else Continue(st);
      case Html(finalUrl, links) =>
        if !site.inScope(finalUrl) { return Abort; }
        if item.depth >= site.maxDepth { return Continue(st); }
        var i := 0;
        r := Continue(st);
        while i < |links|
          invariant 0 <= i <= |links|
          invariant r.Continue? && AddLinks(site, st, item.depth, links) == AddLinks(site, r.state, item.depth, links[i..])
        {
          r := AddLink(site, r.state, item.depth, links[i]);
          if !r.Continue? { return; }
          i := i + 1;
        }
      case Plain(finalUrl) =>
        if !site.inScope(finalUrl) { return Abort; }
        r := AddFile(site, st, finalUrl);
    }
  }

  /** Starting fetches from the front of the queue while slots are free. */
  method FillSlots(site: Site, root: Url, concurrency: nat, ghost order: seq<Item>,
                   fetched: seq<Item>, inFlight: set<Item>, st: State)
      returns (fetched': seq<Item>, inFlight': set<Item>, st': State)
    requires Crawling(site, root, order, fetched, inFlight, st)
    ensures Crawling(site, root, order, fetched', inFlight', st')
    ensures |fetched'| - |inFlight'| == |fetched| - |inFlight|
    ensures |inFlight'| >= concurrency || st'.queue == []
    ensures (|inFlight| <= concurrency ==> |inFlight'| <= concurrency)
    ensures fetched <= fetched' && inFlight <= inFlight' && st' == st.(queue := st'.queue)
  {
    hide *;
    fetched', inFlight', st' := fetched, inFlight, st;
    while |inFlight'| < concurrency && st'.queue != []
      invariant Crawling(site, root, order, fetched', inFlight', st')
      invariant |fetched'| - |inFlight'| == |fetched| - |inFlight|
      invariant |inFlight| <= concurrency ==> |inFlight'| <= concurrency
      invariant fetched <= fetched' && inFlight <= inFlight' && st' == st.(queue := st'.queue)
      decreases |st'.queue|
    {
      StartKeeps(site, root, order, fetched', inFlight', st');
      fetched' := fetched' + [st'.queue[0]];
      inFlight' := inFlight' + {st'.queue[0]};
      st' := st'.(queue := st'.queue[1..]);
    }
  }

  /** What a crawl of an in-scope root guarantees: it fails only when the site
      is inconsistent and keeps only what is reachable. It ends early only at
      the file cap; drained, it has everything of every page enqueued, and is
      the one right outcome as soon as those pages lead to no further page. */
  ghost predicate Right(site: Site, root: Url, order: seq<Item>, drained: bool, outcome: Outcome) {
    match outcome
    case Failure => !Consistent(site, root)
    case Manifest(files) =>
      && |files| <= MAX_FILES
      && (forall path, url :: Holds(files, path, url) ==> Found(site, root, path, url))
      && (!drained ==> |files| == MAX_FILES)
      && (drained && site.maxDepth > 0 ==>
            && Surveyed(site, root, order) && Collected(site, root, order, files)
            && (!site.overwrite && Closed(site, order) ==> Correct(site, root, outcome)))
  }

  lemma DrainedIsRight(site: Site, root: Url, order: seq<Item>, fetched: seq<Item>, st: State)
    requires Crawling(site, root, order, fetched, {}, st) && st.queue == []
    ensures Right(site, root, order, true, Manifest(st.found))
    ensures fetched == order
  {
    FoundIsReachable(site, root, order, |fetched|, {}, st);
    if site.maxDepth > 0 {
      DrainedIsExact(site, root, order, |fetched|, st);
      hide Explored, Surveyed, Collected, Closed, Correct, Found;
      if !site.overwrite && Closed(site, order) { ClosedIsCorrect(site, root, order, st.found); }
    }
  }

  lemma EarlyEndIsRight(site: Site, root: Url, order: seq<Item>, fetched: seq<Item>, inFlight: set<Item>, st: State, item: Item)
    requires Crawling(site, root, order, fetched, inFlight, st) && item in inFlight
    requires !Visit(site, st, item).Continue?
    ensures var r := Visit(site, st, item);
      Right(site, root, order, false, if r.Stop? then Manifest(r.state.found) else Failure)
  {
    hide Visit, Explored, Frontier, Surveyed, Collected, Closed, Correct, Found, Consistent;
    if Visit(site, st, item).Stop? {
      StopIsRight(site, root, order, fetched, inFlight, st, item);
    } else {
      AbortIsRight(site, root, order, |fetched|, inFlight, st, item);
    }
  }

  /** The crawl. Fetches complete in any order; each page URL is enqueued and
      fetched at most once, and there are at most 1024 pages. `drained` says that
      every page enqueued has been processed. */
  method Discover(site: Site, root: Url, concurrency: nat)
      returns (outcome: Outcome, enqueued: seq<Item>, fetched: seq<Item>, drained: bool)
    ensures Distinct(enqueued) && |enqueued| <= MAX_PAGES && fetched <= enqueued
    ensures concurrency == 0 || !site.inScope(root) ==> outcome.Failure? && fetched == []
    ensures concurrency > 0 && site.inScope(root) ==> Right(site, root, enqueued, drained, outcome)
    ensures drained ==> outcome.Manifest? && fetched == enqueued
  {
    hide *;
    AtStart(site, root);
    if concurrency == 0 || !site.inScope(root) { return Failure, [], [], false; }
    var st := State([Item(root, 0)], {root}, map[], false);
    var inFlight: set<Item> := {};
    fetched, enqueued := [], [Item(root, 0)];
    while true
      invariant Crawling(site, root, enqueued, fetched, inFlight, st) && |inFlight| <= concurrency
      decreases MAX_PAGES - |fetched| + |inFlight|
    {
      fetched, inFlight, st := FillSlots(site, root, concurrency, enqueued, fetched, inFlight, st);
      CrawlingBounds(site, root, enqueued, fetched, inFlight, st);
      if inFlight == {} {
        DrainedIsRight(site, root, enqueued, fetched, st);
        return Manifest(st.found), enqueued, fetched, true;
      }
      var item :| item in inFlight;
      var r := Process(site, st, item);
      match r {
        case Continue(st') =>
          FinishKeeps(site, root, enqueued, fetched, inFlight, st, item);
          enqueued := enqueued + st'.queue[|st.queue|..];
          inFlight := inFlight - {item};
          st := st';
        case Stop(st') =>
          EarlyEndIsRight(site, root, enqueued, fetched, inFlight, st, item);
          return Manifest(st'.found), enqueued, fetched, false;
        case Abort =>
          EarlyEndIsRight(site, root, enqueued, fetched, inFlight, st, item);
          return Failure, enqueued, fetched, false;
      }
    }
  }
}
