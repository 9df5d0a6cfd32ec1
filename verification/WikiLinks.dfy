/** The pass over a whole wiki that stamps broken links, page by page and in place. */
module WikiLinks {
  import opened Wrappers
  import opened Ordering
  import opened FenceLines
  import opened LinkStamps
  import opened PageAnchors

  /** What a link says about itself, and where a path leads from a page. */
  datatype Rules = Rules(
    slug: Slugger,
    hrefs: Line -> seq<string>,
    pathOf: string -> string,
    anchorOf: string -> Option<string>,
    unquote: string -> string,
    resolve: (Name, string) -> Option<Name>,
    titleOf: Name -> string)

  type Files = map<Name, Page>

  /** The files and directories a link may point at. */
  datatype Tree = Tree(files: Files, directories: set<Name>)

  // -------------------------------------------------------------- validation

  /** What is wrong with an anchor, if one is given that the headings do not expose. */
  function CheckAnchor(rules: Rules, anchor: Option<string>, anchors: set<string>, place: string): Option<Problem> {
    if anchor.Some? && anchor.value != "" && rules.unquote(anchor.value) !in anchors
    then Some(NoHeading(anchor.value, place)) else None
  }

  function Quoted(path: string): string {
    "\"" + path + "\""
  }

  predicate NamesDirectory(path: string) {
    path != "" && path[|path| - 1] == '/'
  }

  function CheckLink(rules: Rules, tree: Tree, source: Name, own: set<string>, href: string): Option<Problem> {
    var path, anchor := rules.pathOf(href), rules.anchorOf(href);
    if path == "" then CheckAnchor(rules, anchor, own, rules.titleOf(source))
    else
      match rules.resolve(source, path)
      case None => Some(OutsideRoot(path))
      case Some(target) =>
        if NamesDirectory(path) then
          if target in tree.directories then None else Some(Missing(true, path))
        else if target in tree.files then
          CheckAnchor(rules, anchor, Anchors(rules.slug, tree.files[target]), Quoted(path))
        else Some(Missing(false, path))
  }

  /** The anchor, if one is given, is that of some heading of the page: its base heads
      more headings than the suffix counts. */
  ghost predicate Points(rules: Rules, anchor: Option<string>, page: seq<Line>) {
    anchor.None? || anchor.value == "" || Exposes(Bases(rules.slug, page), rules.unquote(anchor.value))
  }

  ghost predicate EndsInSlash(path: string) {
    exists front :: path == front + "/"
  }

  lemma EndsInSlashIff(path: string)
    ensures NamesDirectory(path) <==> EndsInSlash(path)
  {
    if NamesDirectory(path) {
      assert path == path[..|path| - 1] + "/";
    }
  }

  /** The link leads to a directory, or to a heading or the whole of an existing page. */
  ghost predicate Lands(rules: Rules, tree: Tree, source: Name, page: seq<Line>, href: string) {
    var path, anchor := rules.pathOf(href), rules.anchorOf(href);
    if path == "" then Points(rules, anchor, page)
    else
      exists target ::
        && rules.resolve(source, path) == Some(target)
        && if EndsInSlash(path) then target in tree.directories
           else target in tree.files && Points(rules, anchor, tree.files[target])
  }

  /** A link is reported exactly when it does not land. */
  lemma ReportedIffNotLanding(rules: Rules, tree: Tree, source: Name, page: seq<Line>, href: string)
    ensures CheckLink(rules, tree, source, Anchors(rules.slug, page), href).Some?
            <==> !Lands(rules, tree, source, page, href)
  {
    hide AnchorsOf, Exposes, Bases, EndsInSlash;
    var path, anchor := rules.pathOf(href), rules.anchorOf(href);
    EndsInSlashIff(path);
    if anchor.Some? {
      var wanted := rules.unquote(anchor.value);
      AnchorsAreExact(Bases(rules.slug, page), wanted);
      if path != "" && rules.resolve(source, path).Some? && rules.resolve(source, path).value in tree.files {
        AnchorsAreExact(Bases(rules.slug, tree.files[rules.resolve(source, path).value]), wanted);
      }
    }
  }

  /** What the problem says is so. */
  ghost predicate Describes(rules: Rules, tree: Tree, source: Name, page: seq<Line>, href: string, problem: Problem) {
    var path := rules.pathOf(href);
    match problem
    case OutsideRoot(p) => p == path != "" && rules.resolve(source, path).None?
    case Missing(directory, p) =>
      && p == path != "" && directory == EndsInSlash(path) && rules.resolve(source, path).Some?
      && rules.resolve(source, path).value !in (if directory then tree.directories else tree.files.Keys)
    case NoHeading(anchor, place) =>
      && rules.anchorOf(href) == Some(anchor) && anchor != "" && !EndsInSlash(path)
      && (path == "" ==> place == rules.titleOf(source) && !Points(rules, Some(anchor), page))
      && (path != "" ==>
            && place == "\"" + path + "\""
            && exists target :: rules.resolve(source, path) == Some(target) && target in tree.files
                                && !Points(rules, Some(anchor), tree.files[target]))
  }

  /** A link is reported for what is wrong with it. */
  lemma ReportsDescribe(rules: Rules, tree: Tree, source: Name, page: seq<Line>, href: string)
    requires CheckLink(rules, tree, source, Anchors(rules.slug, page), href).Some?
    ensures Describes(rules, tree, source, page, href,
                      CheckLink(rules, tree, source, Anchors(rules.slug, page), href).value)
  {
    hide AnchorsOf, Exposes, Bases, EndsInSlash;
    var path, anchor := rules.pathOf(href), rules.anchorOf(href);
    EndsInSlashIff(path);
    if anchor.Some? {
      var wanted := rules.unquote(anchor.value);
      AnchorsAreExact(Bases(rules.slug, page), wanted);
      if path != "" && rules.resolve(source, path).Some? && rules.resolve(source, path).value in tree.files {
        AnchorsAreExact(Bases(rules.slug, tree.files[rules.resolve(source, path).value]), wanted);
      }
    }
  }

  /** Removing a file breaks, of the links that pass, exactly those whose path leads to it. */
  lemma RemovalBreaksExactly(rules: Rules, tree: Tree, gone: Name, source: Name, own: set<string>, href: string)
    requires CheckLink(rules, tree, source, own, href).None?
    ensures var path := rules.pathOf(href);
            var left := tree.(files := tree.files - {gone});
            CheckLink(rules, left, source, own, href)
            == if path != "" && !NamesDirectory(path) && rules.resolve(source, path) == Some(gone)
               then Some(Missing(false, path)) else None
  {
    hide Anchors, CheckAnchor, Quoted;
  }

  /** The issues of the links of line `n`. */
  function LineIssues(rules: Rules, tree: Tree, source: Name, own: set<string>, n: nat, hrefs: seq<string>)
    : seq<Issue>
  {
    if hrefs == [] then []
    else
      var last := hrefs[|hrefs| - 1];
      var problem := CheckLink(rules, tree, source, own, last);
      LineIssues(rules, tree, source, own, n, hrefs[..|hrefs| - 1])
      + if problem.Some? then [Issue(n, last, problem.value)] else []
  }

  function IssuesUpTo(rules: Rules, tree: Tree, source: Name, page: seq<Line>, own: set<string>, n: nat)
    : (r: seq<Issue>)
    requires n <= |page|
    decreases n
  {
    if n == 0 then []
    else IssuesUpTo(rules, tree, source, page, own, n - 1)
         + LineIssues(rules, tree, source, own, n, rules.hrefs(page[n - 1]))
  }

  /** The broken links of a page's text, in order. */
  function Issues(rules: Rules, tree: Tree, source: Name, page: seq<Line>): seq<Issue> {
    IssuesUpTo(rules, tree, source, page, Anchors(rules.slug, page), |page|)
  }

  lemma {:induction false} LineIssuesOnLine(rules: Rules, tree: Tree, source: Name,
      own: set<string>, n: nat, hrefs: seq<string>)
    ensures forall k :: 0 <= k < |LineIssues(rules, tree, source, own, n, hrefs)| ==>
              LineIssues(rules, tree, source, own, n, hrefs)[k].line == n
    decreases |hrefs|
  {
    hide CheckLink;
    if hrefs != [] {
      LineIssuesOnLine(rules, tree, source, own, n, hrefs[..|hrefs| - 1]);
    }
  }

  lemma {:induction false} IssuesInRange(rules: Rules, tree: Tree, source: Name, page: seq<Line>,
      own: set<string>, n: nat)
    requires n <= |page|
    ensures forall k :: 0 <= k < |IssuesUpTo(rules, tree, source, page, own, n)| ==>
              1 <= IssuesUpTo(rules, tree, source, page, own, n)[k].line <= n
    decreases n
  {
    hide LineIssues;
    if n > 0 {
      IssuesInRange(rules, tree, source, page, own, n - 1);
      LineIssuesOnLine(rules, tree, source, own, n, rules.hrefs(page[n - 1]));
    }
  }

  // ------------------------------------------------- what the list of issues is

  /** The links of a line that do not land, in order and with repetition. */
  ghost function Broken(rules: Rules, tree: Tree, source: Name, page: seq<Line>, hrefs: seq<string>): seq<string> {
    if hrefs == [] then []
    else
      var last := hrefs[|hrefs| - 1];
      Broken(rules, tree, source, page, hrefs[..|hrefs| - 1])
      + if Lands(rules, tree, source, page, last) then [] else [last]
  }

  /** The links reported on line `n`, in order. */
  function ReportedOn(issues: seq<Issue>, n: nat): seq<string> {
    if issues == [] then []
    else
      var last := issues[|issues| - 1];
      ReportedOn(issues[..|issues| - 1], n) + if last.line == n then [last.href] else []
  }

  /** The issues stand in line order, those of each line are its broken links, and each
      says what is wrong. */
  ghost predicate Reports(rules: Rules, tree: Tree, source: Name, page: seq<Line>, issues: seq<Issue>) {
    && (forall i, j :: 0 <= i < j < |issues| ==> issues[i].line <= issues[j].line)
    && (forall n :: 1 <= n <= |page| ==>
          ReportedOn(issues, n) == Broken(rules, tree, source, page, rules.hrefs(page[n - 1])))
    && forall issue :: issue in issues ==>
         1 <= issue.line <= |page| && Describes(rules, tree, source, page, issue.href, issue.problem)
  }

  lemma ReportedOneMore(issues: seq<Issue>, issue: Issue, n: nat)
    ensures ReportedOn(issues + [issue], n) == ReportedOn(issues, n) + if issue.line == n then [issue.href] else []
  {
    assert (issues + [issue])[..|issues|] == issues;
  }

  lemma {:induction false} ReportedAppend(a: seq<Issue>, b: seq<Issue>, n: nat)
    ensures ReportedOn(a + b, n) == ReportedOn(a, n) + ReportedOn(b, n)
    decreases |b|
  {
    if b == [] {
      assert a + b == a;
    } else {
      var front, last := b[..|b| - 1], b[|b| - 1];
      assert a + b == (a + front) + [last] && b == front + [last];
      ReportedAppend(a, front, n);
      ReportedOneMore(a + front, last, n);
    }
  }

  lemma {:induction false} NoneReported(issues: seq<Issue>, n: nat)
    requires forall issue :: issue in issues ==> issue.line != n
    ensures ReportedOn(issues, n) == []
    decreases |issues|
  {
    if issues != [] {
      assert issues[|issues| - 1] in issues;
      NoneReported(issues[..|issues| - 1], n);
    }
  }

  lemma {:induction false} LineReports(rules: Rules, tree: Tree, source: Name, page: seq<Line>, n: nat,
                                       hrefs: seq<string>)
    ensures var issues := LineIssues(rules, tree, source, Anchors(rules.slug, page), n, hrefs);
            && ReportedOn(issues, n) == Broken(rules, tree, source, page, hrefs)
            && |issues| == |Broken(rules, tree, source, page, hrefs)|
            && forall issue :: issue in issues ==>
                 issue.line == n && Describes(rules, tree, source, page, issue.href, issue.problem)
    decreases |hrefs|
  {
    hide CheckLink, Lands, Describes, Anchors;
    if hrefs != [] {
      var front, last := hrefs[..|hrefs| - 1], hrefs[|hrefs| - 1];
      var own := Anchors(rules.slug, page);
      var problem := CheckLink(rules, tree, source, own, last);
      LineReports(rules, tree, source, page, n, front);
      ReportedIffNotLanding(rules, tree, source, page, last);
      if problem.Some? {
        ReportsDescribe(rules, tree, source, page, last);
        ReportedOneMore(LineIssues(rules, tree, source, own, n, front), Issue(n, last, problem.value), n);
      } else {
        assert LineIssues(rules, tree, source, own, n, hrefs) == LineIssues(rules, tree, source, own, n, front);
      }
    }
  }

  /** How many links on the first `n` lines do not land. */
  ghost function BrokenCount(rules: Rules, tree: Tree, source: Name, page: seq<Line>, n: nat): nat
    requires n <= |page|
  {
    if n == 0 then 0
    else BrokenCount(rules, tree, source, page, n - 1)
         + |Broken(rules, tree, source, page, rules.hrefs(page[n - 1]))|
  }

  lemma {:induction false} ReportsUpTo(rules: Rules, tree: Tree, source: Name, page: seq<Line>, n: nat)
    requires n <= |page|
    ensures var issues := IssuesUpTo(rules, tree, source, page, Anchors(rules.slug, page), n);
            && |issues| == BrokenCount(rules, tree, source, page, n)
            && (forall i, j :: 0 <= i < j < |issues| ==> issues[i].line <= issues[j].line)
            && (forall k :: 1 <= k <= n ==>
                  ReportedOn(issues, k) == Broken(rules, tree, source, page, rules.hrefs(page[k - 1])))
            && forall issue :: issue in issues ==>
                 1 <= issue.line <= n && Describes(rules, tree, source, page, issue.href, issue.problem)
    decreases n
  {
    hide LineIssues, Describes, Anchors, ReportedOn, Broken;
    if n > 0 {
      var own := Anchors(rules.slug, page);
      var before := IssuesUpTo(rules, tree, source, page, own, n - 1);
      var line := LineIssues(rules, tree, source, own, n, rules.hrefs(page[n - 1]));
      ReportsUpTo(rules, tree, source, page, n - 1);
      LineReports(rules, tree, source, page, n, rules.hrefs(page[n - 1]));
      NoneReported(before, n);
      forall k | 1 <= k <= n
        ensures ReportedOn(before + line, k) == Broken(rules, tree, source, page, rules.hrefs(page[k - 1]))
      {
        ReportedAppend(before, line, k);
        if k < n {
          NoneReported(line, k);
        }
      }
    }
  }

  /** The issues of a page are its broken links, line by line. */
  lemma IssuesAreBroken(rules: Rules, tree: Tree, source: Name, page: seq<Line>)
    ensures Reports(rules, tree, source, page, Issues(rules, tree, source, page))
    ensures |Issues(rules, tree, source, page)| == BrokenCount(rules, tree, source, page, |page|)
  {
    hide IssuesUpTo, Describes, Anchors, ReportedOn, Broken;
    ReportsUpTo(rules, tree, source, page, |page|);
  }

  // ------------------------------------------------------------ what matters

  /** The same files, with texts that agree once their stamps are stripped. */
  ghost predicate Twins(a: Files, b: Files) {
    a.Keys == b.Keys && forall p :: p in a ==> StripStamps(a[p]) == StripStamps(b[p])
  }

  lemma TwinsAgreeOnLink(rules: Rules, a: Tree, b: Tree, source: Name, own: set<string>, href: string)
    requires a.directories == b.directories && Twins(a.files, b.files)
    ensures CheckLink(rules, a, source, own, href) == CheckLink(rules, b, source, own, href)
  {
    hide Anchors, StripStamps, CheckAnchor;
    var path := rules.pathOf(href);
    if path != "" && rules.resolve(source, path).Some? {
      var target := rules.resolve(source, path).value;
      if target in a.files {
        StrippingKeepsAnchors(rules.slug, a.files[target]);
        StrippingKeepsAnchors(rules.slug, b.files[target]);
      }
    }
  }

  lemma {:induction false} TwinsAgreeOnLine(rules: Rules, a: Tree, b: Tree, source: Name,
      own: set<string>, n: nat, hrefs: seq<string>)
    requires a.directories == b.directories && Twins(a.files, b.files)
    ensures LineIssues(rules, a, source, own, n, hrefs) == LineIssues(rules, b, source, own, n, hrefs)
    decreases |hrefs|
  {
    hide CheckLink, Twins;
    if hrefs != [] {
      TwinsAgreeOnLine(rules, a, b, source, own, n, hrefs[..|hrefs| - 1]);
      TwinsAgreeOnLink(rules, a, b, source, own, hrefs[|hrefs| - 1]);
    }
  }

  /** Stamps anywhere in the wiki make no difference to what is broken on a page. */
  lemma {:induction false} TwinsAgree(rules: Rules, a: Tree, b: Tree, source: Name, page: seq<Line>,
      own: set<string>, n: nat)
    requires a.directories == b.directories && Twins(a.files, b.files) && n <= |page|
    ensures IssuesUpTo(rules, a, source, page, own, n) == IssuesUpTo(rules, b, source, page, own, n)
    decreases n
  {
    hide LineIssues, Twins;
    if n > 0 {
      TwinsAgree(rules, a, b, source, page, own, n - 1);
      TwinsAgreeOnLine(rules, a, b, source, own, n, rules.hrefs(page[n - 1]));
    }
  }

  // ------------------------------------------------------ the pass as a value

  function IssuesOfPage(rules: Rules, tree: Tree, page: Name): seq<Issue>
    requires page in tree.files
  {
    Issues(rules, tree, page, StripStamps(tree.files[page]))
  }

  /** A page with its stamps renewed. */
  function Restamped(rules: Rules, tree: Tree, page: Name): Page
    requires page in tree.files
  {
    Stamped(StripStamps(tree.files[page]), IssuesOfPage(rules, tree, page))
  }

  /** The files after a pass over `pages` that may not write `kept`. */
  function Passed(rules: Rules, tree: Tree, pages: set<Name>, kept: set<Name>): Files {
    map p | p in tree.files :: if p in pages && p !in kept then Restamped(rules, tree, p) else tree.files[p]
  }

  function Visited(pages: seq<Name>): set<Name> {
    set p | p in pages
  }

  /** How many broken links the pages hold. */
  function Found(rules: Rules, tree: Tree, pages: seq<Name>): nat
    requires forall p :: p in pages ==> p in tree.files
  {
    if pages == [] then 0
    else
      assert pages[|pages| - 1] in pages;
      Found(rules, tree, pages[..|pages| - 1]) + |IssuesOfPage(rules, tree, pages[|pages| - 1])|
  }

  /** How many links of the walked pages do not land, each page read without its stamps. */
  ghost function BrokenIn(rules: Rules, tree: Tree, pages: seq<Name>): nat
    requires forall p :: p in pages ==> p in tree.files
  {
    if pages == [] then 0
    else
      var last := pages[|pages| - 1];
      assert last in pages;
      var text := StripStamps(tree.files[last]);
      BrokenIn(rules, tree, pages[..|pages| - 1]) + BrokenCount(rules, tree, last, text, |text|)
  }

  lemma {:induction false} FoundAreBroken(rules: Rules, tree: Tree, pages: seq<Name>)
    requires forall p :: p in pages ==> p in tree.files
    ensures Found(rules, tree, pages) == BrokenIn(rules, tree, pages)
    decreases |pages|
  {
    hide Issues, StripStamps, BrokenCount;
    if pages != [] {
      var last := pages[|pages| - 1];
      assert last in pages;
      FoundAreBroken(rules, tree, pages[..|pages| - 1]);
      IssuesAreBroken(rules, tree, last, StripStamps(tree.files[last]));
    }
  }

  lemma TwinsRestampAlike(rules: Rules, a: Tree, b: Tree, page: Name)
    requires a.directories == b.directories && Twins(a.files, b.files) && page in a.files
    ensures IssuesOfPage(rules, a, page) == IssuesOfPage(rules, b, page)
    ensures Restamped(rules, a, page) == Restamped(rules, b, page)
  {
    hide IssuesUpTo, StripStamps, Anchors, Stamped;
    var text := StripStamps(a.files[page]);
    TwinsAgree(rules, a, b, page, text, Anchors(rules.slug, text), |text|);
  }

  /** A pass changes nothing but stamps. */
  lemma PassedIsTwin(rules: Rules, tree: Tree, pages: set<Name>, kept: set<Name>)
    ensures Twins(Passed(rules, tree, pages, kept), tree.files)
  {
    hide Issues, StripStamps, Stamped;
    forall p | p in tree.files ensures StripStamps(Passed(rules, tree, pages, kept)[p]) == StripStamps(tree.files[p]) {
      StrippedIsFree(tree.files[p]);
      StripUndoesStamps(StripStamps(tree.files[p]), IssuesOfPage(rules, tree, p));
    }
  }

  lemma {:induction false} TwinsFindAlike(rules: Rules, a: Tree, b: Tree, pages: seq<Name>)
    requires a.directories == b.directories && Twins(a.files, b.files)
    requires forall p :: p in pages ==> p in a.files
    ensures Found(rules, a, pages) == Found(rules, b, pages)
    decreases |pages|
  {
    hide IssuesOfPage, StripStamps;
    if pages != [] {
      var last := pages[|pages| - 1];
      assert last in pages;
      TwinsFindAlike(rules, a, b, pages[..|pages| - 1]);
      TwinsRestampAlike(rules, a, b, last);
    }
  }

  /** A second pass changes no file and counts the same broken links. */
  lemma PassIsIdempotent(rules: Rules, tree: Tree, pages: seq<Name>, kept: set<Name>)
    requires forall p :: p in pages ==> p in tree.files
    ensures var visited := Visited(pages);
            var again := tree.(files := Passed(rules, tree, visited, kept));
            && Passed(rules, again, visited, kept) == again.files
            && Found(rules, again, pages) == Found(rules, tree, pages)
  {
    hide Restamped, Twins, Found;
    var visited := Visited(pages);
    var again := tree.(files := Passed(rules, tree, visited, kept));
    PassedIsTwin(rules, tree, visited, kept);
    TwinsKeys(again.files, tree.files);
    TwinsFindAlike(rules, again, tree, pages);
    forall p | p in again.files ensures Passed(rules, again, visited, kept)[p] == again.files[p] {
      TwinsRestampAlike(rules, again, tree, p);
    }
  }

  lemma TwinsKeys(a: Files, b: Files)
    requires Twins(a, b)
    ensures a.Keys == b.Keys
  {
  }

  /** Protected pages and other files keep every byte; every visited page keeps its text
      and has, above each line, exactly the stamps of that line's broken links. */
  lemma PassTouchesOnlyStamps(rules: Rules, tree: Tree, pages: set<Name>, kept: set<Name>, page: Name)
    requires page in tree.files
    ensures page in Passed(rules, tree, pages, kept)
    ensures var after := Passed(rules, tree, pages, kept)[page];
            && (page !in pages || page in kept ==> after == tree.files[page])
            && (page in pages && page !in kept ==>
                  after == Stamped(StripStamps(tree.files[page]), IssuesOfPage(rules, tree, page)))
            && StripStamps(after) == StripStamps(tree.files[page])
            && (page in pages && page !in kept && IssuesOfPage(rules, tree, page) == [] ==> StampFree(after))
  {
    hide IssuesOfPage, StripStamps, Stamped, StampFree;
    PassedIsTwin(rules, tree, pages, kept);
    StrippedIsFree(tree.files[page]);
    AllUnstamped(StripStamps(tree.files[page]));
  }

  /** A visited page that may be written becomes its text under the stamps of a list of
      issues that are exactly its broken links. */
  lemma VisitedPages(rules: Rules, tree: Tree, pages: set<Name>, kept: set<Name>, page: Name)
    returns (issues: seq<Issue>)
    requires page in tree.files && page in pages && page !in kept
    ensures page in Passed(rules, tree, pages, kept)
    ensures Reports(rules, tree, page, StripStamps(tree.files[page]), issues)
    ensures Passed(rules, tree, pages, kept)[page] == Stamped(StripStamps(tree.files[page]), issues)
    ensures StampFree(StripStamps(tree.files[page]))
  {
    hide Issues, StripStamps, Stamped, StampFree, Reports;
    issues := IssuesOfPage(rules, tree, page);
    IssuesAreBroken(rules, tree, page, StripStamps(tree.files[page]));
    StrippedIsFree(tree.files[page]);
  }

  lemma {:induction false} FoundAppend(rules: Rules, tree: Tree, a: seq<Name>, b: seq<Name>)
    requires forall p :: p in a + b ==> p in tree.files
    ensures (forall p :: p in a ==> p in tree.files) && (forall p :: p in b ==> p in tree.files)
    ensures Found(rules, tree, a + b) == Found(rules, tree, a) + Found(rules, tree, b)
    decreases |b|
  {
    hide IssuesOfPage;
    assert forall p :: p in a ==> p in a + b;
    assert forall p :: p in b ==> p in a + b;
    if b == [] {
      assert a + b == a;
    } else {
      var front := b[..|b| - 1];
      assert (a + b)[..|a + b| - 1] == a + front;
      FoundAppend(rules, tree, a, front);
    }
  }

  lemma TakeOut(rules: Rules, tree: Tree, pages: seq<Name>, k: nat)
    requires forall p :: p in pages ==> p in tree.files
    requires k < |pages|
    ensures forall p :: p in pages[..k] + pages[k + 1..] ==> p in tree.files
    ensures multiset(pages[..k] + pages[k + 1..]) == multiset(pages) - multiset{pages[k]}
    ensures pages[k] in tree.files
    ensures Found(rules, tree, pages)
         == Found(rules, tree, pages[..k] + pages[k + 1..]) + |IssuesOfPage(rules, tree, pages[k])|
  {
    hide IssuesOfPage;
    var before, page, after := pages[..k], pages[k], pages[k + 1..];
    assert pages == before + [page] + after;
    FoundAppend(rules, tree, before + [page], after);
    FoundAppend(rules, tree, before, [page]);
    FoundAppend(rules, tree, before, after);
    assert [page][..0] == [];
  }

  lemma SameMembers(pages: seq<Name>, other: seq<Name>)
    requires multiset(pages) == multiset(other)
    ensures |pages| == |other| && Visited(pages) == Visited(other)
    ensures forall p :: p in other <==> p in pages
  {
    assert |pages| == |multiset(pages)| && |other| == |multiset(other)|;
    forall p ensures p in pages <==> p in other {
      assert p in pages <==> p in multiset(pages);
      assert p in other <==> p in multiset(other);
    }
  }

  /** The count and the resulting files do not depend on the order of the walk. */
  lemma {:induction false} WalkOrderIsFree(rules: Rules, tree: Tree, pages: seq<Name>, other: seq<Name>)
    requires forall p :: p in pages ==> p in tree.files
    requires multiset(pages) == multiset(other)
    ensures Visited(pages) == Visited(other) && forall p :: p in other ==> p in tree.files
    ensures Found(rules, tree, pages) == Found(rules, tree, other)
    decreases |pages|
  {
    hide IssuesOfPage, Visited;
    SameMembers(pages, other);
    if pages != [] {
      var last := |pages| - 1;
      assert pages[last] in other;
      var k :| 0 <= k < |other| && other[k] == pages[last];
      TakeOut(rules, tree, pages, last);
      TakeOut(rules, tree, other, k);
      WalkOrderIsFree(rules, tree, pages[..last] + pages[last + 1..], other[..k] + other[k + 1..]);
    }
  }

  // ------------------------------------------------------- the pass in place

  class Wiki {
    const rules: Rules
    const directories: set<Name>
    const protectedPages: set<Name>
    var files: Files

    constructor (rules: Rules, directories: set<Name>, protectedPages: set<Name>, files: Files)
      ensures this.rules == rules && this.directories == directories
      ensures this.protectedPages == protectedPages && this.files == files
    {
      this.rules, this.directories, this.protectedPages, this.files := rules, directories, protectedPages, files;
    }

    function Now(): Tree
      reads this
    {
      Tree(files, directories)
    }

    /** The check of one link, reading the target's headings afresh. */
    method Validate(source: Name, own: set<string>, href: string) returns (problem: Option<Problem>)
      ensures problem == CheckLink(rules, Now(), source, own, href)
    {
      hide Anchors;
      var path, anchor := rules.pathOf(href), rules.anchorOf(href);
      if path == "" {
        return CheckAnchor(rules, anchor, own, rules.titleOf(source));
      }
      var target := rules.resolve(source, path);
      if target.None? {
        return Some(OutsideRoot(path));
      }
      var isDir := NamesDirectory(path);
      if if isDir then target.value in directories else target.value in files {
        if isDir {
          return None;
        }
        var anchors := HeadingAnchors(rules.slug, files[target.value]);
        return CheckAnchor(rules, anchor, anchors, Quoted(path));
      }
      return Some(Missing(isDir, path));
    }

    method ValidateLinks(source: Name, content: Page) returns (issues: seq<Issue>)
      ensures issues == Issues(rules, Now(), source, content)
      ensures Reports(rules, Now(), source, content, issues)
    {
      hide Anchors, CheckLink, Reports;
      var own := HeadingAnchors(rules.slug, content);
      issues := [];
      for n := 0 to |content|
        invariant issues == IssuesUpTo(rules, Now(), source, content, own, n)
      {
        var hrefs, before := rules.hrefs(content[n]), issues;
        for k := 0 to |hrefs|
          invariant issues == before + LineIssues(rules, Now(), source, own, n + 1, hrefs[..k])
        {
          assert hrefs[..k + 1][..k] == hrefs[..k];
          var problem := Validate(source, own, hrefs[k]);
          if problem.Some? {
            issues := issues + [Issue(n + 1, hrefs[k], problem.value)];
          }
        }
        assert hrefs[..|hrefs|] == hrefs;
      }
      IssuesAreBroken(rules, Now(), source, content);
    }

    /** Strip, validate and stamp each page of the walk, seeing the pages already
        written; a page is written when its text changes and it is not protected. */
    method PassLinks(pages: seq<Name>) returns (found: nat)
      requires forall p :: p in pages ==> p in files
      modifies this`files
      ensures files == Passed(rules, old(Now()), Visited(pages), protectedPages)
      ensures found == Found(rules, old(Now()), pages) == BrokenIn(rules, old(Now()), pages)
    {
      hide Issues, IssuesOfPage, Restamped, Stamped, StripStamps, Passed;
      found := 0;
      PassedNothing(rules, Now(), protectedPages);
      assert Visited(pages[..0]) == {};
      ghost var start := Now();
      for i := 0 to |pages|
        invariant forall p :: p in pages ==> p in start.files
        invariant files.Keys == start.files.Keys
        invariant files == Passed(rules, start, Visited(pages[..i]), protectedPages)
        invariant found == Found(rules, start, pages[..i])
      {
        ghost var seen, now := Visited(pages[..i]), Now();
        var page := pages[i];
        assert page in pages;
        assert Visited(pages[..i + 1]) == seen + {page} && pages[..i + 1][..i] == pages[..i];
        var original := files[page];
        var cleaned := StripStamps(original);
        var issues := ValidateLinks(page, cleaned);
        VisitPage(rules, start, seen, protectedPages, now, page, issues);
        var stamped := StampLinks(cleaned, issues);
        if stamped != original && page !in protectedPages {
          files := files[page := stamped];
        }
        found := found + |issues|;
      }
      assert pages[..|pages|] == pages;
      FoundAreBroken(rules, start, pages);
    }
  }

  lemma PassedNothing(rules: Rules, tree: Tree, kept: set<Name>)
    ensures Passed(rules, tree, {}, kept) == tree.files
  {
  }

  lemma StampsOfPage(rules: Rules, tree: Tree, page: Name, issues: seq<Issue>)
    requires page in tree.files && issues == Issues(rules, tree, page, StripStamps(tree.files[page]))
    ensures issues == IssuesOfPage(rules, tree, page)
    ensures Stamped(StripStamps(tree.files[page]), issues) == Restamped(rules, tree, page)
    ensures forall k :: 0 <= k < |issues| ==> 1 <= issues[k].line <= |StripStamps(tree.files[page])|
  {
    hide IssuesUpTo, StripStamps, Stamped, Anchors;
    var text := StripStamps(tree.files[page]);
    IssuesInRange(rules, tree, page, text, Anchors(rules.slug, text), |text|);
  }

  /** What visiting one more page does, though it reads pages already written. */
  lemma VisitPage(rules: Rules, start: Tree, seen: set<Name>, kept: set<Name>, now: Tree, page: Name,
                  issues: seq<Issue>)
    requires page in start.files
    requires now == start.(files := Passed(rules, start, seen, kept))
    requires issues == Issues(rules, now, page, StripStamps(now.files[page]))
    ensures issues == IssuesOfPage(rules, start, page)
    ensures forall k :: 0 <= k < |issues| ==> 1 <= issues[k].line <= |StripStamps(now.files[page])|
    ensures var stamped := Stamped(StripStamps(now.files[page]), issues);
            Passed(rules, start, seen + {page}, kept)
            == if stamped != now.files[page] && page !in kept then now.files[page := stamped] else now.files
  {
    hide Issues, IssuesOfPage, Restamped, Stamped, StripStamps, Twins;
    PassedIsTwin(rules, start, seen, kept);
    TwinsRestampAlike(rules, now, start, page);
    StampsOfPage(rules, now, page, issues);
  }
}
