/** Broken-link stamps of a Markdown page, and the heading anchors they leave alone. */
module LinkStamps {
  import opened Wrappers
  import opened FenceLines

  /** The lines of a page; even an empty text has one. */
  type Page = lines: seq<Line> | lines != [] witness [Line("")]

  // ------------------------------------------------------------------ stamps

  /** What is left of `s` after `prefix`. */
  function After(s: string, prefix: string): Option<string> {
    if |prefix| <= |s| && s[..|prefix|] == prefix then Some(s[|prefix|..]) else None
  }

  function AfterBlanks(s: string): string {
    s[Run(s, Blank)..]
  }

  function TrimRight(s: string): string
    decreases |s|
  {
    if s == "" || !IsSpace(s[|s| - 1]) then s else TrimRight(s[..|s| - 1])
  }

  predicate EndsComment(s: string) {
    var t := TrimRight(s);
    |t| >= 3 && t[|t| - 3] == '-' && t[|t| - 2] == '-' && t[|t| - 1] == '>'
  }

  predicate IsWordChar(c: char) {
    'a' <= c <= 'z' || 'A' <= c <= 'Z' || '0' <= c <= '9' || c == '_'
  }

  const COMMENT := "<!--"
  const TOOL := "openwiki:"
  const SUBJECT := "broken internal link"

  /** The three parts, white space free between them, then anything up to a comment's end. */
  predicate CommentOf(s: string, comment: string, tool: string, subject: string) {
    var afterComment := After(AfterBlanks(s), comment);
    afterComment.Some? &&
    var afterTool := After(AfterBlanks(afterComment.value), tool);
    afterTool.Some? &&
    var afterSubject := After(AfterBlanks(afterTool.value), subject);
    && afterSubject.Some?
    && (afterSubject.value == "" || !IsWordChar(afterSubject.value[0]))
    && EndsComment(afterSubject.value)
  }

  /** A comment of this tool about a broken link. */
  predicate IsStamp(line: Line) {
    CommentOf(line.text, COMMENT, TOOL, SUBJECT)
  }

  datatype Problem =
    | NoHeading(anchor: string, place: string)
    | OutsideRoot(path: string)
    | Missing(directory: bool, path: string)

  function Describe(problem: Problem): string {
    match problem
    case NoHeading(anchor, place) => "heading anchor \"" + anchor + "\" does not exist in " + place
    case OutsideRoot(path) => "link \"" + path + "\" is outside the wiki root"
    case Missing(directory, path) => (if directory then "directory" else "file") + " \"" + path + "\" does not exist"
  }

  /** A broken link: the number of its line, counted from 1, and what is wrong with it. */
  datatype Issue = Issue(line: nat, href: string, problem: Problem)

  const ADVICE := ". Fix the href or restore the target, then delete this comment. "

  function Spaced(comment: string, tool: string, subject: string, about: string): string {
    comment + (" " + (tool + (" " + (subject + about))))
  }

  function StampOf(issue: Issue): Line {
    var about := " [" + issue.href + "] " + Describe(issue.problem) + ADVICE + "-->";
    Line(Spaced(COMMENT, TOOL, SUBJECT, about))
  }

  lemma SameMiddle(a: string, p: string, q: string, b: string)
    requires a + p + b == a + q + b
    ensures p == q
  {
    assert |p| == |q| && (a + p + b)[|a|..|a| + |p|] == p && (a + q + b)[|a|..|a| + |q|] == q;
  }

  /** A notice tells which path it is about, and whether a file or a directory is missing. */
  lemma NoticesTell(p: string, q: string, d: bool, e: bool)
    ensures Describe(OutsideRoot(p)) == Describe(OutsideRoot(q)) <==> p == q
    ensures Describe(Missing(d, p)) == Describe(Missing(e, q)) <==> d == e && p == q
    ensures (if d then "directory" else "file") <= Describe(Missing(d, p))
  {
    if Describe(OutsideRoot(p)) == Describe(OutsideRoot(q)) {
      SameMiddle("link \"", p, q, "\" is outside the wiki root");
    }
    if Describe(Missing(d, p)) == Describe(Missing(e, q)) {
      assert Describe(Missing(d, p))[0] == if d then 'd' else 'f';
      assert Describe(Missing(e, q))[0] == if e then 'd' else 'f';
      SameMiddle((if d then "directory" else "file") + " \"", p, q, "\" does not exist");
    }
  }

  lemma Regrouped(a: string, b: string, c: string, about: string)
    ensures a + (" " + (b + (" " + (c + about)))) == a + " " + b + " " + c + about
  {
    assert a + " " + b + " " + c + about == a + (" " + (b + (" " + (c + about))));
  }

  /** What a stamp says: the link's target as written, what is wrong with it, and what to do. */
  lemma StampSays(issue: Issue)
    ensures StampOf(issue).text ==
            COMMENT + " " + TOOL + " " + SUBJECT
            + (" [" + issue.href + "] " + Describe(issue.problem) + ADVICE + "-->")
  {
    hide Describe, COMMENT, TOOL, SUBJECT, ADVICE;
    Regrouped(COMMENT, TOOL, SUBJECT, " [" + issue.href + "] " + Describe(issue.problem) + ADVICE + "-->");
  }

  lemma AfterPrefix(prefix: string, rest: string)
    requires prefix != "" && !IsSpace(prefix[0])
    ensures After(AfterBlanks(prefix + rest), prefix) == Some(rest)
    ensures After(AfterBlanks(" " + (prefix + rest)), prefix) == Some(rest)
  {
    var s := prefix + rest;
    assert "" + s == s;
    RunOf("", s, Blank);
    RunOf(" ", s, Blank);
    assert s[..|prefix|] == prefix && s[|prefix|..] == rest;
  }

  lemma ClosedComment(text: string)
    ensures EndsComment(text + "-->")
  {
  }

  lemma SpacedComment(comment: string, tool: string, subject: string, about: string)
    requires comment != "" && !IsSpace(comment[0])
    requires tool != "" && !IsSpace(tool[0])
    requires subject != "" && !IsSpace(subject[0])
    requires about != "" && !IsWordChar(about[0]) && EndsComment(about)
    ensures CommentOf(Spaced(comment, tool, subject, about), comment, tool, subject)
  {
    hide After, AfterBlanks, Run, EndsComment, IsWordChar;
    AfterPrefix(subject, about);
    AfterPrefix(tool, " " + (subject + about));
    AfterPrefix(comment, " " + (tool + (" " + (subject + about))));
  }

  /** A stamp this pass writes is recognised as one, whatever the link and the problem. */
  lemma StampIsRecognised(issue: Issue)
    ensures IsStamp(StampOf(issue))
  {
    hide Describe, EndsComment, CommentOf, Spaced;
    var about := " [" + issue.href + "] " + Describe(issue.problem) + ADVICE;
    ClosedComment(about);
    SpacedComment(COMMENT, TOOL, SUBJECT, about + "-->");
  }

  lemma CommentStart(s: string, comment: string, tool: string, subject: string)
    requires CommentOf(s, comment, tool, subject) && comment != ""
    ensures s != "" && (IsSpace(s[0]) || s[0] == comment[0])
  {
    if Run(s, Blank) == 0 {
      assert s[0..] == s && s[..|comment|][0] == s[0];
    }
  }

  lemma {:induction false} TrimRightIs(s: string)
    ensures var t := TrimRight(s);
            && t <= s && AllBlank(s[|t|..]) && (t == "" || t[|t| - 1] !in " \t\n\r")
    decreases |s|
  {
    if s != "" && IsSpace(s[|s| - 1]) {
      TrimRightIs(s[..|s| - 1]);
      var t := TrimRight(s);
      assert s[|t|..] == s[..|s| - 1][|t|..] + [s[|s| - 1]];
    }
  }

  lemma {:induction false} TrimmedOff(closed: string, trail: string)
    requires closed != "" && closed[|closed| - 1] !in " \t\n\r" && AllBlank(trail)
    ensures TrimRight(closed + trail) == closed
    decreases |trail|
  {
    if trail == "" {
      assert closed + trail == closed;
    } else {
      assert (closed + trail)[..|closed + trail| - 1] == closed + trail[..|trail| - 1];
      TrimmedOff(closed, trail[..|trail| - 1]);
    }
  }

  /** The text ends a comment: its last characters but for white space are `-->`. */
  lemma EndsCommentIff(s: string)
    ensures EndsComment(s) <==> exists about, trail :: s == about + "-->" + trail && AllBlank(trail)
  {
    hide TrimRight;
    var t := TrimRight(s);
    TrimRightIs(s);
    if EndsComment(s) {
      assert t == t[..|t| - 3] + "-->";
      assert s == t[..|t| - 3] + "-->" + s[|t|..];
    }
    if about, trail :| s == about + "-->" + trail && AllBlank(trail) {
      hide AllBlank;
      TrimmedOff(about + "-->", trail);
    }
  }

  /** `part`, after white space, and the rest of the text. */
  lemma AfterIff(s: string, part: string, rest: string)
    requires part != "" && part[0] !in " \t\n\r"
    ensures After(AfterBlanks(s), part) == Some(rest) <==>
            exists blanks :: s == blanks + part + rest && AllBlank(blanks)
  {
    if After(AfterBlanks(s), part) == Some(rest) {
      var n := Run(s, Blank);
      assert s == s[..n] + part + rest && AllBlank(s[..n]);
    }
    if blanks :| s == blanks + part + rest && AllBlank(blanks) {
      assert s == blanks + (part + rest);
      RunOfBlank(blanks, part + rest);
      assert (part + rest)[..|part|] == part;
    }
  }

  /** White space, `<!--`, `openwiki:` and `broken internal link`, each after any white
      space, then no more of a word, and the end of the comment. */
  ghost predicate StampText(s: string, a: string, b: string, c: string, rest: string) {
    && s == a + COMMENT + (b + TOOL + (c + SUBJECT + rest))
    && AllBlank(a) && AllBlank(b) && AllBlank(c)
    && (rest != "" ==> !IsWordChar(rest[0]))
    && exists about, trail :: rest == about + "-->" + trail && AllBlank(trail)
  }

  lemma StampParts(s: string) returns (a: string, b: string, c: string, rest: string)
    requires CommentOf(s, COMMENT, TOOL, SUBJECT)
    ensures StampText(s, a, b, c, rest)
  {
    hide After, AfterBlanks, Run, EndsComment, IsWordChar;
    var tool := After(AfterBlanks(s), COMMENT).value;
    var subject := After(AfterBlanks(tool), TOOL).value;
    rest := After(AfterBlanks(subject), SUBJECT).value;
    AfterIff(s, COMMENT, tool);
    AfterIff(tool, TOOL, subject);
    AfterIff(subject, SUBJECT, rest);
    EndsCommentIff(rest);
    a :| s == a + COMMENT + tool && AllBlank(a);
    b :| tool == b + TOOL + subject && AllBlank(b);
    c :| subject == c + SUBJECT + rest && AllBlank(c);
  }

  /** Exactly the lines that count as stamps. */
  lemma StampIff(s: string)
    ensures IsStamp(Line(s)) <==> exists a, b, c, rest :: StampText(s, a, b, c, rest)
  {
    hide CommentOf, StampText;
    if IsStamp(Line(s)) {
      var a, b, c, rest := StampParts(s);
    }
    if a, b, c, rest :| StampText(s, a, b, c, rest) {
      PartsStamp(s, a, b, c, rest);
    }
  }

  lemma PartsStamp(s: string, a: string, b: string, c: string, rest: string)
    requires StampText(s, a, b, c, rest)
    ensures CommentOf(s, COMMENT, TOOL, SUBJECT)
  {
    hide After, AfterBlanks, Run, EndsComment, IsWordChar;
    var subject := c + SUBJECT + rest;
    var tool := b + TOOL + subject;
    AfterIff(s, COMMENT, tool);
    AfterIff(tool, TOOL, subject);
    AfterIff(subject, SUBJECT, rest);
    EndsCommentIff(rest);
  }

  /** Where a stamp may start: with white space or with its comment. */
  lemma StampStart(line: Line)
    requires IsStamp(line)
    ensures line.text != "" && (IsSpace(line.text[0]) || line.text[0] == '<')
  {
    hide CommentOf;
    CommentStart(line.text, COMMENT, TOOL, SUBJECT);
  }

  // ------------------------------------------------- stripping and stamping

  function Kept(lines: seq<Line>): seq<Line> {
    if lines == [] then []
    else (if IsStamp(lines[0]) then [] else [lines[0]]) + Kept(lines[1..])
  }

  predicate StampFree(lines: seq<Line>) {
    forall i :: 0 <= i < |lines| ==> !IsStamp(lines[i])
  }

  /** A page of nothing but stamps is left as one empty line. */
  function StripStamps(page: Page): Page {
    var kept := Kept(page);
    if kept == [] then [Line("")] else kept
  }

  /** The stamps to go above line `n`, in the order of the issues. */
  function StampsAbove(issues: seq<Issue>, n: nat): seq<Line> {
    if issues == [] then []
    else (if issues[0].line == n then [StampOf(issues[0])] else []) + StampsAbove(issues[1..], n)
  }

  /** The page from its `i`-th line on, every line below its stamps. */
  function StampedFrom(page: seq<Line>, issues: seq<Issue>, i: nat): (r: seq<Line>)
    requires i <= |page|
    ensures |r| >= |page| - i
    decreases |page| - i
  {
    if i == |page| then [] else StampsAbove(issues, i + 1) + [page[i]] + StampedFrom(page, issues, i + 1)
  }

  function Stamped(page: Page, issues: seq<Issue>): Page {
    StampedFrom(page, issues, 0)
  }

  lemma {:induction false} KeptAppend(a: seq<Line>, b: seq<Line>)
    ensures Kept(a + b) == Kept(a) + Kept(b)
    decreases |a|
  {
    hide IsStamp;
    if a == [] {
      assert a + b == b;
    } else {
      assert (a + b)[1..] == a[1..] + b;
      KeptAppend(a[1..], b);
    }
  }

  lemma {:induction false} KeptFree(lines: seq<Line>)
    ensures StampFree(Kept(lines)) && (StampFree(lines) ==> Kept(lines) == lines)
    decreases |lines|
  {
    hide IsStamp;
    if lines != [] {
      KeptFree(lines[1..]);
      assert lines == [lines[0]] + lines[1..];
    }
  }

  lemma {:induction false} NoStampKept(issues: seq<Issue>, n: nat)
    ensures Kept(StampsAbove(issues, n)) == []
    decreases |issues|
  {
    hide IsStamp, StampOf;
    if issues != [] {
      NoStampKept(issues[1..], n);
      StampIsRecognised(issues[0]);
      var mine := if issues[0].line == n then [StampOf(issues[0])] else [];
      assert Kept([StampOf(issues[0])]) == [] + Kept([]);
      KeptAppend(mine, StampsAbove(issues[1..], n));
    }
  }

  lemma {:induction false} KeptOfStamped(page: seq<Line>, issues: seq<Issue>, i: nat)
    requires StampFree(page) && i <= |page|
    ensures Kept(StampedFrom(page, issues, i)) == page[i..]
    decreases |page| - i
  {
    hide IsStamp, StampsAbove;
    if i < |page| {
      var above, rest := StampsAbove(issues, i + 1), StampedFrom(page, issues, i + 1);
      KeptOfStamped(page, issues, i + 1);
      NoStampKept(issues, i + 1);
      KeptAppend(above + [page[i]], rest);
      KeptAppend(above, [page[i]]);
      assert Kept([page[i]]) == [page[i]] + Kept([]);
      assert page[i..] == [page[i]] + page[i + 1..];
    }
  }

  /** Stripping the stamps off a stamped page gives the page back, whatever was stamped. */
  lemma StripUndoesStamps(page: Page, issues: seq<Issue>)
    requires StampFree(page)
    ensures StripStamps(Stamped(page, issues)) == page
  {
    KeptOfStamped(page, issues, 0);
    assert page[0..] == page;
  }

  /** A stripped page has no stamps, and stripping it again changes nothing. */
  lemma StrippedIsFree(page: Page)
    ensures StampFree(StripStamps(page)) && StripStamps(StripStamps(page)) == StripStamps(page)
  {
    hide IsStamp;
    KeptFree(page);
    if Kept(page) == [] && IsStamp(Line("")) {
      StampStart(Line(""));
    }
    KeptFree(StripStamps(page));
  }

  lemma {:induction false} NoStampsAbove(issues: seq<Issue>, n: nat)
    requires forall k :: 0 <= k < |issues| ==> issues[k].line != n
    ensures StampsAbove(issues, n) == []
    decreases |issues|
  {
    hide StampOf;
    if issues != [] {
      NoStampsAbove(issues[1..], n);
    }
  }

  lemma StampedLine(page: seq<Line>, issues: seq<Issue>, n: nat)
    requires 1 <= n <= |page|
    ensures StampedFrom(page, issues, n - 1) == StampsAbove(issues, n) + ([page[n - 1]] + StampedFrom(page, issues, n))
  {
    hide StampsAbove;
    var above, rest := StampsAbove(issues, n), StampedFrom(page, issues, n);
    assert above + [page[n - 1]] + rest == above + ([page[n - 1]] + rest);
  }

  lemma NothingFrom(page: seq<Line>, issues: seq<Issue>)
    ensures StampedFrom(page, issues, |page|) == []
  {
  }

  lemma {:induction false} UnstampedStretch(page: seq<Line>, issues: seq<Issue>, i: nat, j: nat)
    requires i <= j <= |page|
    requires forall n :: i < n <= j ==> StampsAbove(issues, n) == []
    ensures StampedFrom(page, issues, i) == page[i..j] + StampedFrom(page, issues, j)
    decreases j - i
  {
    hide *;
    var rest := StampedFrom(page, issues, j);
    if i < j {
      StampedLine(page, issues, i + 1);
      UnstampedStretch(page, issues, i + 1, j);
      assert [] + ([page[i]] + (page[i + 1..j] + rest)) == [page[i]] + page[i + 1..j] + rest;
      assert page[i..j] == [page[i]] + page[i + 1..j];
    } else {
      assert page[i..j] == [] && [] + rest == rest;
    }
  }

  lemma {:induction false} StampsAboveSnoc(issues: seq<Issue>, issue: Issue, n: nat)
    ensures StampsAbove(issues + [issue], n)
         == StampsAbove(issues, n) + (if issue.line == n then [StampOf(issue)] else [])
    decreases |issues|
  {
    hide StampOf;
    if issues == [] {
      assert [] + [issue] == [issue];
    } else {
      assert (issues + [issue])[1..] == issues[1..] + [issue];
      StampsAboveSnoc(issues[1..], issue, n);
      var first := if issues[0].line == n then [StampOf(issues[0])] else [];
      var last := if issue.line == n then [StampOf(issue)] else [];
      assert first + (StampsAbove(issues[1..], n) + last) == first + StampsAbove(issues[1..], n) + last;
    }
  }

  /** The issues of line `n`, in order. */
  function OnLine(issues: seq<Issue>, n: nat): seq<Issue> {
    if issues == [] then []
    else
      var last := issues[|issues| - 1];
      OnLine(issues[..|issues| - 1], n) + if last.line == n then [last] else []
  }

  /** The stamps of a line are those of its issues, one each and in order. */
  lemma {:induction false} StampsOfIssues(issues: seq<Issue>, n: nat)
    ensures |StampsAbove(issues, n)| == |OnLine(issues, n)|
    ensures forall k :: 0 <= k < |OnLine(issues, n)| ==> StampsAbove(issues, n)[k] == StampOf(OnLine(issues, n)[k])
    decreases |issues|
  {
    hide StampOf, StampsAbove;
    if issues == [] {
      NoStampsAbove(issues, n);
    } else {
      var front, last := issues[..|issues| - 1], issues[|issues| - 1];
      assert issues == front + [last];
      StampsOfIssues(front, n);
      StampsAboveSnoc(front, last, n);
    }
  }

  lemma {:induction false} StampedUpTo(page: seq<Line>, issues: seq<Issue>, n: nat) returns (before: seq<Line>)
    requires StampFree(page) && n <= |page|
    ensures StampedFrom(page, issues, 0) == before + StampedFrom(page, issues, n)
    ensures Kept(before) == page[..n]
    ensures if n == 0 then before == [] else before != [] && before[|before| - 1] == page[n - 1]
    decreases n
  {
    hide StampsAbove, IsStamp;
    if n == 0 {
      before := [];
      assert before + StampedFrom(page, issues, 0) == StampedFrom(page, issues, 0);
    } else {
      var earlier := StampedUpTo(page, issues, n - 1);
      var above, rest := StampsAbove(issues, n), StampedFrom(page, issues, n);
      StampedLine(page, issues, n);
      before := earlier + above + [page[n - 1]];
      assert earlier + (above + ([page[n - 1]] + rest)) == before + rest;
      NoStampKept(issues, n);
      KeptAppend(earlier + above, [page[n - 1]]);
      KeptAppend(earlier, above);
      assert Kept([page[n - 1]]) == [page[n - 1]] + Kept([]);
      assert page[..n] == page[..n - 1] + [page[n - 1]];
    }
  }

  /** Where stamps go: those of line `n` stand between line `n - 1` and line `n`, with
      nothing else in between. */
  lemma StampsStandAbove(page: Page, issues: seq<Issue>, n: nat) returns (before: seq<Line>, after: seq<Line>)
    requires StampFree(page) && 1 <= n <= |page|
    ensures Stamped(page, issues) == before + StampsAbove(issues, n) + [page[n - 1]] + after
    ensures StripStamps(Stamped(page, issues)) == page && Kept(before) == page[..n - 1] && Kept(after) == page[n..]
    ensures if n == 1 then before == [] else before != [] && before[|before| - 1] == page[n - 2]
  {
    hide StampsAbove, IsStamp, Kept, StripStamps;
    before := StampedUpTo(page, issues, n - 1);
    after := StampedFrom(page, issues, n);
    StampedLine(page, issues, n);
    KeptOfStamped(page, issues, n);
    StripUndoesStamps(page, issues);
    var above := StampsAbove(issues, n);
    assert before + (above + ([page[n - 1]] + after)) == before + above + [page[n - 1]] + after;
  }

  predicate IsLargest(n: nat, s: set<nat>) {
    n in s && forall m :: m in s ==> m <= n
  }

  lemma {:induction false} LargestExists(s: set<nat>)
    requires s != {}
    ensures exists n :: IsLargest(n, s)
  {
    var x :| x in s;
    var rest := s - {x};
    assert s == rest + {x};
    if rest == {} {
      assert IsLargest(x, s);
    } else {
      LargestExists(rest);
      var n :| IsLargest(n, rest);
      assert IsLargest(if n < x then x else n, s);
    }
  }

  /** The stamps of each line, gathered in one pass over the issues. */
  method GatherStamps(issues: seq<Issue>) returns (byLine: map<nat, seq<Line>>)
    ensures forall n :: n in byLine ==> byLine[n] == StampsAbove(issues, n) != []
    ensures forall n :: n !in byLine ==> StampsAbove(issues, n) == []
  {
    hide StampOf;
    byLine := map[];
    for k := 0 to |issues|
      invariant forall n :: n in byLine ==> byLine[n] == StampsAbove(issues[..k], n) != []
      invariant forall n :: n !in byLine ==> StampsAbove(issues[..k], n) == []
    {
      var issue := issues[k];
      assert issues[..k + 1] == issues[..k] + [issue];
      forall n: nat ensures StampsAbove(issues[..k + 1], n)
                         == StampsAbove(issues[..k], n) + (if issue.line == n then [StampOf(issue)] else []) {
        StampsAboveSnoc(issues[..k], issue, n);
      }
      var gathered := if issue.line in byLine then byLine[issue.line] else [];
      byLine := byLine[issue.line := gathered + [StampOf(issue)]];
    }
    assert issues[..|issues|] == issues;
  }

  /** Inserting the stamps from the bottom of the page up, so that no line number moves. */
  method StampLinks(page: Page, issues: seq<Issue>) returns (stamped: Page)
    requires forall k :: 0 <= k < |issues| ==> 1 <= issues[k].line <= |page|
    ensures stamped == Stamped(page, issues)
  {
    hide StampOf, StampedFrom, StampsAbove;
    if issues == [] {
      AllUnstamped(page);
      return page;
    }
    var byLine := GatherStamps(issues);
    forall n | n in byLine ensures 1 <= n <= |page| {
      if !(1 <= n <= |page|) {
        NoStampsAbove(issues, n);
      }
    }
    var todo := byLine.Keys;
    var lines: seq<Line> := page;
    ghost var top: nat := |page|;
    NothingFrom(page, issues);
    assert lines == page[..top];
    while todo != {}
      invariant top <= |page| && todo <= byLine.Keys
      invariant forall n :: n in todo ==> n <= top
      invariant forall n :: 0 < n <= top && n in byLine ==> n in todo
      invariant lines == page[..top] + StampedFrom(page, issues, top)
      decreases |todo|
    {
      LargestExists(todo);
      var n: nat :| IsLargest(n, todo);
      UnstampedStretch(page, issues, n, top);
      StampedLine(page, issues, n);
      SpliceAbove(page, n, top, lines, StampedFrom(page, issues, top), byLine[n]);
      lines := lines[..n - 1] + byLine[n] + lines[n - 1..];
      todo := todo - {n};
      top := n - 1;
    }
    UnstampedStretch(page, issues, 0, top);
    stamped := lines;
  }

  lemma SpliceAbove(page: seq<Line>, n: nat, top: nat, lines: seq<Line>, rest: seq<Line>, above: seq<Line>)
    requires 1 <= n <= top <= |page| && lines == page[..top] + rest
    ensures lines[..n - 1] + above + lines[n - 1..] == page[..n - 1] + (above + ([page[n - 1]] + (page[n..top] + rest)))
  {
    assert lines[..n - 1] == page[..n - 1];
    assert lines[n - 1..] == [page[n - 1]] + (page[n..top] + rest);
  }

  lemma AllUnstamped(page: Page)
    ensures Stamped(page, []) == page
  {
    hide IsStamp;
    UnstampedStretch(page, [], 0, |page|);
    NothingFrom(page, []);
    assert page[0..|page|] == page;
  }
}
