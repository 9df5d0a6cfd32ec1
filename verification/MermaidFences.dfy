/** Degrading unparseable mermaid diagrams of a Markdown page to text fences. */
module MermaidFences {
  import opened Wrappers
  import opened FenceLines

  // ------------------------------------------------------------------ blocks

  /** A page as the scan sees it: plain lines, closed fences, and a last fence left open. */
  datatype Block =
    | Plain(line: Line)
    | Fenced(mermaid: bool, open: Line, body: seq<Line>, close: Line)
    | Unclosed(lines: seq<Line>)

  /** The first line from `i` on that closes a fence of `length` backticks. */
  function FindClose(lines: seq<Line>, length: nat, i: nat): (r: Option<nat>)
    requires i <= |lines|
    ensures r.Some? ==> i <= r.value < |lines| && Closes(lines[r.value], length)
    ensures r.Some? ==> forall j :: i <= j < r.value ==> !Closes(lines[j], length)
    ensures r.None? ==> forall j :: i <= j < |lines| ==> !Closes(lines[j], length)
    decreases |lines| - i
  {
    if i == |lines| then None
    else if Closes(lines[i], length) then Some(i)
    else FindClose(lines, length, i + 1)
  }

  function Blocks(lines: seq<Line>): seq<Block>
    decreases |lines|
  {
    if lines == [] then []
    else if Opens(lines[0]) then
      match FindClose(lines, |Marker(lines[0])|, 1)
      case None => [Unclosed(lines)]
      case Some(n) =>
        [Fenced(OpensMermaid(lines[0]), lines[0], lines[1..n], lines[n])] + Blocks(lines[n + 1..])
    else [Plain(lines[0])] + Blocks(lines[1..])
  }

  function LinesOf(b: Block): seq<Line> {
    match b
    case Plain(line) => [line]
    case Fenced(_, open, body, close) => [open] + body + [close]
    case Unclosed(lines) => lines
  }

  function Flatten(blocks: seq<Block>): seq<Line> {
    if blocks == [] then [] else LinesOf(blocks[0]) + Flatten(blocks[1..])
  }

  predicate BlockFits(b: Block) {
    match b
    case Plain(line) => !Opens(line)
    case Fenced(mermaid, open, body, close) =>
      && Opens(open) && mermaid == OpensMermaid(open)
      && (forall i :: 0 <= i < |body| ==> !Closes(body[i], |Marker(open)|))
      && Closes(close, |Marker(open)|)
    case Unclosed(lines) =>
      && lines != [] && Opens(lines[0])
      && forall i :: 1 <= i < |lines| ==> !Closes(lines[i], |Marker(lines[0])|)
  }

  /** Blocks that a scan can yield: each fits, and only the last may be left open. */
  predicate BlocksFit(blocks: seq<Block>) {
    blocks == [] || (BlockFits(blocks[0]) && (blocks[0].Unclosed? ==> |blocks| == 1) && BlocksFit(blocks[1..]))
  }

  lemma NoBlocks()
    ensures BlocksFit([]) && Flatten([]) == []
  {
  }

  lemma FitsCons(b: Block, rest: seq<Block>)
    requires BlockFits(b) && BlocksFit(rest) && (b.Unclosed? ==> rest == [])
    ensures BlocksFit([b] + rest) && Flatten([b] + rest) == LinesOf(b) + Flatten(rest)
  {
    assert ([b] + rest)[1..] == rest;
  }

  lemma FoundFits(lines: seq<Line>, n: nat)
    requires lines != [] && Opens(lines[0]) && FindClose(lines, |Marker(lines[0])|, 1) == Some(n)
    ensures var b := Fenced(OpensMermaid(lines[0]), lines[0], lines[1..n], lines[n]);
            BlockFits(b) && lines == LinesOf(b) + lines[n + 1..]
  {
    hide Opens, OpensMermaid, Closes, Marker;
  }

  lemma PlainFits(line: Line)
    ensures BlockFits(Plain(line)) <==> !Opens(line)
    ensures LinesOf(Plain(line)) == [line]
  {
    hide Opens;
  }

  lemma UnclosedFits(lines: seq<Line>)
    requires lines != [] && Opens(lines[0]) && FindClose(lines, |Marker(lines[0])|, 1).None?
    ensures BlockFits(Unclosed(lines)) && LinesOf(Unclosed(lines)) == lines
  {
    hide Opens, Closes, Marker;
  }

  lemma {:induction false} BlocksOfLines(lines: seq<Line>)
    ensures BlocksFit(Blocks(lines)) && Flatten(Blocks(lines)) == lines
    decreases |lines|
  {
    hide Opens, OpensMermaid, Closes, Marker, FindClose, BlockFits, BlocksFit, Flatten, LinesOf;
    NoBlocks();
    if lines == [] {
    } else if !Opens(lines[0]) {
      BlocksOfLines(lines[1..]);
      PlainFits(lines[0]);
      FitsCons(Plain(lines[0]), Blocks(lines[1..]));
      assert lines == [lines[0]] + lines[1..];
    } else {
      match FindClose(lines, |Marker(lines[0])|, 1)
      case None =>
        UnclosedFits(lines);
        FitsCons(Unclosed(lines), []);
        assert [Unclosed(lines)] + [] == [Unclosed(lines)] && lines + [] == lines;
      case Some(n) =>
        FoundFits(lines, n);
        BlocksOfLines(lines[n + 1..]);
        FitsCons(Fenced(OpensMermaid(lines[0]), lines[0], lines[1..n], lines[n]), Blocks(lines[n + 1..]));
    }
  }

  lemma {:induction false} FindCloseAt(lines: seq<Line>, length: nat, i: nat, n: nat)
    requires i <= n < |lines| && Closes(lines[n], length)
    requires forall j :: i <= j < n ==> !Closes(lines[j], length)
    ensures FindClose(lines, length, i) == Some(n)
    decreases n - i
  {
    hide Closes;
    if i < n {
      FindCloseAt(lines, length, i + 1, n);
    }
  }

  lemma ScanFenced(mermaid: bool, open: Line, body: seq<Line>, close: Line, rest: seq<Line>)
    requires BlockFits(Fenced(mermaid, open, body, close))
    ensures Blocks([open] + body + [close] + rest) == [Fenced(mermaid, open, body, close)] + Blocks(rest)
  {
    hide Opens, OpensMermaid, Closes, Marker;
    var lines, n := [open] + body + [close] + rest, |body| + 1;
    FindCloseAt(lines, |Marker(open)|, 1, n);
    assert lines[1..n] == body && lines[n + 1..] == rest;
  }

  lemma ScanUnclosed(lines: seq<Line>)
    requires BlockFits(Unclosed(lines))
    ensures Blocks(lines) == [Unclosed(lines)]
  {
    hide Opens, OpensMermaid, Closes, Marker;
  }

  /** Fitting blocks are exactly what a scan of their lines finds. */
  lemma {:induction false} ScanFindsBlocks(blocks: seq<Block>)
    requires BlocksFit(blocks)
    ensures Blocks(Flatten(blocks)) == blocks
    decreases |blocks|
  {
    hide Opens, OpensMermaid, Closes, Marker;
    if blocks != [] {
      var rest := Flatten(blocks[1..]);
      ScanFindsBlocks(blocks[1..]);
      match blocks[0]
      case Plain(line) =>
        assert ([line] + rest)[1..] == rest;
      case Fenced(mermaid, open, body, close) =>
        ScanFenced(mermaid, open, body, close, rest);
      case Unclosed(lines) =>
        assert blocks[1..] == [] && lines + [] == lines;
        ScanUnclosed(lines);
    }
  }

  // ---------------------------------------------------------- degraded pages

  /** Why a diagram is refused; `None` accepts it. Any rule on the body will do. */
  type Heuristic = seq<Line> -> Option<string>

  /** Each pair of dashes becomes one, scanning left to right. */
  function SingleDashes(error: string): string {
    if |error| < 2 then error
    else if error[0] == '-' && error[1] == '-' then "-" + SingleDashes(error[2..])
    else [error[0]] + SingleDashes(error[1..])
  }

  const COMMENT_CAUSE := " openwiki: mermaid parse failed and this diagram was converted to a text fence "
  const COMMENT_ADVICE := "so it does not break rendering. Fix the diagram source and restore the mermaid fence. "
  const MAX_ERROR := 400

  /** The HTML comment stamped above a degraded diagram. */
  function Comment(error: string): (text: string)
    ensures text != "" && text[0] == '<'
  {
    var shown := SingleDashes(error);
    var reason := if |shown| < MAX_ERROR then shown else shown[..MAX_ERROR];
    "<!--" + (COMMENT_CAUSE + COMMENT_ADVICE + "Parser error: " + reason + " -->")
  }

  ghost predicate DashesAt(s: string, n: nat, i: nat) {
    i + n <= |s| && forall j :: i <= j < i + n ==> s[j] == '-'
  }

  ghost predicate HasDashes(s: string, n: nat) {
    exists i :: DashesAt(s, n, i)
  }

  lemma DashesInTail(s: string, k: nat, n: nat)
    requires k <= |s|
    ensures HasDashes(s[k..], n) ==> HasDashes(s, n)
  {
    if HasDashes(s[k..], n) {
      var i: nat :| DashesAt(s[k..], n, i);
      forall j | i + k <= j < i + k + n ensures s[j] == '-' {
        assert s[k..][j - k] == '-';
      }
      assert DashesAt(s, n, i + k);
    }
  }

  lemma DashesCons(c: char, s: string)
    ensures HasDashes([c] + s, 2) <==> HasDashes(s, 2) || (c == '-' && s != "" && s[0] == '-')
  {
    var more := [c] + s;
    assert more[1..] == s;
    if HasDashes(more, 2) {
      var i: nat :| DashesAt(more, 2, i);
      assert more[i] == '-' && more[i + 1] == '-';
      if i > 0 {
        assert DashesAt(s, 2, i - 1);
      }
    }
    if HasDashes(s, 2) {
      DashesInTail(more, 1, 2);
    }
    if c == '-' && s != "" && s[0] == '-' {
      assert DashesAt(more, 2, 0);
    }
  }

  lemma DashesDrop(s: string, k: nat)
    requires k <= |s|
    requires HasDashes(s, 3) && !(|s| >= 3 && s[0] == '-' && s[1] == '-' && s[2] == '-')
    requires k == 1 || (k == 2 && s[0] == '-' && s[1] == '-')
    ensures HasDashes(s[k..], 3)
  {
    var i: nat :| DashesAt(s, 3, i);
    assert s[i] == '-' && s[i + 1] == '-' && s[i + 2] == '-';
    assert i >= k;
    assert DashesAt(s[k..], 3, i - k);
  }

  lemma {:induction false} FirstDash(s: string)
    ensures SingleDashes(s) != "" <==> s != ""
    ensures s != "" ==> SingleDashes(s)[0] == s[0]
  {
  }

  /** A comment may still hold two dashes in a row: exactly when the reason had three. */
  lemma {:induction false} DoubleDashIff(error: string)
    ensures HasDashes(SingleDashes(error), 2) <==> HasDashes(error, 3)
    decreases |error|
  {
    if |error| < 2 {
    } else if error[0] == '-' && error[1] == '-' {
      var rest := error[2..];
      DoubleDashIff(rest);
      DashesCons('-', SingleDashes(rest));
      FirstDash(rest);
      if HasDashes(error, 3) && !(rest != "" && rest[0] == '-') {
        DashesDrop(error, 2);
      }
      if HasDashes(rest, 3) {
        DashesInTail(error, 2, 3);
      }
      if rest != "" && rest[0] == '-' {
        assert DashesAt(error, 3, 0);
      }
    } else {
      var rest := error[1..];
      DoubleDashIff(rest);
      DashesCons(error[0], SingleDashes(rest));
      FirstDash(rest);
      if HasDashes(error, 3) {
        DashesDrop(error, 1);
      }
      if HasDashes(rest, 3) {
        DashesInTail(error, 1, 3);
      }
    }
  }

  lemma {:induction false} NoDashesKept(error: string)
    requires !HasDashes(error, 2)
    ensures SingleDashes(error) == error
  {
    if |error| >= 2 {
      assert !DashesAt(error, 2, 0);
      DashesInTail(error, 1, 2);
      NoDashesKept(error[1..]);
      assert error == [error[0]] + error[1..];
    }
  }

  /** The comment is the same notice for every reason, with the first 400 characters of
      the reason before its end. */
  lemma CommentShows(error: string, notice: string)
    requires !HasDashes(error, 2) && notice == "<!--" + (COMMENT_CAUSE + COMMENT_ADVICE + "Parser error: ")
    ensures Comment(error) == notice + (if |error| <= 400 then error else error[..400]) + " -->"
  {
    hide *;
    hide COMMENT_CAUSE, COMMENT_ADVICE, MAX_ERROR;
    NoDashesKept(error);
    CommentParts(error);
    Joined("<!--", COMMENT_CAUSE + COMMENT_ADVICE, "Parser error: ", if |error| <= 400 then error else error[..400],
           " -->");
  }

  lemma CommentParts(error: string)
    ensures Comment(error) ==
            "<!--" + (COMMENT_CAUSE + COMMENT_ADVICE + "Parser error: "
                      + (if |SingleDashes(error)| <= 400 then SingleDashes(error) else SingleDashes(error)[..400])
                      + " -->")
  {
    hide COMMENT_CAUSE, COMMENT_ADVICE, SingleDashes;
  }

  lemma Joined(a: string, b: string, c: string, d: string, e: string)
    ensures a + (b + c + d + e) == a + (b + c) + d + e
  {
  }

  predicate Fails(h: Heuristic, b: Block) {
    b.Fenced? && b.mermaid && h(b.body).Some?
  }

  /** The comment, then the same body under a text label. */
  function Replacement(h: Heuristic, b: Block): seq<Block>
    requires BlockFits(b) && Fails(h, b)
  {
    var indent, marker := Indent(b.open), Marker(b.open);
    [Plain(Line(indent + Comment(h(b.body).value))),
     Fenced(false, Line(indent + marker + "text"), b.body, Line(indent + marker))]
  }

  function Degrade(h: Heuristic, b: Block): seq<Block>
    requires BlockFits(b)
  {
    if Fails(h, b) then Replacement(h, b) else [b]
  }

  function DegradeAll(h: Heuristic, blocks: seq<Block>): seq<Block>
    requires BlocksFit(blocks)
  {
    if blocks == [] then [] else Degrade(h, blocks[0]) + DegradeAll(h, blocks[1..])
  }

  function Failures(h: Heuristic, blocks: seq<Block>): nat {
    if blocks == [] then 0 else (if Fails(h, blocks[0]) then 1 else 0) + Failures(h, blocks[1..])
  }

  lemma ReplacementFits(h: Heuristic, b: Block)
    requires BlockFits(b) && Fails(h, b)
    ensures BlockFits(Replacement(h, b)[0]) && BlockFits(Replacement(h, b)[1])
  {
    hide Opens, OpensMermaid, Closes, Marker, Indent, Comment;
    ParsedParts(b.open);
    CommentLine(Indent(b.open), Comment(h(b.body).value));
    TextLine(Indent(b.open), Marker(b.open));
    CloseLine(Indent(b.open), Marker(b.open));
  }

  /** Degraded blocks still fit, every mermaid block left passes, and each failure adds one line. */
  lemma {:induction false} DegradedFit(h: Heuristic, blocks: seq<Block>)
    requires BlocksFit(blocks)
    ensures BlocksFit(DegradeAll(h, blocks))
    ensures forall b :: b in DegradeAll(h, blocks) ==> !Fails(h, b)
    ensures |Flatten(DegradeAll(h, blocks))| == |Flatten(blocks)| + Failures(h, blocks)
    decreases |blocks|
  {
    hide BlockFits, Replacement;
    if blocks != [] {
      var b, rest := blocks[0], DegradeAll(h, blocks[1..]);
      DegradedFit(h, blocks[1..]);
      if Fails(h, b) {
        ReplacementFits(h, b);
        ReplacementShape(h, b);
        var r := Replacement(h, b);
        FitsCons(r[1], rest);
        FitsCons(r[0], [r[1]] + rest);
        assert r + rest == [r[0]] + ([r[1]] + rest);
      } else {
        assert b.Unclosed? ==> blocks[1..] == [];
        FitsCons(b, rest);
      }
    }
  }

  lemma ReplacementShape(h: Heuristic, b: Block)
    requires BlockFits(b) && Fails(h, b)
    ensures var r := Replacement(h, b);
            && |r| == 2 && r[0].Plain? && r[1].Fenced? && !r[1].mermaid && r[1].body == b.body
            && |LinesOf(r[0])| + |LinesOf(r[1])| == |LinesOf(b)| + 1
  {
  }

  lemma {:induction false} NothingToDegrade(h: Heuristic, blocks: seq<Block>)
    requires BlocksFit(blocks) && forall b :: b in blocks ==> !Fails(h, b)
    ensures DegradeAll(h, blocks) == blocks && Failures(h, blocks) == 0
    decreases |blocks|
  {
    if blocks != [] {
      NothingToDegrade(h, blocks[1..]);
      assert blocks == [blocks[0]] + blocks[1..];
    }
  }

  /** The page with its failing diagrams degraded. */
  function Degraded(h: Heuristic, lines: seq<Line>): seq<Line> {
    BlocksOfLines(lines);
    Flatten(DegradeAll(h, Blocks(lines)))
  }

  // ------------------------------------------------------- what is preserved

  /** The bodies of the mermaid fences, in order. */
  function Diagrams(blocks: seq<Block>): seq<seq<Line>> {
    if blocks == [] then []
    else (if blocks[0].Fenced? && blocks[0].mermaid then [blocks[0].body] else []) + Diagrams(blocks[1..])
  }

  function Passing(h: Heuristic, bodies: seq<seq<Line>>): seq<seq<Line>> {
    if bodies == [] then []
    else (if h(bodies[0]).None? then [bodies[0]] else []) + Passing(h, bodies[1..])
  }

  lemma {:induction false} DiagramsAppend(a: seq<Block>, b: seq<Block>)
    ensures Diagrams(a + b) == Diagrams(a) + Diagrams(b)
    decreases |a|
  {
    if a == [] {
      assert a + b == b;
    } else {
      assert (a + b)[1..] == a[1..] + b;
      DiagramsAppend(a[1..], b);
    }
  }

  lemma DegradedDiagram(h: Heuristic, b: Block)
    requires BlockFits(b)
    ensures Diagrams(Degrade(h, b)) == Passing(h, Diagrams([b]))
  {
    hide BlockFits, Replacement;
    if Fails(h, b) {
      ReplacementShape(h, b);
      var r := Replacement(h, b);
      assert r[1..] == [r[1]] && [r[1]][1..] == [];
    }
  }

  lemma {:induction false} PassingAppend(h: Heuristic, a: seq<seq<Line>>, b: seq<seq<Line>>)
    ensures Passing(h, a + b) == Passing(h, a) + Passing(h, b)
    decreases |a|
  {
    if a == [] {
      assert a + b == b;
    } else {
      assert (a + b)[1..] == a[1..] + b;
      PassingAppend(h, a[1..], b);
    }
  }

  lemma {:induction false} DegradedDiagrams(h: Heuristic, blocks: seq<Block>)
    requires BlocksFit(blocks)
    ensures Diagrams(DegradeAll(h, blocks)) == Passing(h, Diagrams(blocks))
    decreases |blocks|
  {
    hide BlockFits, Degrade;
    if blocks != [] {
      var b, rest := blocks[0], blocks[1..];
      DegradedDiagrams(h, rest);
      DegradedDiagram(h, b);
      DiagramsAppend(Degrade(h, b), DegradeAll(h, rest));
      DiagramsAppend([b], rest);
      PassingAppend(h, Diagrams([b]), Diagrams(rest));
      assert blocks == [b] + rest;
    }
  }

  /** Degrading is idempotent whatever the heuristic; scanning the result finds
      exactly the diagrams that passed, bodies unchanged and in order; and the page
      grows by one line for each degraded diagram. */
  lemma DegradingIsIdempotent(h: Heuristic, lines: seq<Line>)
    ensures Degraded(h, Degraded(h, lines)) == Degraded(h, lines)
    ensures Failures(h, Blocks(Degraded(h, lines))) == 0
    ensures Diagrams(Blocks(Degraded(h, lines))) == Passing(h, Diagrams(Blocks(lines)))
    ensures |Degraded(h, lines)| == |lines| + Failures(h, Blocks(lines))
  {
    BlocksOfLines(lines);
    var blocks := Blocks(lines);
    DegradedFit(h, blocks);
    ScanFindsBlocks(DegradeAll(h, blocks));
    NothingToDegrade(h, DegradeAll(h, blocks));
    DegradedDiagrams(h, blocks);
  }

  // -------------------------------------------------- what degrading keeps

  /** A failing diagram becomes its comment, as far in as the fence was, and a fence with
      the same marker, labelled text, around the same lines. */
  lemma ReplacementParses(h: Heuristic, b: Block)
    requires BlockFits(b) && Fails(h, b)
    ensures var r, indent, marker := Degrade(h, b), Indent(b.open), Marker(b.open);
            && |r| == 2 && r[0] == Plain(Line(indent + Comment(h(b.body).value)))
            && r[1].Fenced? && !r[1].mermaid && r[1].body == b.body
            && ParseFence(r[1].open) == Some(FenceLine(indent, marker, "text"))
            && ParseFence(r[1].close) == Some(FenceLine(indent, marker, ""))
  {
    hide Opens, OpensMermaid, Closes, Marker, Indent, Comment, ParseFence;
    var indent, marker := Indent(b.open), Marker(b.open);
    ParsedParts(b.open);
    ParseBuilt(indent, marker, "text");
    ParseBuilt(indent, marker, "");
    assert indent + marker + "" == indent + marker;
  }

  /** What the closed fences hold, diagrams or not, in order. */
  function Contents(blocks: seq<Block>): seq<seq<Line>> {
    if blocks == [] then []
    else (if blocks[0].Fenced? then [blocks[0].body] else []) + Contents(blocks[1..])
  }

  lemma {:induction false} ContentsAppend(a: seq<Block>, b: seq<Block>)
    ensures Contents(a + b) == Contents(a) + Contents(b)
    decreases |a|
  {
    if a == [] {
      assert a + b == b;
    } else {
      assert (a + b)[1..] == a[1..] + b;
      ContentsAppend(a[1..], b);
    }
  }

  lemma DegradedContents(h: Heuristic, b: Block)
    requires BlockFits(b)
    ensures Contents(Degrade(h, b)) == Contents([b])
  {
    hide BlockFits, Replacement;
    if Fails(h, b) {
      ReplacementShape(h, b);
      var r := Replacement(h, b);
      assert r[1..] == [r[1]] && [r[1]][1..] == [] && [b][1..] == [];
    }
  }

  lemma {:induction false} ContentsKept(h: Heuristic, blocks: seq<Block>)
    requires BlocksFit(blocks)
    ensures Contents(DegradeAll(h, blocks)) == Contents(blocks)
    decreases |blocks|
  {
    hide BlockFits, Degrade, Contents;
    if blocks != [] {
      var b, rest := blocks[0], blocks[1..];
      ContentsKept(h, rest);
      DegradedContents(h, b);
      ContentsAppend(Degrade(h, b), DegradeAll(h, rest));
      ContentsAppend([b], rest);
      assert blocks == [b] + rest;
    }
  }

  /** Degrading a page leaves what every fence holds, and its order. */
  lemma DegradingKeepsContents(h: Heuristic, lines: seq<Line>)
    ensures Contents(Blocks(Degraded(h, lines))) == Contents(Blocks(lines))
  {
    BlocksOfLines(lines);
    DegradedFit(h, Blocks(lines));
    ScanFindsBlocks(DegradeAll(h, Blocks(lines)));
    ContentsKept(h, Blocks(lines));
  }
}
