/** Lines of a Markdown page and the fence lines among them. */
module FenceLines {
  import opened Wrappers

  datatype Line = Line(text: string)

  predicate IsSpace(c: char) {
    c == ' ' || c == '\t' || c == '\n' || c == '\r'
  }

  datatype CharClass = Blank | Backtick | Word

  predicate Is(kind: CharClass, c: char) {
    match kind
    case Blank => IsSpace(c)
    case Backtick => c == '`'
    case Word => !IsSpace(c)
  }

  /** How many leading characters are of a kind. */
  function Run(s: string, kind: CharClass): (n: nat)
    ensures n <= |s|
    ensures forall i :: 0 <= i < n ==> Is(kind, s[i])
    ensures n < |s| ==> !Is(kind, s[n])
  {
    if s == "" || !Is(kind, s[0]) then 0 else 1 + Run(s[1..], kind)
  }

  datatype FenceLine = FenceLine(indent: string, marker: string, info: string)

  /** White space, three or more backticks, and at most one word after them. */
  function ParseFence(line: Line): Option<FenceLine> {
    var i := Run(line.text, Blank);
    var afterIndent := line.text[i..];
    var t := Run(afterIndent, Backtick);
    if t < 3 then None
    else
      match ParseInfo(afterIndent[t..])
      case None => None
      case Some(info) => Some(FenceLine(line.text[..i], afterIndent[..t], info))
  }

  /** The only word of `rest`, or the empty string; `None` if there are two. */
  function ParseInfo(rest: string): Option<string> {
    var gap := Run(rest, Blank);
    var trimmed := rest[gap..];
    var word := Run(trimmed, Word);
    if Run(trimmed[word..], Blank) < |trimmed[word..]| then None else Some(trimmed[..word])
  }

  function LowerChar(c: char): char {
    if 'A' <= c <= 'Z' then c - 'A' + 'a' else c
  }

  predicate IsMermaid(info: string) {
    |info| == 7 && LowerChar(info[0]) == 'm' && LowerChar(info[1]) == 'e' && LowerChar(info[2]) == 'r'
    && LowerChar(info[3]) == 'm' && LowerChar(info[4]) == 'a' && LowerChar(info[5]) == 'i' && LowerChar(info[6]) == 'd'
  }

  /** A line that opens a fence the scan tracks; unlabelled openers are not tracked. */
  predicate Opens(line: Line) {
    ParseFence(line).Some? && ParseFence(line).value.info != ""
  }

  function Marker(line: Line): string
    requires Opens(line)
  {
    ParseFence(line).value.marker
  }

  function Indent(line: Line): string
    requires Opens(line)
  {
    ParseFence(line).value.indent
  }

  predicate OpensMermaid(line: Line) {
    Opens(line) && IsMermaid(ParseFence(line).value.info)
  }

  /** A line that closes a fence whose marker has `length` backticks. */
  predicate Closes(line: Line, length: nat) {
    ParseFence(line).Some? && ParseFence(line).value.info == "" && |ParseFence(line).value.marker| >= length
  }

  // ----------------------------------------------------- lines put together

  lemma {:induction false} RunOf(head: string, tail: string, kind: CharClass)
    requires forall i :: 0 <= i < |head| ==> Is(kind, head[i])
    requires tail == "" || !Is(kind, tail[0])
    ensures Run(head + tail, kind) == |head| && (head + tail)[|head|..] == tail && (head + tail)[..|head|] == head
  {
    if head == "" {
      assert head + tail == tail;
    } else {
      assert (head + tail)[1..] == head[1..] + tail;
      RunOf(head[1..], tail, kind);
    }
  }

  ghost predicate FenceParts(indent: string, marker: string) {
    && (forall i :: 0 <= i < |indent| ==> Is(Blank, indent[i]))
    && |marker| >= 3 && (forall i :: 0 <= i < |marker| ==> Is(Backtick, marker[i]))
  }

  lemma ParsedParts(line: Line)
    requires Opens(line)
    ensures FenceParts(Indent(line), Marker(line))
  {
    hide ParseInfo;
  }

  lemma ParseInfoOf(info: string)
    requires forall i :: 0 <= i < |info| ==> Is(Word, info[i])
    ensures ParseInfo(info) == Some(info)
  {
    assert "" + info == info && info + "" == info;
    RunOf("", info, Blank);
    RunOf(info, "", Word);
  }

  /** A fence line put together from its parts parses back into them. */
  lemma ParseBuilt(indent: string, marker: string, info: string)
    requires FenceParts(indent, marker)
    requires forall i :: 0 <= i < |info| ==> Is(Word, info[i]) && info[i] != '`'
    ensures ParseFence(Line(indent + marker + info)) == Some(FenceLine(indent, marker, info))
  {
    assert indent + marker + info == indent + (marker + info);
    RunOf(indent, marker + info, Blank);
    RunOf(marker, info, Backtick);
    ParseInfoOf(info);
    hide ParseInfo;
  }

  ghost predicate AllBlank(s: string) {
    forall i :: 0 <= i < |s| ==> s[i] in " \t\n\r"
  }

  ghost predicate NoBlank(s: string) {
    forall i :: 0 <= i < |s| ==> s[i] !in " \t\n\r"
  }

  /** `s` is white space, a marker of three or more backticks and nothing but one word
      after it, the marker taking every backtick it can. */
  ghost predicate FenceText(s: string, f: FenceLine, gap: string, trail: string) {
    && s == f.indent + f.marker + gap + f.info + trail
    && AllBlank(f.indent) && AllBlank(gap) && AllBlank(trail) && NoBlank(f.info)
    && |f.marker| >= 3 && (forall i :: 0 <= i < |f.marker| ==> f.marker[i] == '`')
    && (gap == "" && f.info != "" ==> f.info[0] != '`') && (f.info == "" ==> gap == "")
  }

  lemma RunOfBlank(head: string, tail: string)
    requires AllBlank(head) && (tail == "" || tail[0] !in " \t\n\r")
    ensures Run(head + tail, Blank) == |head| && (head + tail)[|head|..] == tail && (head + tail)[..|head|] == head
  {
    RunOf(head, tail, Blank);
  }

  lemma InfoOf(gap: string, info: string, trail: string)
    requires AllBlank(gap) && AllBlank(trail) && NoBlank(info) && (info == "" ==> gap == "")
    ensures ParseInfo(gap + info + trail) == Some(info)
  {
    assert gap + info + trail == gap + (info + trail);
    if info == "" {
      assert gap + info + trail == trail + "";
      RunOfBlank(trail, "");
      RunOf("", "", Word);
    } else {
      RunOfBlank(gap, info + trail);
      RunOf(info, trail, Word);
      assert trail + "" == trail;
      RunOfBlank(trail, "");
    }
  }

  lemma TextParses(s: string, f: FenceLine, gap: string, trail: string)
    requires FenceText(s, f, gap, trail)
    ensures ParseFence(Line(s)) == Some(f)
  {
    var rest := gap + f.info + trail;
    assert s == f.indent + (f.marker + rest);
    RunOfBlank(f.indent, f.marker + rest);
    assert rest == "" || rest[0] != '`';
    RunOf(f.marker, rest, Backtick);
    InfoOf(gap, f.info, trail);
    hide ParseInfo;
  }

  lemma ParsedInfo(rest: string) returns (gap: string, trail: string)
    requires ParseInfo(rest).Some?
    ensures var info := ParseInfo(rest).value;
            && rest == gap + info + trail && AllBlank(gap) && AllBlank(trail) && NoBlank(info)
            && (info == "" ==> gap == "")
  {
    var n := Run(rest, Blank);
    var trimmed := rest[n..];
    var word := Run(trimmed, Word);
    assert n < |rest| ==> trimmed[0] == rest[n];
    if word == 0 {
      gap, trail := "", rest;
    } else {
      gap, trail := rest[..n], trimmed[word..];
    }
  }

  lemma ParsedText(s: string, f: FenceLine) returns (gap: string, trail: string)
    requires ParseFence(Line(s)) == Some(f)
    ensures FenceText(s, f, gap, trail)
  {
    hide ParseInfo, AllBlank, NoBlank;
    var i := Run(s, Blank);
    var afterIndent := s[i..];
    var t := Run(afterIndent, Backtick);
    gap, trail := ParsedInfo(afterIndent[t..]);
    CutInParts(s, i, t, gap, f.info, trail);
    BlankRun(s);
    if gap == "" && f.info != "" {
      assert afterIndent[t..][0] == afterIndent[t] == f.info[0];
    }
  }

  lemma BlankRun(s: string)
    ensures AllBlank(s[..Run(s, Blank)])
  {
  }

  lemma CutInParts(s: string, i: nat, t: nat, gap: string, info: string, trail: string)
    requires i <= |s| && t <= |s[i..]| && s[i..][t..] == gap + info + trail
    ensures s == s[..i] + s[i..][..t] + gap + info + trail
  {
    assert s == s[..i] + s[i..][..t] + s[i..][t..];
  }

  /** Exactly the lines that are fence lines, and their parts. */
  lemma FenceLineIff(s: string, f: FenceLine)
    ensures ParseFence(Line(s)) == Some(f) <==> exists gap, trail :: FenceText(s, f, gap, trail)
  {
    hide ParseFence, FenceText;
    if ParseFence(Line(s)) == Some(f) {
      var gap, trail := ParsedText(s, f);
    }
    if gap, trail :| FenceText(s, f, gap, trail) {
      TextParses(s, f, gap, trail);
    }
  }

  lemma LowerIs(c: char, lower: char, upper: char)
    requires 'a' <= lower <= 'z' && upper == lower - 'a' + 'A'
    ensures LowerChar(c) == lower <==> c == lower || c == upper
  {
  }

  lemma MermaidIff(info: string)
    ensures IsMermaid(info) <==>
            |info| == 7 && forall i :: 0 <= i < 7 ==> info[i] == "mermaid"[i] || info[i] == "MERMAID"[i]
  {
    hide LowerChar;
    var lower, upper := "mermaid", "MERMAID";
    assert lower[0] == 'm' && lower[1] == 'e' && lower[2] == 'r' && lower[3] == 'm' && lower[4] == 'a'
           && lower[5] == 'i' && lower[6] == 'd';
    if |info| == 7 {
      forall i | 0 <= i < 7 ensures LowerChar(info[i]) == lower[i] <==> info[i] == lower[i] || info[i] == upper[i] {
        LowerIs(info[i], lower[i], upper[i]);
      }
    }
  }

  /** What a fence line does: one with a word opens a fence, of mermaid if the word is
      that in any case; one without closes every fence of no more backticks. */
  lemma FenceLineActs(line: Line, f: FenceLine, length: nat)
    requires ParseFence(line) == Some(f)
    ensures Opens(line) <==> f.info != ""
    ensures Opens(line) ==> Indent(line) == f.indent && Marker(line) == f.marker
    ensures OpensMermaid(line) <==>
            |f.info| == 7 && forall i :: 0 <= i < 7 ==> f.info[i] == "mermaid"[i] || f.info[i] == "MERMAID"[i]
    ensures Closes(line, length) <==> f.info == "" && |f.marker| >= length
  {
    hide ParseFence, IsMermaid;
    MermaidIff(f.info);
  }

  /** The label a degraded diagram gets: a tracked fence that is no diagram. */
  lemma TextLine(indent: string, marker: string)
    requires FenceParts(indent, marker)
    ensures var line := Line(indent + marker + "text");
            Opens(line) && !OpensMermaid(line) && Marker(line) == marker
  {
    ParseBuilt(indent, marker, "text");
    hide ParseFence;
  }

  lemma CloseLine(indent: string, marker: string)
    requires FenceParts(indent, marker)
    ensures Closes(Line(indent + marker), |marker|)
  {
    ParseBuilt(indent, marker, "");
    assert indent + marker + "" == indent + marker;
    hide ParseFence;
  }

  /** An HTML comment is no fence line, however it is indented. */
  lemma CommentLine(indent: string, text: string)
    requires forall i :: 0 <= i < |indent| ==> Is(Blank, indent[i])
    requires text != "" && text[0] == '<'
    ensures !Opens(Line(indent + text))
  {
    RunOf(indent, text, Blank);
    hide ParseInfo;
  }
}
