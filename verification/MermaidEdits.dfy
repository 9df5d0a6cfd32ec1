/** The scan for mermaid fences and the edit that degrades the failing ones. */
module MermaidEdits {
  import opened Wrappers
  import opened FenceLines
  import opened MermaidFences

  datatype Fence = Fence(openLine: nat, closeLine: nat, indent: string, marker: string, body: seq<Line>)

  /** The mermaid fence a block is, if it is one and starts at line `at`. */
  function OwnFences(b: Block, at: nat): seq<Fence>
    requires BlockFits(b)
  {
    if b.Fenced? && b.mermaid
    then [Fence(at, at + |b.body| + 1, Indent(b.open), Marker(b.open), b.body)] else []
  }

  function FencesOf(blocks: seq<Block>, at: nat): seq<Fence>
    requires BlocksFit(blocks)
    decreases |blocks|
  {
    if blocks == [] then []
    else OwnFences(blocks[0], at) + FencesOf(blocks[1..], at + |LinesOf(blocks[0])|)
  }

  lemma FencesOfCons(b: Block, rest: seq<Block>, at: nat)
    requires BlockFits(b) && BlocksFit(rest) && BlocksFit([b] + rest)
    ensures FencesOf([b] + rest, at) == OwnFences(b, at) + FencesOf(rest, at + |LinesOf(b)|)
  {
    hide BlockFits, OwnFences, LinesOf;
    assert ([b] + rest)[1..] == rest;
  }

  /** The fences a scan started at line `i` finds. */
  function FencesFrom(lines: seq<Line>, i: nat): seq<Fence>
    requires i <= |lines|
  {
    BlocksOfLines(lines[i..]);
    FencesOf(Blocks(lines[i..]), i)
  }

  lemma ScanPlainLine(lines: seq<Line>, i: nat)
    requires i < |lines| && !Opens(lines[i])
    ensures FencesFrom(lines, i) == FencesFrom(lines, i + 1)
  {
    hide Opens, OpensMermaid, Closes, Marker, Indent, FencesOf;
    BlocksOfLines(lines[i..]);
    BlocksOfLines(lines[i + 1..]);
    assert lines[i..][1..] == lines[i + 1..];
    FencesOfCons(Plain(lines[i]), Blocks(lines[i + 1..]), i);
  }

  lemma BlocksOfFence(lines: seq<Line>, o: nat, n: nat)
    requires o < n < |lines| && Opens(lines[o]) && Closes(lines[n], |Marker(lines[o])|)
    requires forall j :: o < j < n ==> !Closes(lines[j], |Marker(lines[o])|)
    ensures var b := Fenced(OpensMermaid(lines[o]), lines[o], lines[o + 1..n], lines[n]);
            BlockFits(b) && Blocks(lines[o..]) == [b] + Blocks(lines[n + 1..])
  {
    hide Opens, OpensMermaid, Closes, Marker;
    assert lines[o..] == [lines[o]] + lines[o + 1..n] + [lines[n]] + lines[n + 1..];
    ScanFenced(OpensMermaid(lines[o]), lines[o], lines[o + 1..n], lines[n], lines[n + 1..]);
  }

  lemma ScanClosedFence(lines: seq<Line>, o: nat, n: nat)
    requires o < n < |lines| && Opens(lines[o]) && Closes(lines[n], |Marker(lines[o])|)
    requires forall j :: o < j < n ==> !Closes(lines[j], |Marker(lines[o])|)
    ensures FencesFrom(lines, o)
         == (if OpensMermaid(lines[o])
             then [Fence(o, n, Indent(lines[o]), Marker(lines[o]), lines[o + 1..n])] else [])
            + FencesFrom(lines, n + 1)
  {
    hide Opens, OpensMermaid, Closes, Marker, Indent, FencesOf, Blocks, BlockFits, BlocksFit, Flatten;
    BlocksOfFence(lines, o, n);
    BlocksOfLines(lines[o..]);
    BlocksOfLines(lines[n + 1..]);
    var b := Fenced(OpensMermaid(lines[o]), lines[o], lines[o + 1..n], lines[n]);
    FencesOfCons(b, Blocks(lines[n + 1..]), o);
    assert |LinesOf(b)| == n + 1 - o;
  }

  lemma ScanOpenFence(lines: seq<Line>, o: nat)
    requires o < |lines| && Opens(lines[o])
    requires forall j :: o < j < |lines| ==> !Closes(lines[j], |Marker(lines[o])|)
    ensures FencesFrom(lines, o) == []
  {
    hide Opens, OpensMermaid, Closes, Marker, Indent;
    var b := Unclosed(lines[o..]);
    assert BlockFits(b);
    ScanUnclosed(lines[o..]);
    BlocksOfLines(lines[o..]);
    NoBlocks();
    assert [b] + [] == [b];
    FencesOfCons(b, [], o);
  }

  lemma ScanEnds(lines: seq<Line>)
    ensures FencesFrom(lines, |lines|) == []
  {
  }

  function Bodies(fences: seq<Fence>): seq<seq<Line>> {
    if fences == [] then [] else [fences[0].body] + Bodies(fences[1..])
  }

  lemma BodiesOfOwn(b: Block, at: nat, rest: seq<Fence>)
    requires BlockFits(b)
    ensures Bodies(OwnFences(b, at) + rest) == (if b.Fenced? && b.mermaid then [b.body] else []) + Bodies(rest)
  {
    hide BlockFits, Indent, Marker;
    var own := OwnFences(b, at);
    assert own == [] ==> own + rest == rest;
    assert own != [] ==> (own + rest)[1..] == rest;
  }

  lemma {:induction false} BodiesOfBlocks(blocks: seq<Block>, at: nat)
    requires BlocksFit(blocks)
    ensures Bodies(FencesOf(blocks, at)) == Diagrams(blocks)
    decreases |blocks|
  {
    hide BlockFits, Bodies, OwnFences, LinesOf;
    if blocks == [] {
      NoBodies(at);
    } else {
      var next := at + |LinesOf(blocks[0])|;
      BodiesOfBlocks(blocks[1..], next);
      BodiesOfOwn(blocks[0], at, FencesOf(blocks[1..], next));
    }
  }

  lemma NoBodies(at: nat)
    ensures Bodies(FencesOf([], at)) == []
  {
  }

  /** Scanning a degraded page again finds exactly the diagrams that passed, in order. */
  lemma RescanFindsWhatPassed(h: Heuristic, lines: seq<Line>)
    ensures Bodies(FencesFrom(Degraded(h, lines), 0)) == Passing(h, Bodies(FencesFrom(lines, 0)))
  {
    hide Blocks, FencesOf, Bodies, Diagrams, Passing, Degraded;
    var page := Degraded(h, lines);
    assert lines[0..] == lines && page[0..] == page;
    BlocksOfLines(lines);
    BlocksOfLines(page);
    BodiesOfBlocks(Blocks(lines), 0);
    BodiesOfBlocks(Blocks(page), 0);
    DegradingIsIdempotent(h, lines);
  }

  /** The scan: one pass over the lines, in a tracked diagram, in another labelled
      fence, or in neither. A fence left open at the end is dropped. */
  method ExtractMermaidFences(lines: seq<Line>) returns (fences: seq<Fence>)
    ensures fences == FencesFrom(lines, 0)
  {
    hide Opens, OpensMermaid, Closes, Marker, Indent, FencesFrom;
    fences := [];
    var openFence: Option<Fence> := None;
    var genericMarker: Option<string> := None;
    ghost var o := 0;
    for idx := 0 to |lines|
      invariant openFence.None? || genericMarker.None?
      invariant openFence.None? && genericMarker.None? ==> o == idx
      invariant openFence.Some? || genericMarker.Some? ==>
                  && o < idx && Opens(lines[o])
                  && forall j :: o < j < idx ==> !Closes(lines[j], |Marker(lines[o])|)
      invariant openFence.Some? ==>
                  && OpensMermaid(lines[o])
                  && openFence.value == Fence(o, o, Indent(lines[o]), Marker(lines[o]), lines[o + 1..idx])
      invariant genericMarker.Some? ==>
                  !OpensMermaid(lines[o]) && genericMarker.value == Marker(lines[o])
      invariant fences + FencesFrom(lines, o) == FencesFrom(lines, 0)
    {
      var line := lines[idx];
      if openFence.Some? {
        if Closes(line, |openFence.value.marker|) {
          ScanClosedFence(lines, o, idx);
          fences := fences + [openFence.value.(closeLine := idx)];
          openFence := None;
          o := idx + 1;
        } else {
          openFence := Some(openFence.value.(body := openFence.value.body + [line]));
        }
      } else if genericMarker.Some? {
        if Closes(line, |genericMarker.value|) {
          ScanClosedFence(lines, o, idx);
          genericMarker := None;
          o := idx + 1;
        }
      } else if Opens(line) {
        if OpensMermaid(line) {
          openFence := Some(Fence(idx, idx, Indent(line), Marker(line), []));
        } else {
          genericMarker := Some(Marker(line));
        }
      } else {
        ScanPlainLine(lines, idx);
        o := idx + 1;
      }
    }
    if openFence.Some? || genericMarker.Some? {
      ScanOpenFence(lines, o);
    } else {
      ScanEnds(lines);
    }
  }

  /** Where a fence lies in a page of `n` lines. */
  ghost predicate Placed(fences: seq<Fence>, n: nat) {
    forall f :: f in fences ==> f.openLine < f.closeLine < n && |f.body| == f.closeLine - f.openLine - 1
  }

  function NewLines(f: Fence, error: string): seq<Line> {
    [Line(f.indent + Comment(error)), Line(f.indent + f.marker + "text")] + f.body + [Line(f.indent + f.marker)]
  }

  function Splice(h: Heuristic, lines: seq<Line>, f: Fence): (r: seq<Line>)
    requires Placed([f], |lines|) && h(f.body).Some?
    ensures |r| == |lines| + 1
  {
    assert f in [f];
    lines[..f.openLine] + NewLines(f, h(f.body).value) + lines[f.closeLine + 1..]
  }

  /** The page after the fences are replaced, last one first. */
  function SpliceAll(h: Heuristic, lines: seq<Line>, fences: seq<Fence>): (r: seq<Line>)
    requires Placed(fences, |lines|) && forall f :: f in fences ==> h(f.body).Some?
    ensures |r| == |lines| + |fences|
  {
    if fences == [] then lines
    else Splice(h, SpliceAll(h, lines, fences[1..]), fences[0])
  }

  function Failing(h: Heuristic, fences: seq<Fence>): (r: seq<Fence>)
    ensures forall f :: f in r ==> f in fences && h(f.body).Some?
  {
    if fences == [] then []
    else (if h(fences[0].body).Some? then [fences[0]] else []) + Failing(h, fences[1..])
  }

  lemma {:induction false} FailingAppend(h: Heuristic, a: seq<Fence>, b: seq<Fence>)
    ensures Failing(h, a + b) == Failing(h, a) + Failing(h, b)
    decreases |a|
  {
    if a == [] {
      assert a + b == b;
    } else {
      assert (a + b)[1..] == a[1..] + b;
      FailingAppend(h, a[1..], b);
    }
  }

  lemma OwnFailing(h: Heuristic, b: Block, at: nat)
    requires BlockFits(b)
    ensures Failing(h, OwnFences(b, at)) == if Fails(h, b) then OwnFences(b, at) else []
    ensures Fails(h, b) ==> |OwnFences(b, at)| == 1
  {
    hide BlockFits, Indent, Marker;
  }

  lemma SpliceMiddle(h: Heuristic, prefix: seq<Line>, middle: seq<Line>, rest: seq<Line>, f: Fence)
    requires f.openLine == |prefix| && f.closeLine == |prefix| + |middle| - 1
    requires |f.body| == |middle| - 2 && h(f.body).Some?
    ensures Placed([f], |prefix + middle + rest|)
    ensures Splice(h, prefix + middle + rest, f) == prefix + NewLines(f, h(f.body).value) + rest
  {
    hide NewLines;
    var lines := prefix + middle + rest;
    assert lines[..f.openLine] == prefix && lines[f.closeLine + 1..] == rest;
  }

  lemma NewLinesOf(h: Heuristic, b: Block, f: Fence)
    requires BlockFits(b) && Fails(h, b)
    requires f.indent == Indent(b.open) && f.marker == Marker(b.open) && f.body == b.body
    ensures Flatten(Degrade(h, b)) == NewLines(f, h(b.body).value)
  {
    hide Opens, OpensMermaid, Closes, Indent, Marker, Comment;
    var r := Replacement(h, b);
    assert r[1..] == [r[1]] && [r[1]][1..] == [];
    var comment, opener, end := r[0].line, r[1].open, r[1].close;
    assert Flatten([r[1]]) == [opener] + b.body + [end] + Flatten([]);
    assert [comment] + ([opener] + b.body + [end] + []) == [comment, opener] + b.body + [end];
  }

  lemma SpliceOwn(h: Heuristic, b: Block, prefix: seq<Line>, rest: seq<Line>)
    requires BlockFits(b) && Fails(h, b)
    ensures var own, lines := OwnFences(b, |prefix|), prefix + LinesOf(b) + rest;
            && |own| == 1 && Placed(own, |lines|) && h(own[0].body).Some?
            && Splice(h, lines, own[0]) == prefix + Flatten(Degrade(h, b)) + rest
  {
    hide BlockFits, Indent, Marker, NewLines, Degrade, Splice, Flatten;
    var f := OwnFences(b, |prefix|)[0];
    SpliceMiddle(h, prefix, LinesOf(b), rest, f);
    NewLinesOf(h, b, f);
  }

  lemma {:induction false} FlattenAppend(a: seq<Block>, b: seq<Block>)
    ensures Flatten(a + b) == Flatten(a) + Flatten(b)
    decreases |a|
  {
    hide LinesOf;
    if a == [] {
      assert a + b == b;
    } else {
      assert (a + b)[1..] == a[1..] + b;
      FlattenAppend(a[1..], b);
    }
  }

  /** What degrading by splices does to a page that starts with `prefix`. */
  ghost predicate SplicesTo(h: Heuristic, blocks: seq<Block>, prefix: seq<Line>, fences: seq<Fence>)
    requires BlocksFit(blocks)
  {
    && fences == Failing(h, FencesOf(blocks, |prefix|))
    && |fences| == Failures(h, blocks)
    && Placed(fences, |prefix + Flatten(blocks)|)
    && SpliceAll(h, prefix + Flatten(blocks), fences) == prefix + Flatten(DegradeAll(h, blocks))
  }

  lemma FailingCons(h: Heuristic, b: Block, rest: seq<Block>, at: nat)
    requires BlockFits(b) && BlocksFit(rest) && BlocksFit([b] + rest)
    ensures Failing(h, FencesOf([b] + rest, at))
         == (if Fails(h, b) then OwnFences(b, at) else []) + Failing(h, FencesOf(rest, at + |LinesOf(b)|))
    ensures Failures(h, [b] + rest) == (if Fails(h, b) then 1 else 0) + Failures(h, rest)
  {
    hide BlockFits, FencesOf, OwnFences, LinesOf, Failing;
    assert ([b] + rest)[1..] == rest;
    FencesOfCons(b, rest, at);
    OwnFailing(h, b, at);
    FailingAppend(h, OwnFences(b, at), FencesOf(rest, at + |LinesOf(b)|));
  }

  lemma FlattenCons(h: Heuristic, b: Block, rest: seq<Block>, prefix: seq<Line>)
    requires BlockFits(b) && BlocksFit(rest) && BlocksFit([b] + rest)
    ensures prefix + Flatten([b] + rest) == prefix + LinesOf(b) + Flatten(rest)
    ensures prefix + Flatten(DegradeAll(h, [b] + rest))
         == prefix + Flatten(Degrade(h, b)) + Flatten(DegradeAll(h, rest))
  {
    hide BlockFits, LinesOf, Degrade;
    assert ([b] + rest)[0] == b && ([b] + rest)[1..] == rest;
    FlattenAppend(Degrade(h, b), DegradeAll(h, rest));
    var lines, degraded := Flatten(rest), Flatten(DegradeAll(h, rest));
    assert prefix + (LinesOf(b) + lines) == prefix + LinesOf(b) + lines;
    assert prefix + (Flatten(Degrade(h, b)) + degraded) == prefix + Flatten(Degrade(h, b)) + degraded;
  }

  lemma SpliceKept(h: Heuristic, b: Block, rest: seq<Block>, prefix: seq<Line>, fences: seq<Fence>)
    requires BlockFits(b) && BlocksFit(rest) && BlocksFit([b] + rest) && !Fails(h, b)
    requires SplicesTo(h, rest, prefix + LinesOf(b), fences)
    ensures SplicesTo(h, [b] + rest, prefix, fences)
  {
    hide BlockFits, FencesOf, OwnFences, SpliceAll, Placed, LinesOf, Failing, Failures, DegradeAll;
    FailingCons(h, b, rest, |prefix|);
    FlattenCons(h, b, rest, prefix);
    assert [] + fences == fences;
    assert [b][1..] == [] && Flatten([b]) == LinesOf(b);
  }

  lemma SpliceReplaced(h: Heuristic, b: Block, rest: seq<Block>, prefix: seq<Line>, fences: seq<Fence>)
    requires BlockFits(b) && BlocksFit(rest) && BlocksFit([b] + rest) && Fails(h, b)
    requires SplicesTo(h, rest, prefix + LinesOf(b), fences)
    ensures SplicesTo(h, [b] + rest, prefix, OwnFences(b, |prefix|) + fences)
  {
    hide BlockFits, FencesOf, OwnFences, Splice, LinesOf, Failing, Failures, Flatten, DegradeAll, Degrade;
    var own := OwnFences(b, |prefix|);
    FailingCons(h, b, rest, |prefix|);
    FlattenCons(h, b, rest, prefix);
    SpliceOwn(h, b, prefix, Flatten(rest));
    SpliceOwn(h, b, prefix, Flatten(DegradeAll(h, rest)));
    assert (own + fences)[0] == own[0] && (own + fences)[1..] == fences;
  }

  lemma SplicesNothing(h: Heuristic, prefix: seq<Line>)
    ensures BlocksFit([]) && SplicesTo(h, [], prefix, [])
  {
  }

  lemma FirstFits(blocks: seq<Block>)
    requires BlocksFit(blocks) && blocks != []
    ensures BlockFits(blocks[0]) && BlocksFit(blocks[1..]) && blocks == [blocks[0]] + blocks[1..]
  {
    hide BlockFits;
  }

  /** Splicing replacements over the failing fences, last one first, degrades the
      blocks: no splice moves a line that an earlier fence's numbers point at. */
  lemma {:induction false} SplicesDegrade(h: Heuristic, blocks: seq<Block>, prefix: seq<Line>)
    returns (fences: seq<Fence>)
    requires BlocksFit(blocks)
    ensures SplicesTo(h, blocks, prefix, fences)
    decreases |blocks|
  {
    hide *;
    if blocks == [] {
      fences := [];
      SplicesNothing(h, prefix);
    } else {
      var b, rest := blocks[0], blocks[1..];
      FirstFits(blocks);
      fences := SplicesDegrade(h, rest, prefix + LinesOf(b));
      if Fails(h, b) {
        SpliceReplaced(h, b, rest, prefix, fences);
        fences := OwnFences(b, |prefix|) + fences;
      } else {
        SpliceKept(h, b, rest, prefix, fences);
      }
    }
  }

  lemma FailuresOfPage(h: Heuristic, lines: seq<Line>)
    ensures var failures := Failing(h, FencesFrom(lines, 0));
            && Placed(failures, |lines|)
            && |failures| == Failures(h, Blocks(lines))
            && SpliceAll(h, lines, failures) == Degraded(h, lines)
  {
    hide Blocks, FencesOf, SpliceAll, Placed;
    BlocksOfLines(lines);
    assert lines[0..] == lines;
    var fences := SplicesDegrade(h, Blocks(lines), []);
    assert [] + lines == lines;
    var out := Flatten(DegradeAll(h, Blocks(lines)));
    assert [] + out == out;
  }

  /** Degrading in place: find the fences, keep those that fail, and splice the
      replacements in from the bottom of the page up. */
  method DegradeInvalidMermaid(lines: seq<Line>, h: Heuristic) returns (page: seq<Line>, count: nat)
    ensures page == Degraded(h, lines) && count == Failures(h, Blocks(lines))
  {
    hide Blocks, FencesFrom, Degraded, Splice;
    var fences := ExtractMermaidFences(lines);
    var failures := Failing(h, fences);
    FailuresOfPage(h, lines);
    count := |failures|;
    page := lines;
    var k: nat := |failures|;
    while k > 0
      invariant k <= |failures|
      invariant page == SpliceAll(h, lines, failures[k..])
    {
      k := k - 1;
      assert failures[k..][1..] == failures[k + 1..];
      assert failures[k] in failures;
      page := Splice(h, page, failures[k]);
    }
    assert failures[0..] == failures;
  }
}
