/** The heading anchors a Markdown page exposes. */
module PageAnchors {
  import opened FenceLines
  import opened LinkStamps

  /** The anchor text of a heading line; the empty string when the line has none. */
  type Slugger = Line -> string

  /** Only a line that starts with a hash sign can be a heading. */
  function HeadingBase(slug: Slugger, line: Line): string {
    if line.text != "" && line.text[0] == '#' then slug(line) else ""
  }

  /** The bases of the headings, in order. */
  function Bases(slug: Slugger, lines: seq<Line>): seq<string> {
    if lines == [] then []
    else
      var base := HeadingBase(slug, lines[0]);
      (if base == "" then [] else [base]) + Bases(slug, lines[1..])
  }

  function Decimal(n: nat): string {
    (if n < 10 then "" else Decimal(n / 10)) + [('0' as int + n % 10) as char]
  }

  /** The anchor of a heading whose base occurred `n` times before. */
  function AnchorName(base: string, n: nat): string {
    if n == 0 then base else base + "-" + Decimal(n)
  }

  function Count(bases: seq<string>, base: string): nat {
    if bases == [] then 0 else Count(bases[..|bases| - 1], base) + if bases[|bases| - 1] == base then 1 else 0
  }

  function AnchorsOf(bases: seq<string>): set<string> {
    if bases == [] then {}
    else
      var before, base := bases[..|bases| - 1], bases[|bases| - 1];
      AnchorsOf(before) + {AnchorName(base, Count(before, base))}
  }

  function Anchors(slug: Slugger, lines: seq<Line>): set<string> {
    AnchorsOf(Bases(slug, lines))
  }

  ghost predicate Exposes(bases: seq<string>, anchor: string) {
    exists base, n: nat :: n < Count(bases, base) && anchor == AnchorName(base, n)
  }

  lemma CountSnoc(bases: seq<string>, last: string, base: string)
    ensures Count(bases + [last], base) == Count(bases, base) + if last == base then 1 else 0
  {
    assert (bases + [last])[..|bases|] == bases;
  }

  /** A base that heads `n` headings exposes itself and its suffixes 1 to n - 1, and
      nothing else is exposed. */
  lemma {:induction false} AnchorsAreExact(bases: seq<string>, anchor: string)
    ensures anchor in AnchorsOf(bases) <==> Exposes(bases, anchor)
    decreases |bases|
  {
    hide AnchorName;
    if bases != [] {
      var before, last := bases[..|bases| - 1], bases[|bases| - 1];
      AnchorsAreExact(before, anchor);
      assert bases == before + [last];
      forall base ensures Count(bases, base) == Count(before, base) + if last == base then 1 else 0 {
        CountSnoc(before, last, base);
      }
      if Exposes(before, anchor) {
        var base, n: nat :| n < Count(before, base) && anchor == AnchorName(base, n);
        assert n < Count(bases, base);
      } else if anchor == AnchorName(last, Count(before, last)) {
        assert Count(before, last) < Count(bases, last);
      }
    }
  }

  /** How many headings of the page have this anchor text. */
  function Headings(slug: Slugger, lines: seq<Line>, base: string): nat {
    if lines == [] then 0
    else (if "#" <= lines[0].text && slug(lines[0]) == base then 1 else 0) + Headings(slug, lines[1..], base)
  }

  lemma {:induction false} CountAppend(a: seq<string>, b: seq<string>, base: string)
    ensures Count(a + b, base) == Count(a, base) + Count(b, base)
    decreases |b|
  {
    if b == [] {
      assert a + b == a;
    } else {
      assert (a + b)[..|a + b| - 1] == a + b[..|b| - 1];
      CountAppend(a, b[..|b| - 1], base);
    }
  }

  lemma {:induction false} HeadingsCounted(slug: Slugger, lines: seq<Line>, base: string)
    ensures Count(Bases(slug, lines), base) == if base == "" then 0 else Headings(slug, lines, base)
    decreases |lines|
  {
    if lines != [] {
      var own := HeadingBase(slug, lines[0]);
      HeadingsCounted(slug, lines[1..], base);
      CountAppend(if own == "" then [] else [own], Bases(slug, lines[1..]), base);
      assert [own][..0] == [];
    }
  }

  function Digit(c: char): int {
    c as int - '0' as int
  }

  /** The number a decimal numeral stands for. */
  function Value(digits: string): int {
    if digits == "" then 0 else 10 * Value(digits[..|digits| - 1]) + Digit(digits[|digits| - 1])
  }

  lemma {:induction false} DecimalIs(n: nat)
    ensures var digits := Decimal(n);
            && digits != "" && Value(digits) == n && (n > 0 ==> digits[0] != '0')
            && forall i :: 0 <= i < |digits| ==> '0' <= digits[i] <= '9'
  {
    if n >= 10 {
      DecimalIs(n / 10);
      var front := Decimal(n / 10);
      assert Decimal(n)[..|Decimal(n)| - 1] == front;
    } else {
      assert Decimal(n)[..|Decimal(n)| - 1] == "";
    }
  }

  /** The anchor of the heading with this text after `n` others: a hyphen and the number. */
  ghost predicate IsSuffixed(slug: Slugger, lines: seq<Line>, anchor: string, base: string, n: nat) {
    base != "" && 1 <= n < Headings(slug, lines, base) && anchor == base + "-" + Decimal(n)
  }

  /** What a page exposes: for each anchor text with `k` headings the text itself and its
      suffixes 1 to `k - 1`. */
  lemma AnchorsIff(slug: Slugger, lines: seq<Line>, anchor: string)
    ensures anchor in Anchors(slug, lines) <==>
            || (anchor != "" && Headings(slug, lines, anchor) > 0)
            || exists base, n: nat :: IsSuffixed(slug, lines, anchor, base, n)
  {
    hide AnchorsOf, Bases, Headings, Decimal;
    var bases := Bases(slug, lines);
    AnchorsAreExact(bases, anchor);
    forall base ensures Count(bases, base) == if base == "" then 0 else Headings(slug, lines, base) {
      HeadingsCounted(slug, lines, base);
    }
    if Exposes(bases, anchor) {
      var base, n: nat :| n < Count(bases, base) && anchor == AnchorName(base, n);
      assert if n == 0 then anchor == base else IsSuffixed(slug, lines, anchor, base, n);
    }
    if anchor != "" && Headings(slug, lines, anchor) > 0 {
      assert 0 < Count(bases, anchor) && anchor == AnchorName(anchor, 0);
    }
    if exists base, n: nat :: IsSuffixed(slug, lines, anchor, base, n) {
      var base, n: nat :| IsSuffixed(slug, lines, anchor, base, n);
      assert n < Count(bases, base) && anchor == AnchorName(base, n);
    }
  }

  /** Stamps are no headings, so dropping them leaves every anchor. */
  lemma {:induction false} BasesIgnoreStamps(slug: Slugger, lines: seq<Line>)
    ensures Bases(slug, Kept(lines)) == Bases(slug, lines)
    decreases |lines|
  {
    hide IsStamp;
    if lines != [] {
      BasesIgnoreStamps(slug, lines[1..]);
      if IsStamp(lines[0]) {
        StampStart(lines[0]);
        assert [] + Bases(slug, lines[1..]) == Bases(slug, lines[1..]);
        assert [] + Kept(lines[1..]) == Kept(lines[1..]);
      } else {
        assert ([lines[0]] + Kept(lines[1..]))[1..] == Kept(lines[1..]);
      }
    }
  }

  lemma StrippingKeepsAnchors(slug: Slugger, page: Page)
    ensures Anchors(slug, StripStamps(page)) == Anchors(slug, page)
  {
    hide IsStamp, AnchorsOf;
    BasesIgnoreStamps(slug, page);
    assert Bases(slug, [Line("")]) == Bases(slug, [Line("")][1..]);
    assert Bases(slug, [Line("")][1..]) == [];
  }

  lemma StampingKeepsAnchors(slug: Slugger, page: Page, issues: seq<Issue>)
    requires StampFree(page)
    ensures Anchors(slug, Stamped(page, issues)) == Anchors(slug, page)
  {
    hide *;
    StrippingKeepsAnchors(slug, Stamped(page, issues));
    StripUndoesStamps(page, issues);
  }

  lemma BasesFrom(slug: Slugger, page: seq<Line>, i: nat)
    requires i < |page|
    ensures var base := HeadingBase(slug, page[i]);
            Bases(slug, page[i..]) == (if base == "" then [] else [base]) + Bases(slug, page[i + 1..])
  {
    hide HeadingBase;
    assert page[i..][1..] == page[i + 1..];
  }

  lemma AnchorsSnoc(bases: seq<string>, base: string)
    ensures AnchorsOf(bases + [base]) == AnchorsOf(bases) + {AnchorName(base, Count(bases, base))}
  {
    hide AnchorName;
    assert (bases + [base])[..|bases|] == bases;
  }

  /** How often each base was seen. */
  ghost predicate CountsOf(counts: map<string, nat>, bases: seq<string>) {
    forall base :: (if base in counts then counts[base] else 0) == Count(bases, base)
  }

  lemma CountsSnoc(counts: map<string, nat>, bases: seq<string>, base: string)
    requires CountsOf(counts, bases)
    ensures CountsOf(counts[base := Count(bases, base) + 1], bases + [base])
  {
    hide Count;
    forall b ensures Count(bases + [base], b) == Count(bases, b) + if base == b then 1 else 0 {
      CountSnoc(bases, base, b);
    }
  }

  /** One pass over the lines, counting how often each base was seen. */
  method HeadingAnchors(slug: Slugger, page: seq<Line>) returns (anchors: set<string>)
    ensures anchors == Anchors(slug, page)
  {
    hide AnchorName, HeadingBase, Bases, AnchorsOf, Count;
    var counts: map<string, nat> := map[];
    anchors := {};
    ghost var bases: seq<string> := [];
    NoBases(slug);
    assert page[0..] == page && page[|page|..] == [];
    for i := 0 to |page|
      invariant bases + Bases(slug, page[i..]) == Bases(slug, page)
      invariant anchors == AnchorsOf(bases)
      invariant CountsOf(counts, bases)
    {
      BasesFrom(slug, page, i);
      var base := HeadingBase(slug, page[i]);
      if base != "" {
        var seen := if base in counts then counts[base] else 0;
        CountsSnoc(counts, bases, base);
        AnchorsSnoc(bases, base);
        counts := counts[base := seen + 1];
        anchors := anchors + {AnchorName(base, seen)};
        bases := bases + [base];
      }
    }
    assert bases + [] == bases;
  }

  lemma NoBases(slug: Slugger)
    ensures Bases(slug, []) == [] && AnchorsOf([]) == {} && CountsOf(map[], [])
  {
  }
}
