/** Repository paths as component lists, and why the two overlap tests of the
    ownership checks agree. */
module ModulePaths {
  import opened Wrappers

  function Split(s: string): (r: seq<string>)
    ensures r != []
  {
    if s == "" then [""]
    else if s[0] == '/' then [""] + Split(s[1..])
    else
      var r := Split(s[1..]);
      [[s[0]] + r[0]] + r[1..]
  }

  function Join(parts: seq<string>): string {
    if parts == [] then ""
    else if |parts| == 1 then parts[0]
    else parts[0] + "/" + Join(parts[1..])
  }

  function Clean(parts: seq<string>): seq<string> {
    if parts == [] then []
    else if parts[0] == "" || parts[0] == "." then Clean(parts[1..])
    else [parts[0]] + Clean(parts[1..])
  }

  /** The parts of a relative path: empty and `.` components vanish. */
  function Parts(s: string): seq<string> {
    Clean(Split(s))
  }

  predicate IsBlank(s: string) {
    forall i :: 0 <= i < |s| ==> s[i] in " \t\n\r"
  }

  /** A repo-relative prefix in normal form; `None` where the program raises. */
  function NormalizePrefix(s: string): Option<string> {
    if IsBlank(s) || s[0] == '/' || ".." in Parts(s) || Parts(s) == [] then None
    else Some(Join(Parts(s)))
  }

  /** The string test used when classifying a path. */
  predicate PathMatches(path: string, prefix: string) {
    path == prefix || prefix + "/" <= path
  }

  /** The component test used when validating module roots. */
  predicate OwnsOverlap(left: string, right: string) {
    Parts(left) <= Parts(right) || Parts(right) <= Parts(left)
  }

  ghost predicate CleanParts(parts: seq<string>) {
    forall c :: c in parts ==> c != "" && '/' !in c
  }

  lemma {:induction false} SplitHasNoSlash(s: string)
    ensures forall c :: c in Split(s) ==> '/' !in c
  {
    if s != "" {
      SplitHasNoSlash(s[1..]);
    }
  }

  lemma {:induction false} CleanKeeps(parts: seq<string>)
    ensures forall c :: c in Clean(parts) ==> c in parts && c != ""
  {
    if parts != [] {
      CleanKeeps(parts[1..]);
    }
  }

  lemma PartsAreClean(s: string)
    ensures CleanParts(Parts(s))
  {
    SplitHasNoSlash(s);
    CleanKeeps(Split(s));
  }

  lemma {:induction false} SplitAtSlash(x: string, r: string)
    ensures Split(x + "/" + r) == Split(x) + Split(r)
  {
    var whole := x + "/" + r;
    if x == "" {
      assert whole[1..] == r;
    } else {
      assert whole[1..] == x[1..] + "/" + r;
      SplitAtSlash(x[1..], r);
    }
  }

  lemma {:induction false} SplitComponent(c: string)
    requires '/' !in c
    ensures Split(c) == [c]
  {
    if c != "" {
      SplitComponent(c[1..]);
      assert [c[0]] + c[1..] == c;
    }
  }

  /** Splitting undoes joining. */
  lemma {:induction false} SplitJoin(parts: seq<string>)
    requires parts != [] && forall c :: c in parts ==> '/' !in c
    ensures Split(Join(parts)) == parts
  {
    if |parts| == 1 {
      SplitComponent(parts[0]);
    } else {
      SplitComponent(parts[0]);
      SplitAtSlash(parts[0], Join(parts[1..]));
      assert forall c :: c in parts[1..] ==> c in parts;
      SplitJoin(parts[1..]);
    }
  }

  /** Joining undoes splitting. */
  lemma {:induction false} JoinSplit(s: string)
    ensures Join(Split(s)) == s
  {
    if s != "" {
      JoinSplit(s[1..]);
      var rest := Split(s[1..]);
      if s[0] == '/' {
        assert ([""] + rest)[1..] == rest;
      } else {
        assert ([[s[0]] + rest[0]] + rest[1..])[1..] == rest[1..];
      }
    }
  }

  lemma {:induction false} CleanCounts(parts: seq<string>, c: string)
    ensures multiset(Clean(parts))[c] == if c == "" || c == "." then 0 else multiset(parts)[c]
  {
    if parts != [] {
      CleanCounts(parts[1..], c);
      assert parts == [parts[0]] + parts[1..];
      assert Clean(parts) == (if parts[0] == "" || parts[0] == "." then [] else [parts[0]]) + Clean(parts[1..]);
    }
  }

  lemma JoinStartsWithSlash(parts: seq<string>)
    requires parts != [] && '/' !in parts[0] && Join(parts) != ""
    ensures Join(parts)[0] == '/' <==> parts[0] == ""
  {
    if |parts| > 1 {
      assert Join(parts) == parts[0] + ("/" + Join(parts[1..]));
    }
  }

  /** Which paths have a normal form, and what it holds. Any text is its components
      joined by slashes. It is refused if it is blank, starts with an empty component,
      leaves the repository or names nothing; otherwise the normal form has its
      components, empty ones and dots left out. */
  lemma NormalizedIff(parts: seq<string>)
    requires parts != [] && forall c :: c in parts ==> '/' !in c
    ensures var normal := NormalizePrefix(Join(parts));
            && (normal.Some? <==>
                  && !IsBlank(Join(parts)) && parts[0] != "" && ".." !in parts
                  && exists c :: c in parts && c != "" && c != ".")
            && (normal.Some? ==> forall c ::
                  multiset(Split(normal.value))[c] == if c == "" || c == "." then 0 else multiset(parts)[c])
  {
    hide Join, Split, Clean, IsBlank;
    var s := Join(parts);
    SplitJoin(parts);
    assert Parts(s) == Clean(parts);
    CleanKeeps(parts);
    forall c ensures multiset(Clean(parts))[c] == if c == "" || c == "." then 0 else multiset(parts)[c] {
      CleanCounts(parts, c);
    }
    forall c ensures c in Clean(parts) <==> c in parts && c != "" && c != "." {
      assert c in Clean(parts) <==> c in multiset(Clean(parts));
      assert c in parts <==> c in multiset(parts);
    }
    if Clean(parts) != [] {
      assert Clean(parts)[0] in Clean(parts);
    }
    if !IsBlank(s) {
      assert s != "" by { BlankIfEmpty(); }
      JoinStartsWithSlash(parts);
    }
    if NormalizePrefix(s).Some? {
      SplitJoin(Clean(parts));
    }
  }

  lemma BlankIfEmpty()
    ensures IsBlank("")
  {
  }

  lemma {:induction false} CleanTwice(parts: seq<string>)
    ensures Clean(Clean(parts)) == Clean(parts)
  {
    if parts != [] {
      CleanTwice(parts[1..]);
    }
  }

  /** A normal form is its own normal form, unless it is blank: a name of white space
      alone gets one only next to a dot or a slash. */
  lemma NormalizingTwice(s: string)
    requires NormalizePrefix(s).Some?
    ensures var normal := NormalizePrefix(s).value;
            NormalizePrefix(normal) == if IsBlank(normal) then None else Some(normal)
  {
    hide Split, Join, Clean, IsBlank;
    var normal := NormalizePrefix(s).value;
    PartsAreClean(s);
    SplitJoin(Parts(s));
    CleanTwice(Split(s));
    if !IsBlank(normal) {
      assert normal != "" by { BlankIfEmpty(); }
      assert Parts(s)[0] in Parts(s);
      JoinStartsWithSlash(Parts(s));
    }
  }

  lemma {:induction false} JoinAppend(a: seq<string>, b: seq<string>)
    requires a != [] && b != []
    ensures Join(a + b) == Join(a) + "/" + Join(b)
  {
    if |a| == 1 {
      assert (a + b)[1..] == b;
    } else {
      assert (a + b)[1..] == a[1..] + b;
      JoinAppend(a[1..], b);
    }
  }

  /** On normal forms the string test is the component-prefix test. */
  lemma MatchesIffPrefix(path: seq<string>, prefix: seq<string>)
    requires path != [] && prefix != [] && CleanParts(path) && CleanParts(prefix)
    ensures PathMatches(Join(path), Join(prefix)) <==> prefix <= path
  {
    SplitJoin(path);
    SplitJoin(prefix);
    if prefix <= path && prefix != path {
      var rest := path[|prefix|..];
      assert path == prefix + rest;
      JoinAppend(prefix, rest);
      assert Join(prefix) + "/" <= Join(path);
    }
    if Join(prefix) + "/" <= Join(path) {
      var r := Join(path)[|Join(prefix) + "/"|..];
      assert Join(path) == Join(prefix) + "/" + r;
      SplitAtSlash(Join(prefix), r);
    }
  }

  /** Two prefixes that match the same path overlap as roots. */
  lemma CommonPathOverlaps(path: string, left: string, right: string)
    requires NormalizePrefix(path).Some? && NormalizePrefix(left).Some? && NormalizePrefix(right).Some?
    requires PathMatches(NormalizePrefix(path).value, NormalizePrefix(left).value)
    requires PathMatches(NormalizePrefix(path).value, NormalizePrefix(right).value)
    ensures OwnsOverlap(left, right)
  {
    PartsAreClean(path);
    PartsAreClean(left);
    PartsAreClean(right);
    MatchesIffPrefix(Parts(path), Parts(left));
    MatchesIffPrefix(Parts(path), Parts(right));
    if |Parts(left)| <= |Parts(right)| {
      assert Parts(left) == Parts(right)[..|Parts(left)|];
    } else {
      assert Parts(right) == Parts(left)[..|Parts(right)|];
    }
  }
}
