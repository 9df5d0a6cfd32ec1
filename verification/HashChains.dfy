/** Histories in which every entry names the digest of the one before it. */
module HashChains {
  import opened Sequences

  /** The digest a history ends on. */
  function HeadOf<E, H>(history: seq<E>, sha: E -> H, root: H): H {
    if history == [] then root else sha(history[|history| - 1])
  }

  /** Each entry names its predecessor's digest, the first one the root, which is no entry's. */
  ghost predicate Linked<E, H>(history: seq<E>, sha: E -> H, previous: E -> H, root: H) {
    forall i :: 0 <= i < |history| ==>
      previous(history[i]) == HeadOf(history[..i], sha, root) && sha(history[i]) != root
  }

  lemma LinkedSnoc<E, H>(history: seq<E>, last: E, sha: E -> H, previous: E -> H, root: H)
    requires Linked(history, sha, previous, root)
    requires previous(last) == HeadOf(history, sha, root) && sha(last) != root
    ensures Linked(history + [last], sha, previous, root)
  {
    var next := history + [last];
    forall i | 0 <= i < |next|
      ensures previous(next[i]) == HeadOf(next[..i], sha, root) && sha(next[i]) != root
    {
      assert next[..i] == history[..i];
    }
    assert history[..|history|] == history;
  }

  lemma LinkedPrefix<E, H>(history: seq<E>, sha: E -> H, previous: E -> H, root: H)
    requires Linked(history, sha, previous, root) && history != []
    ensures Linked(history[..|history| - 1], sha, previous, root)
    ensures previous(history[|history| - 1]) == HeadOf(history[..|history| - 1], sha, root)
  {
    var init := history[..|history| - 1];
    forall i | 0 <= i < |init|
      ensures previous(init[i]) == HeadOf(init[..i], sha, root) && sha(init[i]) != root
    {
      assert init[..i] == history[..i];
    }
  }

  /** Chained histories with the same head are the same, entry for entry, as long as
      digests tell their entries apart. */
  lemma {:induction false} EqualHeads<E, H>(h: seq<E>, k: seq<E>, sha: E -> H, previous: E -> H, root: H)
    requires Linked(h, sha, previous, root) && Linked(k, sha, previous, root)
    requires forall i, j :: 0 <= i < |h| && 0 <= j < |k| && sha(h[i]) == sha(k[j]) ==> h[i] == k[j]
    requires HeadOf(h, sha, root) == HeadOf(k, sha, root)
    ensures h == k
    decreases |h|
  {
    if h != [] && k != [] {
      LinkedPrefix(h, sha, previous, root);
      LinkedPrefix(k, sha, previous, root);
      EqualHeads(h[..|h| - 1], k[..|k| - 1], sha, previous, root);
      SnocEqual(h, k);
    }
  }
}
