/**
 * The definition patterns of server/src/server.ts:30-35 and 451, 465 start
 * with ordered alternations such as `(class|cls|struct|...)\s+`. A regular
 * expression tries the alternatives left to right and backtracks into the
 * next one when the rest of the pattern fails. This module writes that
 * search out literally and proves that `Symbols.KeywordHead` and
 * `Symbols.ModifiedHead`, which look only at the first word, agree with it
 * whenever no alternative contains a space, as holds for every word list of
 * the engine.
 */
module Alternation {
  import opened Wrappers
  import opened Patterns
  import opened Symbols

  /** `(kw1|kw2|...)\s+` at `i` followed by an `init` character, the alternatives tried in order. */
  function OrderedKeywordHead(r: string, i: nat, kws: seq<string>, init: Initial): Option<Head> {
    match FirstWordThenSpaces(r, i, kws)
    case Some((kw, j)) => if j < |r| && StartsAs(r[j], init) then Some(Head(kw, j)) else None
    case None => None
  }

  /** `^(?:m1\s+|m2\s+|...)?` then a keyword head: each modifier in order, then none. */
  function OrderedModifiedHead(r: string, mods: seq<string>, kws: seq<string>, init: Initial): Option<Head>
    decreases |mods|
  {
    if mods == [] then OrderedKeywordHead(r, 0, kws, init)
    else
      var viaModifier :=
        match WordThenSpaces(r, 0, mods[0])
        case Some(j) => OrderedKeywordHead(r, j, kws, init)
        case None => None;
      if viaModifier.Some? then viaModifier else OrderedModifiedHead(r, mods[1..], kws, init)
  }

  /** `w\s+` for the word found at `i` matches exactly when some space follows that word. */
  lemma WordThenSpacesOfToken(r: string, i: nat)
    requires i <= |r|
    ensures WordThenSpaces(r, i, TokenAt(r, i)) ==
      if RunEnd(r, i, NotSpace) < |r| then Some(RunEnd(r, RunEnd(r, i, NotSpace), Space)) else None
  {
  }

  lemma KeywordHeadIsOrdered(r: string, i: nat, kws: seq<string>, init: Initial)
    requires i <= |r| && AllNoSpaces(kws)
    ensures KeywordHead(r, i, kws, init) == OrderedKeywordHead(r, i, kws, init)
  {
    FirstWordThenSpacesToken(r, i, kws);
    WordThenSpacesOfToken(r, i);
    var tok := TokenAt(r, i);
    if tok in kws && WordThenSpaces(r, i, tok).Some? {
      FirstWordThenSpacesFinds(r, i, kws, tok);
    }
  }

  lemma {:induction false} ModifiedHeadIsOrdered(r: string, mods: seq<string>, kws: seq<string>, init: Initial)
    requires AllNoSpaces(mods) && AllNoSpaces(kws)
    ensures ModifiedHead(r, mods, kws, init) == OrderedModifiedHead(r, mods, kws, init)
    decreases |mods|
  {
    var e := RunEnd(r, 0, NotSpace);
    var tok := TokenAt(r, 0);
    WordThenSpacesOfToken(r, 0);
    KeywordHeadIsOrdered(r, 0, kws, init);
    if e < |r| {
      KeywordHeadIsOrdered(r, RunEnd(r, e, Space), kws, init);
    }
    if mods != [] {
      ModifiedHeadIsOrdered(r, mods[1..], kws, init);
      WordThenSpacesToken(r, 0, mods[0]);
      assert tok in mods <==> tok == mods[0] || tok in mods[1..];
    }
  }
}
