/** An engine for escaped literal delimiters: a well-escaped source compiles
    and matches exactly where its literal text occurs. It is the part of the
    JavaScript engine that literal `begin`/`end` configurations rely on, and
    lets the scan be followed on concrete documents. */
module LiteralPatterns {
  import opened Wrappers
  import opened Escape
  import opened RegExp
  import opened Config
  import opened Matching
  import opened Scanner

  /** `lit` occurs in `text` at position `p`. */
  predicate OccursAt(lit: string, text: string, p: nat) {
    p + |lit| <= |text| && text[p..p + |lit|] == lit
  }

  /** A one-character literal occurs where that character stands. */
  lemma OccursSingle(c: char, text: string, p: nat)
    ensures OccursAt([c], text, p) <==> p < |text| && text[p] == c
  {
    if p < |text| {
      assert text[p..p + 1] == [text[p]];
    }
  }

  function LiteralMatch(source: string, text: string, p: nat): Option<nat> {
    var lit := Unescape(source);
    if |lit| > 0 && OccursAt(lit, text, p) then Some(|lit|) else None
  }

  function LiteralEngine(): Engine {
    Engine(s => WellEscaped(s), (s, t, p) => LiteralMatch(s, t, p))
  }

  lemma LiteralNonEmpty(rs: seq<FoldingRegex>)
    ensures AllNonEmpty(LiteralEngine(), rs)
  {
  }

  /** The literal text of alternative `k`. */
  function AltLiteral(rs: seq<FoldingRegex>, k: nat): string
    requires k < 2 * |rs|
  {
    Unescape(AltSource(rs, k))
  }

  /** Some alternative's (non-empty) literal text occurs at `q` of `line`. */
  predicate SomeOccurs(rs: seq<FoldingRegex>, line: string, q: nat) {
    exists k :: 0 <= k < 2 * |rs| && |AltLiteral(rs, k)| > 0 && OccursAt(AltLiteral(rs, k), line, q)
  }

  lemma MatchesAtLiteral(rs: seq<FoldingRegex>, line: string, left: nat, q: nat, k: nat)
    requires left <= |line| && k < 2 * |rs|
    ensures MatchesAt(LiteralEngine(), rs, line[left..], q, k) <==>
      |AltLiteral(rs, k)| > 0 && OccursAt(AltLiteral(rs, k), line, left + q)
  {
    var lit, text := AltLiteral(rs, k), line[left..];
    if q + |lit| <= |text| {
      assert text[q..q + |lit|] == line[left + q..left + q + |lit|];
    }
  }

  /** Literal matching does not depend on where the cursor stands. */
  lemma LiteralCursorIndependent(rs: seq<FoldingRegex>, line: string)
    ensures CursorIndependent(LiteralEngine(), rs, line)
  {
    forall left: nat, q: nat, k: nat | left <= |line| && k < 2 * |rs|
      ensures MatchesAt(LiteralEngine(), rs, line[left..], q, k) <==> MatchesAt(LiteralEngine(), rs, line, left + q, k)
    {
      MatchesAtLiteral(rs, line, left, q, k);
      MatchesAtLiteral(rs, line, 0, left + q, k);
      assert line[0..] == line;
    }
  }

  /** With literal delimiters a match of the alternation starts at `q`
      exactly when some delimiter occurs at `q`, even inside an earlier match,
      and its alternative is the first in the order b0, e0, b1, e1, ... whose
      delimiter occurs there. */
  lemma LiteralHitsAreOccurrences(rs: seq<FoldingRegex>, line: string)
    ensures AllNonEmpty(LiteralEngine(), rs)
    ensures StartsAreMatches(LiteralEngine(), rs, line, LineHits(LiteralEngine(), rs, line, 0), 0)
    ensures forall j :: 0 <= j < |LineHits(LiteralEngine(), rs, line, 0)| ==>
      FirstAlternativeAt(LiteralEngine(), rs, line, LineHits(LiteralEngine(), rs, line, 0)[j])
    ensures forall q :: 0 <= q < |line| ==> (AnyMatchAt(LiteralEngine(), rs, line, q) <==> SomeOccurs(rs, line, q))
    ensures forall q, k :: 0 <= q < |line| && 0 <= k < 2 * |rs| ==>
      (MatchesAt(LiteralEngine(), rs, line, q, k) <==> |AltLiteral(rs, k)| > 0 && OccursAt(AltLiteral(rs, k), line, q))
  {
    LiteralNonEmpty(rs);
    LiteralCursorIndependent(rs, line);
    HitsAreAllMatchPositions(LiteralEngine(), rs, line, 0);
    HitsTakeFirstAlternative(LiteralEngine(), rs, line, 0);
    assert line[0..] == line;
    forall q, k | 0 <= q < |line| && 0 <= k < 2 * |rs|
      ensures MatchesAt(LiteralEngine(), rs, line, q, k) <==> |AltLiteral(rs, k)| > 0 && OccursAt(AltLiteral(rs, k), line, q)
    {
      MatchesAtLiteral(rs, line, 0, q, k);
    }
  }

  /** On the whole line, alternative `k` matches at `q` exactly when its
      literal text occurs there. */
  lemma LiteralMatchesAt(rs: seq<FoldingRegex>, line: string, q: nat, k: nat)
    requires k < 2 * |rs|
    ensures MatchesAt(LiteralEngine(), rs, line, q, k) <==> |AltLiteral(rs, k)| > 0 && OccursAt(AltLiteral(rs, k), line, q)
  {
    MatchesAtLiteral(rs, line, 0, q, k);
    assert line[0..] == line;
  }

  /** Some alternative matches at `q` exactly when some delimiter occurs there. */
  lemma LiteralAnyMatch(rs: seq<FoldingRegex>, line: string, q: nat)
    ensures AnyMatchAt(LiteralEngine(), rs, line, q) <==> SomeOccurs(rs, line, q)
  {
    if AnyMatchAt(LiteralEngine(), rs, line, q) {
      var k :| 0 <= k < 2 * |rs| && MatchesAt(LiteralEngine(), rs, line, q, k);
      LiteralMatchesAt(rs, line, q, k);
    }
    if SomeOccurs(rs, line, q) {
      var k :| 0 <= k < 2 * |rs| && |AltLiteral(rs, k)| > 0 && OccursAt(AltLiteral(rs, k), line, q);
      LiteralMatchesAt(rs, line, q, k);
    }
  }

  /** A line on which no delimiter occurs yields nothing. */
  lemma NoOccurrenceNoEvents(rs: seq<FoldingRegex>, line: string)
    requires forall q :: 0 <= q < |line| ==> !SomeOccurs(rs, line, q)
    ensures AllNonEmpty(LiteralEngine(), rs)
    ensures LineEvents(LiteralEngine(), rs, line) == []
  {
    LiteralNonEmpty(rs);
    LiteralCursorIndependent(rs, line);
    forall q | 0 <= q < |line| ensures !AnyMatchAt(LiteralEngine(), rs, line, q) {
      LiteralAnyMatch(rs, line, q);
    }
    NoMatchFrom(LiteralEngine(), rs, line, 0);
    LineEventsFromHits(LiteralEngine(), rs, line, 0);
  }
}
