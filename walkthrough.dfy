/** Small documents folded with one literal `{` / `}` configuration. */
module Walkthrough {
  import opened Wrappers
  import opened RegExp
  import opened Escape
  import opened Config
  import opened Matching
  import opened Scanner
  import opened LiteralPatterns

  const Braces := FoldingConfig(Some("{"), Some("}"), None, None, None)

  /** The escaped pair the brace configuration compiles to. */
  const R := [FoldingRegex("\\{", "\\}", 0)]

  /** The record `addRegex` builds for the brace configuration. */
  lemma BracesCompile()
    ensures CompileAll(LiteralEngine(), [Braces]) == R
  {
    CompileAllSingleton(LiteralEngine(), Braces);
    BracesCompileOne();
  }

  lemma BracesCompileOne()
    ensures CompileOne(LiteralEngine(), Braces) == Some(FoldingRegex("\\{", "\\}", 0))
  {
    var b, en := Braces.begin.value, Braces.end.value;
    assert !HasRegexPair(Braces) && HasLiteralPair(Braces);
    assert EscapeRegex(b) == "\\{" by { assert EscapeRegex(b[1..]) == []; }
    assert EscapeRegex(en) == "\\}" by { assert EscapeRegex(en[1..]) == []; }
    assert LiteralEngine().compiles("\\{") by { assert WellEscaped("\\{"[2..]); }
    assert LiteralEngine().compiles("\\}") by { assert WellEscaped("\\}"[2..]); }
    assert OffsetOrZero(Braces.offsetTop) == 0;
    CompileOneWhen(LiteralEngine(), Braces);
  }

  lemma BraceLiterals()
    ensures AltLiteral(R, 0) == "{" && AltLiteral(R, 1) == "}"
  {
    assert Unescape("\\{"[2..]) == [];
    assert Unescape("\\}"[2..]) == [];
  }

  /** One pattern pair whose literal delimiters are `{` and `}`. */
  predicate BracePair(rs: seq<FoldingRegex>) {
    |rs| == 1 && AltLiteral(rs, 0) == "{" && AltLiteral(rs, 1) == "}"
  }

  /** A line without braces yields nothing. */
  lemma PlainLine(rs: seq<FoldingRegex>, line: string)
    requires BracePair(rs)
    requires forall q :: 0 <= q < |line| ==> line[q] != '{' && line[q] != '}'
    ensures LineEvents(LiteralEngine(), rs, line) == []
  {
    forall q | 0 <= q < |line| ensures !SomeOccurs(rs, line, q) {
      NoBraceAt(rs, line, q);
    }
    NoOccurrenceNoEvents(rs, line);
  }

  /** No delimiter occurs at a position that holds no brace. */
  lemma NoBraceAt(rs: seq<FoldingRegex>, line: string, q: nat)
    requires BracePair(rs)
    requires q < |line| ==> line[q] != '{' && line[q] != '}'
    ensures !SomeOccurs(rs, line, q)
  {
    OccursSingle('{', line, q);
    OccursSingle('}', line, q);
    forall k | 0 <= k < 2 * |rs| ensures !OccursAt(AltLiteral(rs, k), line, q) {
      assert k == 0 || k == 1;
    }
  }

  /** A line whose only brace stands at `q` yields one event there: a begin
      for `{` (alternative 0) and an end for `}` (alternative 1). */
  lemma OneBraceLine(rs: seq<FoldingRegex>, line: string, q: nat, k: nat)
    requires BracePair(rs)
    requires q < |line| && k < 2 && line[q] == (if k == 0 then '{' else '}')
    requires forall p :: 0 <= p < |line| && p != q ==> line[p] != '{' && line[p] != '}'
    ensures LineEvents(LiteralEngine(), rs, line) == [EventOf(rs, Hit(q, k))]
  {
    LiteralNonEmpty(rs);
    LiteralCursorIndependent(rs, line);
    forall p | 0 <= p < |line| && p != q ensures !AnyMatchAt(LiteralEngine(), rs, line, p) {
      NoBraceAt(rs, line, p);
      LiteralAnyMatch(rs, line, p);
    }
    BraceIsFirstAlternative(rs, line, q, k);
    SingleMatchPosition(LiteralEngine(), rs, line, Hit(q, k));
    LineEventsFromHits(LiteralEngine(), rs, line, 0);
  }

  /** The brace at `q` matches its own alternative and, for `}`, not the
      `{` alternative tried before it. */
  lemma BraceIsFirstAlternative(rs: seq<FoldingRegex>, line: string, q: nat, k: nat)
    requires BracePair(rs)
    requires q < |line| && k < 2 && line[q] == (if k == 0 then '{' else '}')
    ensures FirstAlternativeAt(LiteralEngine(), rs, line, Hit(q, k))
  {
    OccursSingle('{', line, q);
    OccursSingle('}', line, q);
    LiteralMatchesAt(rs, line, q, 0);
    LiteralMatchesAt(rs, line, q, 1);
    FirstOfTwo(LiteralEngine(), rs, line, q, k);
  }

  /** With two alternatives, `k` is the first to match at `q` when it matches
      and, for `k == 1`, alternative 0 does not. */
  lemma FirstOfTwo(e: Engine, rs: seq<FoldingRegex>, line: string, q: nat, k: nat)
    requires |rs| == 1 && k < 2
    requires k == 0 ==> MatchesAt(e, rs, line, q, 0)
    requires k == 1 ==> MatchesAt(e, rs, line, q, 1) && !MatchesAt(e, rs, line, q, 0)
    ensures FirstAlternativeAt(e, rs, line, Hit(q, k))
  {
  }

  lemma CloseLine()
    ensures LineEvents(LiteralEngine(), R, "c }") == [Event(End, R[0])]
  {
    BraceLiterals();
    OneBraceLine(R, "c }", 2, 1);
  }

  /** A begin and a later end of the same pattern close one range. */
  lemma BeginThenEnd(r: FoldingRegex, i: nat, j: nat)
    requires i != j
    ensures Run(Initial, [TaggedEvent(i, Event(Begin, r)), TaggedEvent(j, Event(End, r))])
      == Ok(ScanState([], [FoldingRange(i + r.offsetTop, j - 1)]))
  {
    var b, en := TaggedEvent(i, Event(Begin, r)), TaggedEvent(j, Event(End, r));
    RunLast(Initial, [], b);
    assert [] + [b] == [b];
    assert [Entry(r.offsetTop, i)] + Initial.stack == [Entry(r.offsetTop, i)];
    assert Run(Initial, [b]) == Ok(ScanState([Entry(r.offsetTop, i)], []));
    RunLast(Initial, [b], en);
    assert [b] + [en] == [b, en];
    var x := FoldingRange(i + r.offsetTop, j - 1);
    assert Initial.ranges + [x] == [x];
  }

  /** A document whose only events are a begin of `r` on line 0 and an end
      of `r` on line 2 folds lines `r.offsetTop` to 1. */
  lemma BeginThenEndTwoLinesLater(e: Engine, rs: seq<FoldingRegex>, r: FoldingRegex, lines: seq<string>)
    requires AllNonEmpty(e, rs) && |lines| == 4
    requires LineEvents(e, rs, lines[0]) == [Event(Begin, r)]
    requires LineEvents(e, rs, lines[1]) == []
    requires LineEvents(e, rs, lines[2]) == [Event(End, r)]
    requires LineEvents(e, rs, lines[3]) == []
    ensures Scan(e, rs, lines) == Ok([FoldingRange(r.offsetTop, 1)])
  {
    DocEventsOfFour(e, rs, r, lines);
    BeginThenEnd(r, 0, 2);
  }

  lemma DocEventsOfFour(e: Engine, rs: seq<FoldingRegex>, r: FoldingRegex, lines: seq<string>)
    requires AllNonEmpty(e, rs) && |lines| == 4
    requires LineEvents(e, rs, lines[0]) == [Event(Begin, r)]
    requires LineEvents(e, rs, lines[1]) == []
    requires LineEvents(e, rs, lines[2]) == [Event(End, r)]
    requires LineEvents(e, rs, lines[3]) == []
    ensures DocEvents(e, rs, lines) == [TaggedEvent(0, Event(Begin, r)), TaggedEvent(2, Event(End, r))]
  {
    var b, en := TaggedEvent(0, Event(Begin, r)), TaggedEvent(2, Event(End, r));
    assert Tagged(0, [Event(Begin, r)]) == [b];
    assert Tagged(2, [Event(End, r)]) == [en];
    assert lines[..0] == [];
    DocEventsNextLine(e, rs, lines, 0);
    assert DocEvents(e, rs, lines[..1]) == [b];
    DocEventsNextLine(e, rs, lines, 1);
    assert DocEvents(e, rs, lines[..2]) == [b];
    DocEventsNextLine(e, rs, lines, 2);
    assert DocEvents(e, rs, lines[..3]) == [b, en];
    DocEventsNextLine(e, rs, lines, 3);
    assert lines[..4] == lines;
  }

  /** A four-line document with `{` on line 0 and `}` on line 2. */
  const Doc := ["a {", "b", "c }", "d"]

  /** `{` on line 0 and `}` on line 2 fold lines 0 to 1: the range ends on
      the line before the closing delimiter. */
  lemma FoldsUpToLineBeforeEnd()
    ensures Scan(LiteralEngine(), R, Doc) == Ok([FoldingRange(0, 1)])
  {
    BraceLiterals();
    DocBraces();
    BraceOnFirstAndThirdLine(R, Doc, 2, 2);
  }

  /** Where the braces of `Doc` stand. */
  lemma DocBraces()
    ensures |Doc| == 4
    ensures 2 < |Doc[0]| && Doc[0][2] == '{'
    ensures forall p :: 0 <= p < |Doc[0]| && p != 2 ==> Doc[0][p] != '{' && Doc[0][p] != '}'
    ensures forall p :: 0 <= p < |Doc[1]| ==> Doc[1][p] != '{' && Doc[1][p] != '}'
    ensures 2 < |Doc[2]| && Doc[2][2] == '}'
    ensures forall p :: 0 <= p < |Doc[2]| && p != 2 ==> Doc[2][p] != '{' && Doc[2][p] != '}'
    ensures forall p :: 0 <= p < |Doc[3]| ==> Doc[3][p] != '{' && Doc[3][p] != '}'
  {
  }

  /** Four lines with a lone `{` on line 0 and a lone `}` on line 2. */
  lemma BraceOnFirstAndThirdLine(rs: seq<FoldingRegex>, lines: seq<string>, b: nat, en: nat)
    requires BracePair(rs) && |lines| == 4
    requires b < |lines[0]| && lines[0][b] == '{'
    requires forall p :: 0 <= p < |lines[0]| && p != b ==> lines[0][p] != '{' && lines[0][p] != '}'
    requires forall p :: 0 <= p < |lines[1]| ==> lines[1][p] != '{' && lines[1][p] != '}'
    requires en < |lines[2]| && lines[2][en] == '}'
    requires forall p :: 0 <= p < |lines[2]| && p != en ==> lines[2][p] != '{' && lines[2][p] != '}'
    requires forall p :: 0 <= p < |lines[3]| ==> lines[3][p] != '{' && lines[3][p] != '}'
    ensures AllNonEmpty(LiteralEngine(), rs)
    ensures Scan(LiteralEngine(), rs, lines) == Ok([FoldingRange(rs[0].offsetTop, 1)])
  {
    LiteralNonEmpty(rs);
    OneBraceLine(rs, lines[0], b, 0);
    PlainLine(rs, lines[1]);
    OneBraceLine(rs, lines[2], en, 1);
    PlainLine(rs, lines[3]);
    BeginThenEndTwoLinesLater(LiteralEngine(), rs, rs[0], lines);
  }

  /** A `}` with nothing open makes the code as written throw on line 0,
      while the corrected scan skips it. */
  lemma UnmatchedCloseOnFirstLine()
    ensures Scan(LiteralEngine(), R, ["c }"]) == Err(StackTopUndefined(0))
    ensures ScanGuarded(LiteralEngine(), R, ["c }"]) == []
  {
    LiteralNonEmpty(R);
    CloseLine();
    LoneEndLine(LiteralEngine(), R, R[0], "c }");
  }

  /** A one-line document whose only event is an end throws on line 0 as
      written and folds nothing when corrected. */
  lemma LoneEndLine(e: Engine, rs: seq<FoldingRegex>, r: FoldingRegex, line: string)
    requires AllNonEmpty(e, rs) && LineEvents(e, rs, line) == [Event(End, r)]
    ensures Scan(e, rs, [line]) == Err(StackTopUndefined(0))
    ensures ScanGuarded(e, rs, [line]) == []
  {
    var lines := [line];
    assert lines[..0] == [];
    DocEventsNextLine(e, rs, lines, 0);
    assert lines[..1] == lines;
    var en := TaggedEvent(0, Event(End, r));
    assert Tagged(0, [Event(End, r)]) == [en];
    assert DocEvents(e, rs, lines) == [en] + [];
    UnmatchedEndThrows(Initial, en, []);
    GuardedIgnoresUnmatchedEnd(Initial, en, []);
  }
}
