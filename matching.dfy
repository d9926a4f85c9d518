/** Per-line match enumeration: the generator `findOfRegexp`. All patterns are
    joined into one alternation `(?<b0>..)|(?<e0>..)|(?<b1>..)|...`, matched
    against the rest of the line from a cursor, and every match yields one
    tagged event. */
module Matching {
  import opened Wrappers
  import opened RegExp
  import opened Config

  /** The `type` of a yielded event: 1 is a begin, 2 an end. */
  datatype Kind = Begin | End

  /** What the generator yields: `{ type, regexp }`. */
  datatype Event = Event(kind: Kind, regexp: FoldingRegex)

  /** A match of the alternation: where it starts and which alternative won.
      Alternative `2 * i` is group `b<i>`, alternative `2 * i + 1` group `e<i>`. */
  datatype Hit = Hit(start: nat, alt: nat)

  /** The pattern source of alternative `k`. */
  function AltSource(rs: seq<FoldingRegex>, k: nat): string
    requires k < 2 * |rs|
  {
    if k % 2 == 0 then rs[k / 2].begin else rs[k / 2].end
  }

  /** Alternative `k` matches at position `p` of `text`. */
  predicate MatchesAt(e: Engine, rs: seq<FoldingRegex>, text: string, p: nat, k: nat)
    requires k < 2 * |rs|
  {
    e.matchAt(AltSource(rs, k), text, p).Some?
  }

  /** No alternative can match the empty string. */
  ghost predicate AllNonEmpty(e: Engine, rs: seq<FoldingRegex>) {
    forall k :: 0 <= k < 2 * |rs| ==> NonEmptyMatches(e, AltSource(rs, k))
  }

  lemma MatchInside(e: Engine, rs: seq<FoldingRegex>, text: string, p: nat, k: nat)
    requires AllNonEmpty(e, rs) && k < 2 * |rs| && MatchesAt(e, rs, text, p, k)
    ensures p < |text|
  {
    assert NonEmptyMatches(e, AltSource(rs, k));
    assert Fits(e.matchAt(AltSource(rs, k), text, p), text, p);
  }

  /** The first alternative from `k` on that matches at `p`: the order in which
      a backtracking engine tries the branches of an alternation. */
  function FirstAltAt(e: Engine, rs: seq<FoldingRegex>, text: string, p: nat, k: nat): (r: Option<nat>)
    ensures r.Some? ==> k <= r.value < 2 * |rs|
    decreases 2 * |rs| - k
  {
    if k >= 2 * |rs| then None
    else if MatchesAt(e, rs, text, p, k) then Some(k)
    else FirstAltAt(e, rs, text, p, k + 1)
  }

  /** `FirstAltAt` finds the first matching alternative from `k` on, and finds
      none only when none matches. */
  lemma {:induction false} FirstAltAtSpec(e: Engine, rs: seq<FoldingRegex>, text: string, p: nat, k: nat)
    ensures FirstAltAt(e, rs, text, p, k).Some? ==>
      && MatchesAt(e, rs, text, p, FirstAltAt(e, rs, text, p, k).value)
      && forall k' :: k <= k' < FirstAltAt(e, rs, text, p, k).value ==> !MatchesAt(e, rs, text, p, k')
    ensures FirstAltAt(e, rs, text, p, k).None? ==> forall k' :: k <= k' < 2 * |rs| ==> !MatchesAt(e, rs, text, p, k')
    decreases 2 * |rs| - k
  {
    if k < 2 * |rs| && !MatchesAt(e, rs, text, p, k) {
      FirstAltAtSpec(e, rs, text, p, k + 1);
    }
  }

  /** The leftmost match at or after `p`, and at that position the first
      alternative in alternation order. */
  function FirstMatchFrom(e: Engine, rs: seq<FoldingRegex>, text: string, p: nat): (r: Option<Hit>)
    requires p <= |text|
    ensures r.Some? ==> p <= r.value.start <= |text| && r.value.alt < 2 * |rs|
    decreases |text| - p
  {
    match FirstAltAt(e, rs, text, p, 0)
    case Some(k) => Some(Hit(p, k))
    case None => if p == |text| then None else FirstMatchFrom(e, rs, text, p + 1)
  }

  /** `FirstMatchFrom` returns a match, at the leftmost position from `p` on
      where any alternative matches and for the first alternative matching
      there; it returns none only when nothing matches from `p` on. */
  lemma {:induction false} FirstMatchFromSpec(e: Engine, rs: seq<FoldingRegex>, text: string, p: nat)
    requires p <= |text|
    ensures FirstMatchFrom(e, rs, text, p).Some? ==>
      var h := FirstMatchFrom(e, rs, text, p).value;
      && MatchesAt(e, rs, text, h.start, h.alt)
      && (forall k :: 0 <= k < h.alt ==> !MatchesAt(e, rs, text, h.start, k))
      && (forall q, k :: p <= q < h.start && 0 <= k < 2 * |rs| ==> !MatchesAt(e, rs, text, q, k))
    ensures FirstMatchFrom(e, rs, text, p).None? ==>
      forall q, k :: p <= q <= |text| && 0 <= k < 2 * |rs| ==> !MatchesAt(e, rs, text, q, k)
    decreases |text| - p
  {
    FirstAltAtSpec(e, rs, text, p, 0);
    if FirstAltAt(e, rs, text, p, 0).None? && p < |text| {
      FirstMatchFromSpec(e, rs, text, p + 1);
    }
  }

  /** A match the alternation finds lies inside the text. */
  lemma MatchFound(e: Engine, rs: seq<FoldingRegex>, text: string)
    requires AllNonEmpty(e, rs) && FirstMatchFrom(e, rs, text, 0).Some?
    ensures FirstMatchFrom(e, rs, text, 0).value.start < |text|
  {
    FirstMatchFromSpec(e, rs, text, 0);
    var h := FirstMatchFrom(e, rs, text, 0).value;
    MatchInside(e, rs, text, h.start, h.alt);
  }

  /** `text.match(str)` with `str` the joined alternation: `index` and the
      alternative whose named group is set. */
  function MatchAlternation(e: Engine, rs: seq<FoldingRegex>, text: string): (r: Option<Hit>)
    ensures r.Some? ==> r.value.start <= |text| && r.value.alt < 2 * |rs|
  {
    FirstMatchFrom(e, rs, text, 0)
  }

  /** The matches of one line from cursor `left` on, with start positions on
      the whole line. After each match the cursor moves to one character past
      the match START (`left + index + 1`), not past its end. */
  function LineHits(e: Engine, rs: seq<FoldingRegex>, line: string, left: nat): (hs: seq<Hit>)
    requires AllNonEmpty(e, rs) && left <= |line|
    ensures forall j :: 0 <= j < |hs| ==> left <= hs[j].start < |line| && hs[j].alt < 2 * |rs|
    ensures forall j, j' :: 0 <= j < j' < |hs| ==> hs[j].start < hs[j'].start
    decreases |line| - left
  {
    match MatchAlternation(e, rs, line[left..])
    case None => []
    case Some(h) =>
      MatchFound(e, rs, line[left..]);
      [Hit(left + h.start, h.alt)] + LineHits(e, rs, line, left + h.start + 1)
  }

  /** The event the winning alternative's named group yields. */
  function EventOf(rs: seq<FoldingRegex>, h: Hit): Event
    requires h.alt < 2 * |rs|
  {
    Event(if h.alt % 2 == 0 then Begin else End, rs[h.alt / 2])
  }

  function EventsOf(rs: seq<FoldingRegex>, hs: seq<Hit>): (evs: seq<Event>)
    requires forall j :: 0 <= j < |hs| ==> hs[j].alt < 2 * |rs|
    ensures |evs| == |hs|
    ensures forall j :: 0 <= j < |hs| ==> evs[j] == EventOf(rs, hs[j])
  {
    if hs == [] then [] else [EventOf(rs, hs[0])] + EventsOf(rs, hs[1..])
  }

  /** Everything `findOfRegexp(line, regexes)` yields from cursor `left` on:
      at most one event per position, since the cursor moves on by at least
      one after each match. It follows the generator turn by turn, which is
      the form the loop of `FindOfRegexp` is proved against; `LineHits`
      follows the same turns but keeps the match positions, which the lemmas
      about positions need, and `LineEventsFromHits` ties the two. */
  function LineEventsFrom(e: Engine, rs: seq<FoldingRegex>, line: string, left: nat): (evs: seq<Event>)
    requires AllNonEmpty(e, rs) && left <= |line|
    ensures |evs| <= |line| - left
    decreases |line| - left
  {
    match MatchAlternation(e, rs, line[left..])
    case None => []
    case Some(h) =>
      MatchFound(e, rs, line[left..]);
      [EventOf(rs, h)] + LineEventsFrom(e, rs, line, left + h.start + 1)
  }

  /** Everything `findOfRegexp(line, regexes)` yields, in order. */
  function LineEvents(e: Engine, rs: seq<FoldingRegex>, line: string): (evs: seq<Event>)
    requires AllNonEmpty(e, rs)
    ensures |evs| <= |line|
  {
    LineEventsFrom(e, rs, line, 0)
  }

  /** One event per match, from the alternative that won it. */
  lemma {:induction false} LineEventsFromHits(e: Engine, rs: seq<FoldingRegex>, line: string, left: nat)
    requires AllNonEmpty(e, rs) && left <= |line|
    ensures LineEventsFrom(e, rs, line, left) == EventsOf(rs, LineHits(e, rs, line, left))
    decreases |line| - left
  {
    match MatchAlternation(e, rs, line[left..])
    case None =>
    case Some(h) =>
      MatchFound(e, rs, line[left..]);
      var next := left + h.start + 1;
      LineEventsFromHits(e, rs, line, next);
      EventsOfCons(rs, Hit(left + h.start, h.alt), LineHits(e, rs, line, next));
  }

  /** Events come out in strictly increasing order of match start, one per
      match, each from the alternative that won at that start. */
  lemma LineEventsOrdered(e: Engine, rs: seq<FoldingRegex>, line: string)
    requires AllNonEmpty(e, rs)
    ensures |LineEvents(e, rs, line)| == |LineHits(e, rs, line, 0)|
    ensures forall j, j' :: 0 <= j < j' < |LineHits(e, rs, line, 0)| ==>
      LineHits(e, rs, line, 0)[j].start < LineHits(e, rs, line, 0)[j'].start
    ensures forall j :: 0 <= j < |LineHits(e, rs, line, 0)| ==>
      && LineHits(e, rs, line, 0)[j].start < |line|
      && LineEvents(e, rs, line)[j] == EventOf(rs, LineHits(e, rs, line, 0)[j])
  {
    LineEventsFromHits(e, rs, line, 0);
  }

  /** When several alternatives match at the same position, the lowest pattern
      index wins, and for one pattern its begin wins over its end. */
  lemma TieBreak(e: Engine, rs: seq<FoldingRegex>, text: string, i: nat, p: nat)
    requires i < |rs|
    requires MatchAlternation(e, rs, text) == Some(Hit(p, 2 * i + 1)) || MatchAlternation(e, rs, text) == Some(Hit(p, 2 * i))
    ensures forall i' :: 0 <= i' < i ==> !MatchesAt(e, rs, text, p, 2 * i') && !MatchesAt(e, rs, text, p, 2 * i' + 1)
    ensures MatchAlternation(e, rs, text) == Some(Hit(p, 2 * i + 1)) ==> !MatchesAt(e, rs, text, p, 2 * i)
  {
    FirstMatchFromSpec(e, rs, text, 0);
  }

  lemma EventsOfCons(rs: seq<FoldingRegex>, h: Hit, hs: seq<Hit>)
    requires h.alt < 2 * |rs| && forall j :: 0 <= j < |hs| ==> hs[j].alt < 2 * |rs|
    ensures EventsOf(rs, [h] + hs) == [EventOf(rs, h)] + EventsOf(rs, hs)
  {
    assert ([h] + hs)[1..] == hs;
  }

  /** The events the index loop yields for one match: the named group that is
      set is the winning alternative's. */
  method YieldGroup(h: Hit, regexes: seq<FoldingRegex>) returns (events: seq<Event>)
    requires h.alt < 2 * |regexes|
    ensures events == [EventOf(regexes, h)]
  {
    events := [];
    for index := 0 to |regexes|
      invariant events == if h.alt / 2 < index then [EventOf(regexes, h)] else []
    {
      if h.alt == 2 * index {
        events := events + [Event(Begin, regexes[index])];
      } else if h.alt == 2 * index + 1 {
        events := events + [Event(End, regexes[index])];
      }
    }
  }

  /** One turn of the generator keeps "what has been yielded, followed by
      what is yielded from the cursor on, is everything the line yields". */
  lemma GeneratorStep(e: Engine, rs: seq<FoldingRegex>, line: string, left: nat, h: Hit, events: seq<Event>, yielded: seq<Event>)
    requires AllNonEmpty(e, rs) && left <= |line| && MatchAlternation(e, rs, line[left..]) == Some(h)
    requires events + LineEventsFrom(e, rs, line, left) == LineEvents(e, rs, line)
    requires h.alt < 2 * |rs| && yielded == [EventOf(rs, h)]
    ensures left + h.start + 1 <= |line|
    ensures (events + yielded) + LineEventsFrom(e, rs, line, left + h.start + 1) == LineEvents(e, rs, line)
  {
    LineEventsFromStep(e, rs, line, left, h);
    var rest := LineEventsFrom(e, rs, line, left + h.start + 1);
    assert events + (yielded + rest) == (events + yielded) + rest;
  }

  /** The generator `findOfRegexp`, run to completion. */
  method FindOfRegexp(e: Engine, line: string, regexes: seq<FoldingRegex>) returns (events: seq<Event>)
    requires AllNonEmpty(e, regexes)
    ensures events == LineEvents(e, regexes, line)
  {
    events := [];
    var left := 0;
    while true
      invariant left <= |line|
      invariant events + LineEventsFrom(e, regexes, line, left) == LineEvents(e, regexes, line)
      decreases |line| - left
    {
      var res := MatchAlternation(e, regexes, line[left..]);
      if res.None? {
        break;
      }
      var h := res.value;
      var yielded := YieldGroup(h, regexes);
      GeneratorStep(e, regexes, line, left, h, events, yielded);
      events := events + yielded;
      left := left + h.start + 1;
    }
  }

  /** One turn of the generator's loop: the match found from the cursor
      yields its event, and the search goes on one past the match start. */
  lemma LineEventsFromStep(e: Engine, rs: seq<FoldingRegex>, line: string, left: nat, h: Hit)
    requires AllNonEmpty(e, rs) && left <= |line| && MatchAlternation(e, rs, line[left..]) == Some(h)
    ensures left + h.start < |line| && h.alt < 2 * |rs|
    ensures LineEventsFrom(e, rs, line, left) == [EventOf(rs, h)] + LineEventsFrom(e, rs, line, left + h.start + 1)
  {
    MatchFound(e, rs, line[left..]);
  }

  /** One turn of the generator's loop, in terms of `LineHits`. */
  lemma LineHitsStep(e: Engine, rs: seq<FoldingRegex>, line: string, left: nat)
    requires AllNonEmpty(e, rs) && left <= |line|
    ensures MatchAlternation(e, rs, line[left..]).None? ==> LineHits(e, rs, line, left) == []
    ensures MatchAlternation(e, rs, line[left..]).Some? ==>
      && left + MatchAlternation(e, rs, line[left..]).value.start < |line|
      && LineHits(e, rs, line, left) ==
           [Hit(left + MatchAlternation(e, rs, line[left..]).value.start, MatchAlternation(e, rs, line[left..]).value.alt)]
           + LineHits(e, rs, line, left + MatchAlternation(e, rs, line[left..]).value.start + 1)
  {
    match MatchAlternation(e, rs, line[left..])
    case None =>
    case Some(h) => MatchFound(e, rs, line[left..]);
  }

  /** Some alternative matches at `q` of `text`. */
  predicate AnyMatchAt(e: Engine, rs: seq<FoldingRegex>, text: string, q: nat) {
    exists k :: 0 <= k < 2 * |rs| && MatchesAt(e, rs, text, q, k)
  }

  /** Whether an alternative matches at a position does not depend on the part
      of the line before the cursor (no anchors, no look-behind, no word
      boundaries `\b`/`\B`): matching at
      `q` of the rest of the line from `left` is matching at `left + q` of the
      line. */
  ghost predicate CursorIndependent(e: Engine, rs: seq<FoldingRegex>, line: string) {
    forall left: nat, q: nat, k: nat :: left <= |line| && k < 2 * |rs| ==>
      (MatchesAt(e, rs, line[left..], q, k) <==> MatchesAt(e, rs, line, left + q, k))
  }

  /** What the alternation's first match on the rest of the line from `left`
      says about the whole line. */
  lemma FirstMatchOnLine(e: Engine, rs: seq<FoldingRegex>, line: string, left: nat)
    requires CursorIndependent(e, rs, line) && left <= |line|
    ensures MatchAlternation(e, rs, line[left..]).None? ==>
      forall q :: left <= q <= |line| ==> !AnyMatchAt(e, rs, line, q)
    ensures MatchAlternation(e, rs, line[left..]).Some? ==>
      var h := MatchAlternation(e, rs, line[left..]).value;
      && FirstAlternativeAt(e, rs, line, Hit(left + h.start, h.alt))
      && AnyMatchAt(e, rs, line, left + h.start)
      && (forall q :: left <= q < left + h.start ==> !AnyMatchAt(e, rs, line, q))
  {
    var text := line[left..];
    FirstMatchFromSpec(e, rs, text, 0);
    match MatchAlternation(e, rs, text)
    case None =>
      forall q | left <= q <= |line| ensures !AnyMatchAt(e, rs, line, q) {
        forall k | 0 <= k < 2 * |rs| ensures !MatchesAt(e, rs, line, q, k) {
          assert !MatchesAt(e, rs, text, q - left, k);
        }
      }
    case Some(h) =>
      var pos := left + h.start;
      assert MatchesAt(e, rs, text, h.start, h.alt);
      forall k | 0 <= k < h.alt ensures !MatchesAt(e, rs, line, pos, k) {
        assert !MatchesAt(e, rs, text, h.start, k);
      }
      forall q | left <= q < pos ensures !AnyMatchAt(e, rs, line, q) {
        forall k | 0 <= k < 2 * |rs| ensures !MatchesAt(e, rs, line, q, k) {
          assert !MatchesAt(e, rs, text, q - left, k);
        }
      }
  }

  /** The starts of `hs` are exactly the positions in `[lo, hi)` where `line`
      has a match. */
  ghost predicate StartsAreMatches(e: Engine, rs: seq<FoldingRegex>, line: string, hs: seq<Hit>, lo: nat) {
    forall q :: lo <= q < |line| ==> ((exists j :: 0 <= j < |hs| && hs[j].start == q) <==> AnyMatchAt(e, rs, line, q))
  }

  lemma StartsAreMatchesCons(e: Engine, rs: seq<FoldingRegex>, line: string, h: Hit, tl: seq<Hit>, lo: nat)
    requires lo <= h.start < |line| && StartsAreMatches(e, rs, line, tl, h.start + 1)
    requires forall j :: 0 <= j < |tl| ==> h.start < tl[j].start
    requires AnyMatchAt(e, rs, line, h.start)
    requires forall q :: lo <= q < h.start ==> !AnyMatchAt(e, rs, line, q)
    ensures StartsAreMatches(e, rs, line, [h] + tl, lo)
  {
    var hs := [h] + tl;
    forall q | lo <= q < |line|
      ensures (exists j :: 0 <= j < |hs| && hs[j].start == q) <==> AnyMatchAt(e, rs, line, q)
    {
      if q < h.start {
        forall j | 0 <= j < |hs| ensures hs[j].start != q {
          if j > 0 {
            assert hs[j] == tl[j - 1];
          }
        }
      } else if q == h.start {
        assert hs[0].start == q;
      } else {
        if exists j :: 0 <= j < |tl| && tl[j].start == q {
          var j :| 0 <= j < |tl| && tl[j].start == q;
          assert hs[j + 1] == tl[j];
        }
        if exists j :: 0 <= j < |hs| && hs[j].start == q {
          var j :| 0 <= j < |hs| && hs[j].start == q;
          assert j > 0 && hs[j] == tl[j - 1];
        }
      }
    }
  }

  /** For such patterns the generator visits every position: a match starts at
      `q` exactly when some alternative matches at `q` of the line, also when
      `q` lies inside an earlier match. */
  lemma {:induction false} HitsAreAllMatchPositions(e: Engine, rs: seq<FoldingRegex>, line: string, left: nat)
    requires AllNonEmpty(e, rs) && CursorIndependent(e, rs, line) && left <= |line|
    ensures StartsAreMatches(e, rs, line, LineHits(e, rs, line, left), left)
    decreases |line| - left
  {
    LineHitsStep(e, rs, line, left);
    FirstMatchOnLine(e, rs, line, left);
    match MatchAlternation(e, rs, line[left..])
    case None =>
      assert LineHits(e, rs, line, left) == [];
    case Some(h) =>
      var next, hd := left + h.start + 1, Hit(left + h.start, h.alt);
      assert LineHits(e, rs, line, left) == [hd] + LineHits(e, rs, line, next);
      HitsAreAllMatchPositions(e, rs, line, next);
      StartsAreMatchesCons(e, rs, line, hd, LineHits(e, rs, line, next), left);
  }

  /** For such patterns each match's alternative is the first, in the order
      b0, e0, b1, e1, ..., that matches at its start. */
  lemma {:induction false} HitsTakeFirstAlternative(e: Engine, rs: seq<FoldingRegex>, line: string, left: nat)
    requires AllNonEmpty(e, rs) && CursorIndependent(e, rs, line) && left <= |line|
    ensures forall j :: 0 <= j < |LineHits(e, rs, line, left)| ==>
      FirstAlternativeAt(e, rs, line, LineHits(e, rs, line, left)[j])
    decreases |line| - left
  {
    LineHitsStep(e, rs, line, left);
    FirstMatchOnLine(e, rs, line, left);
    match MatchAlternation(e, rs, line[left..])
    case None =>
    case Some(h) =>
      var next := left + h.start + 1;
      HitsTakeFirstAlternative(e, rs, line, next);
      var hs, tl := LineHits(e, rs, line, left), LineHits(e, rs, line, next);
      assert FirstAlternativeAt(e, rs, line, hs[0]);
      forall j | 0 < j < |hs| ensures hs[j] == tl[j - 1] {}
  }

  /** Alternative `h.alt` matches at `h.start` of the line and no earlier one
      does. */
  predicate FirstAlternativeAt(e: Engine, rs: seq<FoldingRegex>, line: string, h: Hit) {
    && h.alt < 2 * |rs|
    && MatchesAt(e, rs, line, h.start, h.alt)
    && forall k :: 0 <= k < h.alt ==> !MatchesAt(e, rs, line, h.start, k)
  }

  /** A line with matches at one position only yields exactly one hit there,
      for the first alternative that matches. */
  lemma SingleMatchPosition(e: Engine, rs: seq<FoldingRegex>, line: string, h: Hit)
    requires AllNonEmpty(e, rs) && CursorIndependent(e, rs, line)
    requires h.start < |line| && FirstAlternativeAt(e, rs, line, h)
    requires forall q :: 0 <= q < |line| && q != h.start ==> !AnyMatchAt(e, rs, line, q)
    ensures LineHits(e, rs, line, 0) == [h]
  {
    LineHitsStep(e, rs, line, 0);
    FirstMatchOnLine(e, rs, line, 0);
    assert AnyMatchAt(e, rs, line, h.start);
    var m := MatchAlternation(e, rs, line[0..]).value;
    assert AnyMatchAt(e, rs, line, m.start);
    assert m.start == h.start;
    assert m.alt == h.alt;
    NoMatchFrom(e, rs, line, h.start + 1);
  }

  /** From a cursor after which nothing matches the line yields nothing. */
  lemma NoMatchFrom(e: Engine, rs: seq<FoldingRegex>, line: string, left: nat)
    requires AllNonEmpty(e, rs) && CursorIndependent(e, rs, line) && left <= |line|
    requires forall q :: left <= q < |line| ==> !AnyMatchAt(e, rs, line, q)
    ensures LineHits(e, rs, line, left) == []
  {
    LineHitsStep(e, rs, line, left);
    FirstMatchOnLine(e, rs, line, left);
  }
}
