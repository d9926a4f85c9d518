/** The stack scanner of `provideFoldingRanges`: every begin event puts
    `{t: offsetTop, i: line}` at the front of the stack, every end event reads
    the front entry, emits `(a + t, b - 1)` when its line `a` differs from the
    current line `b`, and shifts it off. */
module Scanner {
  import opened Wrappers
  import opened Config
  import opened Matching

  /** A stack entry `{t, i}`: the offset and the line of an open begin. */
  datatype Entry = Entry(t: int, i: int)

  /** `new FoldingRange(start, end)`. */
  datatype FoldingRange = FoldingRange(start: int, end: int)

  /** The local state of `provideFoldingRanges`: `stack` (front first) and
      `foldingRanges`. */
  datatype ScanState = ScanState(stack: seq<Entry>, ranges: seq<FoldingRange>)

  /** The `TypeError` thrown when an end event reads `stack[0].i` of an empty
      stack, with the line on which it happens. */
  datatype ScanError = StackTopUndefined(line: nat)

  /** An event together with the line whose generator yielded it. */
  datatype TaggedEvent = TaggedEvent(line: nat, event: Event)

  const Initial := ScanState([], [])

  /** One turn of the `switch (type)`. */
  function Step(s: ScanState, le: TaggedEvent): (r: Result<ScanState, ScanError>)
    ensures r.Err? <==> le.event.kind == End && s.stack == []
    ensures r.Ok? && le.event.kind == Begin ==> |r.value.stack| == |s.stack| + 1 && r.value.ranges == s.ranges
    ensures r.Ok? && le.event.kind == End ==>
      |r.value.stack| == |s.stack| - 1 && s.ranges <= r.value.ranges && |r.value.ranges| <= |s.ranges| + 1
  {
    match le.event.kind
    case Begin => Ok(ScanState([Entry(le.event.regexp.offsetTop, le.line)] + s.stack, s.ranges))
    case End =>
      if s.stack == [] then Err(StackTopUndefined(le.line))
      else
        var a: int, b: int, c: int := s.stack[0].i, le.line, s.stack[0].t;
        Ok(ScanState(s.stack[1..], if a != b then s.ranges + [FoldingRange(a + c, b - 1)] else s.ranges))
  }

  /** A begin puts `{t: offsetTop, i: line}` at the front of the stack: the
      stack grows by exactly one, the entries below it are unchanged, and no
      range is emitted. */
  lemma BeginPushesFront(s: ScanState, le: TaggedEvent)
    requires le.event.kind == Begin
    ensures Step(s, le).Ok?
    ensures var s' := Step(s, le).value;
      && |s'.stack| == |s.stack| + 1
      && s'.stack[0] == Entry(le.event.regexp.offsetTop, le.line)
      && s'.stack[1..] == s.stack
      && s'.ranges == s.ranges
  {
  }

  /** An end on a non-empty stack removes exactly the front entry `{t, i: a}`
      and appends `(a + t, b - 1)` exactly when `a` is not the current line
      `b`; nothing else changes. */
  lemma EndPopsFront(s: ScanState, le: TaggedEvent)
    requires le.event.kind == End && s.stack != []
    ensures Step(s, le).Ok?
    ensures var s', top := Step(s, le).value, s.stack[0];
      && s'.stack == s.stack[1..]
      && (top.i != le.line ==> s'.ranges == s.ranges + [FoldingRange(top.i + top.t, le.line - 1)])
      && (top.i == le.line ==> s'.ranges == s.ranges)
  {
  }

  /** The events handled one after the other; the first error ends the run. */
  function Run(s: ScanState, les: seq<TaggedEvent>): (r: Result<ScanState, ScanError>)
    ensures r.Ok? ==> |s.ranges| <= |r.value.ranges| <= |s.ranges| + |les|
    decreases |les|
  {
    if les == [] then Ok(s)
    else
      match Run(s, les[..|les| - 1])
      case Err(x) => Err(x)
      case Ok(s') => Step(s', les[|les| - 1])
  }

  /** The events of one line, tagged with its number. */
  function Tagged(line: nat, evs: seq<Event>): (les: seq<TaggedEvent>)
    ensures |les| == |evs|
  {
    seq(|evs|, j requires 0 <= j < |evs| => TaggedEvent(line, evs[j]))
  }

  /** Tagging the events one more at a time: the tagged prefix grows by
      one event and stays a prefix of the whole line's tagged events. */
  lemma TaggedNext(line: nat, evs: seq<Event>, j: nat)
    requires j < |evs|
    ensures Tagged(line, evs[..j + 1]) == Tagged(line, evs[..j]) + [TaggedEvent(line, evs[j])]
    ensures Tagged(line, evs[..j + 1]) <= Tagged(line, evs)
  {
  }

  /** Every event of the document, line by line. */
  function DocEvents(e: RegExp.Engine, rs: seq<FoldingRegex>, lines: seq<string>): seq<TaggedEvent>
    requires AllNonEmpty(e, rs)
    decreases |lines|
  {
    if lines == [] then []
    else DocEvents(e, rs, lines[..|lines| - 1]) + Tagged(|lines| - 1, LineEvents(e, rs, lines[|lines| - 1]))
  }

  /** What `provideFoldingRanges` returns, or the error it throws. */
  function Scan(e: RegExp.Engine, rs: seq<FoldingRegex>, lines: seq<string>): (r: Result<seq<FoldingRange>, ScanError>)
    requires AllNonEmpty(e, rs)
    ensures r.Ok? ==> |r.value| <= |DocEvents(e, rs, lines)|
  {
    match Run(Initial, DocEvents(e, rs, lines))
    case Ok(s) => Ok(s.ranges)
    case Err(x) => Err(x)
  }

  /** Number of events of kind `k` in `les`. */
  function Count(les: seq<TaggedEvent>, k: Kind): nat
    decreases |les|
  {
    if les == [] then 0
    else Count(les[..|les| - 1], k) + (if les[|les| - 1].event.kind == k then 1 else 0)
  }

  /** Some prefix of `les` has more ends than a stack of depth `d` plus the
      prefix's begins can absorb. */
  ghost predicate Underflows(d: nat, les: seq<TaggedEvent>) {
    exists k :: 0 <= k <= |les| && d + Count(les[..k], Begin) < Count(les[..k], End)
  }

  lemma {:induction false} CountPrefix(les: seq<TaggedEvent>, n: nat, k: Kind)
    requires n <= |les|
    ensures Count(les[..n], k) <= Count(les, k)
    decreases |les|
  {
    if n < |les| {
      var p := les[..|les| - 1];
      assert les[..n] == p[..n];
      CountPrefix(p, n, k);
    } else {
      assert les[..n] == les;
    }
  }

  lemma RunLast(s: ScanState, p: seq<TaggedEvent>, x: TaggedEvent)
    ensures Run(s, p + [x]) == match Run(s, p) case Err(y) => Err(y) case Ok(s') => Step(s', x)
  {
    assert (p + [x])[..|p + [x]| - 1] == p;
  }

  /** After a successful run the stack depth is the initial depth plus the
      begins minus the ends, ranges have only been appended, and at most one
      per end event. */
  lemma {:induction false} RunShape(s: ScanState, les: seq<TaggedEvent>)
    requires Run(s, les).Ok?
    ensures |Run(s, les).value.stack| == |s.stack| + Count(les, Begin) - Count(les, End)
    ensures s.ranges <= Run(s, les).value.ranges
    ensures |Run(s, les).value.ranges| <= |s.ranges| + Count(les, End)
    decreases |les|
  {
    if les != [] {
      RunShape(s, les[..|les| - 1]);
    }
  }

  /** A run fails exactly when some prefix of the events holds more ends than
      the stack can pop: an end with no open begin throws. */
  lemma {:induction false} RunFailsIffUnderflow(s: ScanState, les: seq<TaggedEvent>)
    ensures Run(s, les).Err? <==> Underflows(|s.stack|, les)
    decreases |les|
  {
    var d := |s.stack|;
    if les == [] {
      forall k | 0 <= k <= |les| ensures d + Count(les[..k], Begin) >= Count(les[..k], End) {
        assert les[..k] == [];
      }
    } else {
      var n := |les| - 1;
      var p, x := les[..n], les[n];
      RunFailsIffUnderflow(s, p);
      assert les[..n + 1] == les;
      assert forall k :: 0 <= k <= n ==> les[..k] == p[..k];
      match Run(s, p)
      case Err(_) =>
        var k :| 0 <= k <= |p| && d + Count(p[..k], Begin) < Count(p[..k], End);
        assert les[..k] == p[..k];
      case Ok(s') =>
        RunShape(s, p);
        assert !Underflows(d, p);
        if Underflows(d, les) {
          var k :| 0 <= k <= |les| && d + Count(les[..k], Begin) < Count(les[..k], End);
          assert k == n + 1;
          assert Run(s, les).Err?;
        } else {
          assert !(d + Count(les[..n + 1], Begin) < Count(les[..n + 1], End));
          assert Run(s, les).Ok?;
        }
    }
  }

  /** The scanner invariant: each open entry sits on a line in `[0, hi]` and
      carries a configured offset `t`; each range ends on a line in
      `[0, hi - 1]` and, for some configured offset `t`, has
      `0 <= start - t <= end`; the ends of the ranges are non-decreasing.
      That `start - t` is the line of a matching begin is `Traced`. */
  ghost predicate Inv(s: ScanState, offsets: set<int>, hi: int) {
    && (forall x :: x in s.stack ==> 0 <= x.i <= hi && x.t in offsets)
    && (forall r :: r in s.ranges ==> 0 <= r.end <= hi - 1 && exists t :: t in offsets && 0 <= r.start - t <= r.end)
    && (forall j, j' :: 0 <= j < j' < |s.ranges| ==> s.ranges[j].end <= s.ranges[j'].end)
  }

  lemma InvWeaken(s: ScanState, offsets: set<int>, hi: int, hi': int)
    requires Inv(s, offsets, hi) && hi <= hi'
    ensures Inv(s, offsets, hi')
  {
  }

  /** One step keeps the invariant, with the bound moved to the event's line. */
  lemma StepKeepsInv(s: ScanState, le: TaggedEvent, offsets: set<int>)
    requires Inv(s, offsets, le.line) && le.event.regexp.offsetTop in offsets
    requires Step(s, le).Ok?
    ensures Inv(Step(s, le).value, offsets, le.line)
  {
    var s' := Step(s, le).value;
    if le.event.kind == End && s.stack[0].i != le.line {
      var top := s.stack[0];
      assert top in s.stack;
      var r := FoldingRange(top.i + top.t, le.line - 1);
      assert s'.ranges == s.ranges + [r];
      assert 0 <= r.start - top.t <= r.end;
      forall x | x in s'.stack ensures 0 <= x.i <= le.line && x.t in offsets {
        assert x in s.stack;
      }
    }
  }

  /** Lines of the events are non-decreasing and in `[lo, hi]`, and every
      event's offset is configured. */
  ghost predicate EventsWithin(les: seq<TaggedEvent>, offsets: set<int>, lo: int, hi: int) {
    && (forall j :: 0 <= j < |les| ==> lo <= les[j].line <= hi && les[j].event.regexp.offsetTop in offsets)
    && (forall j, j' :: 0 <= j < j' < |les| ==> les[j].line <= les[j'].line)
  }

  lemma {:induction false} RunKeepsInv(s: ScanState, les: seq<TaggedEvent>, offsets: set<int>, lo: int, hi: int)
    requires lo <= hi && Inv(s, offsets, lo) && EventsWithin(les, offsets, lo, hi)
    requires Run(s, les).Ok?
    ensures Inv(Run(s, les).value, offsets, hi)
    decreases |les|
  {
    if les == [] {
      InvWeaken(s, offsets, lo, hi);
    } else {
      var n := |les| - 1;
      var p, x := les[..n], les[n];
      RunLast(s, p, x);
      assert les == p + [x];
      assert EventsWithin(p, offsets, lo, x.line);
      RunKeepsInv(s, p, offsets, lo, x.line);
      StepKeepsInv(Run(s, p).value, x, offsets);
      InvWeaken(Run(s, les).value, offsets, x.line, hi);
    }
  }

  /** The same, in the specification of `provideFoldingRanges`: each line's
      events are tagged with that line, lines in document order, and each
      event's pattern is one of the compiled ones. */
  lemma {:induction false} DocEventsShape(e: RegExp.Engine, rs: seq<FoldingRegex>, lines: seq<string>)
    requires AllNonEmpty(e, rs)
    ensures forall j :: 0 <= j < |DocEvents(e, rs, lines)| ==>
      DocEvents(e, rs, lines)[j].line < |lines| && DocEvents(e, rs, lines)[j].event.regexp in rs
    ensures forall j, j' :: 0 <= j < j' < |DocEvents(e, rs, lines)| ==>
      DocEvents(e, rs, lines)[j].line <= DocEvents(e, rs, lines)[j'].line
    decreases |lines|
  {
    if lines != [] {
      var n := |lines| - 1;
      var pre, evs := DocEvents(e, rs, lines[..n]), LineEvents(e, rs, lines[n]);
      var tg := Tagged(n, evs);
      DocEventsShape(e, rs, lines[..n]);
      LineEventsFromRs(e, rs, lines[n], 0);
      var les := DocEvents(e, rs, lines);
      assert les == pre + tg;
      forall j | 0 <= j < |les| ensures les[j].line <= n && les[j].event.regexp in rs {
        if j < |pre| {
          assert les[j] == pre[j];
        } else {
          assert les[j] == tg[j - |pre|] == TaggedEvent(n, evs[j - |pre|]);
          assert evs[j - |pre|] in evs;
        }
      }
      forall j, j' | 0 <= j < j' < |les| ensures les[j].line <= les[j'].line {
        if j' < |pre| {
          assert les[j] == pre[j] && les[j'] == pre[j'];
        } else {
          assert les[j'] == tg[j' - |pre|];
        }
      }
    }
  }

  /** Every event a line yields carries one of the compiled patterns. */
  lemma {:induction false} LineEventsFromRs(e: RegExp.Engine, rs: seq<FoldingRegex>, line: string, left: nat)
    requires AllNonEmpty(e, rs) && left <= |line|
    ensures forall ev :: ev in LineEventsFrom(e, rs, line, left) ==> ev.regexp in rs
    decreases |line| - left
  {
    match MatchAlternation(e, rs, line[left..])
    case None =>
    case Some(h) =>
      MatchFound(e, rs, line[left..]);
      LineEventsFromRs(e, rs, line, left + h.start + 1);
  }

  /** The offsets the compiled patterns carry. */
  function Offsets(rs: seq<FoldingRegex>): set<int> {
    set r | r in rs :: r.offsetTop
  }

  /** Every emitted range ends before the last line and, for some configured
      offset `t`, has `0 <= start - t <= end`; the ends of the ranges are
      non-decreasing, and there are at most as many ranges as end events.
      That `start - t` is the line of a matching begin is `ScanRangesTraced`. */
  lemma ScanRanges(e: RegExp.Engine, rs: seq<FoldingRegex>, lines: seq<string>)
    requires AllNonEmpty(e, rs) && Scan(e, rs, lines).Ok?
    ensures |Scan(e, rs, lines).value| <= Count(DocEvents(e, rs, lines), End)
    ensures forall r :: r in Scan(e, rs, lines).value ==>
      && 0 <= r.end <= |lines| - 2
      && exists t :: t in Offsets(rs) && 0 <= r.start - t <= r.end
    ensures forall j, j' :: 0 <= j < j' < |Scan(e, rs, lines).value| ==>
      Scan(e, rs, lines).value[j].end <= Scan(e, rs, lines).value[j'].end
  {
    var les := DocEvents(e, rs, lines);
    RunShape(Initial, les);
    if lines != [] {
      DocEventsShape(e, rs, lines);
      forall j | 0 <= j < |les| ensures les[j].event.regexp.offsetTop in Offsets(rs) {
        var r := les[j].event.regexp;
        assert r in rs;
        assert r.offsetTop in (set r' | r' in rs :: r'.offsetTop);
      }
      RunKeepsInv(Initial, les, Offsets(rs), 0, |lines| - 1);
    } else {
      assert les == [];
    }
  }

  /** With every `offsetTop` 0, each range starts no later than it ends. */
  lemma ZeroOffsetRangesAreOrdered(e: RegExp.Engine, rs: seq<FoldingRegex>, lines: seq<string>)
    requires AllNonEmpty(e, rs) && Scan(e, rs, lines).Ok?
    requires forall j :: 0 <= j < |rs| ==> rs[j].offsetTop == 0
    ensures forall r :: r in Scan(e, rs, lines).value ==> 0 <= r.start <= r.end
  {
    ScanRanges(e, rs, lines);
    assert forall t :: t in Offsets(rs) ==> t == 0;
  }

  /** Some begin event of `les` stands on line `x.i` with offset `x.t`: the
      event that pushed the entry `x`. */
  ghost predicate Opened(les: seq<TaggedEvent>, x: Entry) {
    exists j :: 0 <= j < |les| && les[j].event.kind == Begin && les[j].line == x.i && les[j].event.regexp.offsetTop == x.t
  }

  /** The range `r` is closed by events of `les`: a begin event on a line `a`
      no later than `r.end`, with `r.start == a + offsetTop`, and after it an
      end event on line `r.end + 1`. */
  ghost predicate Closes(les: seq<TaggedEvent>, r: FoldingRange) {
    exists j, j' :: 0 <= j < j' < |les|
      && les[j].event.kind == Begin && les[j'].event.kind == End
      && les[j].line <= r.end && r.start == les[j].line + les[j].event.regexp.offsetTop
      && les[j'].line == r.end + 1
  }

  /** Every open entry and every range can be traced to the events of `les`. */
  ghost predicate Traced(s: ScanState, les: seq<TaggedEvent>) {
    && (forall x :: x in s.stack ==> Opened(les, x))
    && (forall r :: r in s.ranges ==> Closes(les, r))
  }

  /** Events seen before keep their witnesses when one more is seen. */
  lemma TracedExtend(s: ScanState, p: seq<TaggedEvent>, x: TaggedEvent)
    requires Traced(s, p)
    ensures Traced(s, p + [x])
  {
    var q := p + [x];
    forall y | y in s.stack ensures Opened(q, y) {
      var j :| 0 <= j < |p| && p[j].event.kind == Begin && p[j].line == y.i && p[j].event.regexp.offsetTop == y.t;
      assert q[j] == p[j];
    }
    forall r | r in s.ranges ensures Closes(q, r) {
      var j, j' :| 0 <= j < j' < |p|
        && p[j].event.kind == Begin && p[j'].event.kind == End
        && p[j].line <= r.end && r.start == p[j].line + p[j].event.regexp.offsetTop
        && p[j'].line == r.end + 1;
      assert q[j] == p[j] && q[j'] == p[j'];
    }
  }

  /** One step keeps the trace: a begin's entry is traced to the begin itself,
      and an end's range to the begin that pushed the popped entry and to the
      end itself. */
  lemma StepKeepsTrace(s: ScanState, p: seq<TaggedEvent>, x: TaggedEvent)
    requires Traced(s, p) && Step(s, x).Ok?
    requires forall j :: 0 <= j < |p| ==> p[j].line <= x.line
    ensures Traced(Step(s, x).value, p + [x])
  {
    var q := p + [x];
    TracedExtend(s, p, x);
    var s' := Step(s, x).value;
    assert q[|p|] == x;
    match x.event.kind
    case Begin =>
      var y0 := Entry(x.event.regexp.offsetTop, x.line);
      assert s'.stack == [y0] + s.stack;
      assert Opened(q, y0);
    case End =>
      var top := s.stack[0];
      assert top in s.stack;
      forall y | y in s'.stack ensures Opened(q, y) {
        assert y in s.stack;
      }
      if top.i != x.line {
        var r := FoldingRange(top.i + top.t, x.line - 1);
        var j :| 0 <= j < |p| && p[j].event.kind == Begin && p[j].line == top.i && p[j].event.regexp.offsetTop == top.t;
        assert q[j] == p[j];
        assert Closes(q, r);
        assert s'.ranges == s.ranges + [r];
      }
  }

  /** A run from the initial state over events in line order keeps the trace. */
  lemma {:induction false} RunKeepsTrace(les: seq<TaggedEvent>)
    requires forall j, j' :: 0 <= j < j' < |les| ==> les[j].line <= les[j'].line
    requires Run(Initial, les).Ok?
    ensures Traced(Run(Initial, les).value, les)
    decreases |les|
  {
    if les != [] {
      var n := |les| - 1;
      var p, x := les[..n], les[n];
      RunLast(Initial, p, x);
      assert les == p + [x];
      RunKeepsTrace(p);
      StepKeepsTrace(Run(Initial, p).value, p, x);
    }
  }

  /** Every returned range comes from the document's events: a begin on a
      line `a` no later than the range's end, whose `offsetTop` gives its
      start `a + offsetTop`, and after it an end on the line following the
      range's end. */
  lemma ScanRangesTraced(e: RegExp.Engine, rs: seq<FoldingRegex>, lines: seq<string>)
    requires AllNonEmpty(e, rs) && Scan(e, rs, lines).Ok?
    ensures forall r :: r in Scan(e, rs, lines).value ==> Closes(DocEvents(e, rs, lines), r)
  {
    DocEventsShape(e, rs, lines);
    RunKeepsTrace(DocEvents(e, rs, lines));
  }

  /** `provideFoldingRanges` throws exactly when, at some point of the
      document, more ends than begins have been seen. */
  lemma ScanFailsIffUnderflow(e: RegExp.Engine, rs: seq<FoldingRegex>, lines: seq<string>)
    requires AllNonEmpty(e, rs)
    ensures Scan(e, rs, lines).Err? <==> Underflows(0, DocEvents(e, rs, lines))
  {
    RunFailsIffUnderflow(Initial, DocEvents(e, rs, lines));
  }

  /** A document without end events folds nothing and does not throw: begins
      left open at the end produce no range. */
  lemma NoEndsNoRanges(e: RegExp.Engine, rs: seq<FoldingRegex>, lines: seq<string>)
    requires AllNonEmpty(e, rs) && Count(DocEvents(e, rs, lines), End) == 0
    ensures Scan(e, rs, lines) == Ok([])
  {
    var les := DocEvents(e, rs, lines);
    forall k | 0 <= k <= |les| ensures Count(les[..k], End) == 0 {
      CountPrefix(les, k, End);
    }
    RunFailsIffUnderflow(Initial, les);
    RunShape(Initial, les);
  }

  /** Once a run has failed, later events do not change the outcome: the
      exception leaves `provideFoldingRanges` at once. */
  lemma {:induction false} RunAfterError(s: ScanState, p: seq<TaggedEvent>, les: seq<TaggedEvent>)
    requires p <= les && Run(s, p).Err?
    ensures Run(s, les) == Run(s, p)
    decreases |les|
  {
    if |les| > |p| {
      var n := |les| - 1;
      assert p <= les[..n];
      RunAfterError(s, p, les[..n]);
    } else {
      assert les == p;
    }
  }

  /** The events of the first lines come first. */
  lemma {:induction false} DocEventsPrefix(e: RegExp.Engine, rs: seq<FoldingRegex>, lines: seq<string>, k: nat)
    requires AllNonEmpty(e, rs) && k <= |lines|
    ensures DocEvents(e, rs, lines[..k]) <= DocEvents(e, rs, lines)
    decreases |lines|
  {
    if k < |lines| {
      var n := |lines| - 1;
      assert lines[..n][..k] == lines[..k];
      DocEventsPrefix(e, rs, lines[..n], k);
    } else {
      assert lines[..k] == lines;
    }
  }

  /** The next line's events follow those of the lines before it. */
  lemma DocEventsNextLine(e: RegExp.Engine, rs: seq<FoldingRegex>, lines: seq<string>, i: nat)
    requires AllNonEmpty(e, rs) && i < |lines|
    ensures DocEvents(e, rs, lines[..i + 1]) == DocEvents(e, rs, lines[..i]) + Tagged(i, LineEvents(e, rs, lines[i]))
  {
    assert lines[..i + 1][..i] == lines[..i];
  }

  /** Running `a + b` runs `a`, then `b` from where `a` left off. */
  lemma {:induction false} RunAppend(s: ScanState, a: seq<TaggedEvent>, b: seq<TaggedEvent>)
    ensures Run(s, a + b) == match Run(s, a) case Err(x) => Err(x) case Ok(s') => Run(s', b)
    decreases |b|
  {
    if b == [] {
      assert a + b == a;
    } else {
      var n := |b| - 1;
      assert (a + b)[..|a + b| - 1] == a + b[..n];
      assert (a + b)[|a + b| - 1] == b[n];
      RunAppend(s, a, b[..n]);
    }
  }

  /** The evident intent of the guard `if (stack[0])` that follows the read of
      `stack[0].i`: an end event with no open begin is ignored. */
  function StepGuarded(s: ScanState, le: TaggedEvent): (r: ScanState)
    ensures le.event.kind == End && s.stack == [] ==> r == s
    ensures Step(s, le).Ok? ==> r == Step(s, le).value
  {
    if le.event.kind == End && s.stack == [] then s
    else
      match Step(s, le)
      case Ok(s') => s'
      case Err(_) => s
  }

  /** The corrected events handled one after the other. */
  function RunGuarded(s: ScanState, les: seq<TaggedEvent>): (r: ScanState)
    ensures |s.ranges| <= |r.ranges| <= |s.ranges| + |les|
    decreases |les|
  {
    if les == [] then s else StepGuarded(RunGuarded(s, les[..|les| - 1]), les[|les| - 1])
  }

  /** The corrected scan: it never throws. */
  function ScanGuarded(e: RegExp.Engine, rs: seq<FoldingRegex>, lines: seq<string>): (r: seq<FoldingRange>)
    requires AllNonEmpty(e, rs)
    ensures |r| <= |DocEvents(e, rs, lines)|
  {
    RunGuarded(Initial, DocEvents(e, rs, lines)).ranges
  }

  /** Wherever the code as written does not throw, the corrected scan returns
      the same ranges. */
  lemma {:induction false} GuardedAgreesWithoutError(s: ScanState, les: seq<TaggedEvent>)
    requires Run(s, les).Ok?
    ensures RunGuarded(s, les) == Run(s, les).value
    decreases |les|
  {
    if les != [] {
      GuardedAgreesWithoutError(s, les[..|les| - 1]);
    }
  }

  lemma ScanGuardedAgrees(e: RegExp.Engine, rs: seq<FoldingRegex>, lines: seq<string>)
    requires AllNonEmpty(e, rs) && Scan(e, rs, lines).Ok?
    ensures ScanGuarded(e, rs, lines) == Scan(e, rs, lines).value
  {
    GuardedAgreesWithoutError(Initial, DocEvents(e, rs, lines));
  }

  lemma {:induction false} RunGuardedFirst(s: ScanState, x: TaggedEvent, rest: seq<TaggedEvent>)
    ensures RunGuarded(s, [x] + rest) == RunGuarded(StepGuarded(s, x), rest)
    decreases |rest|
  {
    if rest == [] {
      assert ([x] + rest)[..0] == [];
    } else {
      var n := |rest| - 1;
      assert ([x] + rest)[..|rest|] == [x] + rest[..n];
      RunGuardedFirst(s, x, rest[..n]);
    }
  }

  /** In the corrected scan an end with no open begin yields nothing and
      leaves the scanning of what follows as if it were not there. */
  lemma GuardedIgnoresUnmatchedEnd(s: ScanState, x: TaggedEvent, rest: seq<TaggedEvent>)
    requires s.stack == [] && x.event.kind == End
    ensures RunGuarded(s, [x] + rest) == RunGuarded(s, rest)
  {
    RunGuardedFirst(s, x, rest);
  }

  /** As written, the same end event throws instead. */
  lemma UnmatchedEndThrows(s: ScanState, x: TaggedEvent, rest: seq<TaggedEvent>)
    requires s.stack == [] && x.event.kind == End
    ensures Run(s, [x] + rest) == Err(StackTopUndefined(x.line))
  {
    assert ([x] + rest)[..1] == [x];
    assert [x][..0] == [];
    RunAfterError(s, [x], [x] + rest);
  }
}
