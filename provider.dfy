/** `ConfigurableFoldingProvider`: compiles its configuration into `regexes`
    once, then folds documents given as sequences of lines. */
module Provider {
  import opened Wrappers
  import opened RegExp
  import opened Config
  import opened Matching
  import opened Scanner

  class ConfigurableFoldingProvider {
    /** The regular-expression engine of the host. */
    const engine: Engine
    var regexes: seq<FoldingRegex>

    /** A single configuration is handled as a one-element list; each config
        is compiled in turn. */
    constructor (configuration: Configuration, engine: Engine)
      ensures this.engine == engine
      ensures regexes == CompileAll(engine, AsList(configuration))
    {
      this.engine := engine;
      regexes := [];
      new;
      match configuration
      case Many(cs) =>
        for k := 0 to |cs|
          invariant this.engine == engine
          invariant regexes == CompileAll(engine, cs[..k])
        {
          AddRegex(cs[k]);
          assert cs[..k + 1][..k] == cs[..k];
        }
        assert cs[..|cs|] == cs;
      case Single(c) =>
        AddRegex(c);
        CompileAllSingleton(engine, c);
    }

    /** Appends the record for `configuration`, or nothing when it has no
        complete pair or does not compile. */
    method AddRegex(configuration: FoldingConfig)
      modifies this
      ensures regexes == old(regexes) + OptionToSeq(CompileOne(engine, configuration))
    {
      var c := configuration;
      if HasRegexPair(c) {
        if engine.compiles(c.beginRegex.value) && engine.compiles(c.endRegex.value) {
          regexes := regexes + [FoldingRegex(c.beginRegex.value, c.endRegex.value, OffsetOrZero(c.offsetTop))];
        }
      } else if HasLiteralPair(c) {
        var b, en := Escape.EscapeRegex(c.begin.value), Escape.EscapeRegex(c.end.value);
        if engine.compiles(b) && engine.compiles(en) {
          regexes := regexes + [FoldingRegex(b, en, OffsetOrZero(c.offsetTop))];
        }
      }
    }

    /** The folding ranges of `document`, or the error thrown by an end event
        that meets an empty stack. */
    method ProvideFoldingRanges(document: seq<string>) returns (r: Result<seq<FoldingRange>, ScanError>)
      requires AllNonEmpty(engine, regexes)
      ensures r == Scan(engine, regexes, document)
    {
      var foldingRanges: seq<FoldingRange> := [];
      var stack: seq<Entry> := [];
      for i := 0 to |document|
        invariant Run(Initial, DocEvents(engine, regexes, document[..i])) == Ok(ScanState(stack, foldingRanges))
      {
        var events := FindOfRegexp(engine, document[i], regexes);
        ghost var done := DocEvents(engine, regexes, document[..i]);
        DocEventsNextLine(engine, regexes, document, i);
        RunAppend(Initial, done, Tagged(i, events));
        var next := ScanLine(ScanState(stack, foldingRanges), i, events);
        if next.Err? {
          DocEventsPrefix(engine, regexes, document, i + 1);
          RunAfterError(Initial, done + Tagged(i, events), DocEvents(engine, regexes, document));
          return Err(next.error);
        }
        stack, foldingRanges := next.value.stack, next.value.ranges;
      }
      assert document[..|document|] == document;
      r := Ok(foldingRanges);
    }
  }

  /** The body of the loop over one line's events: the `switch` on each
      event's type, which stops at the first error. */
  method ScanLine(state: ScanState, i: nat, events: seq<Event>) returns (r: Result<ScanState, ScanError>)
    ensures r == Run(state, Tagged(i, events))
  {
    var stack, foldingRanges := state.stack, state.ranges;
    assert Tagged(i, events[..0]) == [];
    for j := 0 to |events|
      invariant Run(state, Tagged(i, events[..j])) == Ok(ScanState(stack, foldingRanges))
    {
      var ev := events[j];
      ghost var taken := Tagged(i, events[..j]);
      TaggedNext(i, events, j);
      RunLast(state, taken, TaggedEvent(i, ev));
      match ev.kind
      case Begin =>
        stack := [Entry(ev.regexp.offsetTop, i)] + stack;
      case End =>
        if stack == [] {
          // reading `stack[0].i` of an empty stack throws a TypeError
          RunAfterError(state, taken + [TaggedEvent(i, ev)], Tagged(i, events));
          return Err(StackTopUndefined(i));
        }
        var a: int, b: int, c: int := stack[0].i, i, stack[0].t;
        if a != b {
          foldingRanges := foldingRanges + [FoldingRange(a + c, b - 1)];
        }
        stack := stack[1..];
    }
    assert events[..|events|] == events;
    r := Ok(ScanState(stack, foldingRanges));
  }
}
