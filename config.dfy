/** Pattern compilation: the `addRegex` step and the list it builds. */
module Config {
  import opened Wrappers
  import opened Escape
  import opened RegExp

  /** `FoldingConfig`; a missing field is `None`. */
  datatype FoldingConfig = FoldingConfig(
    begin: Option<string>,
    end: Option<string>,
    beginRegex: Option<string>,
    endRegex: Option<string>,
    offsetTop: Option<int>)

  /** What the constructor accepts: one configuration or an array of them. */
  datatype Configuration = Single(config: FoldingConfig) | Many(configs: seq<FoldingConfig>)

  /** `FoldingRegex`; a compiled `RegExp` is represented by its source text. */
  datatype FoldingRegex = FoldingRegex(begin: string, end: string, offsetTop: int)

  /** JavaScript truthiness of an optional string: present and not `""`. */
  predicate Truthy(s: Option<string>) {
    s.Some? && s.value != ""
  }

  /** `configuration.offsetTop || 0` (0 is falsy, so `Some(0)` also gives 0). */
  function OffsetOrZero(o: Option<int>): int {
    if o.Some? then o.value else 0
  }

  predicate HasRegexPair(c: FoldingConfig) {
    Truthy(c.beginRegex) && Truthy(c.endRegex)
  }

  predicate HasLiteralPair(c: FoldingConfig) {
    Truthy(c.begin) && Truthy(c.end)
  }

  /** The record `addRegex` pushes for `c`, or `None` when it pushes nothing:
      the regex pair wins over the literal pair, a config with neither pair is
      ignored, and a pattern that does not compile throws inside the `try`,
      whose empty `catch` drops the config. */
  function CompileOne(e: Engine, c: FoldingConfig): (r: Option<FoldingRegex>)
    ensures r.Some? ==> HasRegexPair(c) || HasLiteralPair(c)
    ensures r.Some? ==> e.compiles(r.value.begin) && e.compiles(r.value.end) && r.value.offsetTop == OffsetOrZero(c.offsetTop)
  {
    if HasRegexPair(c) then
      if e.compiles(c.beginRegex.value) && e.compiles(c.endRegex.value)
      then Some(FoldingRegex(c.beginRegex.value, c.endRegex.value, OffsetOrZero(c.offsetTop)))
      else None
    else if HasLiteralPair(c) then
      var b, en := EscapeRegex(c.begin.value), EscapeRegex(c.end.value);
      if e.compiles(b) && e.compiles(en)
      then Some(FoldingRegex(b, en, OffsetOrZero(c.offsetTop)))
      else None
    else None
  }

  /** The values `f` gives, in order, for the elements it does not reject. */
  function FilterMap<A, B>(f: A -> Option<B>, xs: seq<A>): (ys: seq<B>)
    ensures |ys| <= |xs|
    decreases |xs|
  {
    if xs == [] then []
    else FilterMap(f, xs[..|xs| - 1]) + OptionToSeq(f(xs[|xs| - 1]))
  }

  /** The `regexes` list after `addRegex` has been called on each of `cs` in turn. */
  function CompileAll(e: Engine, cs: seq<FoldingConfig>): (rs: seq<FoldingRegex>)
    ensures |rs| <= |cs|
  {
    FilterMap(c => CompileOne(e, c), cs)
  }

  /** The configurations the constructor hands to `addRegex`, in order. */
  function AsList(c: Configuration): (cs: seq<FoldingConfig>)
    ensures c.Single? ==> cs == [c.config]
    ensures c.Many? ==> cs == c.configs
  {
    match c
    case Single(x) => [x]
    case Many(xs) => xs
  }

  /** What a compiled record holds: the regex sources verbatim when the regex
      pair is present, else the escaped literals (whose literal text is the
      configured delimiter); both compiled; the offset defaults to 0. */
  lemma CompileOneSome(e: Engine, c: FoldingConfig)
    requires CompileOne(e, c).Some?
    ensures var r := CompileOne(e, c).value;
      && e.compiles(r.begin) && e.compiles(r.end)
      && r.offsetTop == OffsetOrZero(c.offsetTop)
      && (HasRegexPair(c) ==> r.begin == c.beginRegex.value && r.end == c.endRegex.value)
      && (!HasRegexPair(c) ==>
            && HasLiteralPair(c)
            && WellEscaped(r.begin) && WellEscaped(r.end)
            && Unescape(r.begin) == c.begin.value && Unescape(r.end) == c.end.value)
  {
    if !HasRegexPair(c) {
      EscapeIsWellEscaped(c.begin.value);
      EscapeIsWellEscaped(c.end.value);
      UnescapeEscape(c.begin.value);
      UnescapeEscape(c.end.value);
    }
  }

  /** When a record is pushed, and which: a truthy regex pair whose sources
      both compile is pushed verbatim; without one, a truthy literal pair
      whose escaped forms both compile is pushed escaped; anything else
      pushes nothing. */
  lemma CompileOneWhen(e: Engine, c: FoldingConfig)
    ensures CompileOne(e, c).Some? <==>
      if HasRegexPair(c) then e.compiles(c.beginRegex.value) && e.compiles(c.endRegex.value)
      else HasLiteralPair(c) && e.compiles(EscapeRegex(c.begin.value)) && e.compiles(EscapeRegex(c.end.value))
    ensures HasRegexPair(c) && e.compiles(c.beginRegex.value) && e.compiles(c.endRegex.value) ==>
      CompileOne(e, c) == Some(FoldingRegex(c.beginRegex.value, c.endRegex.value, OffsetOrZero(c.offsetTop)))
    ensures !HasRegexPair(c) && HasLiteralPair(c) && e.compiles(EscapeRegex(c.begin.value)) && e.compiles(EscapeRegex(c.end.value)) ==>
      CompileOne(e, c) == Some(FoldingRegex(EscapeRegex(c.begin.value), EscapeRegex(c.end.value), OffsetOrZero(c.offsetTop)))
  {
  }

  /** When the engine accepts every well-escaped source (as JavaScript's does),
      a config with only a literal pair is never dropped. */
  lemma LiteralPairAlwaysCompiles(e: Engine, c: FoldingConfig)
    requires forall s :: WellEscaped(s) ==> e.compiles(s)
    requires !HasRegexPair(c) && HasLiteralPair(c)
    ensures CompileOne(e, c).Some?
  {
    EscapeIsWellEscaped(c.begin.value);
    EscapeIsWellEscaped(c.end.value);
  }

  lemma {:induction false} FilterMapAppend<A, B>(f: A -> Option<B>, a: seq<A>, b: seq<A>)
    ensures FilterMap(f, a + b) == FilterMap(f, a) + FilterMap(f, b)
    decreases |b|
  {
    if b == [] {
      assert a + b == a;
    } else {
      var b' := b[..|b| - 1];
      assert (a + b)[..|a + b| - 1] == a + b';
      assert (a + b)[|a + b| - 1] == b[|b| - 1];
      FilterMapAppend(f, a, b');
    }
  }

  /** `ix` gives the index in `xs` of each element of `ys`: `ys` holds, in
      order, what `f` gives for exactly the elements it does not reject. */
  ghost predicate Origins<A, B>(f: A -> Option<B>, xs: seq<A>, ix: seq<nat>, ys: seq<B>) {
    && |ix| == |ys| <= |xs|
    && (forall j :: 0 <= j < |ix| ==> ix[j] < |xs| && f(xs[ix[j]]) == Some(ys[j]))
    && (forall j, j' :: 0 <= j < j' < |ix| ==> ix[j] < ix[j'])
    && (forall k :: 0 <= k < |xs| && f(xs[k]).Some? ==> k in ix)
  }

  /** One more element keeps the origins: its index is added when `f`
      accepts it. */
  lemma OriginsExtend<A, B>(f: A -> Option<B>, p: seq<A>, x: A, prev: seq<nat>, kept: seq<B>) returns (ix: seq<nat>)
    requires Origins(f, p, prev, kept)
    ensures Origins(f, p + [x], ix, kept + OptionToSeq(f(x)))
  {
    var xs, n := p + [x], |p|;
    assert xs[n] == x;
    if f(x).Some? {
      ix := prev + [n];
      var ys := kept + [f(x).value];
      assert OptionToSeq(f(x)) == [f(x).value];
      forall j | 0 <= j < |ix| ensures ix[j] < |xs| && f(xs[ix[j]]) == Some(ys[j]) {
        if j < |prev| {
          assert ix[j] == prev[j] && ys[j] == kept[j] && xs[prev[j]] == p[prev[j]];
        } else {
          assert ix[j] == n && ys[j] == f(x).value;
        }
      }
      forall j, j' | 0 <= j < j' < |ix| ensures ix[j] < ix[j'] {
        assert ix[j] == prev[j];
        if j' < |prev| {
          assert ix[j'] == prev[j'];
        }
      }
      forall k | 0 <= k < |xs| && f(xs[k]).Some? ensures k in ix {
        if k < n {
          assert xs[k] == p[k];
        }
      }
    } else {
      ix := prev;
      assert kept + OptionToSeq(f(x)) == kept;
      forall j | 0 <= j < |ix| ensures ix[j] < |xs| && f(xs[ix[j]]) == Some(kept[j]) {
        assert xs[prev[j]] == p[prev[j]];
      }
      forall k | 0 <= k < n && f(xs[k]).Some? ensures k in ix {
        assert xs[k] == p[k];
      }
    }
  }

  /** The index of each kept element: `FilterMap` keeps exactly the elements
      `f` accepts, in their order. */
  lemma {:induction false} FilterMapOrigins<A, B>(f: A -> Option<B>, xs: seq<A>) returns (ix: seq<nat>)
    ensures Origins(f, xs, ix, FilterMap(f, xs))
    decreases |xs|
  {
    if xs == [] {
      ix := [];
    } else {
      var n := |xs| - 1;
      var p := xs[..n];
      var prev := FilterMapOrigins(f, p);
      ix := OriginsExtend(f, p, xs[n], prev, FilterMap(f, p));
      assert p + [xs[n]] == xs;
    }
  }

  /** Compiling a concatenation compiles the parts one after the other. */
  lemma CompileAllAppend(e: Engine, a: seq<FoldingConfig>, b: seq<FoldingConfig>)
    ensures CompileAll(e, a + b) == CompileAll(e, a) + CompileAll(e, b)
  {
    FilterMapAppend(c => CompileOne(e, c), a, b);
  }

  /** A single configuration compiles to its own record, if any. */
  lemma CompileAllSingleton(e: Engine, c: FoldingConfig)
    ensures CompileAll(e, [c]) == OptionToSeq(CompileOne(e, c))
  {
    assert [c][..|[c]| - 1] == [];
    assert CompileAll(e, [c]) == CompileAll(e, []) + OptionToSeq(CompileOne(e, c));
  }

  /** A config that compiles to nothing has no effect on the others. */
  lemma DroppedConfigHasNoEffect(e: Engine, cs: seq<FoldingConfig>, k: nat)
    requires k < |cs| && CompileOne(e, cs[k]).None?
    ensures CompileAll(e, cs) == CompileAll(e, cs[..k] + cs[k + 1..])
  {
    FilterMapSkip(c => CompileOne(e, c), cs, k);
  }

  lemma FilterMapSkip<A, B>(f: A -> Option<B>, xs: seq<A>, k: nat)
    requires k < |xs| && f(xs[k]).None?
    ensures FilterMap(f, xs) == FilterMap(f, xs[..k] + xs[k + 1..])
  {
    var front, x, back := xs[..k], xs[k], xs[k + 1..];
    calc {
      FilterMap(f, xs);
    == { SplitAt(xs, k); FilterMapAppend(f, front + [x], back); }
      FilterMap(f, front + [x]) + FilterMap(f, back);
    == { FilterMapAppend(f, front, [x]); FilterMapRejected(f, x); }
      FilterMap(f, front) + FilterMap(f, back);
    == { FilterMapAppend(f, front, back); }
      FilterMap(f, front + back);
    }
  }

  lemma SplitAt<A>(xs: seq<A>, k: nat)
    requires k < |xs|
    ensures xs == (xs[..k] + [xs[k]]) + xs[k + 1..]
  {
    assert xs[k..] == [xs[k]] + xs[k + 1..];
    assert xs == xs[..k] + xs[k..];
  }

  lemma FilterMapRejected<A, B>(f: A -> Option<B>, x: A)
    requires f(x).None?
    ensures FilterMap(f, [x]) == []
  {
    assert [x][..0] == [];
  }

  /** The list holds the records of exactly the configs that compile, in
      input order: `ix[j]` is the config record `j` comes from. */
  lemma CompileAllKeepsOrder(e: Engine, cs: seq<FoldingConfig>) returns (ix: seq<nat>)
    ensures |ix| == |CompileAll(e, cs)| <= |cs|
    ensures forall j :: 0 <= j < |ix| ==> ix[j] < |cs| && CompileOne(e, cs[ix[j]]) == Some(CompileAll(e, cs)[j])
    ensures forall j, j' :: 0 <= j < j' < |ix| ==> ix[j] < ix[j']
    ensures forall k :: 0 <= k < |cs| && CompileOne(e, cs[k]).Some? ==> k in ix
  {
    ix := FilterMapOrigins(c => CompileOne(e, c), cs);
  }
}
