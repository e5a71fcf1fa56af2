/**
 The filter that the command line asks for, end to end: the sets given to -e trace= are split into
 stored tokens, the tokens decide which names are allowed, and the trace is the projection on them.
 */
module FilteredTrace {
  import opened FilterProjection
  import opened SummaryAgrees
  import opened SummaryRows
  import opened TraceModel
  import FilterTokens
  import Splitting
  import TraceFilter

  /** The tokens stored after the sets of all the -e options, in order. */
  function Stored(sets: seq<string>): seq<string> {
    if sets == [] then []
    else
      var before, text := Stored(sets[..|sets| - 1]), sets[|sets| - 1];
      FilterTokens.FirstTokens(before + FilterTokens.Tokens(Splitting.Pieces(',', text)))
  }

  /** The tokens of all the sets, one set after the other. */
  function AllTokens(sets: seq<string>): seq<string> {
    if sets == [] then []
    else AllTokens(sets[..|sets| - 1]) + FilterTokens.Tokens(Splitting.Pieces(',', sets[|sets| - 1]))
  }

  lemma {:induction false} FirstOfFirst(a: seq<string>, b: seq<string>)
    ensures FilterTokens.FirstTokens(FilterTokens.FirstTokens(a) + b) == FilterTokens.FirstTokens(a + b)
  {
  }

  /** Parse by parse, the first 16 of all the tokens are stored. */
  lemma {:induction false} StoredIsFirstOfAll(sets: seq<string>)
    ensures Stored(sets) == FilterTokens.FirstTokens(AllTokens(sets))
  {
    if sets != [] {
      var before, text := sets[..|sets| - 1], sets[|sets| - 1];
      StoredIsFirstOfAll(before);
      FirstOfFirst(AllTokens(before), FilterTokens.Tokens(Splitting.Pieces(',', text)));
    }
  }

  /** One parse after another stores the first 16 of all the tokens. */
  method ParseAll(sets: seq<string>) returns (filter: FilterTokens.Filter)
    ensures fresh(filter) && filter.Valid()
    ensures filter.tokens == Stored(sets) == FilterTokens.FirstTokens(AllTokens(sets))
  {
    filter := new FilterTokens.Filter();
    for i := 0 to |sets|
      invariant fresh(filter) && filter.Valid() && filter.tokens == Stored(sets[..i])
    {
      assert sets[..i + 1][..i] == sets[..i];
      filter.ParseTraceFilter(sets[i]);
    }
    assert sets[..|sets|] == sets;
    StoredIsFirstOfAll(sets);
  }

  lemma {:induction false} TokenSetIsProjection(base: Config, cfg: Config, sets: seq<string>, root: Pid, es: seq<Wait>)
    requires Unfiltered(base, cfg)
    requires forall name :: cfg.filter(name) <==> TraceFilter.Allowed(Stored(sets), name)
    ensures Run(cfg, Start(root), es).log == Restrict(cfg.filter, Run(base, Start(root), es).log)
    ensures Run(cfg, Start(root), es).calls == Run(base, Start(root), es).calls
    ensures forall name :: cfg.filter(name) <==>
              (Stored(sets) == [] || exists t :: t in Stored(sets) && TraceFilter.Matches(t, name))
  {
    FilteringIsProjection(base, cfg, root, es);
    forall name
      ensures cfg.filter(name) <==>
              (Stored(sets) == [] || exists t :: t in Stored(sets) && TraceFilter.Matches(t, name))
    {
      TraceFilter.AllowedIff(Stored(sets), name);
    }
  }

  /** -c together with -e: the rows are the calls of the unfiltered trace that the filter allows,
      grouped by name. */
  lemma {:induction false} FilteredSummary(base: Config, cfg: Config, root: Pid, es: seq<Wait>)
    requires Unfiltered(base, cfg)
    ensures Run(Summary(cfg), Start(root), es).rows ==
            GroupBy(CallsIn(Restrict(cfg.filter, Run(PerCall(base), Start(root), es).log)))
  {
    SummaryAgreesWithTrace(cfg, root, es);
    assert Unfiltered(PerCall(base), PerCall(cfg));
    FilteringIsProjection(PerCall(base), PerCall(cfg), root, es);
  }
}
