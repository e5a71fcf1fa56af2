/** The SET text of `-e trace=SET` and the tokens stored from it (src/trace_filter.c). */
module FilterTokens {
  import opened Basics
  import opened Splitting

  const MAX_FILTER_TOKENS := 16
  // filter_tokens[i] is a char[64]: 63 characters and the terminator
  const TOKEN_LENGTH := 63

  function Cut(s: string): (t: string)
    ensures |t| <= TOKEN_LENGTH
  {
    if |s| <= TOKEN_LENGTH then s else s[..TOKEN_LENGTH]
  }

  /** The tokens strtok yields: the non-empty pieces, each cut by snprintf to 63 characters. */
  function Tokens(ps: seq<string>): (ts: seq<string>)
  {
    if ps == [] then []
    else (if ps[0] == [] then [] else [Cut(ps[0])]) + Tokens(ps[1..])
  }

  function FirstTokens(ts: seq<string>): (r: seq<string>)
    ensures |r| <= MAX_FILTER_TOKENS
    ensures r <= ts
  {
    if |ts| <= MAX_FILTER_TOKENS then ts else ts[..MAX_FILTER_TOKENS]
  }

  /** The pieces that are not empty. */
  function NonEmpty(ps: seq<string>): seq<string> {
    if ps == [] then []
    else if ps[0] == [] then NonEmpty(ps[1..])
    else [ps[0]] + NonEmpty(ps[1..])
  }

  /** The tokens are the non-empty pieces in order, each as it is up to 63 characters, and of a
      longer one its first 63. */
  lemma {:induction false} TokensAreThePieces(ps: seq<string>)
    ensures |Tokens(ps)| == |NonEmpty(ps)|
    ensures forall i :: 0 <= i < |Tokens(ps)| ==>
              var piece := NonEmpty(ps)[i];
              && (|piece| <= 63 ==> Tokens(ps)[i] == piece)
              && (|piece| > 63 ==> |Tokens(ps)[i]| == 63 && Tokens(ps)[i] <= piece)
  {
    if ps != [] {
      TokensAreThePieces(ps[1..]);
    }
  }

  /** So short pieces are stored as they are. */
  lemma {:induction false} ShortPiecesKept(ps: seq<string>)
    requires forall i :: 0 <= i < |NonEmpty(ps)| ==> |NonEmpty(ps)[i]| <= 63
    ensures Tokens(ps) == NonEmpty(ps)
  {
    TokensAreThePieces(ps);
  }

  /** What remains to be stored once the scan has reached position `at`. */
  ghost function TokensFrom(s: string, at: nat): seq<string>
    requires at <= |s| + 1
  {
    if at <= |s| then Tokens(Pieces(',', s[at..])) else []
  }

  lemma {:induction false} TokensCons(p: string, ps: seq<string>)
    ensures Tokens([p] + ps) == (if p == [] then [] else [Cut(p)]) + Tokens(ps)
  {
    assert ([p] + ps)[1..] == ps;
  }

  /** The token the scan stores at position `at`, if any, and where it goes on. */
  ghost function TokenAt(s: string, at: nat): seq<string>
    requires at <= |s|
  {
    var k := Find(',', s[at..]);
    if k == 0 then [] else [Cut(s[at..at + k])]
  }

  ghost function After(s: string, at: nat): (next: nat)
    requires at <= |s|
    ensures at < next <= |s| + 1
  {
    at + Find(',', s[at..]) + 1
  }

  lemma {:induction false} TokensFromStep(s: string, at: nat)
    requires at <= |s|
    ensures TokensFrom(s, at) == TokenAt(s, at) + TokensFrom(s, After(s, at))
  {
    var u := s[at..];
    var k := Find(',', u);
    assert u[..k] == s[at..at + k];
    if k == |u| {
      assert Pieces(',', u) == [u] + [];
      TokensCons(u, []);
      assert u[..k] == u;
    } else {
      TokensCons(u[..k], Pieces(',', u[k + 1..]));
      assert u[k + 1..] == s[at + k + 1..];
    }
  }

  /** One turn of the strtok loop keeps what is stored plus what is to come. */
  lemma {:induction false} StoredThenRest(s: string, at: nat, tokens: seq<string>)
    requires at <= |s|
    ensures (tokens + TokenAt(s, at)) + TokensFrom(s, After(s, at)) == tokens + TokensFrom(s, at)
  {
    TokensFromStep(s, at);
    Regroup(tokens, TokenAt(s, at), TokensFrom(s, After(s, at)));
  }

  lemma {:induction false} StoredIsFirst(s: string, at: nat, tokens: seq<string>)
    requires at <= |s| + 1 && |tokens| <= MAX_FILTER_TOKENS
    requires at == |s| + 1 || |tokens| == MAX_FILTER_TOKENS
    ensures FirstTokens(tokens + TokensFrom(s, at)) == tokens
  {
  }

  /** At most 16 short pieces, parsed into an empty filter, are all stored as they are. */
  lemma {:induction false} StoredPieces(before: seq<string>, text: string)
    ensures var pieces := NonEmpty(Pieces(',', text));
            before == [] && |pieces| <= 16 && (forall i :: 0 <= i < |pieces| ==> |pieces[i]| <= 63) ==>
              FirstTokens(before + Tokens(Pieces(',', text))) == pieces
  {
    var pieces := NonEmpty(Pieces(',', text));
    if before == [] && forall i :: 0 <= i < |pieces| ==> |pieces[i]| <= 63 {
      ShortPiecesKept(Pieces(',', text));
      assert before + Tokens(Pieces(',', text)) == pieces;
    }
  }

  /** filter_tokens and filter_token_count: static, so every -e adds to them. */
  class Filter {
    var tokens: seq<string>

    ghost predicate Valid()
      reads this
    {
      |tokens| <= MAX_FILTER_TOKENS
    }

    constructor ()
      ensures Valid() && tokens == []
    {
      tokens := [];
    }

    /** parse_trace_filter: the strtok loop, one stored token a turn while there is room. */
    method ParseTraceFilter(text: string)
      requires Valid()
      modifies this
      ensures Valid()
      ensures tokens == FirstTokens(old(tokens) + Tokens(Pieces(',', text)))
      ensures var pieces := NonEmpty(Pieces(',', text));
              old(tokens) == [] && |pieces| <= 16 && (forall i :: 0 <= i < |pieces| ==> |pieces[i]| <= 63) ==>
                tokens == pieces
    {
      var at := 0;
      ghost var all := tokens + Tokens(Pieces(',', text));
      assert text[0..] == text;
      while at <= |text| && |tokens| < MAX_FILTER_TOKENS
        invariant at <= |text| + 1
        invariant Valid()
        invariant tokens + TokensFrom(text, at) == all
        decreases |text| + 1 - at
      {
        StoredThenRest(text, at, tokens);
        var k := Find(',', text[at..]);
        ghost var stored := tokens + TokenAt(text, at);
        if k != 0 {
          tokens := tokens + [Cut(text[at..at + k])];
        }
        assert tokens == stored;
        at := at + k + 1;
      }
      StoredIsFirst(text, at, tokens);
      StoredPieces(old(tokens), text);
    }
  }
}
