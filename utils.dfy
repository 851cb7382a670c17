/**
 * The two single-quote-aware scanners of the shell's argument utilities.
 * Both walk the characters of their input once, keeping an "inside single
 * quotes" flag; neither knows about double quotes or backslashes.
 *
 * Each is given as a method that runs the loop the way the shell does, and as
 * a specification function: the loop's state after a prefix of the input is
 * `...From(start, prefix)`, defined by recursion on the LAST character, so that
 * one loop iteration is one unfolding of the definition.
 */
module Utils {

  import Strings

  const Quote: char := '\''
  const Space: char := ' '

  /** Every character of `s` that is not in `drop`, in order. */
  function Without(s: string, drop: set<char>): string
    decreases |s|
  {
    if s == [] then []
    else Without(s[..|s| - 1], drop) + (if s[|s| - 1] in drop then [] else [s[|s| - 1]])
  }

  // ---------------------------------------------------------------------------
  // preprocess_args
  // ---------------------------------------------------------------------------

  datatype PreprocessState = PreprocessState(out: string, inQuote: bool, lastWasSpace: bool)

  const PreprocessStart := PreprocessState("", false, false)

  /** `lastWasSpace` is only ever set right after an unquoted space was pushed. */
  predicate EndsConsistently(st: PreprocessState) {
    st.lastWasSpace ==> |st.out| > 0 && st.out[|st.out| - 1] == Space
  }

  /** One iteration of the `for c in args.chars()` loop. */
  function PreprocessStep(st: PreprocessState, c: char): PreprocessState {
    if c == Quote then st.(inQuote := !st.inQuote)
    else if c == Space then
      if st.inQuote then st.(out := st.out + [Space], lastWasSpace := false)
      else if !st.lastWasSpace then st.(out := st.out + [Space], lastWasSpace := true)
      else st
    else st.(out := st.out + [c], lastWasSpace := false)
  }

  /** The loop's state after the characters of `s`, starting from `st`. */
  function PreprocessFrom(st: PreprocessState, s: string): (r: PreprocessState)
    ensures EndsConsistently(st) ==> EndsConsistently(r)
    decreases |s|
  {
    if s == [] then st else PreprocessStep(PreprocessFrom(st, s[..|s| - 1]), s[|s| - 1])
  }

  /** What `preprocess_args` returns: the loop's output with a final unquoted
    * space popped. */
  function Preprocess(args: string): string {
    var st := PreprocessFrom(PreprocessStart, args);
    if st.lastWasSpace then st.out[..|st.out| - 1] else st.out
  }

  method PreprocessArgs(args: string) returns (out: string)
    ensures out == Preprocess(args)
  {
    out := "";
    var inQuote := false;
    var lastWasSpace := false;
    for i := 0 to |args|
      invariant PreprocessState(out, inQuote, lastWasSpace) == PreprocessFrom(PreprocessStart, args[..i])
    {
      var c := args[i];
      assert args[..i + 1][..i] == args[..i];
      if c == Quote {
        inQuote := !inQuote;
      } else if c == Space {
        if inQuote {
          out := out + [Space];
          lastWasSpace := false;
        } else if !lastWasSpace {
          out := out + [Space];
          lastWasSpace := true;
        }
      } else {
        out := out + [c];
        lastWasSpace := false;
      }
    }
    assert args[..|args|] == args;
    if lastWasSpace {
      out := out[..|out| - 1];
    }
  }

  lemma PreprocessFromOne(st: PreprocessState, c: char)
    ensures PreprocessFrom(st, [c]) == PreprocessStep(st, c)
  {
    assert [c][..0] == [];
  }

  lemma {:induction false} PreprocessFromAppend(st: PreprocessState, a: string, b: string)
    ensures PreprocessFrom(st, a + b) == PreprocessFrom(PreprocessFrom(st, a), b)
    decreases |b|
  {
    if b == [] {
      assert a + b == a;
    } else {
      assert (a + b)[..|a + b| - 1] == a + b[..|b| - 1];
      PreprocessFromAppend(st, a, b[..|b| - 1]);
    }
  }

  lemma {:induction false} PreprocessFromKeepsQuotesOut(st: PreprocessState, s: string)
    requires Quote !in st.out
    ensures Quote !in PreprocessFrom(st, s).out
    decreases |s|
  {
    if s != [] {
      PreprocessFromKeepsQuotesOut(st, s[..|s| - 1]);
    }
  }

  /** `preprocess_args` never outputs a single quote. */
  lemma PreprocessDropsQuotes(args: string)
    ensures Quote !in Preprocess(args)
  {
    PreprocessFromKeepsQuotesOut(PreprocessStart, args);
  }

  lemma {:induction false} PreprocessFromKeepsText(st: PreprocessState, s: string)
    ensures Without(PreprocessFrom(st, s).out, {Space}) == Without(st.out, {Space}) + Without(s, {Space, Quote})
    decreases |s|
  {
    if s != [] {
      var p, c := s[..|s| - 1], s[|s| - 1];
      PreprocessFromKeepsText(st, p);
      var mid := PreprocessFrom(st, p);
      var x := if c == Quote then Space else c;
      assert (mid.out + [x])[..|mid.out|] == mid.out;
    }
  }

  /** Apart from spaces, the output is the input with its quotes removed:
    * every other character is kept, in order. */
  lemma PreprocessKeepsText(args: string)
    ensures Without(Preprocess(args), {Space}) == Without(args, {Space, Quote})
  {
    PreprocessFromKeepsText(PreprocessStart, args);
    var st := PreprocessFrom(PreprocessStart, args);
    if st.lastWasSpace {
      assert st.out == st.out[..|st.out| - 1] + [Space];
    }
  }

  predicate NoDoubleSpace(s: string) {
    forall i :: 0 < i < |s| ==> s[i - 1] != Space || s[i] != Space
  }

  /** The state of the loop on quote-free input: never inside quotes, the
    * flag says whether `out` ends in a space, and no two spaces are adjacent. */
  predicate Collapsed(st: PreprocessState) {
    && !st.inQuote
    && (st.lastWasSpace <==> |st.out| > 0 && st.out[|st.out| - 1] == Space)
    && NoDoubleSpace(st.out)
  }

  lemma {:induction false} PreprocessFromCollapses(st: PreprocessState, s: string)
    requires Collapsed(st) && Quote !in s
    ensures Collapsed(PreprocessFrom(st, s))
    decreases |s|
  {
    if s != [] {
      assert s[..|s| - 1] + [s[|s| - 1]] == s;
      PreprocessFromCollapses(st, s[..|s| - 1]);
    }
  }

  /** On input without quotes, runs of spaces collapse to one space and no
    * space is left at the end. */
  lemma PreprocessCollapsesSpaces(args: string)
    requires Quote !in args
    ensures var r := Preprocess(args); NoDoubleSpace(r) && (r == [] || r[|r| - 1] != Space)
  {
    PreprocessFromCollapses(PreprocessStart, args);
    var st := PreprocessFrom(PreprocessStart, args);
    if st.lastWasSpace && |st.out| > 1 {
      assert st.out[|st.out| - 2] != Space;
    }
  }

  lemma {:induction false} PreprocessFromInsideQuotes(st: PreprocessState, q: string)
    requires st.inQuote && Quote !in q
    ensures PreprocessFrom(st, q) ==
      st.(out := st.out + q, lastWasSpace := if q == [] then st.lastWasSpace else false)
    decreases |q|
  {
    if q == [] {
      assert st.out + q == st.out;
    } else {
      var p := q[..|q| - 1];
      assert q == p + [q[|q| - 1]];
      PreprocessFromInsideQuotes(st, p);
    }
  }

  /** Inside single quotes every character, spaces included, is copied one
    * for one, wherever the quoted text stands: after any prefix that leaves
    * no quote open, a quoted text appends exactly what is written between
    * the quotes, and leaves no quote open. */
  lemma PreprocessKeepsQuotedAfter(p: string, q: string)
    requires Quote !in q && !PreprocessFrom(PreprocessStart, p).inQuote
    ensures var before := PreprocessFrom(PreprocessStart, p);
      var after := PreprocessFrom(PreprocessStart, p + [Quote] + q + [Quote]);
      after.out == before.out + q && !after.inQuote
  {
    var before := PreprocessFrom(PreprocessStart, p);
    var open := PreprocessStep(before, Quote);
    PreprocessFromAppend(PreprocessStart, p, [Quote]);
    PreprocessFromOne(before, Quote);
    PreprocessFromAppend(PreprocessStart, p + [Quote], q);
    PreprocessFromInsideQuotes(open, q);
    PreprocessFromAppend(PreprocessStart, p + [Quote] + q, [Quote]);
    PreprocessFromOne(PreprocessFrom(open, q), Quote);
  }

  /** In particular a line that is one quoted text comes out exactly as
    * written between the quotes. */
  lemma PreprocessKeepsQuoted(q: string)
    requires Quote !in q
    ensures Preprocess([Quote] + q + [Quote]) == q
  {
    PreprocessKeepsQuotedAfter([], q);
    assert [] + [Quote] + q + [Quote] == [Quote] + q + [Quote];
  }

  // ---------------------------------------------------------------------------
  // split_args_respecting_single_quotes
  // ---------------------------------------------------------------------------

  datatype SplitState = SplitState(result: seq<string>, current: string, inQuotes: bool)

  const SplitStart := SplitState([], "", false)

  /** One iteration of the `for c in raw.chars()` loop. */
  function SplitStep(st: SplitState, c: char): SplitState {
    if c == Quote then st.(inQuotes := !st.inQuotes)
    else if c == Space && !st.inQuotes then
      if st.current != "" then SplitState(st.result + [st.current], "", st.inQuotes) else st
    else st.(current := st.current + [c])
  }

  /** The loop's state after the characters of `s`, starting from `st`. */
  function SplitFrom(st: SplitState, s: string): SplitState
    decreases |s|
  {
    if s == [] then st else SplitStep(SplitFrom(st, s[..|s| - 1]), s[|s| - 1])
  }

  /** What `split_args_respecting_single_quotes` returns: the loop's tokens and
    * the pending token, if it is not empty. */
  function Split(raw: string): seq<string> {
    var st := SplitFrom(SplitStart, raw);
    if st.current != "" then st.result + [st.current] else st.result
  }

  method SplitArgsRespectingSingleQuotes(raw: string) returns (result: seq<string>)
    ensures result == Split(raw)
  {
    result := [];
    var current := "";
    var inQuotes := false;
    for i := 0 to |raw|
      invariant SplitState(result, current, inQuotes) == SplitFrom(SplitStart, raw[..i])
    {
      var c := raw[i];
      assert raw[..i + 1][..i] == raw[..i];
      if c == Quote {
        inQuotes := !inQuotes;
      } else if c == Space && !inQuotes {
        if current != "" {
          result := result + [current];
          current := "";
        }
      } else {
        current := current + [c];
      }
    }
    assert raw[..|raw|] == raw;
    if current != "" {
      result := result + [current];
    }
  }

  lemma SplitFromOne(st: SplitState, c: char)
    ensures SplitFrom(st, [c]) == SplitStep(st, c)
  {
    assert [c][..0] == [];
  }

  lemma {:induction false} SplitFromAppend(st: SplitState, a: string, b: string)
    ensures SplitFrom(st, a + b) == SplitFrom(SplitFrom(st, a), b)
    decreases |b|
  {
    if b == [] {
      assert a + b == a;
    } else {
      assert (a + b)[..|a + b| - 1] == a + b[..|b| - 1];
      SplitFromAppend(st, a, b[..|b| - 1]);
    }
  }

  /** No token, finished or pending, is empty or holds a quote. */
  predicate GoodTokens(st: SplitState) {
    forall t :: t in st.result ==> t != "" && Quote !in t
  }

  lemma {:induction false} SplitFromGoodTokens(st: SplitState, s: string)
    requires GoodTokens(st) && Quote !in st.current
    ensures GoodTokens(SplitFrom(st, s)) && Quote !in SplitFrom(st, s).current
    decreases |s|
  {
    if s != [] {
      SplitFromGoodTokens(st, s[..|s| - 1]);
    }
  }

  /** The splitter never returns an empty token, and no token holds a quote. */
  lemma SplitTokensAreGood(raw: string)
    ensures forall t :: t in Split(raw) ==> t != "" && Quote !in t
  {
    SplitFromGoodTokens(SplitStart, raw);
  }

  lemma {:induction false} SplitFromSpaces(s: string)
    requires forall i :: 0 <= i < |s| ==> s[i] == Space
    ensures SplitFrom(SplitStart, s) == SplitStart
    decreases |s|
  {
    if s != [] {
      SplitFromSpaces(s[..|s| - 1]);
    }
  }

  /** An empty or all-space line has no tokens. */
  lemma SplitBlank(raw: string)
    requires forall c :: c in raw ==> c == Space
    ensures Split(raw) == []
  {
    assert forall i :: 0 <= i < |raw| ==> raw[i] in raw;
    SplitFromSpaces(raw);
  }

  /** Whether a single-quoted region is open after `s`. */
  function QuoteOpen(s: string): bool
    decreases |s|
  {
    if s == [] then false else QuoteOpen(s[..|s| - 1]) != (s[|s| - 1] == Quote)
  }

  /** `s` with its quote characters and its unquoted spaces removed. */
  function Kept(s: string): string
    decreases |s|
  {
    if s == [] then []
    else
      var p, c := s[..|s| - 1], s[|s| - 1];
      Kept(p) + (if c == Quote || (c == Space && !QuoteOpen(p)) then [] else [c])
  }

  function Concat(tokens: seq<string>): string
    decreases |tokens|
  {
    if tokens == [] then [] else Concat(tokens[..|tokens| - 1]) + tokens[|tokens| - 1]
  }

  lemma {:induction false} SplitFromKeeps(s: string)
    ensures var st := SplitFrom(SplitStart, s);
      Concat(st.result) + st.current == Kept(s) && st.inQuotes == QuoteOpen(s)
    decreases |s|
  {
    if s != [] {
      var p := s[..|s| - 1];
      SplitFromKeeps(p);
      var mid := SplitFrom(SplitStart, p);
      assert (mid.result + [mid.current])[..|mid.result|] == mid.result;
    }
  }

  /** Joining the tokens back together gives the input without its quotes and
    * without its unquoted spaces: spaces inside quotes stay in the tokens. */
  lemma SplitKeepsText(raw: string)
    ensures Concat(Split(raw)) == Kept(raw)
  {
    SplitFromKeeps(raw);
    var st := SplitFrom(SplitStart, raw);
    assert (st.result + [st.current])[..|st.result|] == st.result;
  }

  lemma {:induction false} SplitFromInsideQuotes(st: SplitState, q: string)
    requires st.inQuotes && Quote !in q
    ensures SplitFrom(st, q) == st.(current := st.current + q)
    decreases |q|
  {
    if q == [] {
      assert st.current + q == st.current;
    } else {
      var p := q[..|q| - 1];
      assert q == p + [q[|q| - 1]];
      SplitFromInsideQuotes(st, p);
    }
  }

  /** A single-quoted string is one token, spaces and all; a quote left open
    * at the end of the line behaves as if it were closed there. */
  lemma SplitQuoted(q: string)
    requires q != "" && Quote !in q
    ensures Split([Quote] + q + [Quote]) == [q]
    ensures Split([Quote] + q) == [q]
  {
    var open := SplitFrom(SplitStart, [Quote]);
    SplitFromOne(SplitStart, Quote);
    SplitFromAppend(SplitStart, [Quote], q);
    SplitFromAppend(SplitStart, [Quote] + q, [Quote]);
    SplitFromInsideQuotes(open, q);
    var inner := SplitFrom(open, q);
    assert inner == SplitState([], q, true);
    SplitFromOne(inner, Quote);
    assert SplitFrom(SplitStart, [Quote] + q + [Quote]) == SplitState([], q, false);
  }

  /** A quote as the very last character changes nothing. */
  lemma SplitIgnoresTrailingQuote(raw: string)
    ensures Split(raw + [Quote]) == Split(raw)
  {
    assert (raw + [Quote])[..|raw|] == raw;
  }

  /** A token the splitter passes through untouched. */
  predicate Word(t: string) {
    t != "" && Space !in t && Quote !in t
  }

  /** `raw` is a way of writing the token `t` on a line: either `t` itself,
    * when it has no spaces or quotes, or `t` between single quotes. */
  predicate Spells(raw: string, t: string) {
    || (Word(raw) && t == raw)
    || (t != "" && Quote !in t && raw == [Quote] + t + [Quote])
  }

  lemma {:induction false} SplitFromWord(st: SplitState, w: string)
    requires !st.inQuotes && Space !in w && Quote !in w
    ensures SplitFrom(st, w) == st.(current := st.current + w)
    decreases |w|
  {
    if w == [] {
      assert st.current + w == st.current;
    } else {
      var p := w[..|w| - 1];
      assert w == p + [w[|w| - 1]];
      SplitFromWord(st, p);
    }
  }

  /** Outside quotes, one written token becomes the pending token. */
  lemma SplitFromRawToken(st: SplitState, raw: string, t: string)
    requires !st.inQuotes && st.current == "" && Spells(raw, t)
    ensures SplitFrom(st, raw) == st.(current := t)
  {
    if Word(raw) && t == raw {
      SplitFromWord(st, raw);
      assert "" + raw == raw;
    } else {
      SplitFromAppend(st, [Quote] + t, [Quote]);
      SplitFromAppend(st, [Quote], t);
      SplitFromOne(st, Quote);
      var open := st.(inQuotes := true);
      SplitFromInsideQuotes(open, t);
      assert "" + t == t;
      SplitFromOne(open.(current := t), Quote);
    }
  }

  /** An unquoted space closes a pending token. */
  lemma SplitFromCloseToken(p: string, done: seq<string>, current: string)
    requires current != "" && SplitFrom(SplitStart, p) == SplitState(done, current, false)
    ensures SplitFrom(SplitStart, p + [Space]) == SplitState(done + [current], "", false)
  {
    SplitFromAppend(SplitStart, p, [Space]);
    SplitFromOne(SplitFrom(SplitStart, p), Space);
  }

  /** A written token after a closed one becomes the pending token. */
  lemma SplitFromOpenToken(p: string, done: seq<string>, raw: string, t: string)
    requires Spells(raw, t) && SplitFrom(SplitStart, p) == SplitState(done, "", false)
    ensures SplitFrom(SplitStart, p + raw) == SplitState(done, t, false)
  {
    SplitFromAppend(SplitStart, p, raw);
    SplitFromRawToken(SplitState(done, "", false), raw, t);
  }

  lemma JoinSnoc(init: seq<string>, w: string)
    requires |init| > 0
    ensures Strings.Join(init + [w]) == Strings.Join(init) + [Space] + w
  {
    var all := init + [w];
    assert all[..|all| - 1] == init;
    assert all[|all| - 1] == w;
  }

  lemma DropFromAppend<T>(a: seq<T>, b: seq<T>, k: nat)
    requires k <= |a|
    ensures (a + b)[k..] == a[k..] + b
  {
  }

  lemma HeadThenTail<T>(s: seq<T>)
    requires |s| > 0
    ensures [s[0]] + s[1..] == s
  {
  }

  lemma ButLastThenLast<T>(s: seq<T>)
    requires |s| > 0
    ensures s[..|s| - 1] + [s[|s| - 1]] == s
  {
  }

  /** One more written token after a line that has split so far. */
  lemma SplitFromJoinStep(init: seq<string>, initTokens: seq<string>, raw: string, t: string)
    requires |init| > 0 && |initTokens| > 0 && initTokens[|initTokens| - 1] != ""
    requires SplitFrom(SplitStart, Strings.Join(init)) ==
      SplitState(initTokens[..|initTokens| - 1], initTokens[|initTokens| - 1], false)
    requires Spells(raw, t)
    ensures SplitFrom(SplitStart, Strings.Join(init + [raw])) == SplitState(initTokens, t, false)
  {
    var j := Strings.Join(init);
    var k := |initTokens| - 1;
    SplitFromCloseToken(j, initTokens[..k], initTokens[k]);
    ButLastThenLast(initTokens);
    SplitFromOpenToken(j + [Space], initTokens, raw, t);
    JoinSnoc(init, raw);
  }

  lemma {:induction false} SplitFromJoin(raws: seq<string>, tokens: seq<string>)
    requires |raws| == |tokens| > 0
    requires forall i :: 0 <= i < |raws| ==> Spells(raws[i], tokens[i])
    ensures SplitFrom(SplitStart, Strings.Join(raws)) ==
      SplitState(tokens[..|tokens| - 1], tokens[|tokens| - 1], false)
    decreases |raws|
  {
    var n := |raws|;
    if n == 1 {
      SplitFromRawToken(SplitStart, raws[0], tokens[0]);
    } else {
      var init, initTokens := raws[..n - 1], tokens[..n - 1];
      assert forall i :: 0 <= i < |init| ==> init[i] == raws[i] && initTokens[i] == tokens[i];
      SplitFromJoin(init, initTokens);
      assert Spells(raws[n - 2], tokens[n - 2]);
      SplitFromJoinStep(init, initTokens, raws[n - 1], tokens[n - 1]);
      ButLastThenLast(raws);
    }
  }

  /** Splitting undoes `join(" ")`: tokens written one by one, each either
    * bare (no spaces, no quotes) or between single quotes, and joined by
    * single spaces, split back into exactly those tokens. */
  lemma SplitJoin(raws: seq<string>, tokens: seq<string>)
    requires |raws| == |tokens|
    requires forall i :: 0 <= i < |raws| ==> Spells(raws[i], tokens[i])
    ensures Split(Strings.Join(raws)) == tokens
  {
    if tokens != [] {
      SplitFromJoin(raws, tokens);
      assert Spells(raws[|raws| - 1], tokens[|tokens| - 1]);
      ButLastThenLast(tokens);
    }
  }
}
