/**
 * The two pieces of Rust's string library the parser leans on: `str::trim`,
 * which removes leading and trailing characters with the Unicode White_Space
 * property, and `join(" ")` on a vector of strings.
 */
module Strings {

  /** Rust's `char::is_whitespace`: the Unicode White_Space property. */
  predicate IsWhitespace(c: char) {
    var n := c as int;
    (9 <= n <= 13) || n == 0x20 || n == 0x85 || n == 0xA0 || n == 0x1680
    || (0x2000 <= n <= 0x200A) || n == 0x2028 || n == 0x2029 || n == 0x202F
    || n == 0x205F || n == 0x3000
  }

  predicate AllWhitespace(s: string) {
    forall c :: c in s ==> IsWhitespace(c)
  }

  /** Removes the longest whitespace prefix. */
  function TrimStart(s: string): (r: string)
    ensures |r| <= |s| && r == s[|s| - |r|..]
    ensures AllWhitespace(s[..|s| - |r|])
    ensures r == [] || !IsWhitespace(r[0])
    decreases |s|
  {
    if s != [] && IsWhitespace(s[0]) then
      var r := TrimStart(s[1..]);
      assert s[..|s| - |r|] == [s[0]] + s[1..][..|s| - 1 - |r|];
      r
    else
      s
  }

  /** Removes the longest whitespace suffix. */
  function TrimEnd(s: string): (r: string)
    ensures |r| <= |s| && r == s[..|r|]
    ensures AllWhitespace(s[|r|..])
    ensures r == [] || !IsWhitespace(r[|r| - 1])
    decreases |s|
  {
    if s != [] && IsWhitespace(s[|s| - 1]) then
      var r := TrimEnd(s[..|s| - 1]);
      assert s[|r|..] == s[..|s| - 1][|r|..] + [s[|s| - 1]];
      r
    else
      s
  }

  /** Rust's `str::trim`: neither end of the result is whitespace, and the
    * result is empty exactly when the whole input is whitespace. */
  function Trim(s: string): (r: string)
    ensures |r| <= |s|
    ensures r == [] || (!IsWhitespace(r[0]) && !IsWhitespace(r[|r| - 1]))
    ensures r == [] <==> AllWhitespace(s)
  {
    var t := TrimStart(s);
    var r := TrimEnd(t);
    assert r != [] ==> r[0] == t[0];
    assert r == [] ==> s == s[..|s| - |t|] + t[|r|..];
    r
  }

  /** `r` is a piece of `s` with only whitespace before it and after it. */
  predicate MiddleOf(r: string, s: string) {
    exists k :: 0 <= k <= |s| - |r| && r == s[k..k + |r|]
      && AllWhitespace(s[..k]) && AllWhitespace(s[k + |r|..])
  }

  /** What `trim` leaves is a middle piece of its input: only whitespace
    * stands before it and after it. */
  lemma TrimIsMiddle(s: string)
    ensures MiddleOf(Trim(s), s)
  {
    var t := TrimStart(s);
    var r := TrimEnd(t);
    TrimPieces(s, t, r);
    assert Trim(s) == r;
  }

  /** A whitespace-free middle found in two steps, as one slice of the
    * input. */
  lemma TrimPieces(s: string, t: string, r: string)
    requires |t| <= |s| && t == s[|s| - |t|..] && AllWhitespace(s[..|s| - |t|])
    requires |r| <= |t| && r == t[..|r|] && AllWhitespace(t[|r|..])
    ensures MiddleOf(r, s)
  {
    var k := |s| - |t|;
    SliceOfSuffix(s, k, |r|);
    WhitespaceTail(s, k, |r|);
    assert 0 <= k <= |s| - |r| && r == s[k..k + |r|]
      && AllWhitespace(s[..k]) && AllWhitespace(s[k + |r|..]);
  }

  /** Whitespace after the first `n` characters of a suffix is whitespace
    * after position `k + n` of the whole. */
  lemma WhitespaceTail(s: string, k: nat, n: nat)
    requires k + n <= |s| && AllWhitespace(s[k..][n..])
    ensures AllWhitespace(s[k + n..])
  {
    forall c | c in s[k + n..]
      ensures IsWhitespace(c)
    {
      var i :| k + n <= i < |s| && s[i] == c;
      assert s[k..][n..][i - k - n] == c;
    }
  }

  lemma SliceOfSuffix(s: string, k: nat, n: nat)
    requires k + n <= |s|
    ensures s[k..][..n] == s[k..k + n] && s[k..][n..] == s[k + n..]
  {
  }

  lemma {:induction false} TrimStartSkipsWhitespace(a: string, t: string)
    requires AllWhitespace(a)
    ensures TrimStart(a + t) == TrimStart(t)
    decreases |a|
  {
    if a != [] {
      assert (a + t)[0] == a[0];
      assert (a + t)[1..] == a[1..] + t;
      TrimStartSkipsWhitespace(a[1..], t);
    } else {
      assert a + t == t;
    }
  }

  lemma {:induction false} TrimEndSkipsWhitespace(t: string, b: string)
    requires AllWhitespace(b)
    ensures TrimEnd(t + b) == TrimEnd(t)
    decreases |b|
  {
    if b != [] {
      assert (t + b)[..|t + b| - 1] == t + b[..|b| - 1];
      assert b[|b| - 1] in b;
      TrimEndSkipsWhitespace(t, b[..|b| - 1]);
    } else {
      assert t + b == t;
    }
  }

  lemma {:induction false} TrimStartAppend(s: string, b: string)
    requires !AllWhitespace(s)
    ensures TrimStart(s + b) == TrimStart(s) + b
    decreases |s|
  {
    assert s != [];
    if IsWhitespace(s[0]) {
      assert (s + b)[1..] == s[1..] + b;
      assert !AllWhitespace(s[1..]) by {
        var c :| c in s && !IsWhitespace(c);
        assert c in s[1..] by { assert s == [s[0]] + s[1..]; }
      }
      TrimStartAppend(s[1..], b);
    }
  }

  /** Whitespace after a line never changes what `trim` leaves. */
  lemma TrimIgnoresTrailing(s: string, b: string)
    requires AllWhitespace(b)
    ensures Trim(s + b) == Trim(s)
  {
    if AllWhitespace(s) {
      assert AllWhitespace(s + b);
    } else {
      TrimStartAppend(s, b);
      TrimEndSkipsWhitespace(TrimStart(s), b);
    }
  }

  /** Whitespace around a line never changes what `trim` leaves. */
  lemma TrimIgnoresSurrounding(a: string, s: string, b: string)
    requires AllWhitespace(a) && AllWhitespace(b)
    ensures Trim(a + s + b) == Trim(s)
  {
    assert a + s + b == a + (s + b);
    TrimStartSkipsWhitespace(a, s + b);
    assert Trim(a + (s + b)) == TrimEnd(TrimStart(s + b)) == Trim(s + b);
    TrimIgnoresTrailing(s, b);
  }

  lemma SpaceIsWhitespace()
    ensures AllWhitespace(" ")
  {
    assert forall c :: c in " " ==> c == ' ';
  }

  /** A string that neither starts nor ends with whitespace is its own trim;
    * in particular `trim` is idempotent. */
  lemma TrimKeepsTrimmed(s: string)
    requires s == [] || (!IsWhitespace(s[0]) && !IsWhitespace(s[|s| - 1]))
    ensures Trim(s) == s
  {
  }

  /** `tokens.join(" ")`: the tokens in order, one space between neighbours. */
  function Join(tokens: seq<string>): string
    decreases |tokens|
  {
    if |tokens| == 0 then ""
    else if |tokens| == 1 then tokens[0]
    else Join(tokens[..|tokens| - 1]) + " " + tokens[|tokens| - 1]
  }

  /** A joined line starts with the first token and ends with the last. */
  lemma {:induction false} JoinEnds(tokens: seq<string>)
    requires |tokens| > 0
    ensures var r := Join(tokens);
      && |tokens[0]| <= |r| && r[..|tokens[0]|] == tokens[0]
      && |tokens[|tokens| - 1]| <= |r| && r[|r| - |tokens[|tokens| - 1]|..] == tokens[|tokens| - 1]
    decreases |tokens|
  {
    var n := |tokens|;
    if n > 1 {
      var init := tokens[..n - 1];
      JoinEnds(init);
      var j := Join(init);
      var r := j + " " + tokens[n - 1];
      assert init[0] == tokens[0];
      assert r[..|tokens[0]|] == j[..|tokens[0]|];
      assert r[|r| - |tokens[n - 1]|..] == tokens[n - 1];
    }
  }
}
