/**
 * Character-level helpers of the shell: cutting a line at its newline
 * (`trim_newline`) and the tokenising behaviour of C's `strtok` with a
 * one-character delimiter set, used with `' '` for arguments, `'|'` for
 * pipeline stages and `'='` for `export`.
 *
 * Strings are modelled as the characters before the C terminator, so no
 * model string holds a NUL.
 */
module Text {
  import opened Wrappers

  const Newline: char := '\n'

  /** What `trim_newline` leaves of a line: everything before its first newline. */
  function TrimNewline(line: string): (r: string)
    ensures r <= line
    ensures Newline !in r
    ensures |r| < |line| ==> line[|r|] == Newline
    ensures Newline !in line ==> r == line
  {
    if |line| == 0 || line[0] == Newline then []
    else [line[0]] + TrimNewline(line[1..])
  }

  /** Length of the longest prefix of `s` holding no `d`. */
  function RunLength(s: string, d: char): (n: nat)
    ensures n <= |s|
    ensures d !in s[..n]
    ensures n < |s| ==> s[n] == d
  {
    if |s| == 0 || s[0] == d then 0 else 1 + RunLength(s[1..], d)
  }

  /** The run is exactly `a` when `a` holds no `d` and `b` is empty or starts with `d`. */
  lemma RunLengthOfConcat(a: string, b: string, d: char)
    requires d !in a
    requires b == [] || b[0] == d
    ensures RunLength(a + b, d) == |a|
  {
    assert (a + b)[..|a|] == a;
    assert |b| > 0 ==> (a + b)[|a|] == b[0];
  }

  /**
   * The tokens `strtok(s, d)` followed by `strtok(NULL, d)` calls yields:
   * the maximal runs of characters other than `d`, in order. Runs of
   * delimiters, and delimiters at either end, produce no empty token.
   */
  function Tokens(s: string, d: char): (ts: seq<string>)
    ensures forall k :: 0 <= k < |ts| ==> |ts[k]| > 0 && d !in ts[k]
    decreases |s|
  {
    if |s| == 0 then []
    else if s[0] == d then Tokens(s[1..], d)
    else
      var n := RunLength(s, d);
      [s[..n]] + Tokens(s[n..], d)
  }

  /** A sequence of tokens `Tokens` can produce: none empty, none holding `d`. */
  predicate ValidTokens(ts: seq<string>, d: char) {
    forall k :: 0 <= k < |ts| ==> |ts[k]| > 0 && d !in ts[k]
  }

  /** The tokens written out with one `d` between neighbours. */
  function Join(ts: seq<string>, d: char): string {
    if |ts| == 0 then []
    else if |ts| == 1 then ts[0]
    else ts[0] + [d] + Join(ts[1..], d)
  }

  /** Concatenation of all tokens. */
  function Concat(ts: seq<string>): string {
    if |ts| == 0 then [] else ts[0] + Concat(ts[1..])
  }

  /** `s` with every `d` removed. */
  function Without(s: string, d: char): string {
    if |s| == 0 then []
    else if s[0] == d then Without(s[1..], d)
    else [s[0]] + Without(s[1..], d)
  }

  /** Tokenising recovers any valid token sequence from its joined form. */
  lemma {:induction false} TokensOfJoin(ts: seq<string>, d: char)
    requires ValidTokens(ts, d)
    ensures Tokens(Join(ts, d), d) == ts
    decreases |ts|
  {
    if |ts| == 0 {
    } else {
      var s := Join(ts, d);
      var tail: string := if |ts| == 1 then [] else [d] + Join(ts[1..], d);
      assert s == ts[0] + tail;
      RunLengthOfConcat(ts[0], tail, d);
      assert s[0] == ts[0][0];
      assert s[..|ts[0]|] == ts[0];
      assert s[|ts[0]|..] == tail;
      if |ts| > 1 {
        assert tail[1..] == Join(ts[1..], d);
        TokensOfJoin(ts[1..], d);
        assert Tokens(tail, d) == ts[1..];
      }
      assert Tokens(s, d) == [ts[0]] + Tokens(tail, d);
    }
  }

  lemma {:induction false} WithoutConcat(a: string, b: string, d: char)
    ensures Without(a + b, d) == Without(a, d) + Without(b, d)
    decreases |a|
  {
    if |a| == 0 {
      assert a + b == b;
    } else {
      assert (a + b)[1..] == a[1..] + b;
      WithoutConcat(a[1..], b, d);
    }
  }

  lemma {:induction false} WithoutAbsent(a: string, d: char)
    requires d !in a
    ensures Without(a, d) == a
    decreases |a|
  {
    if |a| > 0 {
      WithoutAbsent(a[1..], d);
    }
  }

  /** Tokenising loses only delimiters: the tokens, concatenated, are `s` without its `d`s. */
  lemma {:induction false} TokensKeepAllOtherCharacters(s: string, d: char)
    ensures Concat(Tokens(s, d)) == Without(s, d)
    decreases |s|
  {
    if |s| == 0 {
    } else if s[0] == d {
      TokensKeepAllOtherCharacters(s[1..], d);
    } else {
      var n := RunLength(s, d);
      TokensKeepAllOtherCharacters(s[n..], d);
      var ts := Tokens(s, d);
      assert ts == [s[..n]] + Tokens(s[n..], d);
      assert ts[1..] == Tokens(s[n..], d);
      assert s == s[..n] + s[n..];
      WithoutConcat(s[..n], s[n..], d);
      WithoutAbsent(s[..n], d);
    }
  }

  /** Where `strtok` stops after skipping the delimiters that lead `s`. */
  function SkipDelimiters(s: string, d: char): (t: string)
    ensures |t| <= |s| && t == s[|s| - |t|..]
    ensures t == [] || t[0] != d
    ensures Tokens(t, d) == Tokens(s, d)
  {
    if |s| > 0 && s[0] == d then SkipDelimiters(s[1..], d) else s
  }

  /** The result of one `strtok` call: the token (NULL when none is left) and the saved position. */
  datatype Cut = Cut(token: Option<string>, rest: string)

  /**
   * One call of `strtok` resuming at saved position `saved`: skip leading
   * delimiters, cut the token up to the next delimiter and resume after that
   * delimiter; with nothing left, return NULL and stay at the end.
   */
  function StrtokNext(saved: string, d: char): (c: Cut)
    ensures c.token.None? <==> Tokens(saved, d) == []
    ensures c.token.Some? ==> Tokens(saved, d) == [c.token.value] + Tokens(c.rest, d)
    ensures c.token.None? ==> c.rest == []
  {
    var t := SkipDelimiters(saved, d);
    if |t| == 0 then Cut(None, [])
    else
      var n := RunLength(t, d);
      var rest := if n < |t| then t[n + 1..] else [];
      assert Tokens(t, d) == [t[..n]] + Tokens(t[n..], d);
      assert n < |t| ==> t[n..][1..] == rest;
      Cut(Some(t[..n]), rest)
  }

  /** One `strtok` call continues the token sequence where the last one stopped. */
  lemma StrtokStep(ts: seq<string>, saved: string, i: nat, d: char)
    requires i <= |ts| && Tokens(saved, d) == ts[i..]
    ensures var cut := StrtokNext(saved, d);
      && (cut.token == None <==> i == |ts|)
      && (cut.token != None ==> cut.token == Some(ts[i]) && Tokens(cut.rest, d) == ts[i + 1..])
  {
    var cut := StrtokNext(saved, d);
    if cut.token != None {
      assert ts[i..] == [cut.token.value] + Tokens(cut.rest, d);
      assert ts[i + 1..] == ts[i..][1..];
    }
  }
}
