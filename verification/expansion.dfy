/**
 * Variable expansion (`expand_variables`): one left-to-right pass that
 * copies every character except `$`, and replaces each `$` together with
 * the longest run of ASCII letters, digits and `_` after it by the value of
 * that environment variable, or by nothing when it is unset.
 *
 * The pass is described twice: once as the structure it sees (a line is a
 * sequence of literal characters and `$name` references, `Scan`), and once
 * as the character loop of the C function (`ExpandVariables`); the two are
 * proved to agree.
 */
module Expansion {

  /** Size of the output buffer; the expanded line plus its terminator must fit. */
  const MaxInput: nat := 1024
  /** Size of the name buffer; a name plus its terminator must fit. */
  const MaxName: nat := 128

  /** `isalnum(c) || c == '_'` over ASCII. */
  predicate IsNameChar(c: char) {
    ('A' <= c <= 'Z') || ('a' <= c <= 'z') || ('0' <= c <= '9') || c == '_'
  }

  predicate IsName(s: string) {
    forall k :: 0 <= k < |s| ==> IsNameChar(s[k])
  }

  /** Length of the longest prefix of `s` made of name characters. */
  function NameLength(s: string): (n: nat)
    ensures n <= |s|
    ensures IsName(s[..n])
    ensures n < |s| ==> !IsNameChar(s[n])
  {
    if |s| == 0 || !IsNameChar(s[0]) then 0 else 1 + NameLength(s[1..])
  }

  /** A name run is determined by where it stops. */
  lemma NameLengthIsMaximalRun(s: string, m: nat)
    requires m <= |s|
    requires IsName(s[..m])
    requires m == |s| || !IsNameChar(s[m])
    ensures NameLength(s) == m
  {
    var n := NameLength(s);
    assert forall k :: 0 <= k < m ==> IsNameChar(s[k]) by {
      forall k | 0 <= k < m ensures IsNameChar(s[k]) {
        assert s[..m][k] == s[k];
      }
    }
    assert forall k :: 0 <= k < n ==> IsNameChar(s[k]) by {
      forall k | 0 <= k < n ensures IsNameChar(s[k]) {
        assert s[..n][k] == s[k];
      }
    }
  }

  /**
   * What `getenv` returns for `name`, with NULL read as the empty string.
   * A lone `$` looks up the empty name, for which `getenv` returns NULL
   * whatever the environment holds.
   */
  function Lookup(env: map<string, string>, name: string): string {
    if name != [] && name in env then env[name] else []
  }

  /** One unit of the expansion pass: a copied character or a `$name` reference. */
  datatype Piece = Literal(c: char) | Reference(name: string)

  /** A piece sequence the pass can see: literals are not `$`, names are name runs, and a
      reference is never followed by a name character it could have absorbed. */
  predicate WellFormed(ps: seq<Piece>) {
    && (forall k :: 0 <= k < |ps| ==> (ps[k].Literal? ==> ps[k].c != '$'))
    && (forall k :: 0 <= k < |ps| ==> (ps[k].Reference? ==> IsName(ps[k].name)))
    && (forall k :: 0 <= k < |ps| - 1 ==> (ps[k].Reference? && ps[k + 1].Literal? ==> !IsNameChar(ps[k + 1].c)))
  }

  lemma WellFormedCons(p: Piece, ps: seq<Piece>)
    requires WellFormed(ps)
    requires p.Literal? ==> p.c != '$'
    requires p.Reference? ==> IsName(p.name)
    requires p.Reference? && |ps| > 0 && ps[0].Literal? ==> !IsNameChar(ps[0].c)
    ensures WellFormed([p] + ps)
  {
    var qs := [p] + ps;
    assert forall k :: 1 <= k < |qs| ==> qs[k] == ps[k - 1];
  }

  /** The pieces of a line, left to right. */
  function Scan(line: string): (ps: seq<Piece>)
    ensures WellFormed(ps)
    ensures |line| > 0 && line[0] != '$' ==> |ps| > 0 && ps[0] == Literal(line[0])
    ensures |line| > 0 && line[0] == '$' ==> |ps| > 0 && ps[0].Reference?
    decreases |line|
  {
    if |line| == 0 then []
    else if line[0] == '$' then
      var n := NameLength(line[1..]);
      var rest := line[1 + n..];
      assert |rest| > 0 ==> rest[0] == line[1..][n];
      assert line[1..][..n] == line[1..1 + n];
      WellFormedCons(Reference(line[1..1 + n]), Scan(rest));
      [Reference(line[1..1 + n])] + Scan(rest)
    else
      WellFormedCons(Literal(line[0]), Scan(line[1..]));
      [Literal(line[0])] + Scan(line[1..])
  }

  /** The text a piece sequence was read from. */
  function Unscan(ps: seq<Piece>): string {
    if |ps| == 0 then [] else Spelling(ps[0]) + Unscan(ps[1..])
  }

  /** The characters one piece was read from. */
  function Spelling(p: Piece): string {
    match p
    case Literal(c) => [c]
    case Reference(name) => ['$'] + name
  }

  /** Scanning loses nothing: the pieces spell out the line. */
  lemma {:induction false} UnscanScan(line: string)
    ensures Unscan(Scan(line)) == line
    decreases |line|
  {
    if |line| == 0 {
    } else if line[0] == '$' {
      var n := NameLength(line[1..]);
      var name, rest := line[1..1 + n], line[1 + n..];
      assert Scan(line) == [Reference(name)] + Scan(rest);
      UnscanScan(rest);
      UnscanCons(Reference(name), Scan(rest));
      assert line == (['$'] + name) + rest by {
        SuffixCons(line, 0);
        SuffixSplits(line, 1, 1 + n);
        assert line[0..] == line;
        AppendAssociates(['$'], name, rest);
      }
    } else {
      assert Scan(line) == [Literal(line[0])] + Scan(line[1..]);
      UnscanScan(line[1..]);
      UnscanCons(Literal(line[0]), Scan(line[1..]));
      assert line == [line[0]] + line[1..] by {
        SuffixCons(line, 0);
        assert line[0..] == line;
      }
    }
  }

  lemma UnscanCons(p: Piece, ps: seq<Piece>)
    ensures Unscan([p] + ps) == Spelling(p) + Unscan(ps)
  {
    assert ([p] + ps)[1..] == ps;
  }

  /** A `$name` whose run ends where the name does is scanned as one reference. */
  lemma ScanOfReference(name: string, rest: string)
    requires IsName(name)
    requires rest == [] || !IsNameChar(rest[0])
    ensures Scan(['$'] + name + rest) == [Reference(name)] + Scan(rest)
  {
    var line := ['$'] + name + rest;
    assert line[1..] == name + rest;
    assert (name + rest)[..|name|] == name;
    assert |rest| > 0 ==> (name + rest)[|name|] == rest[0];
    NameLengthIsMaximalRun(name + rest, |name|);
    assert line[1..1 + |name|] == name;
    assert line[1 + |name|..] == rest;
  }

  /** A character other than `$` is scanned as a literal. */
  lemma ScanOfLiteral(c: char, rest: string)
    requires c != '$'
    ensures Scan([c] + rest) == [Literal(c)] + Scan(rest)
  {
    assert ([c] + rest)[1..] == rest;
  }

  /** Scanning finds exactly the pieces of any well-formed sequence. */
  lemma {:induction false} ScanUnscan(ps: seq<Piece>)
    requires WellFormed(ps)
    ensures Scan(Unscan(ps)) == ps
    decreases |ps|
  {
    if |ps| > 0 {
      var rest := Unscan(ps[1..]);
      assert WellFormed(ps[1..]);
      ScanUnscan(ps[1..]);
      assert ps == [ps[0]] + ps[1..];
      match ps[0]
      case Literal(c) =>
        ScanOfLiteral(c, rest);
      case Reference(name) =>
        if |rest| > 0 {
          assert |ps| > 1;
          assert rest == Spelling(ps[1]) + Unscan(ps[2..]);
          assert !IsNameChar(rest[0]) by {
            match ps[1]
            case Literal(c') =>
              assert rest[0] == c';
            case Reference(_) =>
              assert rest[0] == '$';
          }
        }
        ScanOfReference(name, rest);
    }
  }

  /** The output the pieces produce: literals copied, references replaced by their value. */
  function Render(ps: seq<Piece>, env: map<string, string>): string {
    if |ps| == 0 then [] else Value(ps[0], env) + Render(ps[1..], env)
  }

  /** What one piece contributes to the output. */
  function Value(p: Piece, env: map<string, string>): string {
    match p
    case Literal(c) => [c]
    case Reference(name) => Lookup(env, name)
  }

  lemma {:induction false} RenderConcat(a: seq<Piece>, b: seq<Piece>, env: map<string, string>)
    ensures Render(a + b, env) == Render(a, env) + Render(b, env)
    decreases |a|
  {
    if |a| == 0 {
      assert a + b == b;
    } else {
      assert (a + b)[0] == a[0];
      assert (a + b)[1..] == a[1..] + b;
      RenderConcat(a[1..], b, env);
    }
  }

  /** The expanded line. */
  function Expand(line: string, env: map<string, string>): string {
    Render(Scan(line), env)
  }

  /** The name run after every `$` of the line fits the name buffer with its terminator. */
  predicate NamesFit(line: string) {
    |line| == 0 || ((line[0] == '$' ==> NameLength(line[1..]) < MaxName) && NamesFit(line[1..]))
  }

  /** The fixed buffers of the C function suffice: every name fits the name buffer, and
      the expanded line with its terminator fits the output buffer. */
  predicate FitsBuffers(line: string, env: map<string, string>) {
    NamesFit(line) && |Expand(line, env)| < MaxInput
  }

  /** A line without `$` comes out unchanged. */
  lemma {:induction false} ExpandWithoutDollar(line: string, env: map<string, string>)
    requires '$' !in line
    ensures Expand(line, env) == line
    decreases |line|
  {
    if |line| > 0 {
      ExpandWithoutDollar(line[1..], env);
      assert Scan(line)[1..] == Scan(line[1..]);
      assert line == [line[0]] + line[1..];
    }
  }

  /**
   * `$name` followed by a character that cannot continue the name becomes the
   * variable's value, and the value is inserted as it is: a `$` inside it is
   * not looked up again.
   */
  lemma ExpandReference(name: string, rest: string, env: map<string, string>)
    requires IsName(name)
    requires rest == [] || !IsNameChar(rest[0])
    ensures Expand(['$'] + name + rest, env) == Lookup(env, name) + Expand(rest, env)
  {
    ScanOfReference(name, rest);
    RenderConcat([Reference(name)], Scan(rest), env);
  }

  /** The pass is single: a value holding a reference is not expanded again. */
  lemma ExpansionIsNotRecursive()
    ensures Expand("$A", map["A" := "$B", "B" := "x"]) == "$B"
  {
    var env := map["A" := "$B", "B" := "x"];
    assert IsNameChar('A');
    ExpandReference("A", "", env);
    assert ['$'] + "A" + "" == "$A";
    assert Lookup(env, "A") == "$B";
  }

  /**
   * Expansion splices into surrounding text: `$NAME` followed by a suffix
   * that cannot continue the name and holds no `$` gives the value followed
   * by the suffix as it is, as `$VAR.txt` with `VAR=out` gives `out.txt`.
   */
  lemma ExpansionIsConcatenative(name: string, suffix: string, env: map<string, string>)
    requires |name| > 0 && IsName(name) && name in env
    requires suffix == [] || !IsNameChar(suffix[0])
    requires '$' !in suffix
    ensures Expand(['$'] + name + suffix, env) == env[name] + suffix
  {
    ExpandReference(name, suffix, env);
    ExpandWithoutDollar(suffix, env);
    assert Lookup(env, name) == env[name];
  }

  /** Index where the name run starting at `from` ends. */
  function NameEnd(line: string, from: nat): (stop: nat)
    requires from <= |line|
    ensures from <= stop <= |line|
    ensures forall k :: from <= k < stop ==> IsNameChar(line[k])
    ensures stop == |line| || !IsNameChar(line[stop])
    decreases |line| - from
  {
    if from == |line| || !IsNameChar(line[from]) then from else NameEnd(line, from + 1)
  }

  /** The expansion of `line` from index `i` on, read one loop step at a time. */
  function ExpandFrom(line: string, i: nat, env: map<string, string>): string
    requires i <= |line|
    decreases |line| - i
  {
    if i == |line| then []
    else if line[i] == '$' then
      var stop := NameEnd(line, i + 1);
      Lookup(env, line[i + 1..stop]) + ExpandFrom(line, stop, env)
    else [line[i]] + ExpandFrom(line, i + 1, env)
  }

  /** Reading the line step by step agrees with the piece view. */
  lemma {:induction false} ExpandFromIsExpand(line: string, i: nat, env: map<string, string>)
    requires i <= |line|
    ensures ExpandFrom(line, i, env) == Expand(line[i..], env)
    decreases |line| - i
  {
    if i == |line| {
    } else if line[i] == '$' {
      var stop := NameEnd(line, i + 1);
      ExpandFromIsExpand(line, stop, env);
      var name := line[i + 1..stop];
      assert IsName(name);
      assert line[i..] == ['$'] + name + line[stop..] by {
        SuffixSplits(line, i + 1, stop);
        SuffixCons(line, i);
        AppendAssociates(['$'], name, line[stop..]);
      }
      ExpandReference(name, line[stop..], env);
    } else {
      ExpandFromIsExpand(line, i + 1, env);
      SuffixCons(line, i);
      ScanOfLiteral(line[i], line[i + 1..]);
      RenderConcat([Literal(line[i])], Scan(line[i + 1..]), env);
    }
  }

  lemma SuffixCons(s: string, i: nat)
    requires i < |s|
    ensures s[i..] == [s[i]] + s[i + 1..]
  {
  }

  lemma SuffixSplits(s: string, a: nat, b: nat)
    requires a <= b <= |s|
    ensures s[a..] == s[a..b] + s[b..]
  {
  }

  lemma AppendAssociates(a: string, b: string, c: string)
    ensures (a + b) + c == a + (b + c)
  {
  }

  /**
   * The C loop of `expand_variables`: walk the line; at `$` collect the name
   * run and append its value, otherwise append the character.
   */
  method ExpandVariables(line: string, env: map<string, string>) returns (out: string)
    requires FitsBuffers(line, env)
    ensures out == Expand(line, env)
    ensures |out| < MaxInput
  {
    out := [];
    var i := 0;
    while i < |line|
      invariant 0 <= i <= |line|
      invariant out + ExpandFrom(line, i, env) == ExpandFrom(line, 0, env)
    {
      if line[i] == '$' {
        ghost var start := i;
        var name;
        name, i := ReadName(line, i + 1);
        ExpandFromReference(line, start, env);
        AppendAssociates(out, Lookup(env, name), ExpandFrom(line, i, env));
        out := out + Lookup(env, name);
      } else {
        ExpandFromLiteral(line, i, env);
        AppendAssociates(out, [line[i]], ExpandFrom(line, i + 1, env));
        out := out + [line[i]];
        i := i + 1;
      }
    }
    ExpandFromIsExpand(line, 0, env);
    assert line[0..] == line;
  }

  /** The inner loop: copy name characters from `from` on into the name buffer. */
  method ReadName(line: string, from: nat) returns (name: string, stop: nat)
    requires from <= |line|
    ensures stop == NameEnd(line, from)
    ensures name == line[from..stop]
  {
    name := [];
    stop := from;
    while stop < |line| && IsNameChar(line[stop])
      invariant from <= stop <= NameEnd(line, from)
      invariant name == line[from..stop]
      decreases |line| - stop
    {
      SliceExtends(line, from, stop);
      name := name + [line[stop]];
      stop := stop + 1;
    }
  }

  lemma SliceExtends(s: string, a: nat, b: nat)
    requires a <= b < |s|
    ensures s[a..b + 1] == s[a..b] + [s[b]]
  {
  }

  /** At a `$`, the pass appends the value of the name run and goes on after it. */
  lemma ExpandFromReference(line: string, i: nat, env: map<string, string>)
    requires i < |line| && line[i] == '$'
    ensures var stop := NameEnd(line, i + 1);
      ExpandFrom(line, i, env) == Lookup(env, line[i + 1..stop]) + ExpandFrom(line, stop, env)
  {
  }

  /** At any other character, the pass appends it and goes on after it. */
  lemma ExpandFromLiteral(line: string, i: nat, env: map<string, string>)
    requires i < |line| && line[i] != '$'
    ensures ExpandFrom(line, i, env) == [line[i]] + ExpandFrom(line, i + 1, env)
  {
  }
}
