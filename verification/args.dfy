/**
 * The argument array of one command (`parse_args`), the program's argument
 * vector read off it, and the background marker of the shell loop.
 *
 * The C array `char *args[128]` is modelled as the sequence of slots the
 * code writes, each NULL (`None`) or a token (`Some(t)`); readers stop at
 * the first NULL.
 */
module Args {
  import opened Wrappers
  import opened Text

  /** Capacity of the argument array. */
  const MaxArgs: nat := 128

  type Slots = seq<Option<string>>

  /** The array holds a NULL somewhere, so a reader that stops at NULL stays inside it. */
  predicate Terminated(slots: Slots) {
    None in slots
  }

  /** What a reader stopping at the first NULL sees: the program's argument vector. */
  function Argv(slots: Slots): (argv: seq<string>)
    ensures |argv| <= |slots|
    ensures forall k :: 0 <= k < |argv| ==> slots[k] == Some(argv[k])
    ensures |argv| < |slots| ==> slots[|argv|] == None
    ensures Terminated(slots) <==> |argv| < |slots|
  {
    if |slots| == 0 || slots[0] == None then []
    else [slots[0].value] + Argv(slots[1..])
  }

  /** The argument vector ends at the first NULL slot, wherever that is. */
  lemma ArgvEndsAtFirstNull(slots: Slots, j: nat)
    requires j < |slots| && slots[j] == None
    requires forall k :: 0 <= k < j ==> slots[k] != None
    ensures |Argv(slots)| == j
  {
  }

  /** Every token as a filled slot. */
  function Filled(ts: seq<string>): (slots: Slots)
    ensures |slots| == |ts|
    ensures forall k :: 0 <= k < |ts| ==> slots[k] == Some(ts[k])
  {
    seq(|ts|, k requires 0 <= k < |ts| => Some(ts[k]))
  }

  /**
   * The slots `parse_args` fills for a line: its space-separated tokens
   * followed by a NULL, or, from 128 tokens on, the first 128 tokens and no
   * NULL at all.
   */
  function ArgSlots(line: string): Slots {
    var ts := Tokens(line, ' ');
    if |ts| < MaxArgs then Filled(ts) + [None] else Filled(ts[..MaxArgs])
  }

  /**
   * The C loop of `parse_args`: store `strtok(line, " ")`, then keep storing
   * `strtok(NULL, " ")` while the last stored value is not NULL and fewer
   * than 127 slots past the first have been written.
   */
  method ParseArgs(line: string) returns (args: Slots)
    ensures args == ArgSlots(line)
  {
    ghost var ts := Tokens(line, ' ');
    assert ts[0..] == ts;
    StrtokStep(ts, line, 0, ' ');
    var cut := StrtokNext(line, ' ');
    args := [cut.token];
    var saved := cut.rest;
    var i := 0;
    while args[i] != None && i < MaxArgs - 1
      invariant ParseInvariant(ts, args, saved, i)
    {
      ParseStep(ts, args, saved, i);
      cut := StrtokNext(saved, ' ');
      args := args + [cut.token];
      saved := cut.rest;
      i := i + 1;
    }
    SlotsOfParse(ts, args, i);
  }

  /** What holds at the head of the `parse_args` loop: slots `0..i-1` hold tokens `0..i-1`,
      slot `i` holds token `i` or the NULL after the last token, and `saved` resumes after it. */
  predicate ParseInvariant(ts: seq<string>, args: Slots, saved: string, i: nat) {
    && i < MaxArgs && i <= |ts| && |args| == i + 1
    && (forall k :: 0 <= k < i ==> args[k] == Some(ts[k]))
    && (args[i] == None <==> i == |ts|)
    && (args[i] != None ==> args[i] == Some(ts[i]) && Tokens(saved, ' ') == ts[i + 1..])
  }

  /** One pass of the `parse_args` loop keeps `ParseInvariant`. */
  lemma ParseStep(ts: seq<string>, args: Slots, saved: string, i: nat)
    requires ParseInvariant(ts, args, saved, i)
    requires args[i] != None && i < MaxArgs - 1
    ensures var cut := StrtokNext(saved, ' ');
      ParseInvariant(ts, args + [cut.token], cut.rest, i + 1)
  {
    StrtokStep(ts, saved, i + 1, ' ');
    var cut := StrtokNext(saved, ' ');
    var next := args + [cut.token];
    assert forall k :: 0 <= k <= i ==> next[k] == args[k];
  }

  /** The slots the loop leaves are `ArgSlots` in both ways it can stop. */
  lemma SlotsOfParse(ts: seq<string>, args: Slots, i: nat)
    requires i < MaxArgs && i <= |ts| && |args| == i + 1
    requires forall k :: 0 <= k < i ==> args[k] == Some(ts[k])
    requires args[i] == None <==> i == |ts|
    requires args[i] != None ==> args[i] == Some(ts[i]) && i == MaxArgs - 1
    ensures args == (if |ts| < MaxArgs then Filled(ts) + [None] else Filled(ts[..MaxArgs]))
  {
  }

  /**
   * The argument vector of a line: its tokens when fewer than 128, and in
   * that case only; from 128 tokens on the array has no terminator.
   */
  lemma ArgvOfLine(line: string)
    ensures var ts := Tokens(line, ' ');
      && (Terminated(ArgSlots(line)) <==> |ts| < MaxArgs)
      && (|ts| < MaxArgs ==> Argv(ArgSlots(line)) == ts)
  {
    var ts := Tokens(line, ' ');
    var slots := ArgSlots(line);
    if |ts| < MaxArgs {
      var argv := Argv(slots);
      assert slots[|ts|] == None;
      assert |argv| == |ts|;
      assert argv == ts;
    } else {
      assert forall k :: 0 <= k < |slots| ==> slots[k] == Some(ts[k]);
    }
  }

  /** The slots after the background check, and whether the command runs in the background. */
  datatype Job = Job(slots: Slots, background: bool)

  /**
   * The background check of the shell loop: count the slots before the
   * first NULL; if there is at least one and the last of them is exactly
   * `&`, blank it and mark the command background.
   */
  function MarkBackground(slots: Slots): (j: Job)
    requires Terminated(slots)
    ensures Terminated(j.slots)
    ensures var argv := Argv(slots);
      && (j.background <==> |argv| > 0 && argv[|argv| - 1] == "&")
      && (j.background ==> Argv(j.slots) == argv[..|argv| - 1])
      && (!j.background ==> j.slots == slots)
      && |j.slots| == |slots|
      && (forall k :: 0 <= k < |slots| && k != |argv| - 1 ==> j.slots[k] == slots[k])
  {
    var i := |Argv(slots)|;
    if i > 0 && slots[i - 1] == Some("&") then
      var blanked := slots[i - 1 := None];
      assert Argv(blanked) == Argv(slots)[..i - 1] by {
        ArgvOfPrefix(slots, i - 1);
      }
      Job(blanked, true)
    else
      Job(slots, false)
  }

  /** Blanking slot `n` inside the argument vector cuts the vector at `n`. */
  lemma {:induction false} ArgvOfPrefix(slots: Slots, n: nat)
    requires n < |Argv(slots)|
    ensures Argv(slots[n := None]) == Argv(slots)[..n]
    decreases n
  {
    if n > 0 {
      assert slots[n := None][1..] == slots[1..][n - 1 := None];
      ArgvOfPrefix(slots[1..], n - 1);
    }
  }
}
