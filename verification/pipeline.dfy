/**
 * Pipelines (`execute_pipeline`): the split of a line into stage strings on
 * `|`, and the sequence of actions the parent performs to run them, over an
 * abstract descriptor table.
 *
 * A child is described by a `Launch`: the command string it parses and the
 * streams the parent's wiring gives it before it applies its own
 * redirections. The parent's actions are pipe creations, launches, waits and
 * closes; descriptor numbers are handed out lowest-free-first, as `pipe` does.
 *
 * The run is modelled twice: as written (every stage is launched into a pipe
 * and the last stage is then launched a second time; read ends are never
 * closed), and corrected (each stage once; every read end closed after use).
 */
module Pipeline {
  import opened Wrappers
  import opened Text
  import opened Args
  import opened Redirection

  /** Capacity of the `commands` array, its final NULL included. */
  const MaxCommands: nat := 10

  // ---------------------------------------------------------------- splitting

  /** The stage strings of a line: its `|`-separated runs, empty ones skipped. */
  function Segments(line: string): seq<string> {
    Tokens(line, '|')
  }

  /**
   * The entries the split writes into `commands`; `num_cmds` is their count.
   * With no stage at all, the first `strtok` and the one after it both give
   * NULL, so two entries are written.
   */
  function Commands(line: string): Slots {
    var segs := Segments(line);
    if |segs| == 0 then [None, None] else Filled(segs) + [None]
  }

  /**
   * The split yields the stages in order, none empty and none holding `|`,
   * and loses nothing but the `|` characters; `num_cmds` is one more than the
   * number of stages because the NULL is counted (two when there is none).
   */
  lemma SplitYieldsSegments(line: string)
    ensures var segs := Segments(line); var commands := Commands(line);
      && Terminated(commands)
      && Argv(commands) == segs
      && |commands| == (if |segs| == 0 then 2 else |segs| + 1)
      && (forall k :: 0 <= k < |segs| ==> |segs[k]| > 0 && '|' !in segs[k])
      && Concat(segs) == Without(line, '|')
  {
    var segs := Segments(line);
    var commands := Commands(line);
    assert commands[|segs|] == None;
    ArgvEndsAtFirstNull(commands, |segs|);
    var argv := Argv(commands);
    assert forall k :: 0 <= k < |segs| ==> argv[k] == segs[k];
    TokensKeepAllOtherCharacters(line, '|');
  }

  /**
   * The C split: store `strtok(line, "|")`, then store `strtok(NULL, "|")`
   * until the value just stored is NULL.
   */
  method SplitPipeline(line: string) returns (commands: Slots)
    requires |Segments(line)| < MaxCommands
    ensures |commands| <= MaxCommands
    ensures Argv(commands) == Segments(line)
    ensures commands == Commands(line)
  {
    ghost var segs := Segments(line);
    assert segs[0..] == segs;
    StrtokStep(segs, line, 0, '|');
    var cut := StrtokNext(line, '|');
    commands := SplitRemaining(segs, cut.rest, cut.token);
    SplitEnds(line, segs, commands);
    SplitYieldsSegments(line);
  }

  /**
   * The `while` of the split: after the first entry `first`, keep storing
   * `strtok(NULL, "|")` until a NULL has been stored.
   */
  method SplitRemaining(ghost segs: seq<string>, saved0: string, first: Option<string>) returns (commands: Slots)
    requires first == if |segs| == 0 then None else Some(segs[0])
    requires Tokens(saved0, '|') == segs[if |segs| == 0 then 0 else 1..]
    ensures |commands| == if |segs| == 0 then 2 else |segs| + 1
    ensures forall k :: 0 <= k < |commands| ==> commands[k] == if k < |segs| then Some(segs[k]) else None
  {
    commands := [first];
    var saved := saved0;
    ghost var pos: nat := if first == None then 0 else 1;
    var stored := first;
    while stored != None || |commands| == 1
      invariant SplitInvariant(segs, commands, saved, pos, stored)
      decreases |segs| + 2 - |commands|
    {
      SplitStep(segs, commands, saved, pos, stored);
      var cut := StrtokNext(saved, '|');
      commands := commands + [cut.token];
      saved := cut.rest;
      stored := cut.token;
      if cut.token != None {
        pos := pos + 1;
      }
    }
  }

  /** What holds at the head of the split loop: `pos` stages consumed, entry `k` is stage `k`
      or NULL past the last stage, and `stored` is the last entry. */
  predicate SplitInvariant(segs: seq<string>, commands: Slots, saved: string, pos: nat, stored: Option<string>) {
    && 1 <= |commands| && pos <= |segs|
    && pos == (if |segs| == 0 then 0 else if |commands| <= |segs| then |commands| else |segs|)
    && stored == commands[|commands| - 1]
    && (stored != None ==> |commands| <= |segs|)
    && (stored == None && |commands| > 1 ==> |commands| == |segs| + 1 || (|segs| == 0 && |commands| == 2))
    && (forall k :: 0 <= k < |commands| ==> commands[k] == if k < |segs| then Some(segs[k]) else None)
    && Tokens(saved, '|') == segs[pos..]
  }

  /** One pass of the split loop keeps `SplitInvariant` and stays within `|segs| + 2` entries. */
  lemma SplitStep(segs: seq<string>, commands: Slots, saved: string, pos: nat, stored: Option<string>)
    requires SplitInvariant(segs, commands, saved, pos, stored)
    requires stored != None || |commands| == 1
    ensures var cut := StrtokNext(saved, '|');
      && |commands| + 1 <= |segs| + 2
      && SplitInvariant(segs, commands + [cut.token], cut.rest, if cut.token != None then pos + 1 else pos, cut.token)
  {
    StrtokStep(segs, saved, pos, '|');
    var cut := StrtokNext(saved, '|');
    SplitEntryAppended(segs, commands, cut.token);
  }

  /** Appending the next `strtok` result keeps entry `k` equal to stage `k`, or NULL past the last stage. */
  lemma SplitEntryAppended(segs: seq<string>, before: Slots, token: Option<string>)
    requires forall k :: 0 <= k < |before| ==> before[k] == if k < |segs| then Some(segs[k]) else None
    requires token == if |before| < |segs| then Some(segs[|before|]) else None
    ensures var after := before + [token];
      forall k :: 0 <= k < |after| ==> after[k] == if k < |segs| then Some(segs[k]) else None
  {
    var after := before + [token];
    forall k | 0 <= k < |after|
      ensures after[k] == if k < |segs| then Some(segs[k]) else None
    {
      if k < |before| {
        assert after[k] == before[k];
      }
    }
  }

  /** The entries the split loop leaves when it stops on a NULL are `Commands(line)`. */
  lemma SplitEnds(line: string, segs: seq<string>, commands: Slots)
    requires segs == Segments(line)
    requires |commands| == (if |segs| == 0 then 2 else |segs| + 1)
    requires forall k :: 0 <= k < |commands| ==> commands[k] == if k < |segs| then Some(segs[k]) else None
    ensures commands == Commands(line)
  {
    if |segs| > 0 {
      assert commands == Filled(segs) + [None];
    } else {
      assert commands == [None, None];
    }
  }

  // ------------------------------------------------------------- descriptors

  /** The parent's descriptor table: the open descriptor numbers and what each refers to. */
  type Table = map<nat, Endpoint>

  /** The numbers below `k`. */
  function Below(k: nat): (r: set<nat>)
    ensures |r| == k
    ensures forall j: nat :: j in r <==> j < k
  {
    if k == 0 then {} else Below(k - 1) + {k - 1}
  }

  lemma {:induction false} SubsetCardinality(a: set<nat>, b: set<nat>)
    requires a <= b
    ensures |a| <= |b|
    decreases |a|
  {
    if a != {} {
      var x :| x in a;
      SubsetCardinality(a - {x}, b - {x});
    }
  }

  /** The lowest number at or above `k` that is not in use. */
  function LowestFreeFrom(used: set<nat>, k: nat): (fd: nat)
    requires forall j: nat :: j < k ==> j in used
    ensures k <= fd && fd !in used
    ensures forall j: nat :: j < fd ==> j in used
    decreases |used| - k
  {
    if k !in used then k
    else
      SubsetCardinality(Below(k + 1), used);
      LowestFreeFrom(used, k + 1)
  }

  /** `pipe`: the two lowest free descriptors, the lower one for the read end. */
  function PipeFds(t: Table): (fds: (nat, nat))
    ensures fds.0 !in t && fds.1 !in t && fds.0 < fds.1
    ensures forall j: nat :: j < fds.0 ==> j in t
    ensures forall j: nat :: j < fds.1 && j != fds.0 ==> j in t
  {
    var r := LowestFreeFrom(t.Keys, 0);
    var w := LowestFreeFrom(t.Keys + {r}, 0);
    (r, w)
  }

  // ------------------------------------------------------------------- runs

  /** One child: the command string it parses (NULL after an empty split) and the
      streams the parent's wiring gives it before its own redirections. */
  datatype Launch = Launch(command: Option<string>, wiring: Streams)

  /** What the parent does, in order. `WaitAny` is `wait(NULL)`: it reaps whichever child ends. */
  datatype Action =
    | OpenPipe(pipe: nat, readFd: nat, writeFd: nat)
    | Start(launch: Launch)
    | WaitAny
    | Close(fd: nat)

  /** One pass of the launch loop: a new pipe, a child writing into it, a wait, then closes. */
  datatype Iteration = Iteration(pipe: nat, readFd: nat, writeFd: nat, launch: Launch, closes: seq<nat>)

  /** A whole pipeline run: the loop passes, the final child, the closes after it, and the
      parent's descriptor table at the end. */
  datatype Run = Run(iterations: seq<Iteration>, final: Launch, finalCloses: seq<nat>, table: Table)

  function CloseAll(fds: seq<nat>): (acts: seq<Action>)
    ensures |acts| == |fds|
    ensures forall k :: 0 <= k < |fds| ==> acts[k] == Close(fds[k])
  {
    seq(|fds|, k requires 0 <= k < |fds| => Close(fds[k]))
  }

  function IterationActions(it: Iteration): seq<Action> {
    [OpenPipe(it.pipe, it.readFd, it.writeFd), Start(it.launch), WaitAny] + CloseAll(it.closes)
  }

  function Flatten(its: seq<Iteration>): seq<Action> {
    if |its| == 0 then [] else IterationActions(its[0]) + Flatten(its[1..])
  }

  /** The parent's actions over a run: the loop, then the final launch and its wait. */
  function Actions(run: Run): seq<Action> {
    Flatten(run.iterations) + [Start(run.final), WaitAny] + CloseAll(run.finalCloses)
  }

  /** The parent's table after one action: `pipe` opens both ends, `close` drops the descriptor. */
  function Perform(t: Table, a: Action): Table {
    match a
    case OpenPipe(p, r, w) => t[r := PipeRead(p)][w := PipeWrite(p)]
    case Close(fd) => t - {fd}
    case _ => t
  }

  /** The parent's table after an action sequence, starting from `t`. */
  function TableAfter(acts: seq<Action>, t: Table): Table
    decreases |acts|
  {
    if |acts| == 0 then t else TableAfter(acts[1..], Perform(t, acts[0]))
  }

  lemma {:induction false} TableAfterConcat(a: seq<Action>, b: seq<Action>, t: Table)
    ensures TableAfter(a + b, t) == TableAfter(b, TableAfter(a, t))
    decreases |a|
  {
    if |a| == 0 {
      assert a + b == b;
    } else {
      assert (a + b)[0] == a[0];
      assert (a + b)[1..] == a[1..] + b;
      TableAfterConcat(a[1..], b, Perform(t, a[0]));
    }
  }

  lemma TableAfterCons(a: Action, rest: seq<Action>, t: Table)
    ensures TableAfter([a] + rest, t) == TableAfter(rest, Perform(t, a))
  {
    assert ([a] + rest)[1..] == rest;
  }

  /** The final launch and its wait leave the table alone; the closes after them remove their descriptors. */
  lemma FinalTable(final: Launch, closes: seq<nat>, t: Table)
    requires |closes| <= 1
    ensures TableAfter([Start(final), WaitAny] + CloseAll(closes), t) == if |closes| == 0 then t else t - {closes[0]}
  {
    var acts := [Start(final), WaitAny] + CloseAll(closes);
    TableAfterCons(Start(final), [WaitAny] + CloseAll(closes), t);
    assert acts == [Start(final)] + ([WaitAny] + CloseAll(closes));
    TableAfterCons(WaitAny, CloseAll(closes), t);
    if |closes| == 1 {
      TableAfterCons(Close(closes[0]), [], t);
      assert CloseAll(closes) == [Close(closes[0])] + [];
    } else {
      assert CloseAll(closes) == [];
    }
  }

  /** Closing descriptors one after another removes each of them from the table. */
  lemma {:induction false} ClosesTable(fds: seq<nat>, t: Table)
    ensures TableAfter(CloseAll(fds), t) == t - (set k | 0 <= k < |fds| :: fds[k])
    decreases |fds|
  {
    if |fds| > 0 {
      assert CloseAll(fds) == [Close(fds[0])] + CloseAll(fds[1..]);
      TableAfterCons(Close(fds[0]), CloseAll(fds[1..]), t);
      ClosesTable(fds[1..], t - {fds[0]});
      var later := set k | 0 <= k < |fds[1..]| :: fds[1..][k];
      assert (set k | 0 <= k < |fds| :: fds[k]) == {fds[0]} + later by {
        forall x | x in later ensures x in (set k | 0 <= k < |fds| :: fds[k]) {
          var k :| 0 <= k < |fds[1..]| && fds[1..][k] == x;
          assert fds[k + 1] == x;
        }
      }
    }
  }

  /** A pass opens its pipe and starts and waits for its child before it closes anything. */
  lemma PassOpens(it: Iteration, t: Table)
    ensures TableAfter(IterationActions(it), t) ==
      TableAfter(CloseAll(it.closes), t[it.readFd := PipeRead(it.pipe)][it.writeFd := PipeWrite(it.pipe)])
  {
    var afterPipe := Perform(t, OpenPipe(it.pipe, it.readFd, it.writeFd));
    var rest := CloseAll(it.closes);
    assert IterationActions(it) == [OpenPipe(it.pipe, it.readFd, it.writeFd)] + ([Start(it.launch)] + ([WaitAny] + rest));
    TableAfterCons(OpenPipe(it.pipe, it.readFd, it.writeFd), [Start(it.launch)] + ([WaitAny] + rest), t);
    TableAfterCons(Start(it.launch), [WaitAny] + rest, afterPipe);
    TableAfterCons(WaitAny, rest, afterPipe);
  }

  /**
   * One pass on table `t`: the new pipe's ends are fresh; the pass closes
   * its write end and then, optionally, one descriptor `t` already held.
   * Afterwards the table has gained the read end and lost that descriptor.
   */
  lemma PassTable(t: Table, it: Iteration)
    requires it.readFd !in t && it.writeFd !in t && it.readFd != it.writeFd
    requires it.closes == [it.writeFd] || (|it.closes| == 2 && it.closes[0] == it.writeFd && it.closes[1] in t)
    ensures TableAfter(IterationActions(it), t) ==
      (if |it.closes| == 1 then t else t - {it.closes[1]})[it.readFd := PipeRead(it.pipe)]
  {
    PassOpens(it, t);
    ClosesTable(it.closes, t[it.readFd := PipeRead(it.pipe)][it.writeFd := PipeWrite(it.pipe)]);
    var closed := set k | 0 <= k < |it.closes| :: it.closes[k];
    if |it.closes| == 1 {
      assert closed == {it.writeFd} by {
        assert it.closes[0] in closed;
      }
    } else {
      assert closed == {it.writeFd, it.closes[1]} by {
        assert it.closes[0] in closed && it.closes[1] in closed;
      }
    }
  }

  /** The children an action sequence starts, in order. */
  function Started(acts: seq<Action>): seq<Launch> {
    if |acts| == 0 then []
    else (if acts[0].Start? then [acts[0].launch] else []) + Started(acts[1..])
  }

  lemma {:induction false} StartedConcat(a: seq<Action>, b: seq<Action>)
    ensures Started(a + b) == Started(a) + Started(b)
    decreases |a|
  {
    if |a| == 0 {
      assert a + b == b;
    } else {
      assert (a + b)[0] == a[0];
      assert (a + b)[1..] == a[1..] + b;
      StartedConcat(a[1..], b);
    }
  }

  lemma {:induction false} StartedCloses(fds: seq<nat>)
    ensures Started(CloseAll(fds)) == []
    decreases |fds|
  {
    if |fds| > 0 {
      assert CloseAll(fds)[1..] == CloseAll(fds[1..]);
      StartedCloses(fds[1..]);
    }
  }

  lemma StartedOfOne(a: Action)
    ensures Started([a]) == if a.Start? then [a.launch] else []
  {
    assert [a][1..] == [];
  }

  lemma StartedOfThree(a: Action, b: Action, c: Action)
    requires !a.Start? && b.Start? && !c.Start?
    ensures Started([a, b, c]) == [b.launch]
  {
    StartedConcat([a], [b, c]);
    StartedConcat([b], [c]);
    StartedOfOne(a);
    StartedOfOne(b);
    StartedOfOne(c);
    assert [a] + [b, c] == [a, b, c];
    assert [b] + [c] == [b, c];
  }

  /** The launches of the loop passes, in order. */
  function LoopLaunches(its: seq<Iteration>): (ls: seq<Launch>)
    ensures |ls| == |its|
    ensures forall k :: 0 <= k < |its| ==> ls[k] == its[k].launch
  {
    seq(|its|, k requires 0 <= k < |its| => its[k].launch)
  }

  lemma {:induction false} StartedFlatten(its: seq<Iteration>)
    ensures Started(Flatten(its)) == LoopLaunches(its)
    decreases |its|
  {
    if |its| > 0 {
      var it := its[0];
      var head: seq<Action> := [OpenPipe(it.pipe, it.readFd, it.writeFd), Start(it.launch), WaitAny];
      StartedConcat(head, CloseAll(it.closes));
      StartedCloses(it.closes);
      StartedOfThree(OpenPipe(it.pipe, it.readFd, it.writeFd), Start(it.launch), WaitAny);
      StartedConcat(IterationActions(it), Flatten(its[1..]));
      StartedFlatten(its[1..]);
      assert LoopLaunches(its) == [it.launch] + LoopLaunches(its[1..]);
    }
  }

  /** The children a run starts: one per loop pass, then the final one. */
  lemma RunLaunches(run: Run)
    ensures Started(Actions(run)) == LoopLaunches(run.iterations) + [run.final]
  {
    var tail: seq<Action> := [Start(run.final), WaitAny];
    StartedConcat(Flatten(run.iterations) + tail, CloseAll(run.finalCloses));
    StartedConcat(Flatten(run.iterations), tail);
    StartedFlatten(run.iterations);
    StartedCloses(run.finalCloses);
    StartedConcat([Start(run.final)], [WaitAny]);
    StartedOfOne(Start(run.final));
    StartedOfOne(WaitAny);
  }

  /**
   * Passes from `i` on that start the commands in turn: pass `i + j` makes
   * pipe `i + j` and starts `commands[i + j]` writing into it, the first one
   * reading `stdin` and each later one the pipe made just before it.
   */
  predicate Chained(its: seq<Iteration>, commands: Slots, i: nat, stdin: Endpoint)
    decreases |its|
  {
    |its| == 0 ||
      (&& i < |commands|
       && its[0].pipe == i
       && its[0].launch == Launch(commands[i], Streams(stdin, PipeWrite(i)))
       && Chained(its[1..], commands, i + 1, PipeRead(i)))
  }

  lemma {:induction false} ChainedMeans(its: seq<Iteration>, commands: Slots, i: nat, stdin: Endpoint)
    requires Chained(its, commands, i, stdin)
    ensures i + |its| <= |commands| || |its| == 0
    ensures forall j :: 0 <= j < |its| ==>
      && i + j < |commands|
      && its[j].pipe == i + j
      && its[j].launch.command == commands[i + j]
      && its[j].launch.wiring.stdout == PipeWrite(i + j)
    ensures |its| > 0 ==> its[0].launch.wiring.stdin == stdin
    ensures forall j :: 0 < j < |its| ==> its[j].launch.wiring.stdin == PipeRead(i + j - 1)
    decreases |its|
  {
    if |its| > 0 {
      var tail := its[1..];
      ChainedMeans(tail, commands, i + 1, PipeRead(i));
      forall j | 0 < j < |its|
        ensures its[j] == tail[j - 1]
      {
      }
    }
  }

  /** Each pass closes its write end and nothing else. */
  predicate ClosesWriteEnd(its: seq<Iteration>)
    decreases |its|
  {
    |its| == 0 || (its[0].closes == [its[0].writeFd] && ClosesWriteEnd(its[1..]))
  }

  lemma {:induction false} ClosesWriteEndMeans(its: seq<Iteration>)
    requires ClosesWriteEnd(its)
    ensures forall j :: 0 <= j < |its| ==> its[j].closes == [its[j].writeFd]
    decreases |its|
  {
    if |its| > 0 {
      var tail := its[1..];
      ClosesWriteEndMeans(tail);
      forall j | 0 < j < |its|
        ensures its[j] == tail[j - 1]
      {
      }
    }
  }

  // ------------------------------------------------------------ as written

  /**
   * The launch loop as written, from pass `i` on, with `in_fd` = `inFd`: make
   * a pipe, start stage `i` reading `in_fd` and writing the pipe, wait for
   * any child, close the write end, and keep the read end as the next
   * `in_fd`. It runs for `i` up to `num_cmds - 2`, so for every stage.
   * Returns the passes, the final `in_fd`, and the table afterwards.
   */
  function AsWrittenLoop(commands: Slots, i: nat, inFd: nat, t: Table): (r: (seq<Iteration>, nat, Table))
    requires i < |commands| && inFd in t
    ensures |r.0| == |commands| - 1 - i
    ensures r.1 in r.2
    ensures Chained(r.0, commands, i, t[inFd])
    ensures ClosesWriteEnd(r.0)
    ensures |r.0| == 0 ==> r.1 == inFd && r.2 == t
    ensures |r.0| > 0 ==> r.2[r.1] == PipeRead(|commands| - 2)
    ensures t.Keys <= r.2.Keys && forall fd :: fd in t ==> r.2[fd] == t[fd]
    ensures |r.2.Keys| == |t.Keys| + |r.0|
    ensures forall fd :: fd in r.2 && fd !in t ==> r.2[fd].PipeRead?
    decreases |commands| - i
  {
    if i == |commands| - 1 then ([], inFd, t)
    else
      var fds := PipeFds(t);
      var it := Iteration(i, fds.0, fds.1, Launch(commands[i], Streams(t[inFd], PipeWrite(i))), [fds.1]);
      var t' := t[fds.0 := PipeRead(i)];
      assert t'.Keys == t.Keys + {fds.0};
      var rest := AsWrittenLoop(commands, i + 1, fds.0, t');
      var its := [it] + rest.0;
      assert its[1..] == rest.0;
      (its, rest.1, rest.2)
  }

  /**
   * `execute_pipeline` as written, in a parent whose descriptor table is
   * `t`: the loop over every stage, then `commands[num_cmds-2]` parsed and
   * started once more, reading the last `in_fd` and writing the parent's own
   * standard output, and a final wait.
   */
  function AsWrittenRun(line: string, t: Table): Run
    requires |Segments(line)| < MaxCommands
    requires 0 in t && 1 in t
  {
    var commands := Commands(line);
    var loop := AsWrittenLoop(commands, 0, 0, t);
    Run(loop.0, Launch(commands[|commands| - 2], Streams(loop.2[loop.1], t[1])), [], loop.2)
  }

  /**
   * The children the parent starts as written: `num_cmds` of them, one more
   * than there are stages. Stage `k` writes pipe `k` and reads pipe `k - 1`
   * (the shell's input for the first); then the last stage is started a
   * second time, reading the last pipe and writing the shell's output. With
   * no stage at all, a NULL command is started twice.
   */
  lemma AsWrittenLaunches(line: string, t: Table)
    requires |Segments(line)| < MaxCommands
    requires 0 in t && 1 in t
    ensures var segs := Segments(line); var m := |segs|;
      var ls := Started(Actions(AsWrittenRun(line, t)));
      && |ls| == |Commands(line)|
      && (m == 0 ==> |ls| == 2 && ls[0].command == None && ls[1].command == None)
      && (m > 0 ==>
        && |ls| == m + 1
        && (forall k :: 0 <= k < m ==> ls[k].command == Some(segs[k]) && ls[k].wiring.stdout == PipeWrite(k))
        && ls[0].wiring.stdin == t[0]
        && (forall k :: 0 < k < m ==> ls[k].wiring.stdin == PipeRead(k - 1))
        && ls[m].command == Some(segs[m - 1])
        && ls[m].wiring == Streams(PipeRead(m - 1), t[1]))
  {
    var segs := Segments(line);
    var m := |segs|;
    var commands := Commands(line);
    var run := AsWrittenRun(line, t);
    AsWrittenRunShape(line, t);
    CommandsShape(line);
    ChainedRunLaunches(run, commands, t[0]);
    var ls := Started(Actions(run));
    if m > 0 {
      forall k | 0 <= k < m
        ensures ls[k].command == Some(segs[k]) && ls[k].wiring.stdout == PipeWrite(k)
      {
        assert ls[k].command == commands[k];
      }
      assert ls[m] == run.final;
    }
  }

  /** One pass of the loop as written, then the rest of it. */
  lemma AsWrittenLoopUnfold(commands: Slots, i: nat, inFd: nat, t: Table)
    requires i < |commands| - 1 && inFd in t
    ensures var r := AsWrittenLoop(commands, i, inFd, t);
      var fds := PipeFds(t);
      var rest := AsWrittenLoop(commands, i + 1, fds.0, t[fds.0 := PipeRead(i)]);
      && |r.0| > 0
      && r.0[0].pipe == i && r.0[0].readFd == fds.0 && r.0[0].writeFd == fds.1
      && r.0[0].closes == [fds.1]
      && r.0[1..] == rest.0
      && r.2 == rest.2
  {
  }

  /** The table the loop as written returns is the one its own actions leave. */
  lemma {:induction false} AsWrittenLoopTable(commands: Slots, i: nat, inFd: nat, t: Table)
    requires i < |commands| && inFd in t
    ensures var r := AsWrittenLoop(commands, i, inFd, t);
      TableAfter(Flatten(r.0), t) == r.2
    decreases |commands| - i
  {
    if i < |commands| - 1 {
      var fds := PipeFds(t);
      var t' := t[fds.0 := PipeRead(i)];
      AsWrittenLoopUnfold(commands, i, inFd, t);
      var its := AsWrittenLoop(commands, i, inFd, t).0;
      var rest := AsWrittenLoop(commands, i + 1, fds.0, t').0;
      assert Flatten(its) == IterationActions(its[0]) + Flatten(rest);
      TableAfterConcat(IterationActions(its[0]), Flatten(rest), t);
      PassTable(t, its[0]);
      AsWrittenLoopTable(commands, i + 1, fds.0, t');
    }
  }

  /** The table of a run as written is the one the parent's actions leave. */
  lemma AsWrittenTable(line: string, t: Table)
    requires |Segments(line)| < MaxCommands
    requires 0 in t && 1 in t
    ensures var run := AsWrittenRun(line, t);
      TableAfter(Actions(run), t) == run.table
  {
    var run := AsWrittenRun(line, t);
    AsWrittenRunShape(line, t);
    AsWrittenLoopTable(Commands(line), 0, 0, t);
    var tail := [Start(run.final), WaitAny] + CloseAll(run.finalCloses);
    assert Actions(run) == Flatten(run.iterations) + tail;
    TableAfterConcat(Flatten(run.iterations), tail, t);
    FinalTable(run.final, run.finalCloses, TableAfter(Flatten(run.iterations), t));
  }

  /**
   * The discrepancy in one place: the last stage's own pass starts it
   * writing into its pipe, and the extra launch after the loop starts the
   * same stage again, reading that pipe and writing the shell's output.
   */
  lemma LastStageStartedTwice(line: string, t: Table)
    requires 0 < |Segments(line)| < MaxCommands
    requires 0 in t && 1 in t
    ensures var segs := Segments(line); var m := |segs|; var run := AsWrittenRun(line, t);
      && |run.iterations| == m
      && run.iterations[m - 1].launch
         == Launch(Some(segs[m - 1]), Streams(if m > 1 then PipeRead(m - 2) else t[0], PipeWrite(m - 1)))
      && run.final == Launch(Some(segs[m - 1]), Streams(PipeRead(m - 1), t[1]))
  {
    AsWrittenRunShape(line, t);
    CommandsShape(line);
    ChainedMeans(AsWrittenRun(line, t).iterations, Commands(line), 0, t[0]);
  }

  /** The entries of the split: the stages in order then a NULL, or two NULLs when there is no stage. */
  lemma CommandsShape(line: string)
    ensures var segs := Segments(line); var commands := Commands(line);
      && (|segs| == 0 ==> commands == [None, None])
      && (|segs| > 0 ==> |commands| == |segs| + 1 && commands[|segs|] == None)
      && (forall k :: 0 <= k < |segs| ==> commands[k] == Some(segs[k]))
  {
  }

  /** The as-written run: one pass per entry but the last, chained from the shell's input, then the extra launch. */
  lemma AsWrittenRunShape(line: string, t: Table)
    requires |Segments(line)| < MaxCommands
    requires 0 in t && 1 in t
    ensures var run := AsWrittenRun(line, t); var commands := Commands(line); var n := |run.iterations|;
      && |commands| >= 2
      && n == |commands| - 1
      && Chained(run.iterations, commands, 0, t[0])
      && ClosesWriteEnd(run.iterations)
      && run.finalCloses == []
      && run.final == Launch(commands[n - 1], Streams(if n > 0 then PipeRead(n - 1) else t[0], t[1]))
  {
  }

  /** The children a run of chained passes starts: the passes' stages in turn, then the final one. */
  lemma ChainedRunLaunches(run: Run, commands: Slots, stdin: Endpoint)
    requires Chained(run.iterations, commands, 0, stdin)
    ensures var ls := Started(Actions(run)); var n := |run.iterations|;
      && |ls| == n + 1 && ls[n] == run.final
      && (forall k :: 0 <= k < n ==> k < |commands| && ls[k].command == commands[k] && ls[k].wiring.stdout == PipeWrite(k))
      && (n > 0 ==> ls[0].wiring.stdin == stdin)
      && (forall k :: 0 < k < n ==> ls[k].wiring.stdin == PipeRead(k - 1))
  {
    var its := run.iterations;
    var n := |its|;
    RunLaunches(run);
    ChainedMeans(its, commands, 0, stdin);
    var ls := LoopLaunches(its) + [run.final];
    assert ls[n] == run.final;
    forall k | 0 <= k < n
      ensures k < |commands| && ls[k].command == commands[k] && ls[k].wiring.stdout == PipeWrite(k)
    {
      assert ls[k] == its[k].launch;
    }
    forall k | 0 < k < n
      ensures ls[k].wiring.stdin == PipeRead(k - 1)
    {
      assert ls[k] == its[k].launch;
    }
    if n > 0 {
      assert ls[0] == its[0].launch;
    }
  }

  /** Flattening passes that each close one descriptor puts pass `i` at positions `4i` to `4i + 3`. */
  lemma {:induction false} FlattenLayout(its: seq<Iteration>, i: nat)
    requires forall j :: 0 <= j < |its| ==> |its[j].closes| == 1
    requires i < |its|
    ensures |Flatten(its)| == 4 * |its|
    ensures Flatten(its)[4 * i..4 * i + 4] == IterationActions(its[i])
    decreases |its|
  {
    var head := IterationActions(its[0]);
    assert |head| == 4;
    if |its| == 1 {
      assert Flatten(its) == head;
    } else {
      var rest := its[1..];
      FlattenLayout(rest, if i == 0 then 0 else i - 1);
      assert Flatten(its) == head + Flatten(rest);
      if i > 0 {
        assert rest[i - 1] == its[i];
        assert Flatten(its)[4 * i..4 * i + 4] == Flatten(rest)[4 * (i - 1)..4 * (i - 1) + 4];
      }
    }
  }

  /**
   * The parent's order for stage `i`: make the pipe, start the stage, wait,
   * close the write end, and only then start the next child, so no extra
   * write end is open in the parent once the reader runs.
   */
  lemma WriteEndClosedBeforeNextLaunch(line: string, t: Table, i: nat)
    requires |Segments(line)| < MaxCommands
    requires 0 in t && 1 in t
    requires i < |AsWrittenRun(line, t).iterations|
    ensures var run := AsWrittenRun(line, t); var acts := Actions(run); var it := run.iterations[i];
      && |acts| >= 4 * i + 5
      && acts[4 * i] == OpenPipe(i, it.readFd, it.writeFd)
      && acts[4 * i + 1] == Start(it.launch)
      && acts[4 * i + 2] == WaitAny
      && acts[4 * i + 3] == Close(it.writeFd)
      && (i + 1 < |run.iterations| ==> |acts| > 4 * i + 5 && acts[4 * i + 5] == Start(run.iterations[i + 1].launch))
      && (i + 1 == |run.iterations| ==> acts[4 * i + 4] == Start(run.final))
  {
    var run := AsWrittenRun(line, t);
    AsWrittenRunShape(line, t);
    ChainedMeans(run.iterations, Commands(line), 0, t[0]);
    ClosesWriteEndMeans(run.iterations);
    PassAt(run, i);
    NextLaunchAfter(run, i);
  }

  /** A pass that closes one descriptor performs exactly four actions. */
  lemma PassActions(it: Iteration)
    requires it.closes == [it.writeFd]
    ensures IterationActions(it) == [OpenPipe(it.pipe, it.readFd, it.writeFd), Start(it.launch), WaitAny, Close(it.writeFd)]
  {
    assert CloseAll(it.closes) == [Close(it.writeFd)];
  }

  /** In a run whose passes each close one descriptor, pass `i` sits at positions `4i` to `4i + 3`. */
  lemma PassAt(run: Run, i: nat)
    requires forall j :: 0 <= j < |run.iterations| ==> run.iterations[j].closes == [run.iterations[j].writeFd]
    requires run.finalCloses == []
    requires i < |run.iterations|
    ensures var acts := Actions(run); var it := run.iterations[i];
      && |acts| == 4 * |run.iterations| + 2
      && acts[4 * i] == OpenPipe(it.pipe, it.readFd, it.writeFd)
      && acts[4 * i + 1] == Start(it.launch)
      && acts[4 * i + 2] == WaitAny
      && acts[4 * i + 3] == Close(it.writeFd)
  {
    var its := run.iterations;
    var flat := Flatten(its);
    var acts := Actions(run);
    FlattenLayout(its, i);
    PassActions(its[i]);
    assert CloseAll(run.finalCloses) == [];
    assert acts == flat + [Start(run.final), WaitAny];
    var pass := flat[4 * i..4 * i + 4];
    forall k | 0 <= k < 4
      ensures acts[4 * i + k] == pass[k]
    {
      assert acts[4 * i + k] == flat[4 * i + k];
    }
  }

  /** After pass `i` the next child started is the next pass's, or the final one. */
  lemma NextLaunchAfter(run: Run, i: nat)
    requires forall j :: 0 <= j < |run.iterations| ==> run.iterations[j].closes == [run.iterations[j].writeFd]
    requires run.finalCloses == []
    requires i < |run.iterations|
    ensures var acts := Actions(run);
      && |acts| >= 4 * i + 5
      && (i + 1 < |run.iterations| ==> |acts| > 4 * i + 5 && acts[4 * i + 5] == Start(run.iterations[i + 1].launch))
      && (i + 1 == |run.iterations| ==> acts[4 * i + 4] == Start(run.final))
  {
    var its := run.iterations;
    PassAt(run, i);
    if i + 1 < |its| {
      PassAt(run, i + 1);
    } else {
      var acts := Actions(run);
      FlattenLayout(its, i);
      assert CloseAll(run.finalCloses) == [];
      assert acts == Flatten(its) + [Start(run.final), WaitAny];
      assert acts[4 * i + 4] == Start(run.final);
    }
  }

  /**
   * The parent never closes a read end: after a run its table, as the
   * parent's own actions leave it, holds every descriptor it held before,
   * unchanged, plus one read end per pass, so each pipeline leaves
   * `num_cmds - 1` descriptors open in the shell.
   */
  lemma ReadEndsLeak(line: string, t: Table)
    requires |Segments(line)| < MaxCommands
    requires 0 in t && 1 in t
    ensures var run := AsWrittenRun(line, t);
      && t.Keys <= run.table.Keys
      && (forall fd :: fd in t ==> run.table[fd] == t[fd])
      && |run.table.Keys| == |t.Keys| + |Commands(line)| - 1
      && (forall fd :: fd in run.table && fd !in t ==> run.table[fd].PipeRead?)
      && (forall j :: 0 <= j < |run.iterations| ==> run.iterations[j].closes == [run.iterations[j].writeFd])
      && run.finalCloses == []
      && TableAfter(Actions(run), t) == run.table
  {
    OnlyWriteEndsClosed(line, t);
    AsWrittenTable(line, t);
  }

  /** Every close of the run is a pass closing its own write end; nothing is closed after the final child. */
  lemma OnlyWriteEndsClosed(line: string, t: Table)
    requires |Segments(line)| < MaxCommands
    requires 0 in t && 1 in t
    ensures var run := AsWrittenRun(line, t);
      && (forall j :: 0 <= j < |run.iterations| ==> run.iterations[j].closes == [run.iterations[j].writeFd])
      && run.finalCloses == []
  {
    ClosesWriteEndMeans(AsWrittenRun(line, t).iterations);
  }

  // -------------------------------------------------------------- corrected

  /** The corrected loop's table at a pass: the starting table plus the read end kept from the last pass. */
  function Holding(base: Table, prev: Option<nat>, i: nat): Table {
    if prev.None? || i == 0 then base else base[prev.value := PipeRead(i - 1)]
  }

  /** What the next stage reads: the kept read end, or the shell's standard input. */
  function InputOf(base: Table, prev: Option<nat>, i: nat): Endpoint
    requires 0 in base
  {
    if prev.None? || i == 0 then base[0] else PipeRead(i - 1)
  }

  /**
   * The corrected loop from pass `i` on, over all stages but the last: make a
   * pipe, start stage `i` reading the kept read end and writing the pipe,
   * wait, close the write end and the read end the stage consumed.
   */
  function CorrectedLoop(segs: seq<string>, i: nat, base: Table, prev: Option<nat>): (r: (seq<Iteration>, Option<nat>))
    requires 0 < |segs| && i < |segs|
    requires 0 in base && 1 in base
    requires prev.None? <==> i == 0
    requires prev.Some? ==> prev.value !in base
    ensures |r.0| == |segs| - 1 - i
    ensures r.1.None? <==> |segs| == 1
    ensures r.1.Some? ==> r.1.value !in base
    ensures Chained(r.0, Filled(segs), i, InputOf(base, prev, i))
    ensures |r.0| == 0 ==> r.1 == prev
    decreases |segs| - i
  {
    if i == |segs| - 1 then ([], prev)
    else
      var fds := PipeFds(Holding(base, prev, i));
      var closes := if prev.Some? then [fds.1, prev.value] else [fds.1];
      var it := Iteration(i, fds.0, fds.1, Launch(Some(segs[i]), Streams(InputOf(base, prev, i), PipeWrite(i))), closes);
      var rest := CorrectedLoop(segs, i + 1, base, Some(fds.0));
      var its := [it] + rest.0;
      assert its[1..] == rest.0;
      (its, rest.1)
  }

  /**
   * The corrected pipeline: each stage started once, the last one reading the
   * last pipe and writing the shell's output; after the final wait the last
   * kept read end is closed. A line with no stage starts nothing.
   */
  function CorrectedRun(line: string, t: Table): Option<Run>
    requires 0 in t && 1 in t
  {
    var segs := Segments(line);
    if |segs| == 0 then None
    else
      var loop := CorrectedLoop(segs, 0, t, None);
      var last := |segs| - 1;
      var closes := if loop.1.Some? then [loop.1.value] else [];
      Some(Run(loop.0, Launch(Some(segs[last]), Streams(InputOf(t, loop.1, last), t[1])), closes, t))
  }

  /**
   * The corrected run starts each stage exactly once, in order, and chains
   * them: stage `k` writes pipe `k` and stage `k + 1` reads it. A single
   * stage is started with the shell's own streams, as a direct launch is.
   */
  lemma CorrectedLaunchesEachSegmentOnce(line: string, t: Table)
    requires 0 in t && 1 in t
    ensures var segs := Segments(line); var m := |segs|;
      && (CorrectedRun(line, t).None? <==> m == 0)
      && (m > 0 ==>
        var ls := Started(Actions(CorrectedRun(line, t).value));
        && |ls| == m
        && (forall k :: 0 <= k < m ==> ls[k].command == Some(segs[k]))
        && ls[0].wiring.stdin == t[0]
        && (forall k :: 0 < k < m ==> ls[k].wiring.stdin == PipeRead(k - 1))
        && (forall k :: 0 <= k < m - 1 ==> ls[k].wiring.stdout == PipeWrite(k))
        && ls[m - 1].wiring.stdout == t[1]
        && (m == 1 ==> ls[0].wiring == Streams(t[0], t[1])))
  {
    var segs := Segments(line);
    if |segs| > 0 {
      var run := CorrectedRun(line, t).value;
      CorrectedRunShape(line, t);
      ChainedRunLaunches(run, Filled(segs), t[0]);
    }
  }

  /** The corrected run: one pass per stage but the last, chained from the shell's input, then the last stage. */
  lemma CorrectedRunShape(line: string, t: Table)
    requires 0 in t && 1 in t
    requires |Segments(line)| > 0
    ensures var segs := Segments(line); var m := |segs|; var run := CorrectedRun(line, t).value;
      && |run.iterations| == m - 1
      && Chained(run.iterations, Filled(segs), 0, t[0])
      && run.final == Launch(Some(segs[m - 1]), Streams(if m > 1 then PipeRead(m - 2) else t[0], t[1]))
  {
  }

  /**
   * The corrected run closes every descriptor it opens: each write end after
   * its writer is waited for, each read end after its reader is, so the
   * shell's table, as the parent's actions leave it, ends as it began.
   */
  lemma {:induction false} CorrectedClosesEveryPipe(line: string, t: Table)
    requires 0 in t && 1 in t
    requires |Segments(line)| > 0
    ensures var run := CorrectedRun(line, t).value;
      && TableAfter(Actions(run), t) == t
      && run.table == t
      && (forall j :: 0 <= j < |run.iterations| ==> run.iterations[j].writeFd in run.iterations[j].closes)
      && (forall j :: 0 < j < |run.iterations| ==> run.iterations[j - 1].readFd in run.iterations[j].closes)
      && (|run.iterations| > 0 ==> run.finalCloses == [run.iterations[|run.iterations| - 1].readFd])
  {
    var segs := Segments(line);
    CorrectedTable(line, t);
    CorrectedLoopCloses(segs, 0, t, None);
    CorrectedLoopKeepsLastRead(segs, 0, t, None);
    if |segs| > 1 {
      HandedOnIsLast(CorrectedLoop(segs, 0, t, None).0, None);
    }
    ClosesInTurnMeans(CorrectedLoop(segs, 0, t, None).0, None);
  }

  /**
   * Each pass closes its own write end and the read end it was handed
   * (`prev`), and hands its read end to the next pass.
   */
  predicate ClosesInTurn(its: seq<Iteration>, prev: Option<nat>)
    decreases |its|
  {
    |its| == 0 ||
      (&& its[0].writeFd in its[0].closes
       && (prev.Some? ==> prev.value in its[0].closes)
       && ClosesInTurn(its[1..], Some(its[0].readFd)))
  }

  lemma {:induction false} ClosesInTurnMeans(its: seq<Iteration>, prev: Option<nat>)
    requires ClosesInTurn(its, prev)
    ensures forall j :: 0 <= j < |its| ==> its[j].writeFd in its[j].closes
    ensures |its| > 0 && prev.Some? ==> prev.value in its[0].closes
    ensures forall j :: 0 < j < |its| ==> its[j - 1].readFd in its[j].closes
    decreases |its|
  {
    if |its| > 0 {
      var tail := its[1..];
      ClosesInTurnMeans(tail, Some(its[0].readFd));
      forall j | 0 < j < |its|
        ensures its[j].writeFd in its[j].closes && its[j - 1].readFd in its[j].closes
      {
        assert its[j] == tail[j - 1];
        if j > 1 {
          assert its[j - 1] == tail[j - 2];
        }
      }
    }
  }

  /** One pass of the corrected loop, then the rest of it. */
  lemma CorrectedLoopUnfold(segs: seq<string>, i: nat, base: Table, prev: Option<nat>)
    requires 0 < |segs| && i < |segs| - 1
    requires 0 in base && 1 in base
    requires prev.None? <==> i == 0
    requires prev.Some? ==> prev.value !in base
    ensures var r := CorrectedLoop(segs, i, base, prev);
      var fds := PipeFds(Holding(base, prev, i));
      var rest := CorrectedLoop(segs, i + 1, base, Some(fds.0));
      && |r.0| > 0
      && r.0[0].pipe == i
      && r.0[0].readFd == fds.0
      && r.0[0].writeFd == fds.1
      && r.0[0].closes == (if prev.Some? then [fds.1, prev.value] else [fds.1])
      && r.0[1..] == rest.0
      && r.1 == rest.1
  {
  }

  lemma {:induction false} CorrectedLoopCloses(segs: seq<string>, i: nat, base: Table, prev: Option<nat>)
    requires 0 < |segs| && i < |segs|
    requires 0 in base && 1 in base
    requires prev.None? <==> i == 0
    requires prev.Some? ==> prev.value !in base
    ensures ClosesInTurn(CorrectedLoop(segs, i, base, prev).0, prev)
    decreases |segs| - i
  {
    if i < |segs| - 1 {
      var fds := PipeFds(Holding(base, prev, i));
      CorrectedLoopUnfold(segs, i, base, prev);
      CorrectedLoopCloses(segs, i + 1, base, Some(fds.0));
    }
  }

  /**
   * From pass `i` on, the corrected loop's actions take the table holding
   * the read end it was handed to the table holding only the read end it
   * hands on.
   */
  lemma {:induction false} CorrectedLoopTable(segs: seq<string>, i: nat, base: Table, prev: Option<nat>)
    requires 0 < |segs| && i < |segs|
    requires 0 in base && 1 in base
    requires prev.None? <==> i == 0
    requires prev.Some? ==> prev.value !in base
    ensures var r := CorrectedLoop(segs, i, base, prev);
      TableAfter(Flatten(r.0), Holding(base, prev, i)) == Holding(base, r.1, |segs| - 1)
    decreases |segs| - i
  {
    if i < |segs| - 1 {
      var held := Holding(base, prev, i);
      var fds := PipeFds(held);
      CorrectedLoopUnfold(segs, i, base, prev);
      var its := CorrectedLoop(segs, i, base, prev).0;
      var rest := CorrectedLoop(segs, i + 1, base, Some(fds.0)).0;
      assert Flatten(its) == IterationActions(its[0]) + Flatten(rest);
      TableAfterConcat(IterationActions(its[0]), Flatten(rest), held);
      PassTable(held, its[0]);
      if prev.Some? {
        assert held - {prev.value} == base;
      }
      assert TableAfter(IterationActions(its[0]), held) == Holding(base, Some(fds.0), i + 1);
      CorrectedLoopTable(segs, i + 1, base, Some(fds.0));
    }
  }

  /** The corrected run's table is the one the parent's actions leave, and that is the table it started with. */
  lemma CorrectedTable(line: string, t: Table)
    requires 0 in t && 1 in t
    requires |Segments(line)| > 0
    ensures var run := CorrectedRun(line, t).value;
      TableAfter(Actions(run), t) == t && run.table == t
  {
    var segs := Segments(line);
    var loop := CorrectedLoop(segs, 0, t, None);
    var run := CorrectedRun(line, t).value;
    CorrectedLoopTable(segs, 0, t, None);
    var tail := [Start(run.final), WaitAny] + CloseAll(run.finalCloses);
    assert Actions(run) == Flatten(run.iterations) + tail;
    TableAfterConcat(Flatten(run.iterations), tail, t);
    FinalTable(run.final, run.finalCloses, Holding(t, loop.1, |segs| - 1));
    if loop.1.Some? {
      assert Holding(t, loop.1, |segs| - 1) - {loop.1.value} == t;
    }
  }

  /** The read end a sequence of passes hands on: the last pass's, or `prev` when there is none. */
  function HandedOn(its: seq<Iteration>, prev: Option<nat>): Option<nat>
    decreases |its|
  {
    if |its| == 0 then prev else HandedOn(its[1..], Some(its[0].readFd))
  }

  lemma {:induction false} HandedOnIsLast(its: seq<Iteration>, prev: Option<nat>)
    requires |its| > 0
    ensures HandedOn(its, prev) == Some(its[|its| - 1].readFd)
    decreases |its|
  {
    if |its| > 1 {
      HandedOnIsLast(its[1..], Some(its[0].readFd));
      assert its[1..][|its| - 2] == its[|its| - 1];
    }
  }

  /** The loop leaves the last pass's read end open, for the last stage. */
  lemma {:induction false} CorrectedLoopKeepsLastRead(segs: seq<string>, i: nat, base: Table, prev: Option<nat>)
    requires 0 < |segs| && i < |segs|
    requires 0 in base && 1 in base
    requires prev.None? <==> i == 0
    requires prev.Some? ==> prev.value !in base
    ensures var r := CorrectedLoop(segs, i, base, prev);
      r.1 == HandedOn(r.0, prev)
    decreases |segs| - i
  {
    if i < |segs| - 1 {
      var fds := PipeFds(Holding(base, prev, i));
      CorrectedLoopUnfold(segs, i, base, prev);
      CorrectedLoopKeepsLastRead(segs, i + 1, base, Some(fds.0));
    }
  }

  // ----------------------------------------------------------- the children

  /** The argument array a child parses: a NULL command gives an empty one. */
  function CommandSlots(c: Option<string>): Slots {
    if c.None? then [None] else ArgSlots(c.value)
  }

  /**
   * In a child the pipe wiring is applied first and the redirections second,
   * so a `>`/`>>` whose file opens overrides the pipe on standard output
   * (the last such one wins), a `<` whose file opens overrides it on
   * standard input, and a stream with no such operator keeps the pipe.
   */
  lemma RedirectionWinsOverPipe(l: Launch, fs: FileSystem)
    requires l.command.Some? ==> |Tokens(l.command.value, ' ')| < MaxArgs
    ensures Terminated(CommandSlots(l.command))
    ensures OverridesInherited(Argv(CommandSlots(l.command)), fs, l.wiring, Resolve(CommandSlots(l.command), fs, l.wiring).streams)
  {
    if l.command.Some? {
      ArgvOfLine(l.command.value);
    }
    RedirectionOverridesInherited(Argv(CommandSlots(l.command)), fs, l.wiring);
  }
}
