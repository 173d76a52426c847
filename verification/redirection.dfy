/**
 * Redirection (`handle_redirection`) in a child process: every `<`, `>` and
 * `>>` token of the argument vector opens the token after it and rebinds
 * standard input or output to the file, and the operator slot is blanked
 * so that the program sees only the arguments before the first operator.
 *
 * Descriptors are abstract: a stream is bound to an endpoint (the shell's
 * own standard streams, one end of a numbered pipe, or a file opened in a
 * given mode), and whether an `open` succeeds is a property of the path
 * and the access it asks for. `>` and `>>` open with `O_CREAT`, so a file
 * they create is there, and readable, for the tokens after them.
 */
module Redirection {
  import opened Wrappers
  import opened Args

  /** How an output file is opened: `O_TRUNC` for `>`, `O_APPEND` for `>>`. */
  datatype WriteMode = Truncate | Append

  /** What a standard stream of a process is bound to. */
  datatype Endpoint =
    | ShellStdin
    | ShellStdout
    | PipeRead(pipe: nat)
    | PipeWrite(pipe: nat)
    | InputFile(path: string)
    | OutputFile(path: string, mode: WriteMode)

  /** The bindings of file descriptors 0 and 1. */
  datatype Streams = Streams(stdin: Endpoint, stdout: Endpoint)

  /**
   * Which paths can be opened for reading, which for writing (creating them
   * if need be), and which name an existing file.
   */
  datatype FileSystem = FileSystem(readable: set<string>, writable: set<string>, present: set<string>)

  /** A redirection operator: `<` reads a file, `>` and `>>` write one. */
  datatype Operator = Input | Output(mode: WriteMode)

  /** The operator a token is, compared as whole strings as `strcmp` does. */
  function OperatorOf(token: string): Option<Operator> {
    if token == ">" then Some(Output(Truncate))
    else if token == ">>" then Some(Output(Append))
    else if token == "<" then Some(Input)
    else None
  }

  predicate IsOperator(token: string) {
    OperatorOf(token).Some?
  }

  /** The slot after position `i`: the operand, or NULL when the operator is the last argument. */
  function Operand(argv: seq<string>, i: nat): Option<string> {
    if i + 1 < |argv| then Some(argv[i + 1]) else None
  }

  /** `open` of the operand succeeds; `open(NULL, …)` never does. */
  predicate Opens(fs: FileSystem, op: Operator, operand: Option<string>) {
    match operand
    case None => false
    case Some(path) => if op.Input? then path in fs.readable else path in fs.writable
  }

  /**
   * The file system after token `i`: a `>` or `>>` whose `open` succeeds on
   * a path that does not exist creates it, and mode 0644 lets its owner read
   * it back.
   */
  function Touch(argv: seq<string>, i: nat, fs: FileSystem): FileSystem
    requires i < |argv|
  {
    match OperatorOf(argv[i])
    case Some(Output(_)) =>
      if Opens(fs, Output(Truncate), Operand(argv, i)) && Operand(argv, i).value !in fs.present then
        var path := Operand(argv, i).value;
        FileSystem(fs.readable + {path}, fs.writable, fs.present + {path})
      else fs
    case _ => fs
  }

  /** The file system token `n` sees: `fs` as changed by the tokens before it. */
  function FilesAt(argv: seq<string>, n: nat, fs: FileSystem): FileSystem
    requires n <= |argv|
  {
    if n == 0 then fs else Touch(argv, n - 1, FilesAt(argv, n - 1, fs))
  }

  /** The operator at position `i` opens its operand and so rebinds a stream. */
  predicate Rebinds(argv: seq<string>, i: nat, fs: FileSystem)
    requires i < |argv|
  {
    IsOperator(argv[i]) && Opens(FilesAt(argv, i, fs), OperatorOf(argv[i]).value, Operand(argv, i))
  }

  /** The operator at position `i` rebinds standard output (`>` or `>>` whose file opens). */
  predicate RebindsOutput(argv: seq<string>, i: nat, fs: FileSystem)
    requires i < |argv|
  {
    Rebinds(argv, i, fs) && OperatorOf(argv[i]).value.Output?
  }

  /** The operator at position `i` rebinds standard input (`<` whose file opens). */
  predicate RebindsInput(argv: seq<string>, i: nat, fs: FileSystem)
    requires i < |argv|
  {
    Rebinds(argv, i, fs) && OperatorOf(argv[i]).value.Input?
  }

  /** Position `i` holds `<` whose file cannot be opened; the code reports `open` failing. */
  predicate InputFails(argv: seq<string>, i: nat, fs: FileSystem)
    requires i < |argv|
  {
    argv[i] == "<" && !Opens(FilesAt(argv, i, fs), Input, Operand(argv, i))
  }

  /**
   * The effect of the token at position `i` on the streams: an operator
   * whose `open` succeeds `dup2`s the new descriptor onto its stream; a
   * failed `open` yields -1, whose `dup2` fails and leaves the stream alone.
   */
  function Apply(argv: seq<string>, i: nat, fs: FileSystem, st: Streams): Streams
    requires i < |argv|
  {
    match OperatorOf(argv[i])
    case None => st
    case Some(op) =>
      if !Opens(FilesAt(argv, i, fs), op, Operand(argv, i)) then st
      else
        var path := Operand(argv, i).value;
        match op
        case Input => st.(stdin := InputFile(path))
        case Output(mode) => st.(stdout := OutputFile(path, mode))
  }

  /** The streams after the first `n` tokens have been scanned. */
  function StreamsAfter(argv: seq<string>, n: nat, fs: FileSystem, st: Streams): Streams
    requires n <= |argv|
  {
    if n == 0 then st else Apply(argv, n - 1, fs, StreamsAfter(argv, n - 1, fs, st))
  }

  /** Positions, in scan order, of the `<` tokens among the first `n` whose `open` fails. */
  function FailedInputs(argv: seq<string>, n: nat, fs: FileSystem): (r: seq<nat>)
    requires n <= |argv|
    ensures forall j: nat :: j in r <==> j < n && InputFails(argv, j, fs)
    ensures forall a :: 0 <= a < |r| ==> r[a] < n
    ensures forall a, b :: 0 <= a < b < |r| ==> r[a] < r[b]
  {
    if n == 0 then []
    else
      var prev := FailedInputs(argv, n - 1, fs);
      if InputFails(argv, n - 1, fs) then prev + [n - 1] else prev
  }

  /** Index of the first operator token, or the length when there is none. */
  function FirstOperator(argv: seq<string>): (j: nat)
    ensures j <= |argv|
    ensures forall k :: 0 <= k < j ==> !IsOperator(argv[k])
    ensures j < |argv| ==> IsOperator(argv[j])
  {
    if |argv| == 0 || IsOperator(argv[0]) then 0 else 1 + FirstOperator(argv[1..])
  }

  /**
   * The tokens only ever add files: what was readable or present stays so,
   * nothing becomes writable, and every file created along the way is
   * readable.
   */
  lemma {:induction false} FilesGrow(argv: seq<string>, m: nat, n: nat, fs: FileSystem)
    requires m <= n <= |argv|
    ensures var before := FilesAt(argv, m, fs); var after := FilesAt(argv, n, fs);
      && before.readable <= after.readable
      && before.present <= after.present
      && after.writable == fs.writable
      && after.present - fs.present <= after.readable
    decreases n
  {
    if n > 0 {
      if m < n {
        FilesGrow(argv, m, n - 1, fs);
      } else {
        FilesGrow(argv, 0, n - 1, fs);
      }
    }
  }

  /**
   * A file that a `>` or `>>` creates can be read back by a later `<` of
   * the same command, as in `cat > f < f` with no `f` beforehand: that `<`
   * rebinds standard input and reports no error.
   */
  lemma CreatedFileReadsBack(argv: seq<string>, fs: FileSystem, j: nat, k: nat)
    requires j < k < |argv|
    requires RebindsOutput(argv, j, fs)
    requires argv[j + 1] !in fs.present
    requires argv[k] == "<" && Operand(argv, k) == Some(argv[j + 1])
    ensures RebindsInput(argv, k, fs) && !InputFails(argv, k, fs)
  {
    var path := argv[j + 1];
    FilesGrow(argv, 0, j, fs);
    FilesGrow(argv, j + 1, k, fs);
    assert path in FilesAt(argv, j + 1, fs).readable;
  }

  /** The argument array after redirection, the resulting streams, and the failed inputs. */
  datatype Resolution = Resolution(slots: Slots, streams: Streams, failedInputs: seq<nat>)

  /** The argument array with every operator slot inside the vector blanked. */
  function Blank(slots: Slots, argv: seq<string>): (r: Slots)
    requires |argv| <= |slots|
    ensures |r| == |slots|
    ensures forall k :: 0 <= k < |slots| ==>
      r[k] == (if k < |argv| && IsOperator(argv[k]) then None else slots[k])
  {
    seq(|slots|, k requires 0 <= k < |slots| => if k < |argv| && IsOperator(argv[k]) then None else slots[k])
  }

  /** Position `j` holds the last operator that rebinds standard output. */
  predicate LastOutputAt(argv: seq<string>, j: nat, fs: FileSystem)
    requires j < |argv|
  {
    RebindsOutput(argv, j, fs) && forall k :: j < k < |argv| ==> !RebindsOutput(argv, k, fs)
  }

  /** Position `j` holds the last `<` whose file opens. */
  predicate LastInputAt(argv: seq<string>, j: nat, fs: FileSystem)
    requires j < |argv|
  {
    RebindsInput(argv, j, fs) && forall k :: j < k < |argv| ==> !RebindsInput(argv, k, fs)
  }

  /**
   * Streams `s` after redirecting from inherited streams `st`: a stream that
   * no opening operator rebinds keeps what it inherited; otherwise it is
   * bound to the file of the last operator that rebinds it.
   */
  predicate OverridesInherited(argv: seq<string>, fs: FileSystem, st: Streams, s: Streams) {
    && ((forall k :: 0 <= k < |argv| ==> !RebindsOutput(argv, k, fs)) ==> s.stdout == st.stdout)
    && ((forall k :: 0 <= k < |argv| ==> !RebindsInput(argv, k, fs)) ==> s.stdin == st.stdin)
    && (forall j :: 0 <= j < |argv| && LastOutputAt(argv, j, fs) ==>
          s.stdout == OutputFile(argv[j + 1], OperatorOf(argv[j]).value.mode))
    && (forall j :: 0 <= j < |argv| && LastInputAt(argv, j, fs) ==> s.stdin == InputFile(argv[j + 1]))
  }

  lemma RedirectionOverridesInherited(argv: seq<string>, fs: FileSystem, st: Streams)
    ensures OverridesInherited(argv, fs, st, StreamsAfter(argv, |argv|, fs, st))
  {
    var n := |argv|;
    if forall k :: 0 <= k < n ==> !RebindsOutput(argv, k, fs) {
      OutputKept(argv, n, fs, st);
    }
    if forall k :: 0 <= k < n ==> !RebindsInput(argv, k, fs) {
      InputKept(argv, n, fs, st);
    }
    forall j | 0 <= j < n && LastOutputAt(argv, j, fs)
      ensures StreamsAfter(argv, n, fs, st).stdout == OutputFile(argv[j + 1], OperatorOf(argv[j]).value.mode)
    {
      LastOutputWins(argv, n, fs, st, j);
    }
    forall j | 0 <= j < n && LastInputAt(argv, j, fs)
      ensures StreamsAfter(argv, n, fs, st).stdin == InputFile(argv[j + 1])
    {
      LastInputWins(argv, n, fs, st, j);
    }
  }

  /** What `handle_redirection` does to a terminated argument array in a process with streams `st`. */
  function Resolve(slots: Slots, fs: FileSystem, st: Streams): Resolution
    requires Terminated(slots)
  {
    var argv := Argv(slots);
    Resolution(Blank(slots, argv), StreamsAfter(argv, |argv|, fs, st), FailedInputs(argv, |argv|, fs))
  }

  /**
   * The C loop of `handle_redirection`: scan the slots until a NULL; at an
   * operator, open the next slot, rebind the stream when the open succeeds,
   * report a failed `<`, and blank the operator slot; the scan then carries
   * on with the slot after it.
   */
  method HandleRedirection(slots: Slots, fs: FileSystem, st: Streams) returns (r: Resolution)
    requires Terminated(slots)
    ensures r == Resolve(slots, fs, st)
  {
    ghost var argv := Argv(slots);
    assert ReadsAs(slots, argv);
    var args := slots;
    var files := fs;
    var streams := st;
    var failed: seq<nat> := [];
    var i := 0;
    while args[i] != None
      invariant ScanInvariant(slots, argv, fs, st, args, files, streams, failed, i)
      decreases |argv| - i
    {
      ghost var args0, files0, streams0, failed0 := args, files, streams, failed;
      assert args[i] == slots[i];
      var token := args[i].value;
      var operand := args[i + 1];
      if token == ">" || token == ">>" {
        if operand.Some? && operand.value in files.writable {
          var mode := if token == ">" then Truncate else Append;
          streams := streams.(stdout := OutputFile(operand.value, mode));
          if operand.value !in files.present {
            files := FileSystem(files.readable + {operand.value}, files.writable, files.present + {operand.value});
          }
        }
        args := args[i := None];
      } else if token == "<" {
        if operand.Some? && operand.value in files.readable {
          streams := streams.(stdin := InputFile(operand.value));
        } else {
          failed := failed + [i];
        }
        args := args[i := None];
      }
      ScanStep(slots, argv, fs, st, args0, files0, streams0, failed0, i, args, files, streams, failed);
      i := i + 1;
    }
    assert args == Blank(slots, argv);
    r := Resolution(args, streams, failed);
  }

  /** The argument array once the scan has passed the first `i` tokens: the operators among them blanked. */
  function BlankedUpTo(slots: Slots, argv: seq<string>, i: nat): (r: Slots)
    requires i <= |argv| <= |slots|
  {
    seq(|slots|, k requires 0 <= k < |slots| => if k < i && IsOperator(argv[k]) then None else slots[k])
  }

  lemma BlankedAt(slots: Slots, argv: seq<string>, i: nat, k: nat)
    requires i <= |argv| <= |slots| && k < |slots|
    ensures BlankedUpTo(slots, argv, i)[k] == if k < i && IsOperator(argv[k]) then None else slots[k]
  {
  }

  /** Passing token `i` blanks it exactly when it is an operator. */
  lemma BlankedStep(slots: Slots, argv: seq<string>, i: nat)
    requires i < |argv| <= |slots|
    ensures BlankedUpTo(slots, argv, i + 1) ==
      if IsOperator(argv[i]) then BlankedUpTo(slots, argv, i)[i := None] else BlankedUpTo(slots, argv, i)
  {
  }

  /** `argv` is what a reader stopping at the first NULL of `slots` sees. */
  predicate ReadsAs(slots: Slots, argv: seq<string>) {
    && |argv| < |slots|
    && (forall k :: 0 <= k < |argv| ==> slots[k] == Some(argv[k]))
    && slots[|argv|] == None
  }

  /**
   * After the scan has passed the first `i` tokens: the operators among them
   * are blanked, the files are those the tokens have created, the streams
   * are those the tokens leave, and the failed `<` positions are recorded.
   */
  predicate ScanInvariant(slots: Slots, argv: seq<string>, fs: FileSystem, st: Streams, args: Slots, files: FileSystem, streams: Streams, failed: seq<nat>, i: nat) {
    && ReadsAs(slots, argv)
    && i <= |argv|
    && args == BlankedUpTo(slots, argv, i)
    && files == FilesAt(argv, i, fs)
    && streams == StreamsAfter(argv, i, fs, st)
    && failed == FailedInputs(argv, i, fs)
  }

  /** One pass of the scan over token `i` keeps the invariant. */
  lemma ScanStep(slots: Slots, argv: seq<string>, fs: FileSystem, st: Streams, args0: Slots, files0: FileSystem, streams0: Streams, failed0: seq<nat>, i: nat,
                 args: Slots, files: FileSystem, streams: Streams, failed: seq<nat>)
    requires ScanInvariant(slots, argv, fs, st, args0, files0, streams0, failed0, i)
    requires i < |argv|
    requires var token := argv[i]; var operand := args0[i + 1];
      var writes := (token == ">" || token == ">>") && operand.Some? && operand.value in files0.writable;
      && args == (if IsOperator(token) then args0[i := None] else args0)
      && files == (if writes && operand.value !in files0.present
                   then FileSystem(files0.readable + {operand.value}, files0.writable, files0.present + {operand.value})
                   else files0)
      && streams == (if writes then streams0.(stdout := OutputFile(operand.value, if token == ">" then Truncate else Append))
                     else if token == "<" && operand.Some? && operand.value in files0.readable then streams0.(stdin := InputFile(operand.value))
                     else streams0)
      && failed == (if token == "<" && !(operand.Some? && operand.value in files0.readable) then failed0 + [i] else failed0)
    ensures ScanInvariant(slots, argv, fs, st, args, files, streams, failed, i + 1)
  {
    BlankedAt(slots, argv, i, i + 1);
    if i + 1 < |argv| {
      assert slots[i + 1] == Some(argv[i + 1]);
    } else {
      assert slots[|argv|] == None;
    }
    BlankedStep(slots, argv, i);
    ApplyByCases(argv, i, fs, streams0);
  }

  /** The effect of token `i`, spelled out as the scan's branches on the token and the slot after it. */
  lemma ApplyByCases(argv: seq<string>, i: nat, fs: FileSystem, st: Streams)
    requires i < |argv|
    ensures var token := argv[i]; var operand := Operand(argv, i); var cur := FilesAt(argv, i, fs);
      var writes := (token == ">" || token == ">>") && operand.Some? && operand.value in cur.writable;
      && FilesAt(argv, i + 1, fs) ==
        (if writes && operand.value !in cur.present
         then FileSystem(cur.readable + {operand.value}, cur.writable, cur.present + {operand.value})
         else cur)
      && Apply(argv, i, fs, st) ==
        (if writes then st.(stdout := OutputFile(operand.value, if token == ">" then Truncate else Append))
         else if token == "<" && operand.Some? && operand.value in cur.readable then st.(stdin := InputFile(operand.value))
         else st)
  {
  }

  /** Blanking the operators leaves exactly the arguments before the first operator visible. */
  lemma ArgvOfBlank(slots: Slots, argv: seq<string>)
    requires Terminated(slots) && argv == Argv(slots)
    ensures Argv(Blank(slots, argv)) == argv[..FirstOperator(argv)]
  {
    assert ReadsAs(slots, argv);
    BlankReadsAsPrefix(slots, argv);
    ArgvOfReads(Blank(slots, argv), argv[..FirstOperator(argv)]);
  }

  /** Blanking the operators leaves a reader seeing the arguments before the first one. */
  lemma BlankReadsAsPrefix(slots: Slots, argv: seq<string>)
    requires ReadsAs(slots, argv)
    ensures ReadsAs(Blank(slots, argv), argv[..FirstOperator(argv)])
  {
    var blanked := Blank(slots, argv);
    var j := FirstOperator(argv);
    var prefix := argv[..j];
    if j < |argv| {
      assert blanked[j] == None;
    } else {
      assert blanked[j] == slots[|argv|];
    }
    forall k | 0 <= k < j
      ensures blanked[k] == Some(prefix[k])
    {
      assert !IsOperator(argv[k]);
      assert slots[k] == Some(argv[k]);
    }
  }

  /** What a reader sees is determined by the slots: `Argv` agrees with `ReadsAs`. */
  lemma ArgvOfReads(slots: Slots, argv: seq<string>)
    requires ReadsAs(slots, argv)
    ensures Argv(slots) == argv
  {
    ArgvEndsAtFirstNull(slots, |argv|);
    var r := Argv(slots);
    forall k | 0 <= k < |argv|
      ensures r[k] == argv[k]
    {
      assert slots[k] == Some(r[k]);
    }
  }

  /** The program sees exactly the arguments before the first operator. */
  lemma ProgramArgumentsEndAtFirstOperator(slots: Slots, fs: FileSystem, st: Streams)
    requires Terminated(slots)
    ensures var argv := Argv(slots);
      Argv(Resolve(slots, fs, st).slots) == argv[..FirstOperator(argv)]
  {
    ArgvOfBlank(slots, Argv(slots));
  }

  /** The last operator that rebinds standard output, in scan order, decides it. */
  lemma {:induction false} LastOutputWins(argv: seq<string>, n: nat, fs: FileSystem, st: Streams, j: nat)
    requires j < n <= |argv|
    requires RebindsOutput(argv, j, fs)
    requires forall k :: j < k < n ==> !RebindsOutput(argv, k, fs)
    ensures StreamsAfter(argv, n, fs, st).stdout == OutputFile(argv[j + 1], OperatorOf(argv[j]).value.mode)
    decreases n
  {
    if n - 1 > j {
      assert !RebindsOutput(argv, n - 1, fs);
      LastOutputWins(argv, n - 1, fs, st, j);
    }
  }

  /** With no operator rebinding standard output, it keeps its binding (the pipe, say). */
  lemma {:induction false} OutputKept(argv: seq<string>, n: nat, fs: FileSystem, st: Streams)
    requires n <= |argv|
    requires forall k :: 0 <= k < n ==> !RebindsOutput(argv, k, fs)
    ensures StreamsAfter(argv, n, fs, st).stdout == st.stdout
    decreases n
  {
    if n > 0 {
      assert !RebindsOutput(argv, n - 1, fs);
      OutputKept(argv, n - 1, fs, st);
    }
  }

  /** The last `<` whose file opens decides standard input. */
  lemma {:induction false} LastInputWins(argv: seq<string>, n: nat, fs: FileSystem, st: Streams, j: nat)
    requires j < n <= |argv|
    requires RebindsInput(argv, j, fs)
    requires forall k :: j < k < n ==> !RebindsInput(argv, k, fs)
    ensures StreamsAfter(argv, n, fs, st).stdin == InputFile(argv[j + 1])
    decreases n
  {
    if n - 1 > j {
      assert !RebindsInput(argv, n - 1, fs);
      LastInputWins(argv, n - 1, fs, st, j);
    }
  }

  /** With no `<` whose file opens, standard input keeps its binding; a failed `<` changes nothing. */
  lemma {:induction false} InputKept(argv: seq<string>, n: nat, fs: FileSystem, st: Streams)
    requires n <= |argv|
    requires forall k :: 0 <= k < n ==> !RebindsInput(argv, k, fs)
    ensures StreamsAfter(argv, n, fs, st).stdin == st.stdin
    decreases n
  {
    if n > 0 {
      assert !RebindsInput(argv, n - 1, fs);
      InputKept(argv, n - 1, fs, st);
    }
  }

  /**
   * Standard output ends bound to a file exactly when some `>` or `>>`
   * opened its file, provided it did not start bound to one.
   */
  lemma {:induction false} OutputIsFileIff(argv: seq<string>, n: nat, fs: FileSystem, st: Streams)
    requires n <= |argv|
    requires !st.stdout.OutputFile?
    ensures StreamsAfter(argv, n, fs, st).stdout.OutputFile? <==>
      exists k :: 0 <= k < n && RebindsOutput(argv, k, fs)
    decreases n
  {
    if n > 0 {
      OutputIsFileIff(argv, n - 1, fs, st);
      if RebindsOutput(argv, n - 1, fs) {
        assert StreamsAfter(argv, n, fs, st).stdout.OutputFile?;
      }
    }
  }

  /**
   * Standard input ends bound to a file exactly when some `<` opened its
   * file, provided it did not start bound to one.
   */
  lemma {:induction false} InputIsFileIff(argv: seq<string>, n: nat, fs: FileSystem, st: Streams)
    requires n <= |argv|
    requires !st.stdin.InputFile?
    ensures StreamsAfter(argv, n, fs, st).stdin.InputFile? <==>
      exists k :: 0 <= k < n && RebindsInput(argv, k, fs)
    decreases n
  {
    if n > 0 {
      InputIsFileIff(argv, n - 1, fs, st);
      if RebindsInput(argv, n - 1, fs) {
        assert StreamsAfter(argv, n, fs, st).stdin.InputFile?;
      }
    }
  }
}
