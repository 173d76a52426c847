# A Dafny model of the mini shell's line processing

`My_Shell.c` is a small interactive shell. It reads a line, expands
`$NAME` references, and either runs a pipeline or parses the line into an
argument array. For a plain command it strips a trailing `&`, runs builtins
in the shell itself, and otherwise forks a child. The child applies `<`,
`>` and `>>` redirections and then executes the program. Around the process
plumbing, every step that decides *what* runs and *where its streams go* is
a deterministic transformation of strings and argument arrays. This project
models those steps as pure Dafny functions and proves properties about them:

- `text.dfy` (`Text`) covers `trim_newline` and the `strtok` behaviour with
  one delimiter: maximal non-empty runs, one call at a time.
- `expansion.dfy` (`Expansion`) covers `expand_variables`. It gives a
  structural view of a line as literals and `$name` references
  (`Expansion.Scan`, expanded by `Expansion.Expand`), and a character loop
  that matches the C code. The two are proved equal. `getenv` is
  `Expansion.Lookup`: an unset name, and the empty name, give nothing.
- `args.dfy` (`Args`) covers `parse_args`. The `char *args[128]` array is
  modelled as a sequence of slots, each a token or NULL. It also covers the
  background marker of `shell_loop`.
- `redirection.dfy` (`Redirection`) covers `handle_redirection` over
  abstract stream bindings and an abstract file system. The file system
  says which paths open for reading, which for writing, and which exist.
  A `>` or `>>` that creates a file makes it readable for the tokens after
  it. `Redirection.Resolve` is the whole effect on one argument array: the
  blanked slots, the final streams and the failed inputs.
- `pipeline.dfy` (`Pipeline`) covers `execute_pipeline`: the split on `|`
  and the parent's actions (pipe, start, wait, close) over an abstract
  descriptor table. Descriptors are handed out lowest-free-first. The
  table is computed from the parent's own `pipe` and `close` actions. The
  run is modelled as written (`Pipeline.AsWrittenRun`) and in a corrected
  form (`Pipeline.CorrectedRun`).
- `shell.dfy` (`Shell`) covers one pass of `shell_loop`, with
  `add_history` and `handle_builtin` (including `export`).

Several behaviours of the code are worth stating up front:

- The last pipeline stage is started twice.
- A one-stage pipeline such as `ls |` still goes through a pipe, so it is
  not the same as a direct launch.
- The parent closes a write end only after waiting for its writer, and it
  never closes read ends.
- Redirection blanks only the operator slot. The file-name slot stays in
  the array but is invisible, because readers stop at the first NULL.
- `&` is recognised only on the non-pipeline path. In a pipeline it stays
  an ordinary argument of the last stage.
- A lone `$` looks up the empty name. `getenv("")` returns NULL, so it
  expands to nothing.
- The pipeline test happens after expansion, so a `|` that comes from a
  variable's value also makes the line a pipeline.

## Model

| member | source | states |
|---|---|---|
| `Text.TrimNewline` | My_Shell.c:40-42 | the result is the prefix of the line before its first newline: it holds no newline, and a line without one is returned unchanged |
| `Text.Tokens` | My_Shell.c:114-116 | the tokens of a `strtok` scan are never empty and never contain the delimiter |
| `Text.TokensOfJoin` | My_Shell.c:114-116 | tokenising the delimiter-joined form of any valid token sequence gives that sequence back |
| `Text.TokensKeepAllOtherCharacters` | My_Shell.c:114-116 | concatenated, the tokens are the input with every delimiter removed: only delimiters are lost |
| `Text.StrtokNext` | My_Shell.c:114-116 | one `strtok` call returns NULL exactly when no token is left, and otherwise returns the next token and resumes so that the remaining tokens are unchanged |
| `Text.StrtokStep` | My_Shell.c:114-116 | successive `strtok` calls return the token sequence in order, then NULL |
| `Expansion.NameLength` | My_Shell.c:64-65 | the name after `$` is the maximal run of ASCII letters, digits and `_` |
| `Expansion.Scan` | My_Shell.c:60-74 | the pass reads a line as literals (never `$`) and references whose name is never followed by a name character |
| `Expansion.UnscanScan` | My_Shell.c:60-74 | the pieces of a line spell the line exactly: the pass sees every character once, in order |
| `Expansion.ScanUnscan` | My_Shell.c:60-74 | every well-formed piece sequence is read back exactly, so the reading is unambiguous |
| `Expansion.ExpandWithoutDollar` | My_Shell.c:70-73 | every character other than `$` is copied unchanged: a line without `$` expands to itself |
| `Expansion.ExpandReference` | My_Shell.c:61-69 | `$name` becomes the variable's value, or nothing when it is unset, and the text after it is expanded independently |
| `Expansion.ExpansionIsNotRecursive` | My_Shell.c:67-69 | an illustration of `ExpandReference` on one input: an inserted value is not scanned again, so `$A` with `A=$B` gives `$B` |
| `Expansion.ExpansionIsConcatenative` | My_Shell.c:60-74 | `$NAME` followed by text that cannot continue the name and holds no `$` expands to the value followed by that text unchanged, as `$VAR.txt` with `VAR=out` gives `out.txt` |
| `Expansion.ExpandFromIsExpand` | My_Shell.c:60-74 | the index-by-index reading of the C loop agrees with the structural expansion |
| `Expansion.ExpandVariables` | My_Shell.c:55-76 | the C loop builds exactly the structural expansion of the line, which fits the 1024-byte buffer |
| `Args.Argv` | My_Shell.c:212 | a reader that stops at the first NULL sees the tokens before it, and it stays inside the array exactly when the array holds a NULL |
| `Args.ParseArgs` | My_Shell.c:112-117 | the `parse_args` loop fills the slots with the line's space-separated tokens, then a NULL, or with the first 128 tokens and no NULL |
| `Args.ArgvOfLine` | My_Shell.c:112-117 | the argument array is terminated exactly when the line has fewer than 128 tokens, and then its argument vector is the full token sequence |
| `Args.MarkBackground` | My_Shell.c:209-216 | the command is background exactly when its last argument is `&`; that slot alone is blanked, and otherwise the array is untouched |
| `Args.ArgvOfPrefix` | My_Shell.c:213-215 | blanking slot `n` of the argument vector cuts the vector to its first `n` arguments |
| `Redirection.FailedInputs` | My_Shell.c:133-134 | an error is reported for exactly the `<` operators whose file cannot be opened, in scan order |
| `Redirection.FirstOperator` | My_Shell.c:121-138 | the position of the first `<`, `>` or `>>` token |
| `Redirection.FilesGrow` | My_Shell.c:123-133 | the scan only adds files: readable and existing paths stay so, and each file a `>` or `>>` created is readable afterwards |
| `Redirection.CreatedFileReadsBack` | My_Shell.c:122-137 | a file that a `>` or `>>` creates (`O_CREAT`) is opened by a later `<` of the same command, so `cat > f < f` with no `f` beforehand rebinds standard input and reports no error |
| `Redirection.HandleRedirection` | My_Shell.c:120-140 | the C loop blanks every operator slot and rebinds the streams operator by operator, in scan order, continuing past each blanked slot |
| `Redirection.RedirectionOverridesInherited` | My_Shell.c:120-139 | after the scan each stream is bound to the file of its last successful operator, and a stream that no operator rebinds keeps the binding it came in with |
| `Redirection.ProgramArgumentsEndAtFirstOperator` | My_Shell.c:120-139 | the program's argv after redirection is the prefix before the first operator |
| `Redirection.LastOutputWins` | My_Shell.c:122-131 | standard output ends bound to the file of the last `>` or `>>` whose file opens, in truncate or append mode as the operator says |
| `Redirection.OutputKept` | My_Shell.c:122-131 | with no `>`/`>>` whose file opens, standard output keeps its earlier binding |
| `Redirection.LastInputWins` | My_Shell.c:132-137 | standard input ends bound to the file of the last `<` whose file opens |
| `Redirection.InputKept` | My_Shell.c:132-137 | when none of the scanned tokens is a `<` whose file opens, standard input keeps the binding it came in with |
| `Redirection.OutputIsFileIff` | My_Shell.c:122-131 | standard output ends bound to a file if and only if some `>`/`>>` opened its file |
| `Redirection.InputIsFileIff` | My_Shell.c:132-137 | standard input ends bound to a file if and only if some `<` opened its file |
| `Pipeline.SplitYieldsSegments` | My_Shell.c:144-147 | the split yields the non-empty `\|`-free stages in order and loses only the `\|` characters; `num_cmds` is the number of stages plus one for the NULL, or two when there is no stage |
| `Pipeline.SplitPipeline` | My_Shell.c:144-147 | the C split loop writes the stages then a NULL, at most 10 entries, and the argv-style reading of `commands` is the stage sequence |
| `Pipeline.PipeFds` | My_Shell.c:152-153 | `pipe` takes the two lowest free descriptors, the read end getting the lower one |
| `Pipeline.AsWrittenLoop` | My_Shell.c:151-170 | pass `i` pipes stage `i` into pipe `i`, reading pipe `i-1` (the shell's input for the first); the parent keeps each read end, so its table grows by one read end per pass |
| `Pipeline.AsWrittenLaunches` | My_Shell.c:149-182 | the parent starts `num_cmds` children: every stage into a pipe, then the last stage a second time, reading the last pipe and writing the shell's output |
| `Pipeline.LastStageStartedTwice` | My_Shell.c:151-181 | with at least one stage, the last stage's own pass starts it writing into its pipe, and the launch after the loop starts that same stage again, reading that pipe and writing the shell's output |
| `Pipeline.WriteEndClosedBeforeNextLaunch` | My_Shell.c:151-170 | for each pass the parent creates the pipe, starts the stage, waits, closes the write end, and only then starts the next child |
| `Pipeline.AsWrittenTable` | My_Shell.c:149-182 | the table of the run as written is exactly what its `pipe` and `close` actions leave, starting from the shell's table |
| `Pipeline.ReadEndsLeak` | My_Shell.c:149-182 | after a run the parent's table, as its actions leave it, holds every earlier descriptor plus `num_cmds - 1` read ends it never closes |
| `Pipeline.OnlyWriteEndsClosed` | My_Shell.c:167-182 | every close the parent makes is a pass closing its own write end, and nothing is closed after the last child |
| `Pipeline.CorrectedLoop` | My_Shell.c:151-170 | the corrected loop pipes every stage but the last and chains stage `k` into stage `k+1` |
| `Pipeline.CorrectedLaunchesEachSegmentOnce` | My_Shell.c:149-182 | the corrected run starts each stage exactly once, in order and chained through pipes; the last stage writes the shell's output; one stage uses the shell's own streams; no stage starts nothing |
| `Pipeline.CorrectedTable` | My_Shell.c:149-182 | the corrected run's `pipe` and `close` actions take the shell's table back to the table it started with |
| `Pipeline.CorrectedClosesEveryPipe` | My_Shell.c:149-182 | the corrected run closes each write end after its writer and each read end after its reader, so the shell's descriptor table, as the parent's actions leave it, ends as it began |
| `Pipeline.RedirectionWinsOverPipe` | My_Shell.c:155-177 | in a child the pipe wiring comes first and the redirections second: a file redirection overrides the pipe on its stream, the last one winning, and a stream with no redirection keeps the pipe |
| `Shell.AddHistory` | My_Shell.c:30-33 | a line is appended while fewer than 1000 are stored and dropped afterwards; earlier entries are never changed |
| `Shell.HistoryKeepsFirstLines` | My_Shell.c:30-33 | after any sequence of lines the history is the first 1000 of them, in order |
| `Shell.ExportPair` | My_Shell.c:98-106 | `export` obtains a key and value exactly when its argument has at least two `=`-separated tokens; they are the first two tokens |
| `Shell.ExportKeyValue` | My_Shell.c:98-106 | `K=V` with no `=` in `K` or `V` yields the key `K` and the value `V` |
| `Shell.ExportValueStopsAtEquals` | My_Shell.c:100-101 | an illustration of `ExportPair` on one input: the value stops at the next `=`, so `A=b=c` sets `A` to `b` |
| `Shell.Builtins` | My_Shell.c:79-108 | an empty argv is handled as a no-op; `exit`, `cd`, `history` and `export` are builtins by exact name, each name selecting its own builtin; anything else goes to a child |
| `Shell.BuiltinEnvironmentEffect` | My_Shell.c:79-108 | for every builtin word list, only `export` whose argument has at least two `=`-separated tokens changes the environment: it sets the first token to the second and keeps every other variable |
| `Shell.Step` | My_Shell.c:186-229 | an empty line is skipped and changes nothing; any other line is recorded in the history before expansion; the line is a pipeline exactly when its expansion holds `\|`; only a builtin changes the environment |
| `Shell.JobOfLine` | My_Shell.c:206-216 | a plain line with fewer than 128 arguments gives a NULL-terminated array; the job is background exactly when the last argument is `&`, and its argv is the arguments without that final `&` |
| `Shell.PlainCommand` | My_Shell.c:206-227 | a line without `\|` is never skipped and never a pipeline; it quits exactly on `exit` and runs a builtin exactly when the words name one; otherwise the program runs in the background exactly when its last argument is `&`, sees the other arguments and is not waited for, and in the foreground sees every argument and is waited for |
| `Shell.ExportLineSetsEnv` | My_Shell.c:98-106 | for any non-empty `K` and `V` free of space, `=`, `$`, `\|` and newline (`export PATH=/usr/bin` included), the line `export K=V` leaves the environment with `K` set to `V` and every other variable as it was |
| `Shell.ExportIsSeenByLaterLines` | My_Shell.c:98-106 | the line `export K=V` sets `K` to `V`, so a later `$K` expands to `V`; `K` must be a name for `$K` to read it back, while `V` may be any plain word such as `/usr/bin` |

## Findings

| source | as written | input that shows it | evidently intended | confidence | as-written member | corrected member |
|---|---|---|---|---|---|---|
| My_Shell.c:151-182 | the loop runs for `i < num_cmds - 1`, but `num_cmds` counts the NULL, so every stage goes into a pipe; then `commands[num_cmds-2]`, the last stage, is parsed and started again | `ls \| wc`: `wc` runs once, reading `ls`'s output and writing into pipe 1; then `wc` runs again reading pipe 1, so the shell prints `wc`'s count of the first `wc`'s one-line output | the loop covers all but the last stage, and the last stage runs once with the shell's output | high (not executed) | `Pipeline.LastStageStartedTwice` | `Pipeline.CorrectedLaunchesEachSegmentOnce` |
| My_Shell.c:168-169 | the parent closes each write end but never a read end, including the last `in_fd` | every pipeline leaves `num_cmds - 1` read ends open in the shell; `ls \| wc` leaves two | each read end is closed once its reader has been started and waited for | high (not executed) | `Pipeline.OnlyWriteEndsClosed` | `Pipeline.CorrectedClosesEveryPipe` |

## Left out

- Process creation, program execution and waiting are not modelled. A
  child is a `Launch` record (its command and its wired streams). Waiting
  is the `WaitAny` action. A failed `execvp` (reported, then exit status 1)
  is not modelled.
- `wait(NULL)` may reap an earlier background child instead of the stage
  just started. The model records the wait as an action and does not
  follow which child it reaps.
- `dup2`, `open` and `close` have no real effect in the model. A child's
  descriptors 0 and 1 are abstract `Endpoint`s. Which paths open for
  reading or writing, and which exist, is a `FileSystem` parameter.
- `Redirection.Touch`: a file that `>` or `>>` creates is taken to be
  readable afterwards, because mode 0644 gives its owner read permission.
  The process umask is not modelled. A file that already existed keeps
  the permissions the parameter gives it, and `O_TRUNC` emptying it has
  no effect on what opens.
- `Pipeline.PipeFds`: `pipe` is taken to succeed, and the descriptor
  table has no size limit. The code ignores the result of `pipe`, and the
  read ends it leaks pile up over a session until `pipe` fails with
  `EMFILE`; the `dup2` and `close` calls on the uninitialised `pipefd`
  that would follow are outside the model.
- `Pipeline.WriteEndClosedBeforeNextLaunch`: pipe capacity is not
  modelled, and every `wait(NULL)` is taken to return. The parent waits
  for each stage before its reader starts, so a stage that writes more
  than one pipe buffer (64 KiB on Linux), such as `seq 1 100000` in
  `seq 1 100000 | wc -l`, blocks in `write` and the shell hangs; in that
  case the next launch the lemma orders never happens.
- Inside a child, closing `pipefd[0]` and keeping the inherited `in_fd`
  are not modelled. Only the parent's descriptor table is tracked.
- Signal handling (`sigint_handler`, `init_signals`) is left out because it
  is asynchronous, operating-system behaviour.
- The `fgets` read loop, the prompt, and opening a script in `main` are
  left out as input plumbing. A step takes the line that `fgets` returned.
  The 1023-character cut of `fgets` is not modelled.
- `cd` and `chdir`, `history` printing, and `exit` are only recognised
  (`Shell.Builtins`). Their effects on the process and terminal are not
  modelled.
- `getenv` and `setenv` act on an explicit environment map.
- `isalnum` is taken over ASCII letters and digits, with no locale.
- Fixed buffers are preconditions, not modelled overflows:
  - the expanded line must fit in 1024 characters with its terminator,
    and each variable name must be under 128 characters
    (`Expansion.FitsBuffers`);
  - a pipeline may have at most 9 stages (`Pipeline.MaxCommands`);
  - a plain command, and every pipeline stage, must have fewer than 128
    arguments, so the array that `MarkBackground` and `handle_redirection`
    scan holds a NULL (for a stage, `Pipeline.RedirectionWinsOverPipe`
    requires it)
    (`Shell.LineFits`).
- `Expansion.FitsBuffers`: counts one model character as one byte. The C
  buffers count bytes, so a line with non-ASCII (multi-byte UTF-8)
  characters can overflow the 1024-byte buffer while the precondition
  holds. The model reads input as single-byte characters.
- `Shell.Step`: lines are taken to hold no NUL character. In the C code
  a NUL ends the string that `fgets` returned, so the rest of such a line
  is never seen; the model has no such cut.
- `Shell.Step` returns a pipeline line as its `commands` array. Running it
  is `Pipeline.AsWrittenRun`, which needs the shell's descriptor table as
  a separate input.
