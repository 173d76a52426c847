/**
 * The shell loop (`shell_loop`) for one input line, together with the
 * collaborators it calls in the parent: the bounded history (`add_history`)
 * and the builtin dispatch (`handle_builtin`), of which `export` changes the
 * environment the later lines expand against.
 *
 * A session is the environment and the history; one step takes a line as
 * `fgets` delivered it and says what the shell does with it: skip it, run a
 * pipeline, run a builtin, quit, or start one program in the foreground or
 * the background.
 */
module Shell {
  import opened Wrappers
  import opened Text
  import opened Expansion
  import opened Args
  import opened Pipeline

  /** Capacity of the history array. */
  const MaxHistory: nat := 1000

  // ------------------------------------------------------------------ history

  /** `add_history`: store a copy of the line while the array has room; afterwards drop it. */
  function AddHistory(history: seq<string>, line: string): (h: seq<string>)
    ensures history <= h && |h| <= |history| + 1
    ensures |history| <= MaxHistory ==> |h| <= MaxHistory
    ensures |h| == |history| + 1 <==> |history| < MaxHistory
    ensures |h| == |history| + 1 ==> h[|history|] == line
  {
    if |history| < MaxHistory then history + [line] else history
  }

  /** The history after recording `lines` one after another. */
  function RecordAll(history: seq<string>, lines: seq<string>): seq<string>
    decreases |lines|
  {
    if |lines| == 0 then history else RecordAll(AddHistory(history, lines[0]), lines[1..])
  }

  function Min(a: nat, b: nat): nat {
    if a <= b then a else b
  }

  /** The history holds the first 1000 lines ever recorded, in order; later ones are lost. */
  lemma {:induction false} HistoryKeepsFirstLines(history: seq<string>, lines: seq<string>)
    requires |history| <= MaxHistory
    ensures RecordAll(history, lines) == (history + lines)[..Min(|history| + |lines|, MaxHistory)]
    decreases |lines|
  {
    if |lines| == 0 {
      assert history + lines == history;
    } else {
      var h := AddHistory(history, lines[0]);
      HistoryKeepsFirstLines(h, lines[1..]);
      if |history| < MaxHistory {
        assert h + lines[1..] == history + lines;
      } else {
        assert (history + lines)[..MaxHistory] == history;
        assert (h + lines[1..])[..MaxHistory] == history;
      }
    }
  }

  // ----------------------------------------------------------------- builtins

  /**
   * The key and value `export` takes from its argument: `strtok(arg, "=")`
   * then `strtok(NULL, "=")`; both must be non-NULL for `setenv` to run.
   */
  function ExportPair(arg: string): (r: Option<(string, string)>)
    ensures var ts := Tokens(arg, '=');
      && (r.Some? <==> |ts| >= 2)
      && (r.Some? ==> r.value == (ts[0], ts[1]))
  {
    var ts := Tokens(arg, '=');
    assert ts[0..] == ts;
    StrtokStep(ts, arg, 0, '=');
    var first := StrtokNext(arg, '=');
    if first.token.None? then None
    else
      StrtokStep(ts, first.rest, 1, '=');
      var second := StrtokNext(first.rest, '=');
      if second.token.None? then None else Some((first.token.value, second.token.value))
  }

  /** `export K=V` with `K` and `V` free of `=` and not empty sets `K` to `V`. */
  lemma ExportKeyValue(key: string, value: string)
    requires |key| > 0 && '=' !in key
    requires |value| > 0 && '=' !in value
    ensures ExportPair(key + "=" + value) == Some((key, value))
  {
    var ts := [key, value];
    assert Join(ts[1..], '=') == value;
    assert Join(ts, '=') == key + "=" + value;
    TokensOfJoin(ts, '=');
  }

  /** The value stops at the next `=`: `export A=b=c` sets `A` to `b`. */
  lemma ExportValueStopsAtEquals()
    ensures ExportPair("A=b=c") == Some(("A", "b"))
  {
    var ts := ["A", "b", "c"];
    assert Join(ts[2..], '=') == "c";
    assert Join(ts[1..], '=') == "b=c";
    assert Join(ts, '=') == "A=b=c";
    TokensOfJoin(ts, '=');
  }

  /** What `handle_builtin` recognises. `Export(None)` is `export` whose argument gives no key/value. */
  datatype Builtin =
    | NoCommand
    | Exit
    | ChangeDirectory(target: Option<string>)
    | ShowHistory
    | Export(pair: Option<(string, string)>)

  /**
   * `handle_builtin`: an empty vector is handled as nothing to do; `exit`,
   * `cd`, `history` and `export` are recognised by exact name; any other
   * program is not a builtin (`None`: the function returns 0).
   */
  function Builtins(argv: seq<string>): (r: Option<Builtin>)
    ensures r.None? <==> |argv| > 0 && argv[0] != "exit" && argv[0] != "cd" && argv[0] != "history" && argv[0] != "export"
    ensures r == Some(NoCommand) <==> |argv| == 0
    ensures r == Some(Exit) <==> |argv| > 0 && argv[0] == "exit"
    ensures r == Some(ShowHistory) <==> |argv| > 0 && argv[0] == "history"
    ensures (r.Some? && r.value.ChangeDirectory?) <==> |argv| > 0 && argv[0] == "cd"
    ensures (r.Some? && r.value.Export?) <==> |argv| > 0 && argv[0] == "export"
    ensures r.Some? && r.value.Export? ==>
      r.value.pair == (if |argv| > 1 then ExportPair(argv[1]) else None)
    ensures r.Some? && r.value.ChangeDirectory? ==>
      r.value.target == (if |argv| > 1 then Some(argv[1]) else None)
  {
    if |argv| == 0 then Some(NoCommand)
    else if argv[0] == "exit" then Some(Exit)
    else if argv[0] == "cd" then Some(ChangeDirectory(if |argv| > 1 then Some(argv[1]) else None))
    else if argv[0] == "history" then Some(ShowHistory)
    else if argv[0] == "export" then Some(Export(if |argv| > 1 then ExportPair(argv[1]) else None))
    else None
  }

  lemma BuiltinsOfExport(arg: string)
    ensures Builtins(["export", arg]) == Some(Export(ExportPair(arg)))
  {
    var argv := ["export", arg];
    assert argv[0] == "export" && argv[1] == arg;
    assert "export" != "exit" && "export" != "cd" && "export" != "history";
  }

  /** The environment after a builtin: only `export` with a key and a value changes it (`setenv`, overwriting). */
  function EnvAfter(b: Builtin, env: map<string, string>): map<string, string> {
    match b
    case Export(Some(kv)) => env[kv.0 := kv.1]
    case _ => env
  }

  /**
   * What a builtin line does to the environment, from its words alone: only
   * `export` whose argument has at least two `=`-separated tokens changes
   * it, setting the first token to the second and leaving every other
   * variable as it was.
   */
  lemma BuiltinEnvironmentEffect(argv: seq<string>, env: map<string, string>)
    requires Builtins(argv).Some?
    ensures var e := EnvAfter(Builtins(argv).value, env);
      if |argv| > 1 && argv[0] == "export" && |Tokens(argv[1], '=')| >= 2 then
        var ts := Tokens(argv[1], '=');
        && e == env[ts[0] := ts[1]]
        && e.Keys == env.Keys + {ts[0]}
        && (forall k :: k in env && k != ts[0] ==> e[k] == env[k])
      else e == env
  {
  }

  // ------------------------------------------------------------- the loop step

  /** The shell's state across lines. */
  datatype Session = Session(env: map<string, string>, history: seq<string>)

  /** What the shell does with one line. */
  datatype Outcome =
    | Skip
    | RunPipeline(commands: Slots)
    | RunBuiltin(builtin: Builtin)
    | Quit
    | RunProgram(slots: Slots, background: bool)

  /** The parent waits for the program's pid exactly when it is not a background job. */
  predicate Waits(o: Outcome) {
    o.RunProgram? && !o.background
  }

  /** The line after `trim_newline` and `expand_variables`. */
  function Expanded(s: Session, raw: string): string {
    Expand(TrimNewline(raw), s.env)
  }

  /**
   * The fixed buffers of the loop suffice for this line: the expansion fits
   * its buffers, a pipeline has at most 9 stages, and a plain command has
   * fewer than 128 arguments, so its argument array is terminated.
   */
  predicate LineFits(s: Session, raw: string) {
    var line := TrimNewline(raw);
    && FitsBuffers(line, s.env)
    && ('|' in Expanded(s, raw) ==> |Segments(Expanded(s, raw))| < MaxCommands)
    && ('|' !in Expanded(s, raw) ==> |Tokens(Expanded(s, raw), ' ')| < MaxArgs)
  }

  /** The words a command sees: the line's tokens, less a final `&`. */
  function CommandWords(argv: seq<string>): (w: seq<string>)
    ensures w == argv || (|argv| > 0 && argv[|argv| - 1] == "&" && w == argv[..|argv| - 1])
  {
    if |argv| > 0 && argv[|argv| - 1] == "&" then argv[..|argv| - 1] else argv
  }

  /** The job the shell loop builds from a line: the background flag and the words it keeps. */
  lemma JobOfLine(line: string)
    requires |Tokens(line, ' ')| < MaxArgs
    ensures Terminated(ArgSlots(line))
    ensures var argv := Tokens(line, ' '); var job := MarkBackground(ArgSlots(line));
      && (job.background <==> |argv| > 0 && argv[|argv| - 1] == "&")
      && Argv(job.slots) == CommandWords(argv)
  {
    ArgvOfLine(line);
  }

  /**
   * A line without `|` after expansion: parse it, strip a final `&`, then
   * quit, run a builtin in the shell, or start the program. The program is a
   * background job exactly when its last argument is `&`; it then sees the
   * other arguments and the shell does not wait, and otherwise it sees every
   * argument and the shell waits for that pid. Builtins ignore a final `&`.
   */
  function PlainCommand(expanded: string): (o: Outcome)
    requires '|' !in expanded && |Tokens(expanded, ' ')| < MaxArgs
    ensures o != Skip && !o.RunPipeline?
    ensures var words := CommandWords(Tokens(expanded, ' '));
      && (o == Quit <==> Builtins(words) == Some(Exit))
      && (o.RunBuiltin? <==> Builtins(words).Some? && Builtins(words) != Some(Exit))
      && (o.RunBuiltin? ==> Builtins(words) == Some(o.builtin))
    ensures var argv := Tokens(expanded, ' ');
      o.RunProgram? ==>
        && |argv| > 0
        && (o.background <==> argv[|argv| - 1] == "&")
        && (o.background ==> Argv(o.slots) == argv[..|argv| - 1] && !Waits(o))
        && (!o.background ==> Argv(o.slots) == argv && Waits(o))
  {
    JobOfLine(expanded);
    var job := MarkBackground(ArgSlots(expanded));
    match Builtins(Argv(job.slots))
    case Some(Exit) => Quit
    case Some(b) => RunBuiltin(b)
    case None => RunProgram(job.slots, job.background)
  }

  /**
   * One pass of `shell_loop`: trim the line; skip it if empty; record it in
   * the history before expansion; expand it; if it holds `|`, run it as a
   * pipeline; otherwise run it as a plain command.
   */
  function Step(s: Session, raw: string): (r: (Session, Outcome))
    requires LineFits(s, raw)
    ensures var line := TrimNewline(raw);
      && (r.1 == Skip <==> line == [])
      && (line == [] ==> r.0 == s)
      && (line != [] ==> r.0.history == AddHistory(s.history, line))
      && (r.1.RunPipeline? <==> line != [] && '|' in Expanded(s, raw))
      && (r.1.RunPipeline? ==> Argv(r.1.commands) == Segments(Expanded(s, raw)))
      && (line != [] && '|' !in Expanded(s, raw) ==> r.1 == PlainCommand(Expanded(s, raw)))
      && (!r.1.RunBuiltin? ==> r.0.env == s.env)
      && (r.1.RunBuiltin? ==> r.0.env == EnvAfter(r.1.builtin, s.env))
  {
    var line := TrimNewline(raw);
    if line == [] then (s, Skip)
    else
      var history := AddHistory(s.history, line);
      var expanded := Expand(line, s.env);
      if '|' in expanded then
        SplitYieldsSegments(expanded);
        (Session(s.env, history), RunPipeline(Commands(expanded)))
      else
        var o := PlainCommand(expanded);
        (Session(if o.RunBuiltin? then EnvAfter(o.builtin, s.env) else s.env, history), o)
  }

  /**
   * A non-empty word the loop passes through untouched and `strtok` on `=`
   * does not split: no newline, `$`, `|`, space or `=`. Paths such as
   * `/usr/bin` are plain words.
   */
  predicate PlainWord(x: string) {
    |x| > 0 && '\n' !in x && '$' !in x && '|' !in x && ' ' !in x && '=' !in x
  }

  /** A non-empty word of name characters is plain. */
  lemma NameWordIsPlain(x: string)
    requires |x| > 0 && forall c :: c in x ==> IsNameChar(c)
    ensures PlainWord(x)
  {
  }

  /** The line `export K=V` is unchanged by trimming and expansion and parses into two words. */
  lemma ExportLineParses(s: Session, key: string, value: string)
    requires PlainWord(key) && PlainWord(value)
    ensures var raw := "export " + key + "=" + value;
      && TrimNewline(raw) == raw
      && Expanded(s, raw) == raw
      && '|' !in raw
      && Tokens(raw, ' ') == ["export", key + "=" + value]
  {
    var raw := "export " + key + "=" + value;
    var word := key + "=" + value;
    assert ' ' !in word;
    assert raw == "export" + [' '] + word;
    assert '\n' !in raw && '$' !in raw && '|' !in raw;
    assert TrimNewline(raw) == raw;
    ExpandWithoutDollar(raw, s.env);
    var ts := ["export", word];
    assert Join(ts[1..], ' ') == word;
    assert Join(ts, ' ') == raw;
    TokensOfJoin(ts, ' ');
  }

  /** The line `export K=V` is run as the builtin setting `K` to `V`. */
  lemma ExportLineStep(s: Session, key: string, value: string)
    requires PlainWord(key) && PlainWord(value)
    requires LineFits(s, "export " + key + "=" + value)
    ensures Step(s, "export " + key + "=" + value).1 == RunBuiltin(Export(Some((key, value))))
  {
    var raw := "export " + key + "=" + value;
    var word := key + "=" + value;
    ExportLineParses(s, key, value);
    assert |word| > 1;
    assert CommandWords(Tokens(raw, ' ')) == ["export", word];
    ExportKeyValue(key, value);
    BuiltinsOfExport(word);
    assert Step(s, raw).1 == PlainCommand(raw);
  }

  /** After `export K=V` the session's environment is the old one with `K` set to `V`. */
  lemma ExportLineSetsEnv(s: Session, key: string, value: string)
    requires PlainWord(key) && PlainWord(value)
    requires LineFits(s, "export " + key + "=" + value)
    ensures Step(s, "export " + key + "=" + value).0.env == s.env[key := value]
  {
    ExportLineStep(s, key, value);
  }

  /**
   * `export K=V` typed as a line sets `K` to `V` in the session and nothing
   * else, so a later `$K` expands to `V`.
   */
  lemma ExportIsSeenByLaterLines(s: Session, key: string, value: string, rest: string)
    requires |key| > 0 && forall c :: c in key ==> IsNameChar(c)
    requires PlainWord(value)
    requires rest == [] || !IsNameChar(rest[0])
    requires LineFits(s, "export " + key + "=" + value)
    ensures var s' := Step(s, "export " + key + "=" + value).0;
      && s'.env == s.env[key := value]
      && Expand(['$'] + key + rest, s'.env) == value + Expand(rest, s'.env)
  {
    NameWordIsPlain(key);
    ExportLineSetsEnv(s, key, value);
    ReferenceAfterSet(s.env, key, value, rest);
  }

  /** Once `K` is set to `V`, a reference `$K` followed by a non-name character expands to `V`. */
  lemma ReferenceAfterSet(env: map<string, string>, key: string, value: string, rest: string)
    requires |key| > 0 && forall c :: c in key ==> IsNameChar(c)
    requires rest == [] || !IsNameChar(rest[0])
    ensures Expand(['$'] + key + rest, env[key := value]) == value + Expand(rest, env[key := value])
  {
    assert IsName(key) by {
      forall k | 0 <= k < |key| ensures IsNameChar(key[k]) {
        assert key[k] in key;
      }
    }
    ExpandReference(key, rest, env[key := value]);
    assert Lookup(env[key := value], key) == value;
  }
}
