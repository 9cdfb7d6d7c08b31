/** pngmeta/main.c, first half: the option loop of `main` and its
    post-parse checks. */
module PngmetaMain {
  import opened Wrappers
  import opened LibC
  import opened PngmetaUtil

  // ------------------------------------------------------------ OPTIONS

  /** One command-line item as the option macros hand it over: a long
      option (`--name`), a short option (`-c`) or a positional argument.
      `arg` is what `GETS()` would return if the handler asks for the
      option's argument; handlers that take none ignore it. */
  datatype Token =
    | LongOpt(name: string, arg: string)
    | ShortOpt(letter: char, arg: string)
    | NonOpt(value: string)

  /** The fatal exits of the option loop and of the post-parse checks. */
  datatype OptError =
    | KeyNotFollowedByText      // "--key is not followed immediately by --text"
    | TextNotPrecededByKey      // "--text is not preceeded by --key"
    | Unrecognized(name: string)
    | BadNumber(arg: string)    // `strtol_or_die` rejected a `--chunk` value
    | HelpRequested             // `usage()` exits with a failure status
    | IncompletePair            // odd `kv.size`
    | NoModeOrFile              // `briefusage(false)`
    | NoKeyOrText               // add mode with no pair

  /** What the option loop collects: the mode, the `kv`, `chunks` and
      `infiles` arrays, the output directory and the two flags. */
  datatype Options = Options(op: Op, kv: seq<string>, chunks: seq<int32>, infiles: seq<string>,
                             outdir: Option<string>, exclusive: bool, human: bool)

  /** The loop state: the two registers that remember the last long and the
      last short option, and what has been collected. */
  datatype Scan = Scan(lastopt: string, lastsopt: char, opts: Options)

  const InitialScan: Scan :=
    Scan("", '\0', Options(OpNone, [], [], [], None, false, false))

  /** Either register says the previous option was the key option. */
  predicate KeyPending(s: Scan) {
    s.lastopt == "key" || s.lastsopt == 'k'
  }

  /** The `--chunk` handler: `strtol_or_die` of the argument, where
      `strtol` stands for the C library's parse of it. */
  function ChunkValue(arg: string, strtol: string -> Strtol): Result<int32, OptError> {
    match StrtolOrDie(arg, strtol(arg))
    case Ok(n) => Ok(n)
    case Err(_) => Err(BadNumber(arg))
  }

  /** The LONGOPT handler. The key check comes first; the if-chain then
      either exits or updates the state, and `lastopt` takes the option's
      name afterwards. */
  function LongStep(s: Scan, name: string, arg: string, strtol: string -> Strtol): Result<Scan, OptError> {
    var o := s.opts;
    if KeyPending(s) && name != "text" then Err(KeyNotFollowedByText)
    else
      var next: Result<Options, OptError> :=
        if name == "add" then Ok(o.(op := OpAddText))
        else if name == "dump" then Ok(o.(op := OpDumpText))
        else if name == "remove" then Ok(o.(op := OpRemoveText))
        else if name == "help" then Err(HelpRequested)
        else if name == "key" then Ok(o.(kv := o.kv + [arg]))
        else if name == "text" then
          (if !KeyPending(s) then Err(TextNotPrecededByKey) else Ok(o.(kv := o.kv + [arg])))
        else if name == "dir" then Ok(o.(outdir := Some(arg)))
        else if name == "exclusive" then Ok(o.(exclusive := true))
        else if name == "human" then Ok(o.(human := true))
        else if name == "chunk" then
          (match ChunkValue(arg, strtol)
           case Ok(n) => Ok(o.(chunks := o.chunks + [n]))
           case Err(e) => Err(e))
        else Err(Unrecognized(name));
      match next
      case Ok(o') => Ok(Scan(name, s.lastsopt, o'))
      case Err(e) => Err(e)
  }

  /** The SHORTOPT handler. The `switch` has no `default`, so an unknown
      letter changes nothing but `lastsopt`. */
  function ShortStep(s: Scan, c: char, arg: string, strtol: string -> Strtol): Result<Scan, OptError> {
    var o := s.opts;
    if KeyPending(s) && c != 't' then Err(KeyNotFollowedByText)
    else
      var next: Result<Options, OptError> :=
        match c
        case 'A' => Ok(o.(op := OpAddText))
        case 'D' => Ok(o.(op := OpDumpText))
        case 'R' => Ok(o.(op := OpRemoveText))
        case 'h' => Err(HelpRequested)
        case 'k' => Ok(o.(kv := o.kv + [arg]))
        case 't' => if !KeyPending(s) then Err(TextNotPrecededByKey) else Ok(o.(kv := o.kv + [arg]))
        case 'd' => Ok(o.(outdir := Some(arg)))
        case 'e' => Ok(o.(exclusive := true))
        case 'c' =>
          (match ChunkValue(arg, strtol)
           case Ok(n) => Ok(o.(chunks := o.chunks + [n]))
           case Err(e) => Err(e))
        case _ => Ok(o);
      match next
      case Ok(o') => Ok(Scan(s.lastopt, c, o'))
      case Err(e) => Err(e)
  }

  function Step(s: Scan, t: Token, strtol: string -> Strtol): Result<Scan, OptError> {
    match t
    case LongOpt(name, arg) => LongStep(s, name, arg, strtol)
    case ShortOpt(c, arg) => ShortStep(s, c, arg, strtol)
    case NonOpt(v) => Ok(s.(opts := s.opts.(infiles := s.opts.infiles + [v])))
  }

  /** The option loop over the first `n` tokens; the first fatal exit ends it. */
  function ScanPrefix(tokens: seq<Token>, n: nat, strtol: string -> Strtol): Result<Scan, OptError>
    requires n <= |tokens|
  {
    if n == 0 then Ok(InitialScan)
    else
      match ScanPrefix(tokens, n - 1, strtol)
      case Err(e) => Err(e)
      case Ok(s) => Step(s, tokens[n - 1], strtol)
  }

  /** The checks after ENDOPT, in the program's order. */
  function Finish(o: Options): Result<Options, OptError> {
    if |o.kv| % 2 != 0 then Err(IncompletePair)
    else if o.op == OpNone || |o.infiles| == 0 then Err(NoModeOrFile)
    else if o.op == OpAddText && |o.kv| == 0 then Err(NoKeyOrText)
    else Ok(o)
  }

  /** Everything `main` does before the batch loop. */
  function Parse(tokens: seq<Token>, strtol: string -> Strtol): Result<Options, OptError> {
    match ScanPrefix(tokens, |tokens|, strtol)
    case Err(e) => Err(e)
    case Ok(s) => Finish(s.opts)
  }

  /** A fatal exit is final: no later token is looked at. */
  lemma {:induction false} ScanErrSticky(tokens: seq<Token>, i: nat, n: nat, strtol: string -> Strtol)
    requires i <= n <= |tokens| && ScanPrefix(tokens, i, strtol).Err?
    ensures ScanPrefix(tokens, n, strtol) == ScanPrefix(tokens, i, strtol)
  {
    if n > i {
      ScanErrSticky(tokens, i, n - 1, strtol);
    }
  }

  // ------------------------------------------- OPTION-LOOP PROPERTIES

  predicate IsKeyOpt(t: Token) {
    (t.LongOpt? && t.name == "key") || (t.ShortOpt? && t.letter == 'k')
  }

  predicate IsTextOpt(t: Token) {
    (t.LongOpt? && t.name == "text") || (t.ShortOpt? && t.letter == 't')
  }

  /** The mode a token selects, if it is a mode option. */
  function ModeOf(t: Token): Option<Op> {
    match t
    case LongOpt(name, _) =>
      if name == "add" then Some(OpAddText)
      else if name == "dump" then Some(OpDumpText)
      else if name == "remove" then Some(OpRemoveText)
      else None
    case ShortOpt(c, _) =>
      if c == 'A' then Some(OpAddText)
      else if c == 'D' then Some(OpDumpText)
      else if c == 'R' then Some(OpRemoveText)
      else None
    case NonOpt(_) => None
  }

  /** The mode of the last mode option, `OpNone` if there is none. */
  function LastMode(ts: seq<Token>): Op {
    if |ts| == 0 then OpNone
    else
      match ModeOf(ts[|ts| - 1])
      case Some(m) => m
      case None => LastMode(ts[..|ts| - 1])
  }

  /** The arguments of the key and text options, in order. */
  function KvArgs(ts: seq<Token>): seq<string> {
    if |ts| == 0 then []
    else
      var t := ts[|ts| - 1];
      KvArgs(ts[..|ts| - 1]) + (if IsKeyOpt(t) || IsTextOpt(t) then [t.arg] else [])
  }

  /** The positional arguments, in order. */
  function Positionals(ts: seq<Token>): seq<string> {
    if |ts| == 0 then []
    else
      var t := ts[|ts| - 1];
      Positionals(ts[..|ts| - 1]) + (if t.NonOpt? then [t.value] else [])
  }

  predicate IsChunkOpt(t: Token) {
    (t.LongOpt? && t.name == "chunk") || (t.ShortOpt? && t.letter == 'c')
  }

  predicate IsDirOpt(t: Token) {
    (t.LongOpt? && t.name == "dir") || (t.ShortOpt? && t.letter == 'd')
  }

  predicate IsExclusiveOpt(t: Token) {
    (t.LongOpt? && t.name == "exclusive") || (t.ShortOpt? && t.letter == 'e')
  }

  predicate IsHumanOpt(t: Token) {
    t.LongOpt? && t.name == "human"
  }

  /** The value one token adds to `chunks`: the parsed argument of a chunk
      option that `strtol_or_die` accepts. */
  function ChunkArg(t: Token, strtol: string -> Strtol): seq<int32> {
    if IsChunkOpt(t) && ChunkValue(t.arg, strtol).Ok? then [ChunkValue(t.arg, strtol).value] else []
  }

  /** The values of the chunk options, in order. */
  function ChunkArgs(ts: seq<Token>, strtol: string -> Strtol): seq<int32> {
    if |ts| == 0 then [] else ChunkArgs(ts[..|ts| - 1], strtol) + ChunkArg(ts[|ts| - 1], strtol)
  }

  /** The argument of the last directory option, `None` if there is none. */
  function LastDir(ts: seq<Token>): Option<string> {
    if |ts| == 0 then None
    else if IsDirOpt(ts[|ts| - 1]) then Some(ts[|ts| - 1].arg)
    else LastDir(ts[..|ts| - 1])
  }

  /** Some token is an exclusive option. */
  function AnyExclusive(ts: seq<Token>): bool {
    |ts| > 0 && (IsExclusiveOpt(ts[|ts| - 1]) || AnyExclusive(ts[..|ts| - 1]))
  }

  /** Some token is the human option. */
  function AnyHuman(ts: seq<Token>): bool {
    |ts| > 0 && (IsHumanOpt(ts[|ts| - 1]) || AnyHuman(ts[..|ts| - 1]))
  }

  /** The name of the last long option, "" if there is none. */
  function LastLong(ts: seq<Token>): string {
    if |ts| == 0 then ""
    else if ts[|ts| - 1].LongOpt? then ts[|ts| - 1].name
    else LastLong(ts[..|ts| - 1])
  }

  /** The letter of the last short option, NUL if there is none. */
  function LastShort(ts: seq<Token>): char {
    if |ts| == 0 then '\0'
    else if ts[|ts| - 1].ShortOpt? then ts[|ts| - 1].letter
    else LastShort(ts[..|ts| - 1])
  }

  /** What one accepted token does to the mode, `kv` and `infiles`. */
  lemma StepCollects(s: Scan, t: Token, strtol: string -> Strtol)
    requires Step(s, t, strtol).Ok?
    ensures Step(s, t, strtol).value.opts.op == (if ModeOf(t).Some? then ModeOf(t).value else s.opts.op)
    ensures Step(s, t, strtol).value.opts.kv
            == s.opts.kv + (if IsKeyOpt(t) || IsTextOpt(t) then [t.arg] else [])
    ensures Step(s, t, strtol).value.opts.infiles
            == s.opts.infiles + (if t.NonOpt? then [t.value] else [])
  {
    match t {
    case LongOpt(name, arg) =>
      assert ModeOf(t).Some? <==> name == "add" || name == "dump" || name == "remove";
    case ShortOpt(c, arg) =>
      assert ModeOf(t).Some? <==> c == 'A' || c == 'D' || c == 'R';
    case NonOpt(v) =>
    }
  }

  /** What one accepted token does to `chunks`, the output directory and
      the two flags. */
  lemma StepSettings(s: Scan, t: Token, strtol: string -> Strtol)
    requires Step(s, t, strtol).Ok?
    ensures IsChunkOpt(t) ==> ChunkValue(t.arg, strtol).Ok?
    ensures Step(s, t, strtol).value.opts.chunks == s.opts.chunks + ChunkArg(t, strtol)
    ensures Step(s, t, strtol).value.opts.outdir == (if IsDirOpt(t) then Some(t.arg) else s.opts.outdir)
    ensures Step(s, t, strtol).value.opts.exclusive == (IsExclusiveOpt(t) || s.opts.exclusive)
    ensures Step(s, t, strtol).value.opts.human == (IsHumanOpt(t) || s.opts.human)
  {
    match t {
    case LongOpt(name, arg) =>
      assert Step(s, t, strtol) == LongStep(s, name, arg, strtol);
    case ShortOpt(c, arg) =>
      assert Step(s, t, strtol) == ShortStep(s, c, arg, strtol);
    case NonOpt(v) =>
    }
  }

  /** One accepted token sets `lastopt` if it is a long option and
      `lastsopt` if it is a short one, and leaves the other register. */
  lemma StepRegisters(s: Scan, t: Token, strtol: string -> Strtol)
    requires Step(s, t, strtol).Ok?
    ensures Step(s, t, strtol).value.lastopt == (if t.LongOpt? then t.name else s.lastopt)
    ensures Step(s, t, strtol).value.lastsopt == (if t.ShortOpt? then t.letter else s.lastsopt)
  {
  }

  /** A scan that has not failed holds the last mode selected, the key and
      text arguments in the order given, and the positional arguments. */
  lemma {:induction false} ScanCollects(tokens: seq<Token>, n: nat, strtol: string -> Strtol)
    requires n <= |tokens| && ScanPrefix(tokens, n, strtol).Ok?
    ensures ScanPrefix(tokens, n, strtol).value.opts.op == LastMode(tokens[..n])
    ensures ScanPrefix(tokens, n, strtol).value.opts.kv == KvArgs(tokens[..n])
    ensures ScanPrefix(tokens, n, strtol).value.opts.infiles == Positionals(tokens[..n])
    ensures ScanPrefix(tokens, n, strtol).value.opts.chunks == ChunkArgs(tokens[..n], strtol)
    ensures ScanPrefix(tokens, n, strtol).value.opts.outdir == LastDir(tokens[..n])
    ensures ScanPrefix(tokens, n, strtol).value.opts.exclusive == AnyExclusive(tokens[..n])
    ensures ScanPrefix(tokens, n, strtol).value.opts.human == AnyHuman(tokens[..n])
    ensures ScanPrefix(tokens, n, strtol).value.lastopt == LastLong(tokens[..n])
    ensures ScanPrefix(tokens, n, strtol).value.lastsopt == LastShort(tokens[..n])
  {
    if n > 0 {
      ScanCollects(tokens, n - 1, strtol);
      assert tokens[..n][..n - 1] == tokens[..n - 1];
      StepCollects(ScanPrefix(tokens, n - 1, strtol).value, tokens[n - 1], strtol);
      StepSettings(ScanPrefix(tokens, n - 1, strtol).value, tokens[n - 1], strtol);
      StepRegisters(ScanPrefix(tokens, n - 1, strtol).value, tokens[n - 1], strtol);
    }
  }

  /** A successful parse selects a mode (so `process` never sees
      `PNGMETA_OP_NONE`), names at least one file, and has collected the key
      and text arguments as whole pairs, at least one in add mode; the chunk
      indices are those given, in order, and the last directory wins. */
  lemma ParseOutcome(tokens: seq<Token>, strtol: string -> Strtol)
    requires Parse(tokens, strtol).Ok?
    ensures Parse(tokens, strtol).value.op == LastMode(tokens) != OpNone
    ensures Parse(tokens, strtol).value.kv == KvArgs(tokens) && |KvArgs(tokens)| % 2 == 0
    ensures Parse(tokens, strtol).value.op == OpAddText ==> |KvArgs(tokens)| > 0
    ensures Parse(tokens, strtol).value.infiles == Positionals(tokens) != []
    ensures Parse(tokens, strtol).value.chunks == ChunkArgs(tokens, strtol)
    ensures Parse(tokens, strtol).value.outdir == LastDir(tokens)
    ensures Parse(tokens, strtol).value.exclusive == AnyExclusive(tokens)
    ensures Parse(tokens, strtol).value.human == AnyHuman(tokens)
  {
    ScanCollects(tokens, |tokens|, strtol);
    assert tokens[..|tokens|] == tokens;
  }

  /** After a key option the only option accepted next is a text option:
      any other option is fatal. */
  lemma KeyNotFollowedByTextFails(tokens: seq<Token>, i: nat, strtol: string -> Strtol)
    requires i + 1 < |tokens| && IsKeyOpt(tokens[i])
    requires !tokens[i + 1].NonOpt? && !IsTextOpt(tokens[i + 1])
    ensures ScanPrefix(tokens, i + 1, strtol).Ok? ==> ScanPrefix(tokens, i + 2, strtol) == Err(KeyNotFollowedByText)
    ensures Parse(tokens, strtol).Err?
  {
    if ScanPrefix(tokens, i + 1, strtol).Ok? {
      assert KeyPending(ScanPrefix(tokens, i + 1, strtol).value);
      ScanErrSticky(tokens, i + 2, |tokens|, strtol);
    } else {
      ScanErrSticky(tokens, i + 1, |tokens|, strtol);
    }
  }

  /** A text option is accepted exactly when the last long option before
      it was the key option or the last short option before it was `-k`;
      the two are remembered separately, so neither form clears the other. */
  lemma TextNeedsKeyRegister(tokens: seq<Token>, i: nat, strtol: string -> Strtol)
    requires i < |tokens| && IsTextOpt(tokens[i]) && ScanPrefix(tokens, i, strtol).Ok?
    ensures ScanPrefix(tokens, i + 1, strtol).Ok?
            <==> LastLong(tokens[..i]) == "key" || LastShort(tokens[..i]) == 'k'
    ensures !(LastLong(tokens[..i]) == "key" || LastShort(tokens[..i]) == 'k') ==>
              ScanPrefix(tokens, i + 1, strtol) == Err(TextNotPrecededByKey)
  {
    ScanCollects(tokens, i, strtol);
  }

  /** `r` is a scan that has not failed, with these registers, mode, `kv`
      and `infiles`. */
  predicate ScannedTo(r: Result<Scan, OptError>, lastopt: string, lastsopt: char, op: Op,
                      kv: seq<string>, infiles: seq<string>) {
    r.Ok? && r.value.lastopt == lastopt && r.value.lastsopt == lastsopt
    && r.value.opts.op == op && r.value.opts.kv == kv && r.value.opts.infiles == infiles
  }

  /** The registers are updated separately: a long option never clears
      `lastsopt`, so a pair given as `-k` then `--text` leaves the key
      pending and the mode option after it is fatal. */
  lemma MixedPairThenModeFails(strtol: string -> Strtol)
    ensures Parse([ShortOpt('k', "a"), LongOpt("text", "b"), ShortOpt('A', ""), NonOpt("f")], strtol)
            == Err(KeyNotFollowedByText)
  {
    var ts := [ShortOpt('k', "a"), LongOpt("text", "b"), ShortOpt('A', ""), NonOpt("f")];
    assert ScannedTo(ScanPrefix(ts, 1, strtol), "", 'k', OpNone, ["a"], []);
    assert ScannedTo(ScanPrefix(ts, 2, strtol), "text", 'k', OpNone, ["a", "b"], []);
    assert ScanPrefix(ts, 3, strtol) == Err(KeyNotFollowedByText);
    ScanErrSticky(ts, 3, 4, strtol);
  }

  /** The same pair given with long options only is accepted. */
  lemma LongPairThenModeAccepted(strtol: string -> Strtol)
    ensures var r := Parse([LongOpt("key", "a"), LongOpt("text", "b"), ShortOpt('A', ""), NonOpt("f")], strtol);
            r.Ok? && r.value.op == OpAddText && r.value.kv == ["a", "b"] && r.value.infiles == ["f"]
  {
    var ts := [LongOpt("key", "a"), LongOpt("text", "b"), ShortOpt('A', ""), NonOpt("f")];
    assert ScannedTo(ScanPrefix(ts, 1, strtol), "key", '\0', OpNone, ["a"], []);
    assert ScannedTo(ScanPrefix(ts, 2, strtol), "text", '\0', OpNone, ["a", "b"], []);
    assert ScannedTo(ScanPrefix(ts, 3, strtol), "text", 'A', OpAddText, ["a", "b"], []);
    assert ScannedTo(ScanPrefix(ts, 4, strtol), "text", 'A', OpAddText, ["a", "b"], ["f"]);
  }

  /** With `lastsopt` stuck at 'k', a second `--text` passes the text
      check; a later option is then fatal, and without one only the parity
      check after the loop rejects the odd `kv`. */
  lemma SecondTextPassesLoop(strtol: string -> Strtol)
    ensures Parse([ShortOpt('k', "a"), LongOpt("text", "b"), LongOpt("text", "c"), LongOpt("add", ""),
                   NonOpt("f")], strtol) == Err(KeyNotFollowedByText)
    ensures Parse([ShortOpt('k', "a"), LongOpt("text", "b"), LongOpt("text", "c"), NonOpt("f")], strtol)
            == Err(IncompletePair)
  {
    var us := [ShortOpt('k', "a"), LongOpt("text", "b"), LongOpt("text", "c"), LongOpt("add", ""), NonOpt("f")];
    assert ScannedTo(ScanPrefix(us, 1, strtol), "", 'k', OpNone, ["a"], []);
    assert ScannedTo(ScanPrefix(us, 2, strtol), "text", 'k', OpNone, ["a", "b"], []);
    assert ScannedTo(ScanPrefix(us, 3, strtol), "text", 'k', OpNone, ["a", "b", "c"], []);
    assert ScanPrefix(us, 4, strtol) == Err(KeyNotFollowedByText);
    ScanErrSticky(us, 4, 5, strtol);
    var vs := [ShortOpt('k', "a"), LongOpt("text", "b"), LongOpt("text", "c"), NonOpt("f")];
    assert ScannedTo(ScanPrefix(vs, 1, strtol), "", 'k', OpNone, ["a"], []);
    assert ScannedTo(ScanPrefix(vs, 2, strtol), "text", 'k', OpNone, ["a", "b"], []);
    assert ScannedTo(ScanPrefix(vs, 3, strtol), "text", 'k', OpNone, ["a", "b", "c"], []);
    assert ScannedTo(ScanPrefix(vs, 4, strtol), "text", 'k', OpNone, ["a", "b", "c"], ["f"]);
  }

  /** The parity check is reachable: a key option as the last option. */
  lemma TrailingKeyIsIncompletePair(strtol: string -> Strtol)
    ensures Parse([NonOpt("f"), LongOpt("add", ""), LongOpt("key", "a")], strtol) == Err(IncompletePair)
  {
    var ts := [NonOpt("f"), LongOpt("add", ""), LongOpt("key", "a")];
    assert ScannedTo(ScanPrefix(ts, 1, strtol), "", '\0', OpNone, [], ["f"]);
    assert ScannedTo(ScanPrefix(ts, 2, strtol), "add", '\0', OpAddText, [], ["f"]);
    assert ScannedTo(ScanPrefix(ts, 3, strtol), "key", '\0', OpAddText, ["a"], ["f"]);
  }

  /** The state the loop variables and arrays stand for. */
  ghost function Current(lastopt: string, lastsopt: char, op: Op, kv: DynArray<string>,
                         chunks: DynArray<int32>, infiles: seq<string>, outdir: Option<string>,
                         exclusive: bool, human: bool): Scan
    reads kv, kv.ptr, chunks, chunks.ptr
    requires kv.Valid() && chunks.Valid()
  {
    Scan(lastopt, lastsopt, Options(op, kv.Contents(), chunks.Contents(), infiles, outdir, exclusive, human))
  }

  /** The body of LONGOPT up to `lastopt = option`: the key check, then the
      if-chain over the option's name. */
  method LongOption(option: string, arg: string, strtol: string -> Strtol, lastopt: string, lastsopt: char,
                    op: Op, outdir: Option<string>, exclusive: bool, human: bool,
                    kv: DynArray<string>, chunks: DynArray<int32>, ghost infiles: seq<string>)
    returns (fatal: Option<OptError>, op': Op, outdir': Option<string>, exclusive': bool, human': bool)
    requires kv.Valid() && chunks.Valid()
    modifies kv, kv.ptr, chunks, chunks.ptr
    ensures kv.Valid() && chunks.Valid()
    ensures (kv.ptr == old(kv.ptr) || fresh(kv.ptr)) && (chunks.ptr == old(chunks.ptr) || fresh(chunks.ptr))
    ensures var before := old(Current(lastopt, lastsopt, op, kv, chunks, infiles, outdir, exclusive, human));
            LongStep(before, option, arg, strtol)
            == if fatal.Some? then Err(fatal.value)
               else Ok(Current(option, lastsopt, op', kv, chunks, infiles, outdir', exclusive', human'))
  {
    fatal, op', outdir', exclusive', human' := None, op, outdir, exclusive, human;
    if (lastopt == "key" || lastsopt == 'k') && option != "text" {
      fatal := Some(KeyNotFollowedByText);
      return;
    }
    if option == "add" {
      op' := OpAddText;
    } else if option == "dump" {
      op' := OpDumpText;
    } else if option == "remove" {
      op' := OpRemoveText;
    } else if option == "help" {
      fatal := Some(HelpRequested);
    } else {
      fatal, outdir', exclusive', human' :=
        LongSetting(option, arg, strtol, lastopt, lastsopt, op, outdir, exclusive, human, kv, chunks, infiles);
    }
  }

  /** The rest of the LONGOPT if-chain, after the mode options and `help`. */
  method LongSetting(option: string, arg: string, strtol: string -> Strtol, lastopt: string, lastsopt: char,
                     op: Op, outdir: Option<string>, exclusive: bool, human: bool,
                     kv: DynArray<string>, chunks: DynArray<int32>, ghost infiles: seq<string>)
    returns (fatal: Option<OptError>, outdir': Option<string>, exclusive': bool, human': bool)
    requires kv.Valid() && chunks.Valid()
    requires (lastopt == "key" || lastsopt == 'k') ==> option == "text"
    requires option != "add" && option != "dump" && option != "remove" && option != "help"
    modifies kv, kv.ptr, chunks, chunks.ptr
    ensures kv.Valid() && chunks.Valid()
    ensures (kv.ptr == old(kv.ptr) || fresh(kv.ptr)) && (chunks.ptr == old(chunks.ptr) || fresh(chunks.ptr))
    ensures var before := old(Current(lastopt, lastsopt, op, kv, chunks, infiles, outdir, exclusive, human));
            LongStep(before, option, arg, strtol)
            == if fatal.Some? then Err(fatal.value)
               else Ok(Current(option, lastsopt, op, kv, chunks, infiles, outdir', exclusive', human'))
  {
    fatal, outdir', exclusive', human' := None, outdir, exclusive, human;
    if option == "key" || option == "text" {
      fatal := PairOption(option, arg, lastopt, lastsopt, kv);
    } else if option == "dir" {
      outdir' := Some(arg);
    } else if option == "exclusive" {
      exclusive' := true;
    } else if option == "human" {
      human' := true;
    } else if option == "chunk" {
      fatal := ChunkOption(arg, strtol, chunks);
    } else {
      fatal := Some(Unrecognized(option));
    }
  }

  /** The key and text branches (`--key`/`-k`, `--text`/`-t`): the text
      check, then `dynstr_add` of the argument to `kv`. */
  method PairOption(option: string, arg: string, lastopt: string, lastsopt: char, kv: DynArray<string>)
    returns (fatal: Option<OptError>)
    requires option == "key" || option == "text"
    requires kv.Valid()
    modifies kv, kv.ptr
    ensures kv.Valid() && (kv.ptr == old(kv.ptr) || fresh(kv.ptr))
    ensures option == "text" && lastopt != "key" && lastsopt != 'k' ==>
              fatal == Some(TextNotPrecededByKey) && kv.Contents() == old(kv.Contents())
    ensures option == "key" || lastopt == "key" || lastsopt == 'k' ==>
              fatal.None? && kv.Contents() == old(kv.Contents()) + [arg]
  {
    fatal := None;
    if option == "text" && lastopt != "key" && lastsopt != 'k' {
      fatal := Some(TextNotPrecededByKey);
      return;
    }
    kv.Add(arg);
  }

  /** The `--chunk` / `-c` branch: `dynint_add` of `strtol_or_die` of the
      argument. */
  method ChunkOption(arg: string, strtol: string -> Strtol, chunks: DynArray<int32>)
    returns (fatal: Option<OptError>)
    requires chunks.Valid()
    modifies chunks, chunks.ptr
    ensures chunks.Valid() && (chunks.ptr == old(chunks.ptr) || fresh(chunks.ptr))
    ensures ChunkValue(arg, strtol).Err? ==>
              fatal == Some(ChunkValue(arg, strtol).error) && chunks.Contents() == old(chunks.Contents())
    ensures ChunkValue(arg, strtol).Ok? ==>
              fatal.None? && chunks.Contents() == old(chunks.Contents()) + [ChunkValue(arg, strtol).value]
  {
    var n := ChunkValue(arg, strtol);
    if n.Err? {
      return Some(n.error);
    }
    chunks.Add(n.value);
    return None;
  }

  /** The body of SHORTOPT up to `lastsopt = option`: the key check, then
      the `switch` over the letter. */
  method ShortOption(option: char, arg: string, strtol: string -> Strtol, lastopt: string, lastsopt: char,
                     op: Op, outdir: Option<string>, exclusive: bool, human: bool,
                     kv: DynArray<string>, chunks: DynArray<int32>, ghost infiles: seq<string>)
    returns (fatal: Option<OptError>, op': Op, outdir': Option<string>, exclusive': bool, human': bool)
    requires kv.Valid() && chunks.Valid()
    modifies kv, kv.ptr, chunks, chunks.ptr
    ensures kv.Valid() && chunks.Valid()
    ensures (kv.ptr == old(kv.ptr) || fresh(kv.ptr)) && (chunks.ptr == old(chunks.ptr) || fresh(chunks.ptr))
    ensures var before := old(Current(lastopt, lastsopt, op, kv, chunks, infiles, outdir, exclusive, human));
            ShortStep(before, option, arg, strtol)
            == if fatal.Some? then Err(fatal.value)
               else Ok(Current(lastopt, option, op', kv, chunks, infiles, outdir', exclusive', human'))
  {
    fatal, op', outdir', exclusive', human' := None, op, outdir, exclusive, human;
    if (lastopt == "key" || lastsopt == 'k') && option != 't' {
      fatal := Some(KeyNotFollowedByText);
      return;
    }
    match option {
    case 'A' => op' := OpAddText;
    case 'D' => op' := OpDumpText;
    case 'R' => op' := OpRemoveText;
    case 'h' => fatal := Some(HelpRequested);
    case _ =>
      fatal, outdir', exclusive', human' :=
        ShortSetting(option, arg, strtol, lastopt, lastsopt, op, outdir, exclusive, human, kv, chunks, infiles);
    }
  }

  /** The rest of the `switch`, after the mode letters and 'h'. */
  method ShortSetting(option: char, arg: string, strtol: string -> Strtol, lastopt: string, lastsopt: char,
                      op: Op, outdir: Option<string>, exclusive: bool, human: bool,
                      kv: DynArray<string>, chunks: DynArray<int32>, ghost infiles: seq<string>)
    returns (fatal: Option<OptError>, outdir': Option<string>, exclusive': bool, human': bool)
    requires kv.Valid() && chunks.Valid()
    requires (lastopt == "key" || lastsopt == 'k') ==> option == 't'
    requires option != 'A' && option != 'D' && option != 'R' && option != 'h'
    modifies kv, kv.ptr, chunks, chunks.ptr
    ensures kv.Valid() && chunks.Valid()
    ensures (kv.ptr == old(kv.ptr) || fresh(kv.ptr)) && (chunks.ptr == old(chunks.ptr) || fresh(chunks.ptr))
    ensures var before := old(Current(lastopt, lastsopt, op, kv, chunks, infiles, outdir, exclusive, human));
            ShortStep(before, option, arg, strtol)
            == if fatal.Some? then Err(fatal.value)
               else Ok(Current(lastopt, option, op, kv, chunks, infiles, outdir', exclusive', human'))
  {
    fatal, outdir', exclusive', human' := None, outdir, exclusive, human;
    match option {
    case 'k' => fatal := PairOption("key", arg, lastopt, lastsopt, kv);
    case 't' => fatal := PairOption("text", arg, lastopt, lastsopt, kv);
    case 'd' => outdir' := Some(arg);
    case 'e' => exclusive' := true;
    case 'c' => fatal := ChunkOption(arg, strtol, chunks);
    case _ =>
    }
  }

  /** One pass of the option loop: LONGOPT, SHORTOPT or NONOPT. */
  method ScanToken(token: Token, strtol: string -> Strtol, lastopt: string, lastsopt: char,
                   op: Op, outdir: Option<string>, exclusive: bool, human: bool,
                   kv: DynArray<string>, chunks: DynArray<int32>, infiles: DynArray<string>)
    returns (fatal: Option<OptError>, lastopt': string, lastsopt': char,
             op': Op, outdir': Option<string>, exclusive': bool, human': bool)
    requires kv.Valid() && chunks.Valid() && infiles.Valid()
    requires kv != infiles && kv.ptr != infiles.ptr
    modifies kv, kv.ptr, chunks, chunks.ptr, infiles, infiles.ptr
    ensures kv.Valid() && chunks.Valid() && infiles.Valid()
    ensures (kv.ptr == old(kv.ptr) || fresh(kv.ptr)) && (chunks.ptr == old(chunks.ptr) || fresh(chunks.ptr))
    ensures infiles.ptr == old(infiles.ptr) || fresh(infiles.ptr)
    ensures kv.ptr != infiles.ptr
    ensures var before := old(Current(lastopt, lastsopt, op, kv, chunks, infiles.Contents(), outdir, exclusive, human));
            Step(before, token, strtol)
            == if fatal.Some? then Err(fatal.value)
               else Ok(Current(lastopt', lastsopt', op', kv, chunks, infiles.Contents(), outdir', exclusive', human'))
  {
    fatal, lastopt', lastsopt', op', outdir', exclusive', human' :=
      None, lastopt, lastsopt, op, outdir, exclusive, human;
    match token {
    case LongOpt(option, arg) =>
      fatal, op', outdir', exclusive', human' :=
        LongOption(option, arg, strtol, lastopt, lastsopt, op, outdir, exclusive, human,
                   kv, chunks, infiles.Contents());
      lastopt' := option;
    case ShortOpt(option, arg) =>
      fatal, op', outdir', exclusive', human' :=
        ShortOption(option, arg, strtol, lastopt, lastsopt, op, outdir, exclusive, human,
                    kv, chunks, infiles.Contents());
      lastsopt' := option;
    case NonOpt(nonopt) =>
      infiles.Add(nonopt);
    }
  }

  /** The option loop of `main` with its post-parse checks: the registers
      and flags are locals, `kv`, `chunks` and `infiles` are the `dynstr` /
      `dynint` arrays, initialised with capacities 2, 1 and 1. */
  method ParseOptions(tokens: seq<Token>, strtol: string -> Strtol) returns (r: Result<Options, OptError>)
    ensures r == Parse(tokens, strtol)
  {
    var outdir: Option<string> := None;
    var exclusive := false;
    var human := false;
    var op := OpNone;
    var chunks := new DynArray<int32>.Init(1);
    var kv := new DynArray<string>.Init(2);
    var infiles := new DynArray<string>.Init(1);
    var lastopt: string := "";
    var lastsopt: char := '\0';
    for i := 0 to |tokens|
      invariant kv.Valid() && chunks.Valid() && infiles.Valid()
      invariant fresh(kv.ptr) && fresh(chunks.ptr) && fresh(infiles.ptr)
      invariant kv != infiles && kv.ptr != infiles.ptr
      invariant ScanPrefix(tokens, i, strtol)
                == Ok(Current(lastopt, lastsopt, op, kv, chunks, infiles.Contents(), outdir, exclusive, human))
    {
      assert ScanPrefix(tokens, i + 1, strtol)
             == Step(Current(lastopt, lastsopt, op, kv, chunks, infiles.Contents(), outdir, exclusive, human),
                     tokens[i], strtol);
      var fatal;
      fatal, lastopt, lastsopt, op, outdir, exclusive, human :=
        ScanToken(tokens[i], strtol, lastopt, lastsopt, op, outdir, exclusive, human, kv, chunks, infiles);
      if fatal.Some? {
        ScanErrSticky(tokens, i + 1, |tokens|, strtol);
        return Err(fatal.value);
      }
    }
    var collected := Options(op, kv.ptr[..kv.size], chunks.ptr[..chunks.size], infiles.ptr[..infiles.size],
                             outdir, exclusive, human);
    assert ScanPrefix(tokens, |tokens|, strtol) == Ok(Scan(lastopt, lastsopt, collected));
    assert Parse(tokens, strtol) == Finish(collected);
    r := CheckOptions(collected);
    ChecksDetermineFinish(collected, r);
  }

  /** Any outcome that reports the post-loop failures with the program's
      precedence, and passes the options on otherwise, is `Finish`'s. */
  lemma ChecksDetermineFinish(o: Options, r: Result<Options, OptError>)
    requires r == Err(IncompletePair) <==> |o.kv| % 2 != 0
    requires r == Err(NoModeOrFile) <==> |o.kv| % 2 == 0 && (o.op == OpNone || |o.infiles| == 0)
    requires r == Err(NoKeyOrText) <==>
               |o.kv| % 2 == 0 && o.op == OpAddText && |o.infiles| > 0 && |o.kv| == 0
    requires r.Ok? <==> |o.kv| % 2 == 0 && o.op != OpNone && |o.infiles| > 0 && (o.op == OpAddText ==> |o.kv| > 0)
    requires r.Ok? ==> r.value == o
    ensures r == Finish(o)
  {
  }

  /** The checks after the option loop: pairs complete, a mode and an input
      file given, and at least one pair for ADD. Each failure is reported
      only when the checks before it passed; with none failing the options
      are passed on unchanged. */
  method CheckOptions(o: Options) returns (r: Result<Options, OptError>)
    ensures r == Err(IncompletePair) <==> |o.kv| % 2 != 0
    ensures r == Err(NoModeOrFile) <==> |o.kv| % 2 == 0 && (o.op == OpNone || |o.infiles| == 0)
    ensures r == Err(NoKeyOrText) <==>
              |o.kv| % 2 == 0 && o.op == OpAddText && |o.infiles| > 0 && |o.kv| == 0
    ensures r.Ok? <==> |o.kv| % 2 == 0 && o.op != OpNone && |o.infiles| > 0 && (o.op == OpAddText ==> |o.kv| > 0)
    ensures r.Ok? ==> r.value == o
  {
    if |o.kv| % 2 != 0 {
      return Err(IncompletePair);
    }
    if o.op == OpNone || |o.infiles| == 0 {
      return Err(NoModeOrFile);
    }
    if o.op == OpAddText && |o.kv| == 0 {
      return Err(NoKeyOrText);
    }
    return Ok(o);
  }
}
