/**
 The command language of sh.c on the level of tokens.

   line  ::= pipe '&'* [ ';' line ]
   pipe  ::= exec [ '|' pipe ]
   exec  ::= '(' line ')' redir*  |  redir* ( word redir* )*
   redir ::= ('<' | '>' | '>>') word

 A derivation is a tree of this grammar; Line, Pipe, ... flatten it back to tokens. The
 parsers below follow the branches of parseline, parsepipe, parseexec and parseredirs.
 */
module ShellGrammar {

  const MAXARGS := 10

  /** A word is the half-open range of positions it occupies in the input. */
  datatype Word = Word(q: nat, eq: nat)

  /** Sym('+') stands for >>. */
  datatype Token = Sym(c: char) | W(word: Word)

  datatype Redir = Redir(op: char, file: Word)
  datatype Arg = Arg(word: Word, redirs: seq<Redir>)
  datatype ExecD = Block(line: LineD, redirs: seq<Redir>) | Simple(lead: seq<Redir>, args: seq<Arg>)
  datatype PipeD = LastPipe(exec: ExecD) | Piped(exec: ExecD, rest: PipeD)
  datatype LineD = LastLine(pipe: PipeD, amps: nat) | Listed(pipe: PipeD, amps: nat, rest: LineD)

  // ---------------------------------------------------------------- flattening

  function RedirTokens(rs: seq<Redir>): seq<Token> {
    if rs == [] then [] else [Sym(rs[0].op), W(rs[0].file)] + RedirTokens(rs[1..])
  }

  function ArgTokens(args: seq<Arg>): seq<Token> {
    if args == [] then [] else [W(args[0].word)] + RedirTokens(args[0].redirs) + ArgTokens(args[1..])
  }

  function Amps(n: nat): seq<Token> {
    if n == 0 then [] else [Sym('&')] + Amps(n - 1)
  }

  function ExecTokens(d: ExecD): seq<Token> {
    match d
    case Block(line, redirs) => [Sym('(')] + LineTokens(line) + [Sym(')')] + RedirTokens(redirs)
    case Simple(lead, args) => RedirTokens(lead) + ArgTokens(args)
  }

  function PipeTokens(d: PipeD): seq<Token> {
    match d
    case LastPipe(exec) => ExecTokens(exec)
    case Piped(exec, rest) => ExecTokens(exec) + [Sym('|')] + PipeTokens(rest)
  }

  function LineTokens(d: LineD): seq<Token> {
    match d
    case LastLine(pipe, amps) => PipeTokens(pipe) + Amps(amps)
    case Listed(pipe, amps, rest) => PipeTokens(pipe) + Amps(amps) + [Sym(';')] + LineTokens(rest)
  }

  // ---------------------------------------------------------------- trees that can occur

  predicate IsRedirOp(c: char) { c == '<' || c == '>' || c == '+' }

  ghost predicate RedirsOk(rs: seq<Redir>) {
    forall i :: 0 <= i < |rs| ==> IsRedirOp(rs[i].op)
  }

  ghost predicate ArgsOk(args: seq<Arg>) {
    forall i :: 0 <= i < |args| ==> RedirsOk(args[i].redirs)
  }

  /** Fewer than MAXARGS arguments, and redirection operators only where they belong. */
  ghost predicate ExecOk(d: ExecD) {
    match d
    case Block(line, redirs) => LineOk(line) && RedirsOk(redirs)
    case Simple(lead, args) =>
      RedirsOk(lead) && |args| < MAXARGS && ArgsOk(args)
  }

  ghost predicate PipeOk(d: PipeD) {
    match d
    case LastPipe(exec) => ExecOk(exec)
    case Piped(exec, rest) => ExecOk(exec) && PipeOk(rest)
  }

  ghost predicate LineOk(d: LineD) {
    match d
    case LastLine(pipe, _) => PipeOk(pipe)
    case Listed(pipe, _, rest) => PipeOk(pipe) && LineOk(rest)
  }

  // ---------------------------------------------------------------- parsing token lists

  datatype Parsed<T> = Ok(value: T, rest: seq<Token>) | Panic {
    predicate IsFailure() { Panic? }
    function PropagateFailure<U>(): Parsed<U> requires Panic? { Panic }
    function Extract(): (T, seq<Token>) requires Ok? { (value, rest) }
  }

  predicate Starts(ts: seq<Token>, c: char) { ts != [] && ts[0] == Sym(c) }

  predicate StartsRedir(ts: seq<Token>) { ts != [] && ts[0].Sym? && IsRedirOp(ts[0].c) }

  /** The tokens that end a simple command: peek(ps, es, "|)&;"). */
  predicate EndsArgs(ts: seq<Token>) {
    Starts(ts, '|') || Starts(ts, ')') || Starts(ts, '&') || Starts(ts, ';')
  }

  function ParseRedirs(ts: seq<Token>): (r: Parsed<seq<Redir>>)
    ensures r.Ok? ==> |r.rest| <= |ts| && !StartsRedir(r.rest)
  {
    if !StartsRedir(ts) then Ok([], ts)
    else if |ts| < 2 || !ts[1].W? then Panic
    else
      var (rs, rest) :- ParseRedirs(ts[2..]);
      Ok([Redir(ts[0].c, ts[1].word)] + rs, rest)
  }

  /** The loop of parseexec, argc words having been read already. */
  function ParseArgs(ts: seq<Token>, argc: nat): (r: Parsed<seq<Arg>>)
    ensures r.Ok? ==> |r.rest| <= |ts|
    decreases |ts|
  {
    if ts == [] || EndsArgs(ts) then Ok([], ts)
    else if !ts[0].W? || argc + 1 >= MAXARGS then Panic
    else
      var (rs, rest) :- ParseRedirs(ts[1..]);
      var (args, rest2) :- ParseArgs(rest, argc + 1);
      Ok([Arg(ts[0].word, rs)] + args, rest2)
  }

  function ParseExec(ts: seq<Token>): (r: Parsed<ExecD>)
    ensures r.Ok? ==> |r.rest| <= |ts|
    decreases |ts|, 1
  {
    if Starts(ts, '(') then ParseBlock(ts)
    else
      var (lead, rest) :- ParseRedirs(ts);
      var (args, rest2) :- ParseArgs(rest, 0);
      Ok(Simple(lead, args), rest2)
  }

  function ParseBlock(ts: seq<Token>): (r: Parsed<ExecD>)
    requires Starts(ts, '(')
    ensures r.Ok? ==> |r.rest| <= |ts|
    decreases |ts|, 0
  {
    var (line, rest) :- ParseLine(ts[1..]);
    if !Starts(rest, ')') then Panic
    else
      var (redirs, rest2) :- ParseRedirs(rest[1..]);
      Ok(Block(line, redirs), rest2)
  }

  function ParsePipe(ts: seq<Token>): (r: Parsed<PipeD>)
    ensures r.Ok? ==> |r.rest| <= |ts|
    decreases |ts|, 2
  {
    var (exec, rest) :- ParseExec(ts);
    if !Starts(rest, '|') then Ok(LastPipe(exec), rest)
    else
      var (pipe, rest2) :- ParsePipe(rest[1..]);
      Ok(Piped(exec, pipe), rest2)
  }

  /** Number of leading & tokens. */
  function CountAmps(ts: seq<Token>): (n: nat)
    ensures n <= |ts|
  {
    if Starts(ts, '&') then 1 + CountAmps(ts[1..]) else 0
  }

  function ParseLine(ts: seq<Token>): (r: Parsed<LineD>)
    ensures r.Ok? ==> |r.rest| <= |ts|
    decreases |ts|, 3
  {
    var (pipe, rest) :- ParsePipe(ts);
    var n := CountAmps(rest);
    if !Starts(rest[n..], ';') then Ok(LastLine(pipe, n), rest[n..])
    else
      var (line, rest2) :- ParseLine(rest[n + 1..]);
      Ok(Listed(pipe, n, line), rest2)
  }

  // ---------------------------------------------------------------- soundness

  lemma {:induction false} RedirsSound(ts: seq<Token>)
    requires ParseRedirs(ts).Ok?
    ensures ts == RedirTokens(ParseRedirs(ts).value) + ParseRedirs(ts).rest && RedirsOk(ParseRedirs(ts).value)
  {
    if StartsRedir(ts) {
      RedirsSound(ts[2..]);
      var rs := ParseRedirs(ts[2..]).value;
      assert ParseRedirs(ts).value[1..] == rs;
      assert ts == [ts[0], ts[1]] + ts[2..];
    }
  }

  lemma {:induction false} ArgsSound(ts: seq<Token>, argc: nat)
    requires argc < MAXARGS && ParseArgs(ts, argc).Ok?
    ensures ts == ArgTokens(ParseArgs(ts, argc).value) + ParseArgs(ts, argc).rest
    ensures ArgsOk(ParseArgs(ts, argc).value) && argc + |ParseArgs(ts, argc).value| < MAXARGS
    decreases |ts|
  {
    hide ParseRedirs, RedirTokens, RedirsOk;
    if ts != [] && !EndsArgs(ts) {
      var first := ParseRedirs(ts[1..]);
      RedirsSound(ts[1..]);
      ArgsSound(first.rest, argc + 1);
      var args := ParseArgs(first.rest, argc + 1).value;
      assert ParseArgs(ts, argc).value == [Arg(ts[0].word, first.value)] + args;
      assert ([Arg(ts[0].word, first.value)] + args)[1..] == args;
      assert ts == [ts[0]] + ts[1..];
    }
  }

  lemma {:induction false} AmpsSound(ts: seq<Token>)
    ensures ts[..CountAmps(ts)] == Amps(CountAmps(ts)) && !Starts(ts[CountAmps(ts)..], '&')
  {
    if Starts(ts, '&') {
      AmpsSound(ts[1..]);
      var n := CountAmps(ts[1..]);
      assert ts[..n + 1] == [ts[0]] + ts[1..][..n];
      assert ts[n + 1..] == ts[1..][n..];
    }
  }

  lemma {:induction false} ExecSound(ts: seq<Token>)
    requires ParseExec(ts).Ok?
    ensures ts == ExecTokens(ParseExec(ts).value) + ParseExec(ts).rest && ExecOk(ParseExec(ts).value)
    decreases |ts|, 1
  {
    hide ParseRedirs, RedirTokens, RedirsOk, ParseArgs, ArgTokens, ParseLine, LineTokens, LineOk;
    if Starts(ts, '(') {
      var line := ParseLine(ts[1..]);
      LineSound(ts[1..]);
      RedirsSound(line.rest[1..]);
      assert ts == [ts[0]] + ts[1..];
      assert line.rest == [line.rest[0]] + line.rest[1..];
    } else {
      RedirsSound(ts);
      ArgsSound(ParseRedirs(ts).rest, 0);
    }
  }

  lemma {:induction false} PipeSound(ts: seq<Token>)
    requires ParsePipe(ts).Ok?
    ensures ts == PipeTokens(ParsePipe(ts).value) + ParsePipe(ts).rest && PipeOk(ParsePipe(ts).value)
    decreases |ts|, 2
  {
    hide ExecTokens, ParseExec, ExecOk;
    ExecSound(ts);
    var rest := ParseExec(ts).rest;
    if Starts(rest, '|') {
      PipeSound(rest[1..]);
      assert rest == [rest[0]] + rest[1..];
    }
  }

  /** What parseline accepts is a line of the grammar, followed by what it left unread. */
  lemma {:induction false} LineSound(ts: seq<Token>)
    requires ParseLine(ts).Ok?
    ensures ts == LineTokens(ParseLine(ts).value) + ParseLine(ts).rest && LineOk(ParseLine(ts).value)
    decreases |ts|, 3
  {
    hide PipeTokens, ParsePipe, PipeOk, CountAmps, Amps;
    PipeSound(ts);
    var rest := ParsePipe(ts).rest;
    AmpsSound(rest);
    var n := CountAmps(rest);
    assert rest == rest[..n] + rest[n..];
    if Starts(rest[n..], ';') {
      LineSound(rest[n + 1..]);
      assert rest[n..] == [rest[n]] + rest[n + 1..];
    }
  }

  // ---------------------------------------------------------------- completeness

  /** What may follow a command, a pipeline and a line. */
  predicate AfterExec(ts: seq<Token>) { ts == [] || EndsArgs(ts) }
  predicate AfterPipe(ts: seq<Token>) { ts == [] || Starts(ts, ')') || Starts(ts, '&') || Starts(ts, ';') }
  predicate AfterLine(ts: seq<Token>) { ts == [] || Starts(ts, ')') }

  lemma {:induction false} RedirsComplete(rs: seq<Redir>, rest: seq<Token>)
    requires RedirsOk(rs) && !StartsRedir(rest)
    ensures ParseRedirs(RedirTokens(rs) + rest) == Ok(rs, rest)
  {
    var ts := RedirTokens(rs) + rest;
    if rs == [] {
      assert ts == rest;
    } else {
      RedirsComplete(rs[1..], rest);
      assert ts[2..] == RedirTokens(rs[1..]) + rest;
      assert [rs[0]] + rs[1..] == rs;
    }
  }

  lemma ArgsNoRedir(args: seq<Arg>, rest: seq<Token>)
    requires AfterExec(rest)
    ensures !StartsRedir(ArgTokens(args) + rest)
  {
    if args == [] {
      assert ArgTokens(args) + rest == rest;
    } else {
      assert (ArgTokens(args) + rest)[0] == W(args[0].word);
    }
  }

  /** One argument with its redirections, in front of what parses already. */
  lemma ArgFirst(a: Arg, args: seq<Arg>, argc: nat, more: seq<Token>, rest: seq<Token>)
    requires RedirsOk(a.redirs) && argc + 1 < MAXARGS && !StartsRedir(more)
    requires ParseArgs(more, argc + 1) == Ok(args, rest)
    ensures ParseArgs([W(a.word)] + (RedirTokens(a.redirs) + more), argc) == Ok([a] + args, rest)
  {
    hide ParseRedirs, RedirTokens, RedirsOk;
    var ts := [W(a.word)] + (RedirTokens(a.redirs) + more);
    RedirsComplete(a.redirs, more);
    assert ts[1..] == RedirTokens(a.redirs) + more;
  }

  lemma {:induction false} ArgsComplete(args: seq<Arg>, argc: nat, rest: seq<Token>)
    requires ArgsOk(args) && argc + |args| < MAXARGS && AfterExec(rest)
    ensures ParseArgs(ArgTokens(args) + rest, argc) == Ok(args, rest)
    decreases |args|
  {
    hide ParseRedirs, RedirTokens, RedirsOk;
    if args == [] {
      assert ArgTokens(args) + rest == rest;
    } else {
      hide ParseArgs, StartsRedir, EndsArgs;
      var more := ArgTokens(args[1..]) + rest;
      ArgsComplete(args[1..], argc + 1, rest);
      ArgsNoRedir(args[1..], rest);
      ArgFirst(args[0], args[1..], argc, more, rest);
      assert ArgTokens(args) + rest == [W(args[0].word)] + (RedirTokens(args[0].redirs) + more);
      assert [args[0]] + args[1..] == args;
    }
  }

  lemma {:induction false} AmpsComplete(n: nat, rest: seq<Token>)
    requires !Starts(rest, '&')
    ensures CountAmps(Amps(n) + rest) == n && |Amps(n)| == n && (Amps(n) + rest)[n..] == rest
  {
    if n == 0 {
      assert Amps(0) + rest == rest;
    } else {
      AmpsComplete(n - 1, rest);
      assert (Amps(n) + rest)[1..] == Amps(n - 1) + rest;
    }
  }

  lemma {:induction false} ExecComplete(d: ExecD, rest: seq<Token>)
    requires ExecOk(d) && AfterExec(rest)
    ensures ParseExec(ExecTokens(d) + rest) == Ok(d, rest)
    decreases d
  {
    hide ParseRedirs, RedirTokens, RedirsOk, ParseArgs, ArgTokens, ParseLine, LineTokens, LineOk;
    var ts := ExecTokens(d) + rest;
    match d {
      case Block(line, redirs) =>
        var more := [Sym(')')] + (RedirTokens(redirs) + rest);
        LineComplete(line, more);
        assert ts[1..] == LineTokens(line) + more;
        assert more[1..] == RedirTokens(redirs) + rest;
        RedirsComplete(redirs, rest);
      case Simple(lead, args) =>
        ArgsComplete(args, 0, rest);
        ArgsNoRedir(args, rest);
        RedirsComplete(lead, ArgTokens(args) + rest);
        assert ts == RedirTokens(lead) + (ArgTokens(args) + rest);
        NoParen(lead, args, rest);
    }
  }

  lemma {:induction false} NoParen(lead: seq<Redir>, args: seq<Arg>, rest: seq<Token>)
    requires RedirsOk(lead) && AfterExec(rest)
    ensures !Starts(RedirTokens(lead) + ArgTokens(args) + rest, '(')
  {
    if lead != [] {
      assert (RedirTokens(lead) + ArgTokens(args) + rest)[0] == Sym(lead[0].op);
      assert IsRedirOp(lead[0].op);
    } else if args != [] {
      assert (RedirTokens(lead) + ArgTokens(args) + rest)[0] == W(args[0].word);
    } else {
      assert RedirTokens(lead) + ArgTokens(args) + rest == rest;
    }
  }

  lemma {:induction false} PipeComplete(d: PipeD, rest: seq<Token>)
    requires PipeOk(d) && AfterPipe(rest)
    ensures ParsePipe(PipeTokens(d) + rest) == Ok(d, rest)
    decreases d
  {
    hide ExecTokens, ParseExec, ExecOk;
    match d {
      case LastPipe(exec) =>
        ExecComplete(exec, rest);
      case Piped(exec, pipe) =>
        var more := [Sym('|')] + (PipeTokens(pipe) + rest);
        ExecComplete(exec, more);
        assert PipeTokens(d) + rest == ExecTokens(exec) + more;
        assert more[1..] == PipeTokens(pipe) + rest;
        PipeComplete(pipe, rest);
    }
  }

  /** Every line of the grammar is accepted, and the derivation it came from is recovered. */
  lemma {:induction false} LineComplete(d: LineD, rest: seq<Token>)
    requires LineOk(d) && AfterLine(rest)
    ensures ParseLine(LineTokens(d) + rest) == Ok(d, rest)
    decreases d
  {
    hide PipeTokens, ParsePipe, PipeOk, CountAmps, Amps;
    match d {
      case LastLine(pipe, amps) =>
        AmpsComplete(amps, rest);
        AmpsStart(amps, rest);
        PipeComplete(pipe, Amps(amps) + rest);
        assert LineTokens(d) + rest == PipeTokens(pipe) + (Amps(amps) + rest);
      case Listed(pipe, amps, line) =>
        var more := [Sym(';')] + (LineTokens(line) + rest);
        AmpsComplete(amps, more);
        AmpsStart(amps, more);
        PipeComplete(pipe, Amps(amps) + more);
        assert LineTokens(d) + rest == PipeTokens(pipe) + (Amps(amps) + more);
        assert (Amps(amps) + more)[amps + 1..] == LineTokens(line) + rest;
        LineComplete(line, rest);
    }
  }

  lemma AmpsStart(n: nat, rest: seq<Token>)
    requires AfterPipe(rest)
    ensures AfterPipe(Amps(n) + rest)
  {
    if n == 0 {
      assert Amps(0) + rest == rest;
    }
  }
}
