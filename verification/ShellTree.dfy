/**
 The command trees of sh.c. LineTree is the tree the parser builds for a derivation; Prints says
 without any derivation which tokens a tree stands for, and InOrder that it keeps their order.
 */
module ShellTree {
  import opened ShellGrammar

  const O_RDONLY := 0x000
  const O_WRONLY := 0x001
  const O_CREATE := 0x200

  datatype Cmd =
    | Exec(argv: seq<Word>)
    | Redirected(cmd: Cmd, file: Word, mode: int, fd: int)
    | Piping(left: Cmd, right: Cmd)
    | List(left: Cmd, right: Cmd)
    | Back(cmd: Cmd)

  // ---------------------------------------------------------------- the tree of a derivation

  function Attach(c: Cmd, r: Redir): Cmd {
    if r.op == '<' then Redirected(c, r.file, O_RDONLY, 0)
    else Redirected(c, r.file, O_WRONLY + O_CREATE, 1)
  }

  /** Later redirections go outside earlier ones. */
  function Wrap(c: Cmd, rs: seq<Redir>): Cmd {
    if rs == [] then c else Attach(Wrap(c, rs[..|rs| - 1]), rs[|rs| - 1])
  }

  function ArgWords(args: seq<Arg>): (ws: seq<Word>)
    ensures |ws| == |args|
  {
    if args == [] then [] else ArgWords(args[..|args| - 1]) + [args[|args| - 1].word]
  }

  function ArgRedirs(args: seq<Arg>): seq<Redir> {
    if args == [] then [] else ArgRedirs(args[..|args| - 1]) + args[|args| - 1].redirs
  }

  function ExecTree(d: ExecD): Cmd {
    match d
    case Block(line, redirs) => Wrap(LineTree(line), redirs)
    case Simple(lead, args) => Wrap(Exec(ArgWords(args)), lead + ArgRedirs(args))
  }

  function PipeTree(d: PipeD): Cmd {
    match d
    case LastPipe(exec) => ExecTree(exec)
    case Piped(exec, rest) => Piping(ExecTree(exec), PipeTree(rest))
  }

  function InBackground(c: Cmd, n: nat): Cmd {
    if n == 0 then c else Back(InBackground(c, n - 1))
  }

  function LineTree(d: LineD): Cmd {
    match d
    case LastLine(pipe, amps) => InBackground(PipeTree(pipe), amps)
    case Listed(pipe, amps, rest) => List(InBackground(PipeTree(pipe), amps), LineTree(rest))
  }

  // ---------------------------------------------------------------- the words of a tree

  ghost function CmdWords(c: Cmd): multiset<Word> {
    match c
    case Exec(argv) => multiset(argv)
    case Redirected(cmd, file, _, _) => CmdWords(cmd) + multiset{file}
    case Piping(left, right) => CmdWords(left) + CmdWords(right)
    case List(left, right) => CmdWords(left) + CmdWords(right)
    case Back(cmd) => CmdWords(cmd)
  }

  ghost function OwnWord(t: Token): multiset<Word> {
    if t.W? then multiset{t.word} else multiset{}
  }

  ghost function TokenWords(ts: seq<Token>): multiset<Word> {
    if ts == [] then multiset{} else OwnWord(ts[0]) + TokenWords(ts[1..])
  }

  lemma {:induction false} TokenWordsSum(a: seq<Token>, b: seq<Token>)
    ensures TokenWords(a + b) == TokenWords(a) + TokenWords(b)
  {
    hide OwnWord;
    if a == [] {
      assert a + b == b;
    } else {
      var own := OwnWord(a[0]);
      calc {
        TokenWords(a + b);
        { assert (a + b)[0] == a[0] && (a + b)[1..] == a[1..] + b; }
        own + TokenWords(a[1..] + b);
        { TokenWordsSum(a[1..], b); }
        own + (TokenWords(a[1..]) + TokenWords(b));
        TokenWords(a) + TokenWords(b);
      }
    }
  }

  lemma {:induction false} TokenWordsIn(ts: seq<Token>, w: Word)
    ensures w in TokenWords(ts) <==> W(w) in ts
  {
    if ts != [] {
      TokenWordsIn(ts[1..], w);
      assert ts == [ts[0]] + ts[1..];
    }
  }

  lemma {:induction false} RedirTokensSum(a: seq<Redir>, b: seq<Redir>)
    ensures RedirTokens(a + b) == RedirTokens(a) + RedirTokens(b)
  {
    if a == [] {
      assert a + b == b;
    } else {
      RedirTokensSum(a[1..], b);
      assert (a + b)[1..] == a[1..] + b;
    }
  }

  lemma {:induction false} ArgTokensSum(a: seq<Arg>, b: seq<Arg>)
    ensures ArgTokens(a + b) == ArgTokens(a) + ArgTokens(b)
  {
    hide RedirTokens;
    if a == [] {
      assert a + b == b;
    } else {
      ArgTokensSum(a[1..], b);
      assert (a + b)[1..] == a[1..] + b;
    }
  }

  lemma OneRedir(r: Redir)
    ensures TokenWords(RedirTokens([r])) == multiset{r.file}
  {
    assert RedirTokens([r]) == [Sym(r.op), W(r.file)];
    assert TokenWords([W(r.file)]) == multiset{r.file};
    assert [Sym(r.op), W(r.file)][1..] == [W(r.file)];
  }

  lemma NoTokens()
    ensures TokenWords([]) == TokenWords(RedirTokens([])) == TokenWords(ArgTokens([])) == multiset{}
  {
  }

  lemma {:induction false} WrapWords(c: Cmd, rs: seq<Redir>)
    ensures CmdWords(Wrap(c, rs)) == CmdWords(c) + TokenWords(RedirTokens(rs))
  {
    hide RedirTokens, TokenWords;
    if rs == [] {
      assert TokenWords(RedirTokens([])) == multiset{} by { NoTokens(); }
    } else {
      var front, last := rs[..|rs| - 1], rs[|rs| - 1];
      WrapWords(c, front);
      assert rs == front + [last];
      RedirTokensSum(front, [last]);
      TokenWordsSum(RedirTokens(front), RedirTokens([last]));
      OneRedir(last);
    }
  }

  lemma {:induction false} ArgsWords(args: seq<Arg>)
    ensures TokenWords(ArgTokens(args)) == multiset(ArgWords(args)) + TokenWords(RedirTokens(ArgRedirs(args)))
  {
    hide RedirTokens, ArgTokens, TokenWords;
    if args == [] {
      NoTokens();
    } else {
      var front, last := args[..|args| - 1], args[|args| - 1];
      ArgsWords(front);
      assert args == front + [last];
      ArgTokensSum(front, [last]);
      TokenWordsSum(ArgTokens(front), ArgTokens([last]));
      RedirTokensSum(ArgRedirs(front), last.redirs);
      TokenWordsSum(RedirTokens(ArgRedirs(front)), RedirTokens(last.redirs));
      OneArg(last);
    }
  }

  lemma OneArg(a: Arg)
    ensures TokenWords(ArgTokens([a])) == multiset{a.word} + TokenWords(RedirTokens(a.redirs))
  {
    assert ArgTokens([a]) == [W(a.word)] + RedirTokens(a.redirs);
    assert ([W(a.word)] + RedirTokens(a.redirs))[1..] == RedirTokens(a.redirs);
  }

  lemma {:induction false} SymbolsHaveNoWords(n: nat, c: char)
    ensures TokenWords(Amps(n)) == multiset{} && TokenWords([Sym(c)]) == multiset{}
  {
    if n > 0 {
      SymbolsHaveNoWords(n - 1, c);
      assert Amps(n)[1..] == Amps(n - 1);
    }
  }

  lemma {:induction false} BackgroundWords(c: Cmd, n: nat)
    ensures CmdWords(InBackground(c, n)) == CmdWords(c)
  {
    if n > 0 {
      BackgroundWords(c, n - 1);
    }
  }

  lemma {:induction false} ExecWords(d: ExecD)
    ensures CmdWords(ExecTree(d)) == TokenWords(ExecTokens(d))
    decreases d
  {
    hide Wrap, RedirTokens, ArgTokens, ArgWords, ArgRedirs, TokenWords;
    match d {
      case Block(line, redirs) =>
        WrapWords(LineTree(line), redirs);
        LineWords(line);
        var a, b := [Sym('(')] + LineTokens(line), [Sym(')')];
        TokenWordsSum(a + b, RedirTokens(redirs));
        TokenWordsSum(a, b);
        TokenWordsSum([Sym('(')], LineTokens(line));
        SymbolsHaveNoWords(0, '(');
        SymbolsHaveNoWords(0, ')');
      case Simple(lead, args) =>
        WrapWords(Exec(ArgWords(args)), lead + ArgRedirs(args));
        RedirTokensSum(lead, ArgRedirs(args));
        TokenWordsSum(RedirTokens(lead), RedirTokens(ArgRedirs(args)));
        ArgsWords(args);
        TokenWordsSum(RedirTokens(lead), ArgTokens(args));
    }
  }

  lemma {:induction false} PipeWords(d: PipeD)
    ensures CmdWords(PipeTree(d)) == TokenWords(PipeTokens(d))
    decreases d
  {
    hide ExecTokens, ExecTree, TokenWords;
    ExecWords(d.exec);
    if d.Piped? {
      PipeWords(d.rest);
      SymbolsHaveNoWords(0, '|');
      TokenWordsSum(ExecTokens(d.exec) + [Sym('|')], PipeTokens(d.rest));
      TokenWordsSum(ExecTokens(d.exec), [Sym('|')]);
    }
  }

  /** The tree of a line holds every word of the line, as often as it was written. */
  lemma {:induction false} LineWords(d: LineD)
    ensures CmdWords(LineTree(d)) == TokenWords(LineTokens(d))
    decreases d
  {
    hide PipeTokens, PipeTree, TokenWords, Amps;
    PipeWords(d.pipe);
    BackgroundWords(PipeTree(d.pipe), d.amps);
    SymbolsHaveNoWords(d.amps, ';');
    TokenWordsSum(PipeTokens(d.pipe), Amps(d.amps));
    if d.Listed? {
      LineWords(d.rest);
      TokenWordsSum(PipeTokens(d.pipe) + Amps(d.amps), [Sym(';')]);
      TokenWordsSum(PipeTokens(d.pipe) + Amps(d.amps) + [Sym(';')], LineTokens(d.rest));
    }
  }

  // ---------------------------------------------------------------- what a tree stands for

  /** The two tokens of the outermost redirection of c, with the mode and descriptor they call for. */
  ghost predicate Redirects(c: Cmd, op: Token, file: Token)
    requires c.Redirected?
  {
    && file == W(c.file)
    && (op == Sym('<') || op == Sym('>') || op == Sym('+'))
    && c.mode == (if op == Sym('<') then O_RDONLY else O_WRONLY + O_CREATE)
    && c.fd == (if op == Sym('<') then 0 else 1)
  }

  function WordTokens(ws: seq<Word>): (ts: seq<Token>)
    ensures |ts| == |ws| && forall i :: 0 <= i < |ws| ==> ts[i] == W(ws[i])
  {
    seq(|ws|, i requires 0 <= i < |ws| => W(ws[i]))
  }

  /** Words, with redirections anywhere among them; the last one written is the outermost. */
  ghost predicate PrintsSimple(c: Cmd, ts: seq<Token>)
    decreases |ts|, 1
  {
    || (c.Exec? && ts == WordTokens(c.argv))
    || (c.Redirected? && exists i: nat :: RedirectedAt(c, ts, i))
  }

  /** The outermost redirection is written at position i, with nothing but words after it. */
  ghost predicate RedirectedAt(c: Cmd, ts: seq<Token>, i: nat)
    requires c.Redirected?
    decreases |ts|, 0
  {
    && i + 2 <= |ts| && Redirects(c, ts[i], ts[i + 1])
    && (forall j :: i + 2 <= j < |ts| ==> ts[j].W?)
    && PrintsSimple(c.cmd, ts[..i] + ts[i + 2..])
  }

  /** A line in parentheses, with redirections after them. */
  ghost predicate PrintsGroup(c: Cmd, ts: seq<Token>)
    decreases |ts|, 1
  {
    var n := |ts|;
    || (n >= 2 && ts[0] == Sym('(') && ts[n - 1] == Sym(')') && PrintsLine(c, ts[1..n - 1]))
    || (c.Redirected? && n >= 2 && Redirects(c, ts[n - 2], ts[n - 1]) && PrintsGroup(c.cmd, ts[..n - 2]))
  }

  ghost predicate PrintsExec(c: Cmd, ts: seq<Token>)
    decreases |ts|, 2
  {
    PrintsSimple(c, ts) || PrintsGroup(c, ts)
  }

  /** The command on the left of the first | feeds the one on its right. */
  ghost predicate PrintsPipe(c: Cmd, ts: seq<Token>)
    decreases |ts|, 3
  {
    || PrintsExec(c, ts)
    || (c.Piping? && exists i ::
          0 <= i < |ts| && ts[i] == Sym('|') && PrintsExec(c.left, ts[..i]) && PrintsPipe(c.right, ts[i + 1..]))
  }

  /** One node for each & at the end. */
  ghost predicate PrintsBack(c: Cmd, ts: seq<Token>)
    decreases |ts|, 4
  {
    || PrintsPipe(c, ts)
    || (c.Back? && ts != [] && ts[|ts| - 1] == Sym('&') && PrintsBack(c.cmd, ts[..|ts| - 1]))
  }

  ghost predicate PrintsLine(c: Cmd, ts: seq<Token>)
    decreases |ts|, 5
  {
    || PrintsBack(c, ts)
    || (c.List? && exists i ::
          0 <= i < |ts| && ts[i] == Sym(';') && PrintsBack(c.left, ts[..i]) && PrintsLine(c.right, ts[i + 1..]))
  }

  lemma AttachPrints(c: Cmd, r: Redir)
    requires IsRedirOp(r.op)
    ensures Attach(c, r).Redirected? && Attach(c, r).cmd == c
    ensures Redirects(Attach(c, r), Sym(r.op), W(r.file))
  {
  }

  /** A redirection put around a simple command whose words after it are ws. */
  lemma SimpleStep(c: Cmd, r: Redir, front: seq<Token>, ws: seq<Word>)
    requires IsRedirOp(r.op) && PrintsSimple(c, front + WordTokens(ws))
    ensures PrintsSimple(Attach(c, r), front + [Sym(r.op), W(r.file)] + WordTokens(ws))
  {
    hide Attach, Redirects;
    AttachPrints(c, r);
    var ts := front + [Sym(r.op), W(r.file)] + WordTokens(ws);
    var i := |front|;
    assert ts[..i] == front && ts[i + 2..] == WordTokens(ws);
    assert forall j :: i + 2 <= j < |ts| ==> ts[j].W?;
    assert RedirectedAt(Attach(c, r), ts, i);
  }

  lemma WrapLast(c: Cmd, rs: seq<Redir>, r: Redir)
    ensures Wrap(c, rs + [r]) == Attach(Wrap(c, rs), r)
    ensures RedirTokens(rs + [r]) == RedirTokens(rs) + [Sym(r.op), W(r.file)]
  {
    assert (rs + [r])[..|rs|] == rs;
    RedirTokensSum(rs, [r]);
    assert RedirTokens([r]) == [Sym(r.op), W(r.file)];
  }

  lemma {:induction false} LeadPrints(lead: seq<Redir>, ws: seq<Word>)
    requires RedirsOk(lead)
    ensures PrintsSimple(Wrap(Exec(ws), lead), RedirTokens(lead) + WordTokens(ws))
  {
    hide PrintsSimple, RedirTokens, Wrap;
    if lead == [] {
      NoRedirTokens(Exec(ws));
      assert [] + WordTokens(ws) == WordTokens(ws);
      ExecPrints(ws);
    } else {
      var front, last := lead[..|lead| - 1], lead[|lead| - 1];
      assert lead == front + [last];
      LeadPrints(front, ws);
      WrapLast(Exec(ws), front, last);
      SimpleStep(Wrap(Exec(ws), front), last, RedirTokens(front), ws);
    }
  }

  lemma NoRedirTokens(c: Cmd)
    ensures RedirTokens([]) == [] && Wrap(c, []) == c
  {
  }

  lemma ExecPrints(ws: seq<Word>)
    ensures PrintsSimple(Exec(ws), WordTokens(ws))
  {
  }

  lemma ArgTokensLast(front: seq<Arg>, word: Word, rs: seq<Redir>)
    ensures ArgTokens(front + [Arg(word, rs)]) == ArgTokens(front) + [W(word)] + RedirTokens(rs)
    ensures ArgWords(front + [Arg(word, rs)]) == ArgWords(front) + [word]
    ensures ArgRedirs(front + [Arg(word, rs)]) == ArgRedirs(front) + rs
  {
    var a := Arg(word, rs);
    ArgTokensSum(front, [a]);
    assert ArgTokens([a]) == [W(word)] + RedirTokens(rs) + ArgTokens([]);
    assert (front + [a])[..|front|] == front;
  }

  /** Arguments with redirections among them, and the words ws after them. */
  lemma {:induction false} ArgsPrint(lead: seq<Redir>, args: seq<Arg>, ws: seq<Word>)
    requires RedirsOk(lead) && ArgsOk(args)
    ensures PrintsSimple(Wrap(Exec(ArgWords(args) + ws), lead + ArgRedirs(args)),
                         RedirTokens(lead) + ArgTokens(args) + WordTokens(ws))
    decreases |args|, if args == [] then 0 else |args[|args| - 1].redirs|, 1
  {
    hide PrintsSimple, RedirTokens, ArgTokens, Wrap, ArgWords, ArgRedirs;
    if args == [] {
      NoArgTokens();
      assert [] + ws == ws && lead + [] == lead && RedirTokens(lead) + [] == RedirTokens(lead);
      LeadPrints(lead, ws);
    } else {
      var front, last := args[..|args| - 1], args[|args| - 1];
      assert args == front + [Arg(last.word, last.redirs)];
      ArgTokensLast(front, last.word, last.redirs);
      if last.redirs == [] {
        ArgsPrint(lead, front, [last.word] + ws);
        NoRedirTokens(Exec(ws));
        assert ArgWords(front) + ([last.word] + ws) == ArgWords(args) + ws;
        assert ArgRedirs(front) + [] == ArgRedirs(front);
        assert RedirTokens(lead) + ArgTokens(front) + WordTokens([last.word] + ws)
            == RedirTokens(lead) + ArgTokens(args) + WordTokens(ws);
      } else {
        LastRedirPrints(lead, front, last.word, last.redirs, ws);
      }
    }
  }

  lemma NoArgTokens()
    ensures ArgTokens([]) == [] && ArgWords([]) == [] && ArgRedirs([]) == []
  {
  }

  lemma {:induction false} LastRedirPrints(lead: seq<Redir>, front: seq<Arg>, word: Word, rs: seq<Redir>, ws: seq<Word>)
    requires RedirsOk(lead) && ArgsOk(front) && RedirsOk(rs) && rs != []
    ensures var args := front + [Arg(word, rs)];
      PrintsSimple(Wrap(Exec(ArgWords(args) + ws), lead + ArgRedirs(args)),
                   RedirTokens(lead) + ArgTokens(args) + WordTokens(ws))
    decreases |front| + 1, |rs|, 0
  {
    hide PrintsSimple, RedirTokens, ArgTokens, Wrap, ArgWords, ArgRedirs;
    var args := front + [Arg(word, rs)];
    var rs0, r := rs[..|rs| - 1], rs[|rs| - 1];
    var args0 := front + [Arg(word, rs0)];
    assert rs == rs0 + [r];
    assert RedirsOk(rs0);
    ArgsPrint(lead, args0, ws);
    ArgTokensLast(front, word, rs0);
    ArgTokensLast(front, word, rs);
    var c := Exec(ArgWords(args) + ws);
    WrapLast(c, lead + ArgRedirs(args0), r);
    WrapLast(c, rs0, r);
    assert lead + ArgRedirs(args) == lead + ArgRedirs(args0) + [r];
    SimpleStep(Wrap(c, lead + ArgRedirs(args0)), r, RedirTokens(lead) + ArgTokens(args0), ws);
    assert RedirTokens(lead) + ArgTokens(args)
        == RedirTokens(lead) + ArgTokens(args0) + [Sym(r.op), W(r.file)];
  }

  lemma {:induction false} GroupPrints(c: Cmd, inner: seq<Token>, rs: seq<Redir>)
    requires RedirsOk(rs) && PrintsLine(c, inner)
    ensures PrintsGroup(Wrap(c, rs), [Sym('(')] + inner + [Sym(')')] + RedirTokens(rs))
  {
    hide Wrap, RedirTokens, PrintsLine;
    var group := [Sym('(')] + inner + [Sym(')')];
    if rs == [] {
      NoRedirTokens(c);
      assert group + [] == group;
      assert group[1..|group| - 1] == inner;
    } else {
      var front, last := rs[..|rs| - 1], rs[|rs| - 1];
      assert rs == front + [last];
      GroupPrints(c, inner, front);
      WrapLast(c, front, last);
      AttachPrints(Wrap(c, front), last);
      var ts := group + RedirTokens(rs);
      assert ts[..|ts| - 2] == group + RedirTokens(front);
    }
  }

  lemma {:induction false} ExecPrintsTokens(d: ExecD)
    requires ExecOk(d)
    ensures PrintsExec(ExecTree(d), ExecTokens(d))
    decreases d
  {
    hide PrintsSimple, PrintsGroup, PrintsLine, RedirTokens, ArgTokens, Wrap, ArgWords, ArgRedirs;
    match d {
      case Block(line, redirs) =>
        LinePrints(line);
        GroupPrints(LineTree(line), LineTokens(line), redirs);
      case Simple(lead, args) =>
        ArgsPrint(lead, args, []);
        assert ArgWords(args) + [] == ArgWords(args);
        assert RedirTokens(lead) + ArgTokens(args) + WordTokens([]) == RedirTokens(lead) + ArgTokens(args);
    }
  }

  lemma {:induction false} PipePrints(d: PipeD)
    requires PipeOk(d)
    ensures PrintsPipe(PipeTree(d), PipeTokens(d))
    decreases d
  {
    hide PrintsExec, ExecTokens, ExecTree, ExecOk;
    ExecPrintsTokens(d.exec);
    if d.Piped? {
      PipePrints(d.rest);
      var ts, i := PipeTokens(d), |ExecTokens(d.exec)|;
      assert ts[i] == Sym('|') && ts[..i] == ExecTokens(d.exec) && ts[i + 1..] == PipeTokens(d.rest);
    }
  }

  lemma {:induction false} AmpsPrint(c: Cmd, ts: seq<Token>, n: nat)
    requires PrintsBack(c, ts)
    ensures PrintsBack(InBackground(c, n), ts + Amps(n))
  {
    if n == 0 {
      assert ts + Amps(0) == ts;
    } else {
      AmpsPrint(c, ts, n - 1);
      AmpsEnd(n);
      var more := ts + Amps(n);
      assert more[..|more| - 1] == ts + Amps(n - 1);
    }
  }

  lemma {:induction false} AmpsEnd(n: nat)
    requires n > 0
    ensures Amps(n) == Amps(n - 1) + [Sym('&')]
  {
    if n > 1 { AmpsEnd(n - 1); }
  }

  /** The tree of a derivation stands for exactly the tokens of the line. */
  lemma {:induction false} LinePrints(d: LineD)
    requires LineOk(d)
    ensures PrintsLine(LineTree(d), LineTokens(d))
    decreases d
  {
    hide PrintsPipe, PipeTokens, PipeTree, PipeOk, Amps, InBackground;
    PipePrints(d.pipe);
    var first := PipeTokens(d.pipe) + Amps(d.amps);
    AmpsPrint(PipeTree(d.pipe), PipeTokens(d.pipe), d.amps);
    if d.Listed? {
      LinePrints(d.rest);
      var ts, i := LineTokens(d), |first|;
      assert ts[i] == Sym(';') && ts[..i] == first && ts[i + 1..] == LineTokens(d.rest);
    }
  }

  // ---------------------------------------------------------------- order

  /** Words come in the order in which they are written, without overlap. */
  ghost predicate Sorted(ts: seq<Token>) {
    forall i, j :: 0 <= i < j < |ts| && ts[i].W? && ts[j].W? ==> ts[i].word.eq <= ts[j].word.q
  }

  ghost predicate Before(a: multiset<Word>, b: multiset<Word>) {
    forall v, w :: v in a && w in b ==> v.eq <= w.q
  }

  /** On both sides of a pipe and of a semicolon, and among the arguments of a command, what was
      written first is on the left. */
  ghost predicate InOrder(c: Cmd) {
    match c
    case Exec(argv) => forall i, j :: 0 <= i < j < |argv| ==> argv[i].eq <= argv[j].q
    case Redirected(cmd, _, _, _) => InOrder(cmd)
    case Piping(left, right) => InOrder(left) && InOrder(right) && Before(CmdWords(left), CmdWords(right))
    case List(left, right) => InOrder(left) && InOrder(right) && Before(CmdWords(left), CmdWords(right))
    case Back(cmd) => InOrder(cmd)
  }

  lemma SortedParts(a: seq<Token>, sep: Token, b: seq<Token>)
    requires Sorted(a + [sep] + b)
    ensures Sorted(a) && Sorted(b) && Before(TokenWords(a), TokenWords(b))
  {
    hide TokenWords;
    var ts := a + [sep] + b;
    assert forall i :: 0 <= i < |a| ==> ts[i] == a[i];
    assert forall i :: 0 <= i < |b| ==> ts[|a| + 1 + i] == b[i];
    forall v, w | v in TokenWords(a) && w in TokenWords(b)
      ensures v.eq <= w.q
    {
      TokenWordsIn(a, v);
      TokenWordsIn(b, w);
      var i :| 0 <= i < |a| && a[i] == W(v);
      var j :| 0 <= j < |b| && b[j] == W(w);
      assert ts[i] == W(v) && ts[|a| + 1 + j] == W(w);
    }
  }

  lemma SortedPrefix(a: seq<Token>, b: seq<Token>)
    requires Sorted(a + b)
    ensures Sorted(a) && Sorted(b)
  {
    assert forall i :: 0 <= i < |a| ==> (a + b)[i] == a[i];
    assert forall i :: 0 <= i < |b| ==> (a + b)[|a| + i] == b[i];
  }

  lemma {:induction false} WrapInOrder(c: Cmd, rs: seq<Redir>)
    requires InOrder(c)
    ensures InOrder(Wrap(c, rs))
  {
    if rs != [] { WrapInOrder(c, rs[..|rs| - 1]); }
  }

  lemma {:induction false} BackInOrder(c: Cmd, n: nat)
    requires InOrder(c)
    ensures InOrder(InBackground(c, n))
  {
    if n > 0 { BackInOrder(c, n - 1); }
  }

  /** The i-th argument is a token, later than the arguments before it. */
  lemma {:induction false} ArgsInOrder(args: seq<Arg>)
    requires Sorted(ArgTokens(args))
    ensures forall i, j :: 0 <= i < j < |args| ==> ArgWords(args)[i].eq <= ArgWords(args)[j].q
    ensures forall i :: 0 <= i < |args| ==> W(ArgWords(args)[i]) in ArgTokens(args)
  {
    hide ArgTokens, RedirTokens, Sorted;
    if args != [] {
      var front, last := args[..|args| - 1], args[|args| - 1];
      assert args == front + [Arg(last.word, last.redirs)];
      ArgTokensLast(front, last.word, last.redirs);
      var a, b := ArgTokens(front) + [W(last.word)], RedirTokens(last.redirs);
      SortedPrefix(a, b);
      SortedPrefix(ArgTokens(front), [W(last.word)]);
      ArgsInOrder(front);
      assert W(last.word) in a;
      forall i | 0 <= i < |front| ensures ArgWords(front)[i].eq <= last.word.q {
        LastIsLater(ArgTokens(front), ArgWords(front)[i], last.word);
      }
    }
  }

  lemma LastIsLater(ts: seq<Token>, v: Word, w: Word)
    requires Sorted(ts + [W(w)]) && W(v) in ts
    ensures v.eq <= w.q
  {
    var i :| 0 <= i < |ts| && ts[i] == W(v);
    assert (ts + [W(w)])[i] == W(v) && (ts + [W(w)])[|ts|] == W(w);
  }

  lemma {:induction false} ExecInOrder(d: ExecD)
    requires Sorted(ExecTokens(d))
    ensures InOrder(ExecTree(d))
    decreases d
  {
    hide Sorted, RedirTokens, ArgTokens, Wrap, ArgWords, ArgRedirs;
    match d {
      case Block(line, redirs) =>
        var open := [Sym('(')] + LineTokens(line);
        SortedPrefix(open + [Sym(')')], RedirTokens(redirs));
        SortedPrefix(open, [Sym(')')]);
        SortedPrefix([Sym('(')], LineTokens(line));
        LineInOrder(line);
        WrapInOrder(LineTree(line), redirs);
      case Simple(lead, args) =>
        SortedPrefix(RedirTokens(lead), ArgTokens(args));
        ArgsInOrder(args);
        WrapInOrder(Exec(ArgWords(args)), lead + ArgRedirs(args));
    }
  }

  lemma {:induction false} PipeInOrder(d: PipeD)
    requires Sorted(PipeTokens(d))
    ensures InOrder(PipeTree(d))
    decreases d
  {
    hide Sorted, ExecTokens, ExecTree, TokenWords, CmdWords, Before;
    if d.Piped? {
      SortedParts(ExecTokens(d.exec), Sym('|'), PipeTokens(d.rest));
      ExecInOrder(d.exec);
      PipeInOrder(d.rest);
      ExecWords(d.exec);
      PipeWords(d.rest);
    } else {
      ExecInOrder(d.exec);
    }
  }

  /** The tree of a line keeps the order of its words. */
  lemma {:induction false} LineInOrder(d: LineD)
    requires Sorted(LineTokens(d))
    ensures InOrder(LineTree(d))
    decreases d
  {
    hide Sorted, PipeTokens, PipeTree, TokenWords, CmdWords, Before, Amps, InBackground;
    var first := PipeTokens(d.pipe) + Amps(d.amps);
    if d.Listed? {
      SortedParts(first, Sym(';'), LineTokens(d.rest));
      LineInOrder(d.rest);
      LineWords(d.rest);
      PipeWords(d.pipe);
      BackgroundWords(PipeTree(d.pipe), d.amps);
      TokenWordsSum(PipeTokens(d.pipe), Amps(d.amps));
      SymbolsHaveNoWords(d.amps, ';');
      var left := InBackground(PipeTree(d.pipe), d.amps);
      assert CmdWords(left) == TokenWords(first) && CmdWords(LineTree(d.rest)) == TokenWords(LineTokens(d.rest));
      assert LineTree(d) == List(left, LineTree(d.rest));
    }
    SortedPrefix(PipeTokens(d.pipe), Amps(d.amps));
    PipeInOrder(d.pipe);
    BackInOrder(PipeTree(d.pipe), d.amps);
  }
}
