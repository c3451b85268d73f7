/**
 The recursive-descent parser of sh.c. Each parse method works on characters and positions,
 as parseline and its companions do, and is proved to compute what the token-list parser of
 ShellGrammar computes on the tokens ahead. Parse (parsecmd) then accepts exactly the lines
 of the grammar, and after NulTerminate every word of the tree reads back unchanged.
 */
module ShellParser {
  import opened ShellGrammar
  import opened ShellLexer
  import opened ShellTree

  // ---------------------------------------------------------------- parsing

  /** A tree and the position after it; panic ends the shell and leaves no tree. */
  datatype Outcome = Done(cmd: Cmd, pos: nat) | Failed

  datatype RedirOutcome = Read(redirs: seq<Redir>, pos: nat) | NoFile

  function Prepend<T>(front: seq<T>, p: Parsed<seq<T>>): Parsed<seq<T>> {
    if p.Ok? then Ok(front + p.value, p.rest) else Panic
  }

  lemma PrependTwice<T>(a: seq<T>, b: seq<T>, p: Parsed<seq<T>>)
    ensures Prepend(a, Prepend(b, p)) == Prepend(a + b, p)
  {
    if p.Ok? {
      assert a + (b + p.value) == a + b + p.value;
    }
  }

  lemma RedirStep(ts: seq<Token>)
    requires StartsRedir(ts)
    ensures |ts| < 2 || !ts[1].W? ==> ParseRedirs(ts) == Panic
    ensures |ts| >= 2 && ts[1].W? ==>
      ParseRedirs(ts) == Prepend([Redir(ts[0].c, ts[1].word)], ParseRedirs(ts[2..]))
  {
  }

  /** The loop of parseredirs. */
  method ReadRedirs(line: string, s: nat) returns (r: RedirOutcome)
    requires IsLine(line) && s <= |line|
    ensures r.Read? ==> s <= r.pos <= |line| && ParseRedirs(Lex(line, s)) == Ok(r.redirs, Lex(line, r.pos))
    ensures r.NoFile? ==> ParseRedirs(Lex(line, s)) == Panic
  {
    hide Lex, SkipSpace, ParseRedirs;
    var redirs: seq<Redir> := [];
    var found, pos := Peek(line, s, "<>");
    PrependNone(ParseRedirs(Lex(line, s)));
    while found
      invariant s <= pos <= |line| && pos == SkipSpace(line, pos)
      invariant found <==> pos < |line| && line[pos] in "<>"
      invariant Prepend(redirs, ParseRedirs(Lex(line, pos))) == ParseRedirs(Lex(line, s))
      decreases |Lex(line, pos)|
    {
      PeekRedir(line, pos);
      RedirStep(Lex(line, pos));
      var tok, _, _, next := GetToken(line, pos);
      var tok2, q, eq, next2 := GetToken(line, next);
      assert Lex(line, pos)[1..] == Lex(line, next);
      if tok2 != 'a' {
        return NoFile;
      }
      assert Lex(line, pos)[2..] == Lex(line, next2);
      PrependTwice(redirs, [Redir(tok, Word(q, eq))], ParseRedirs(Lex(line, next2)));
      redirs := redirs + [Redir(tok, Word(q, eq))];
      found, pos := Peek(line, next2, "<>");
    }
    PeekRedir(line, pos);
    NoRedirs(Lex(line, pos));
    assert redirs + [] == redirs;
    return Read(redirs, pos);
  }

  lemma PrependNone<T>(p: Parsed<seq<T>>)
    ensures Prepend([], p) == p
  {
    if p.Ok? {
      assert [] + p.value == p.value;
    }
  }

  lemma NoRedirs(ts: seq<Token>)
    requires !StartsRedir(ts)
    ensures ParseRedirs(ts) == Ok([], ts)
  {
  }

  // The parsers of ShellGrammar, with trees for derivations.

  function ExecCmd(ts: seq<Token>): Parsed<Cmd> {
    var (d, rest) :- ParseExec(ts);
    Ok(ExecTree(d), rest)
  }

  /** A simple command after its leading redirections. */
  function ArgsCmd(ts: seq<Token>, lead: seq<Redir>): Parsed<Cmd> {
    var (args, rest) :- ParseArgs(ts, 0);
    Ok(Wrap(Exec(ArgWords(args)), lead + ArgRedirs(args)), rest)
  }

  function PipeCmd(ts: seq<Token>): Parsed<Cmd> {
    var (d, rest) :- ParsePipe(ts);
    Ok(PipeTree(d), rest)
  }

  function LineCmd(ts: seq<Token>): Parsed<Cmd> {
    var (d, rest) :- ParseLine(ts);
    Ok(LineTree(d), rest)
  }

  /** The outcome of a method that should have parsed p out of the tokens after position s. */
  ghost predicate Meets(line: string, r: Outcome, p: Parsed<Cmd>) {
    match p
    case Ok(c, rest) => r.Done? && r.cmd == c && r.pos <= |line| && Lex(line, r.pos) == rest
    case Panic => r.Failed?
  }

  lemma ArgStep(ts: seq<Token>, argc: nat)
    requires ts != [] && !EndsArgs(ts)
    ensures !ts[0].W? || argc + 1 >= MAXARGS ==> ParseArgs(ts, argc) == Panic
    ensures ts[0].W? && argc + 1 < MAXARGS && ParseRedirs(ts[1..]).Panic? ==> ParseArgs(ts, argc) == Panic
    ensures ts[0].W? && argc + 1 < MAXARGS && ParseRedirs(ts[1..]).Ok? ==>
      var first := ParseRedirs(ts[1..]);
      ParseArgs(ts, argc) == Prepend([Arg(ts[0].word, first.value)], ParseArgs(first.rest, argc + 1))
  {
  }

  lemma NoArgs(ts: seq<Token>, argc: nat)
    requires ts == [] || EndsArgs(ts)
    ensures ParseArgs(ts, argc) == Ok([], ts)
  {
  }

  lemma ArgAppended(args: seq<Arg>, a: Arg)
    ensures ArgWords(args + [a]) == ArgWords(args) + [a.word]
    ensures ArgRedirs(args + [a]) == ArgRedirs(args) + a.redirs
  {
    assert (args + [a])[..|args|] == args;
  }

  lemma PeekEnd(line: string, s: nat)
    requires s <= |line|
    ensures SkipSpace(line, s) < |line| && line[SkipSpace(line, s)] in "|)&;" <==> EndsArgs(Lex(line, s))
  {
    hide Lex, SkipSpace;
    PeekSymbol(line, s, '|');
    PeekSymbol(line, s, ')');
    PeekSymbol(line, s, '&');
    PeekSymbol(line, s, ';');
  }

  /** The argument loop of parseexec: argv gets the words, redirs the redirections around them. */
  method ReadArgs(line: string, s: nat, lead: seq<Redir>) returns (r: Outcome)
    requires IsLine(line) && s <= |line|
    ensures Meets(line, r, ArgsCmd(Lex(line, s), lead))
  {
    hide Lex, SkipSpace, ParseArgs, ParseRedirs, ArgWords, ArgRedirs, Wrap, EndsArgs;
    var argv: seq<Word> := [];
    var redirs := lead;
    ghost var args: seq<Arg> := [];
    var pos: nat := s;
    NoArgsYet();
    PrependNone(ParseArgs(Lex(line, s), 0));
    assert lead + [] == lead;
    while true
      invariant pos <= |line| && |argv| == |args| < MAXARGS
      invariant Prepend(args, ParseArgs(Lex(line, pos), |args|)) == ParseArgs(Lex(line, s), 0)
      invariant argv == ArgWords(args) && redirs == lead + ArgRedirs(args)
      decreases |Lex(line, pos)|
    {
      var found, at := Peek(line, pos, "|)&;");
      PeekEnd(line, pos);
      var tok, q, eq, next := GetToken(line, at);
      if found || tok == '\0' {
        NoArgs(Lex(line, pos), |args|);
        assert args + [] == args;
        return Done(Wrap(Exec(argv), redirs), at);
      }
      ArgStep(Lex(line, pos), |args|);
      assert Lex(line, pos)[1..] == Lex(line, next);
      if tok != 'a' {
        return Failed;
      }
      argv := argv + [Word(q, eq)];
      if |argv| >= MAXARGS {
        return Failed;
      }
      var more := ReadRedirs(line, next);
      if more.NoFile? {
        return Failed;
      }
      ghost var a := Arg(Word(q, eq), more.redirs);
      PrependTwice(args, [a], ParseArgs(Lex(line, more.pos), |args| + 1));
      ArgAppended(args, a);
      assert redirs + more.redirs == lead + (ArgRedirs(args) + more.redirs);
      redirs := redirs + more.redirs;
      args := args + [a];
      pos := more.pos;
    }
  }

  lemma NoArgsYet()
    ensures ArgWords([]) == [] && ArgRedirs([]) == []
  {
  }

  method ReadExec(line: string, s: nat) returns (r: Outcome)
    requires IsLine(line) && s <= |line|
    ensures Meets(line, r, ExecCmd(Lex(line, s)))
    decreases |Lex(line, s)|, 1
  {
    hide Lex, SkipSpace, ParseArgs, ParseRedirs, ArgWords, ArgRedirs, Wrap;
    var found, pos := Peek(line, s, "(");
    PeekSymbol(line, s, '(');
    if found {
      r := ReadBlock(line, pos);
    } else {
      var lead := ReadRedirs(line, pos);
      if lead.NoFile? {
        return Failed;
      }
      r := ReadArgs(line, lead.pos, lead.redirs);
    }
  }

  method ReadBlock(line: string, s: nat) returns (r: Outcome)
    requires IsLine(line) && s <= |line| && Starts(Lex(line, s), '(')
    ensures Meets(line, r, ExecCmd(Lex(line, s)))
    decreases |Lex(line, s)|, 0
  {
    hide Lex, SkipSpace, ParseLine, ParseRedirs, Wrap, LineTree;
    assert ParseExec(Lex(line, s)) == ParseBlock(Lex(line, s));
    var _, _, _, start := GetToken(line, s);
    assert Lex(line, s)[1..] == Lex(line, start);
    var inner := ReadLine(line, start);
    if inner.Failed? {
      return Failed;
    }
    var found, pos := Peek(line, inner.pos, ")");
    PeekSymbol(line, inner.pos, ')');
    if !found {
      return Failed;
    }
    var _, _, _, next := GetToken(line, pos);
    assert Lex(line, pos)[1..] == Lex(line, next);
    var after := ReadRedirs(line, next);
    if after.NoFile? {
      return Failed;
    }
    r := Done(Wrap(inner.cmd, after.redirs), after.pos);
  }

  method ReadPipe(line: string, s: nat) returns (r: Outcome)
    requires IsLine(line) && s <= |line|
    ensures Meets(line, r, PipeCmd(Lex(line, s)))
    decreases |Lex(line, s)|, 2
  {
    hide Lex, SkipSpace, ParseExec, ExecTree;
    r := ReadExec(line, s);
    if r.Done? {
      var found, pos := Peek(line, r.pos, "|");
      PeekSymbol(line, r.pos, '|');
      if found {
        var _, _, _, next := GetToken(line, pos);
        assert Lex(line, pos)[1..] == Lex(line, next);
        var right := ReadPipe(line, next);
        r := if right.Done? then Done(Piping(r.cmd, right.cmd), right.pos) else Failed;
      } else {
        r := Done(r.cmd, pos);
      }
    }
  }

  /** The loop of parseline that takes the & signs. */
  method ReadAmps(line: string, s: nat, c: Cmd) returns (cmd: Cmd, pos: nat)
    requires IsLine(line) && s <= |line|
    ensures pos <= |line|
    ensures var n := CountAmps(Lex(line, s));
      cmd == InBackground(c, n) && Lex(line, pos) == Lex(line, s)[n..]
  {
    hide Lex, SkipSpace;
    cmd := c;
    ghost var n := 0;
    var found;
    found, pos := Peek(line, s, "&");
    while found
      invariant pos <= |line| && pos == SkipSpace(line, pos)
      invariant found <==> pos < |line| && line[pos] in "&"
      invariant n + CountAmps(Lex(line, pos)) == CountAmps(Lex(line, s)) && cmd == InBackground(c, n)
      invariant n <= |Lex(line, s)| && Lex(line, pos) == Lex(line, s)[n..]
      decreases |Lex(line, pos)|
    {
      PeekSymbol(line, pos, '&');
      var _, _, _, next := GetToken(line, pos);
      assert Lex(line, pos)[1..] == Lex(line, next);
      cmd := Back(cmd);
      n := n + 1;
      found, pos := Peek(line, next, "&");
    }
    PeekSymbol(line, pos, '&');
  }

  method ReadLine(line: string, s: nat) returns (r: Outcome)
    requires IsLine(line) && s <= |line|
    ensures Meets(line, r, LineCmd(Lex(line, s)))
    decreases |Lex(line, s)|, 3
  {
    hide Lex, SkipSpace, ParsePipe, PipeTree, CountAmps, InBackground;
    var first := ReadPipe(line, s);
    if first.Failed? {
      return Failed;
    }
    var cmd, pos := ReadAmps(line, first.pos, first.cmd);
    var found, at := Peek(line, pos, ";");
    PeekSymbol(line, pos, ';');
    if found {
      var _, _, _, next := GetToken(line, at);
      ghost var n := CountAmps(Lex(line, first.pos));
      assert Lex(line, at)[1..] == Lex(line, next) == Lex(line, first.pos)[n + 1..];
      var rest := ReadLine(line, next);
      r := if rest.Done? then Done(List(cmd, rest.cmd), rest.pos) else Failed;
    } else {
      r := Done(cmd, at);
    }
  }

  // ---------------------------------------------------------------- nulterminate

  /** Position k is the end of some word of the tree. */
  ghost predicate EndsWord(ws: multiset<Word>, k: int) {
    exists w :: w in ws && w.eq == k
  }

  ghost predicate Terminated(before: seq<char>, ws: multiset<Word>, after: seq<char>) {
    && |after| == |before|
    && forall k :: 0 <= k < |before| ==> after[k] == if EndsWord(ws, k) then '\0' else before[k]
  }

  lemma TerminatedWord(before: seq<char>, ws: multiset<Word>, mid: seq<char>, w: Word)
    requires Terminated(before, ws, mid) && w.eq < |mid|
    ensures Terminated(before, ws + multiset{w}, mid[w.eq := '\0'])
  {
    OneMoreWord(ws, w);
  }

  lemma TerminatedBoth(before: seq<char>, a: multiset<Word>, mid: seq<char>, b: multiset<Word>, after: seq<char>)
    requires Terminated(before, a, mid) && Terminated(mid, b, after)
    ensures Terminated(before, a + b, after)
  {
    forall k
      ensures EndsWord(a + b, k) <==> EndsWord(a, k) || EndsWord(b, k)
    {
      if EndsWord(a, k) {
        var v :| v in a && v.eq == k;
        assert v in a + b;
      }
      if EndsWord(b, k) {
        var v :| v in b && v.eq == k;
        assert v in a + b;
      }
    }
  }

  /** The EXEC case of nulterminate. */
  method TerminateArgs(buf: array<char>, argv: seq<Word>)
    requires forall w :: w in argv ==> w.eq < buf.Length
    modifies buf
    ensures Terminated(old(buf[..]), multiset(argv), buf[..])
  {
    hide EndsWord, Terminated;
    NothingTerminated(buf[..]);
    for i := 0 to |argv|
      invariant Terminated(old(buf[..]), multiset(argv[..i]), buf[..])
    {
      TerminatedWord(old(buf[..]), multiset(argv[..i]), buf[..], argv[i]);
      ghost var was := buf[..];
      buf[argv[i].eq] := '\0';
      assert buf[..] == was[argv[i].eq := '\0'];
      assert argv[..i + 1] == argv[..i] + [argv[i]];
    }
    assert argv[..|argv|] == argv;
  }

  lemma NothingTerminated(s: seq<char>)
    ensures Terminated(s, multiset{}, s)
  {
  }

  method NulTerminate(buf: array<char>, c: Cmd)
    requires forall w :: w in CmdWords(c) ==> w.eq < buf.Length
    modifies buf
    ensures Terminated(old(buf[..]), CmdWords(c), buf[..])
    decreases c
  {
    hide EndsWord, Terminated;
    match c {
      case Exec(argv) =>
        TerminateArgs(buf, argv);
      case Redirected(cmd, file, _, _) =>
        NulTerminate(buf, cmd);
        assert file in CmdWords(c);
        ghost var was := buf[..];
        TerminatedWord(old(buf[..]), CmdWords(cmd), was, file);
        buf[file.eq] := '\0';
        assert buf[..] == was[file.eq := '\0'];
      case Piping(left, right) =>
        NulTerminate(buf, left);
        ghost var was := buf[..];
        NulTerminate(buf, right);
        TerminatedBoth(old(buf[..]), CmdWords(left), was, CmdWords(right), buf[..]);
      case List(left, right) =>
        NulTerminate(buf, left);
        ghost var was := buf[..];
        NulTerminate(buf, right);
        TerminatedBoth(old(buf[..]), CmdWords(left), was, CmdWords(right), buf[..]);
      case Back(cmd) =>
        NulTerminate(buf, cmd);
    }
  }

  lemma OneMoreWord(ws: multiset<Word>, w: Word)
    ensures forall k :: EndsWord(ws + multiset{w}, k) <==> EndsWord(ws, k) || k == w.eq
  {
    forall k
      ensures EndsWord(ws + multiset{w}, k) <==> EndsWord(ws, k) || k == w.eq
    {
      assert w in ws + multiset{w};
      if EndsWord(ws, k) {
        var v :| v in ws && v.eq == k;
        assert v in ws + multiset{w};
      }
    }
  }

  // ---------------------------------------------------------------- parsecmd

  /** The C string at position i: the characters up to the first NUL. */
  function CString(b: seq<char>, i: nat): string
    requires i <= |b|
    decreases |b| - i
  {
    if i == |b| || b[i] == '\0' then [] else [b[i]] + CString(b, i + 1)
  }

  lemma {:induction false} CStringIs(b: seq<char>, i: nat, j: nat)
    requires i <= j < |b| && b[j] == '\0' && forall k :: i <= k < j ==> b[k] != '\0'
    ensures CString(b, i) == b[i..j]
    decreases j - i
  {
    if i < j {
      CStringIs(b, i + 1, j);
      assert b[i..j] == [b[i]] + b[i + 1..j];
    }
  }

  /** The word w of the line is what a reader of the buffer finds at its first character. */
  ghost predicate ReadsBack(line: string, b: seq<char>, w: Word) {
    w.q < w.eq <= |line| && w.eq < |b| && CString(b, w.q) == line[w.q..w.eq]
  }

  /** No terminator lands inside a word: it would overwrite a character that is no word character. */
  lemma WordReads(line: string, rest: seq<char>, ws: multiset<Word>, after: seq<char>, w: Word)
    requires IsLine(line) && |rest| > 0
    requires forall v :: v in ws ==> MaximalWord(line, v)
    requires Terminated(line + rest, ws, after) && w in ws
    ensures ReadsBack(line, after, w)
  {
    assert forall v :: v in ws ==> v.eq == |line| || !IsWordChar(line[v.eq]);
    forall k | w.q <= k < w.eq
      ensures !EndsWord(ws, k)
    {
      assert IsWordChar(line[k]);
    }
    assert EndsWord(ws, w.eq);
    CStringIs(after, w.q, w.eq);
    assert after[w.q..w.eq] == line[w.q..w.eq];
  }

  ghost predicate Derives(d: LineD, ts: seq<Token>) {
    LineOk(d) && LineTokens(d) == ts
  }

  /** What parsecmd accepts: exactly the token lists of the grammar, each with one derivation. */
  lemma AcceptsExactly(ts: seq<Token>, d: LineD)
    ensures Derives(d, ts) <==> ParseLine(ts) == Ok(d, [])
  {
    if Derives(d, ts) {
      LineComplete(d, []);
      assert LineTokens(d) + [] == ts;
    }
    if ParseLine(ts) == Ok(d, []) {
      LineSound(ts);
      assert LineTokens(d) + [] == LineTokens(d);
    }
  }

  method Length(buf: array<char>) returns (n: nat)
    requires '\0' in buf[..]
    ensures n < buf.Length && buf[n] == '\0' && IsLine(buf[..n])
  {
    n := 0;
    while buf[n] != '\0'
      invariant n < buf.Length && IsLine(buf[..n]) && '\0' in buf[n..]
      decreases buf.Length - n
    {
      assert buf[n..] == [buf[n]] + buf[n + 1..];
      n := n + 1;
    }
  }

  lemma LexEnd(line: string, s: nat)
    requires s <= |line|
    ensures Lex(line, s) == [] <==> SkipSpace(line, s) == |line|
  {
  }

  lemma AllWordsMaximal(line: string, ws: multiset<Word>)
    requires ws == TokenWords(Lex(line, 0))
    ensures forall w :: w in ws ==> MaximalWord(line, w)
  {
    forall w | w in ws
      ensures MaximalWord(line, w)
    {
      TokenWordsIn(Lex(line, 0), w);
      WordsExact(line, w);
    }
  }

  lemma LexSorted(line: string)
    ensures Sorted(Lex(line, 0))
  {
    var ts := Lex(line, 0);
    forall i, j | 0 <= i < j < |ts| && ts[i].W? && ts[j].W?
      ensures ts[i].word.eq <= ts[j].word.q
    {
      WordsOnce(line, 0, i, j);
    }
  }

  /** parsecmd. The ghost result is the derivation of an accepted line. */
  method Parse(buf: array<char>) returns (r: Outcome, n: nat, ghost d: LineD)
    requires '\0' in buf[..]
    modifies buf
    ensures n < buf.Length && old(buf[n]) == '\0' && IsLine(old(buf[..n]))
    ensures r.Done? ==> Derives(d, Lex(old(buf[..n]), 0)) && r.cmd == LineTree(d) && r.pos == n
    ensures r.Failed? ==> buf[..] == old(buf[..]) && forall e :: !Derives(e, Lex(old(buf[..n]), 0))
    ensures r.Done? ==> PrintsLine(r.cmd, Lex(old(buf[..n]), 0)) && InOrder(r.cmd)
    ensures r.Done? ==> CmdWords(r.cmd) == TokenWords(Lex(old(buf[..n]), 0))
    ensures r.Done? ==> Terminated(old(buf[..]), CmdWords(r.cmd), buf[..])
    ensures r.Done? ==> forall w :: w in CmdWords(r.cmd) ==> ReadsBack(old(buf[..n]), buf[..], w)
  {
    hide Lex, SkipSpace, LineTokens, ParseLine, LineTree, LineOk, CmdWords, TokenWords, Terminated, EndsWord, CString,
      PrintsLine, InOrder, Sorted;
    n := Length(buf);
    var line := buf[..n];
    ghost var ts := Lex(line, 0);
    ghost var before := buf[..];
    assert before == line + buf[n..];
    ghost var parsed := ParseLine(ts);
    d := if parsed.Ok? then parsed.value else LastLine(LastPipe(Simple([], [])), 0);
    forall e
      ensures Derives(e, ts) <==> parsed == Ok(e, [])
    {
      AcceptsExactly(ts, e);
    }
    r := ReadLine(line, 0);
    if r.Failed? {
      return;
    }
    var _, pos := Peek(line, r.pos, "");
    LexEnd(line, r.pos);
    if pos != n {
      r := Failed;
      return;
    }
    r := Done(r.cmd, pos);
    LineWords(d);
    LinePrints(d);
    LexSorted(line);
    LineInOrder(d);
    AllWordsMaximal(line, CmdWords(r.cmd));
    NulTerminate(buf, r.cmd);
    forall w | w in CmdWords(r.cmd)
      ensures ReadsBack(line, buf[..], w)
    {
      WordReads(line, before[n..], CmdWords(r.cmd), buf[..], w);
    }
  }
}
