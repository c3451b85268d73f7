/**
 The tokens of a command line (sh.c): gettoken and peek over a buffer whose text is `line`,
 a string without NUL; position |line| is where the terminating NUL sits.
 */
module ShellLexer {
  import opened ShellGrammar

  predicate IsSpace(c: char) { c == ' ' || c == '\t' || c == '\r' || c == '\n' || c == 11 as char }
  predicate IsSymbol(c: char) { c == '>' || IsSingle(c) }

  /** The symbols that are a token by themselves. */
  predicate IsSingle(c: char) { c == '|' || c == '(' || c == ')' || c == ';' || c == '&' || c == '<' }

  predicate IsWordChar(c: char) { !IsSpace(c) && !IsSymbol(c) }

  predicate IsLine(line: string) { forall i :: 0 <= i < |line| ==> line[i] != '\0' }

  /** The strings whitespace and symbols of sh.c. */
  lemma CharacterSets(c: char)
    ensures IsSpace(c) <==> c in " \t\r\n\U{B}"
    ensures IsSymbol(c) <==> c in "<|>&;()"
  {
  }

  /** The first position at or after s that holds no white space. */
  function SkipSpace(line: string, s: nat): (r: nat)
    requires s <= |line|
    ensures s <= r <= |line| && (r < |line| ==> !IsSpace(line[r]))
    ensures forall i :: s <= i < r ==> IsSpace(line[i])
    decreases |line| - s
  {
    if s < |line| && IsSpace(line[s]) then SkipSpace(line, s + 1) else s
  }

  /** The end of the run of word characters at s. */
  function SkipWord(line: string, s: nat): (r: nat)
    requires s <= |line|
    ensures s <= r <= |line| && (r < |line| ==> !IsWordChar(line[r]))
    ensures forall i :: s <= i < r ==> IsWordChar(line[i])
    decreases |line| - s
  {
    if s < |line| && IsWordChar(line[s]) then SkipWord(line, s + 1) else s
  }

  function TokenEnd(line: string, q: nat): (r: nat)
    requires q < |line| && !IsSpace(line[q])
    ensures q < r <= |line|
  {
    if IsWordChar(line[q]) then SkipWord(line, q)
    else if line[q] == '>' && q + 1 < |line| && line[q + 1] == '>' then q + 2
    else q + 1
  }

  function TokenAt(line: string, q: nat): (t: Token)
    requires q < |line| && !IsSpace(line[q])
  {
    if IsWordChar(line[q]) then W(Word(q, TokenEnd(line, q)))
    else if TokenEnd(line, q) == q + 2 then Sym('+')
    else Sym(line[q])
  }

  /** All tokens from position s to the end of the line. */
  function Lex(line: string, s: nat): (ts: seq<Token>)
    requires s <= |line|
    decreases |line| - s
  {
    var q := SkipSpace(line, s);
    if q == |line| then []
    else [TokenAt(line, q)] + Lex(line, TokenEnd(line, q))
  }

  lemma LexSkips(line: string, s: nat)
    requires s <= |line|
    ensures Lex(line, SkipSpace(line, s)) == Lex(line, s)
  {
    var q := SkipSpace(line, s);
    assert SkipSpace(line, q) == q;
  }

  // ---------------------------------------------------------------- words

  /** A maximal run of word characters. */
  ghost predicate MaximalWord(line: string, w: Word) {
    && w.q < w.eq <= |line|
    && (forall i :: w.q <= i < w.eq ==> IsWordChar(line[i]))
    && (w.q == 0 || !IsWordChar(line[w.q - 1]))
    && (w.eq == |line| || !IsWordChar(line[w.eq]))
  }

  /** Position s does not split a word. */
  ghost predicate Boundary(line: string, s: nat) {
    s == 0 || s >= |line| || !IsWordChar(line[s - 1]) || !IsWordChar(line[s])
  }

  lemma {:induction false} LexedWord(line: string, s: nat, w: Word)
    requires s <= |line| && Boundary(line, s)
    ensures W(w) in Lex(line, s) <==> MaximalWord(line, w) && s <= w.q
    decreases |line| - s
  {
    var q := SkipSpace(line, s);
    if q < |line| {
      var eq := TokenEnd(line, q);
      assert Boundary(line, eq);
      LexedWord(line, eq, w);
      assert W(w) in Lex(line, s) <==> W(w) == TokenAt(line, q) || W(w) in Lex(line, eq);
      if MaximalWord(line, w) && s <= w.q {
        assert IsWordChar(line[w.q]);
        assert !(s <= w.q < q);
        if w.q < eq {
          FirstWord(line, s, q, w);
        }
      }
      if W(w) == TokenAt(line, q) {
        assert q == s || IsSpace(line[q - 1]);
      }
    } else {
      assert MaximalWord(line, w) ==> IsWordChar(line[w.q]);
    }
  }

  /** A maximal word that starts inside the token at q is that token. */
  lemma FirstWord(line: string, s: nat, q: nat, w: Word)
    requires s <= q < |line| && !IsSpace(line[q]) && MaximalWord(line, w)
    requires q <= w.q < TokenEnd(line, q)
    ensures W(w) == TokenAt(line, q)
  {
    assert IsWordChar(line[w.q]);
    assert IsWordChar(line[q]);
    assert forall i :: q <= i < TokenEnd(line, q) ==> IsWordChar(line[i]);
  }

  /** The words gettoken delivers over a whole line are exactly its maximal words. */
  lemma WordsExact(line: string, w: Word)
    ensures W(w) in Lex(line, 0) <==> MaximalWord(line, w)
  {
    LexedWord(line, 0, w);
  }

  /** Each one once. */
  lemma {:induction false} WordsOnce(line: string, s: nat, i: nat, j: nat)
    requires s <= |line| && i < j < |Lex(line, s)| && Lex(line, s)[i].W? && Lex(line, s)[j].W?
    ensures s <= Lex(line, s)[i].word.q < Lex(line, s)[i].word.eq <= Lex(line, s)[j].word.q
    decreases |line| - s
  {
    var q := SkipSpace(line, s);
    var eq := TokenEnd(line, q);
    if i == 0 {
      StartsLater(line, eq, j - 1);
      assert Lex(line, s)[j] == Lex(line, eq)[j - 1];
    } else {
      WordsOnce(line, eq, i - 1, j - 1);
    }
  }

  lemma {:induction false} StartsLater(line: string, s: nat, j: nat)
    requires s <= |line| && j < |Lex(line, s)| && Lex(line, s)[j].W?
    ensures s <= Lex(line, s)[j].word.q
    decreases |line| - s
  {
    if j > 0 {
      StartsLater(line, TokenEnd(line, SkipSpace(line, s)), j - 1);
    }
  }

  // ---------------------------------------------------------------- the text of tokens

  /** The characters of the line from s on that are not white space. */
  function Dense(line: string, s: nat): string
    requires s <= |line|
    decreases |line| - s
  {
    if s == |line| then "" else (if IsSpace(line[s]) then "" else [line[s]]) + Dense(line, s + 1)
  }

  function Text(line: string, t: Token): string {
    match t
    case W(w) => if w.q <= w.eq <= |line| then line[w.q..w.eq] else ""
    case Sym(c) => if c == '+' then ">>" else [c]
  }

  function Texts(line: string, ts: seq<Token>): string {
    if ts == [] then "" else Text(line, ts[0]) + Texts(line, ts[1..])
  }

  lemma {:induction false} DenseSkip(line: string, s: nat, r: nat)
    requires s <= r <= |line| && forall i :: s <= i < r ==> IsSpace(line[i])
    ensures Dense(line, s) == Dense(line, r)
    decreases r - s
  {
    if s < r { DenseSkip(line, s + 1, r); }
  }

  lemma DenseStep(line: string, s: nat)
    requires s < |line| && !IsSpace(line[s])
    ensures Dense(line, s) == [line[s]] + Dense(line, s + 1)
  {
  }

  lemma {:induction false} DenseTake(line: string, s: nat, r: nat)
    requires s <= r <= |line| && forall i :: s <= i < r ==> !IsSpace(line[i])
    ensures Dense(line, s) == line[s..r] + Dense(line, r)
    decreases r - s
  {
    hide IsSpace;
    if s == r {
      assert line[s..r] == "";
    } else {
      DenseTake(line, s + 1, r);
      DenseStep(line, s);
      var first, rest, tail := [line[s]], line[s + 1..r], Dense(line, r);
      assert line[s..r] == first + rest;
      assert first + (rest + tail) == first + rest + tail;
    }
  }

  lemma NothingDense(line: string)
    ensures Dense(line, |line|) == ""
  {
  }

  lemma TokenText(line: string, q: nat)
    requires q < |line| && !IsSpace(line[q])
    ensures Text(line, TokenAt(line, q)) == line[q..TokenEnd(line, q)]
    ensures forall i :: q <= i < TokenEnd(line, q) ==> !IsSpace(line[i])
  {
  }

  /** The tokens of a line are all of its text: nothing but white space is skipped. */
  lemma {:induction false} LexText(line: string, s: nat)
    requires s <= |line|
    ensures Texts(line, Lex(line, s)) == Dense(line, s)
    decreases |line| - s
  {
    hide TokenAt, TokenEnd, Dense, SkipSpace, IsSpace, Text;
    var q := SkipSpace(line, s);
    DenseSkip(line, s, q);
    if q < |line| {
      var e := TokenEnd(line, q);
      LexText(line, e);
      TokenText(line, q);
      DenseTake(line, q, e);
      assert Lex(line, s)[1..] == Lex(line, e);
    } else {
      NothingDense(line);
    }
  }

  /** Two greater signs in a row are one token, a single one another. */
  lemma GreaterSigns(line: string, q: nat)
    requires q < |line| && line[q] == '>'
    ensures ">>" <= line[q..] ==> Lex(line, q) == [Sym('+')] + Lex(line, q + 2)
    ensures !(">>" <= line[q..]) ==> Lex(line, q) == [Sym('>')] + Lex(line, q + 1)
  {
    assert SkipSpace(line, q) == q;
    assert q + 1 < |line| && line[q + 1] == '>' ==> line[q..q + 2] == ">>" && line[q..][..2] == line[q..q + 2];
  }

  // ---------------------------------------------------------------- reading tokens

  method SkipSpaces(line: string, s: nat) returns (pos: nat)
    requires s <= |line|
    ensures pos == SkipSpace(line, s)
  {
    pos := s;
    while pos < |line| && IsSpace(line[pos])
      invariant s <= pos <= |line| && SkipSpace(line, pos) == SkipSpace(line, s)
    {
      pos := pos + 1;
    }
  }

  /** peek(ps, es, toks): step over white space, then look at one character. */
  method Peek(line: string, s: nat, toks: string) returns (found: bool, pos: nat)
    requires s <= |line|
    ensures pos == SkipSpace(line, s) && Lex(line, pos) == Lex(line, s)
    ensures found <==> pos < |line| && line[pos] in toks
  {
    pos := SkipSpaces(line, s);
    LexSkips(line, s);
    found := pos < |line| && line[pos] in toks;
  }

  /** What a peek for one symbol tells about the tokens ahead. */
  lemma PeekSymbol(line: string, s: nat, c: char)
    requires s <= |line| && c in "|();&"
    ensures SkipSpace(line, s) < |line| && line[SkipSpace(line, s)] == c <==> Starts(Lex(line, s), c)
  {
  }

  lemma PeekRedir(line: string, s: nat)
    requires s <= |line|
    ensures SkipSpace(line, s) < |line| && line[SkipSpace(line, s)] in "<>" <==> StartsRedir(Lex(line, s))
  {
  }

  lemma LexStep(line: string, s: nat)
    requires s <= |line|
    ensures var q := SkipSpace(line, s);
      if q == |line| then Lex(line, s) == []
      else Lex(line, s) == [TokenAt(line, q)] + Lex(line, SkipSpace(line, TokenEnd(line, q)))
  {
    var q := SkipSpace(line, s);
    if q < |line| {
      LexSkips(line, TokenEnd(line, q));
    }
  }

  /** The switch of gettoken, at a character that is not white space. */
  method ScanToken(line: string, q: nat) returns (tok: char, eq: nat)
    requires IsLine(line) && q < |line| && !IsSpace(line[q])
    ensures tok != '\0' && eq == TokenEnd(line, q)
    ensures TokenAt(line, q) == if tok == 'a' then W(Word(q, eq)) else Sym(tok)
  {
    eq := q;
    if IsSingle(line[q]) {
      tok := line[q];
      eq := eq + 1;
    } else if line[q] == '>' {
      tok := '>';
      eq := eq + 1;
      if eq < |line| && line[eq] == '>' {
        tok := '+';
        eq := eq + 1;
      }
    } else {
      tok := 'a';
      while eq < |line| && !IsSpace(line[eq]) && !IsSymbol(line[eq])
        invariant q <= eq <= |line| && SkipWord(line, eq) == SkipWord(line, q)
      {
        eq := eq + 1;
      }
    }
  }

  /** gettoken: 'a' for a word, '\0' at the end of the line, '+' for >>, else the symbol. */
  method GetToken(line: string, s: nat) returns (tok: char, q: nat, eq: nat, pos: nat)
    requires IsLine(line) && s <= |line|
    ensures s <= q <= eq <= pos <= |line|
    ensures tok == '\0' <==> Lex(line, s) == []
    ensures tok == '\0' ==> Lex(line, pos) == []
    ensures tok != '\0' ==> Lex(line, s) == [if tok == 'a' then W(Word(q, eq)) else Sym(tok)] + Lex(line, pos)
  {
    hide TokenAt, TokenEnd, SkipSpace, Lex;
    LexStep(line, s);
    q := SkipSpaces(line, s);
    if q == |line| {
      tok := '\0';
      eq := q;
    } else {
      tok, eq := ScanToken(line, q);
    }
    pos := SkipSpaces(line, eq);
    LexStep(line, q);
  }
}
