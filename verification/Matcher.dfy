/**
 The regular expression matcher of grep.c, against a declarative meaning of its patterns.

 Strings are C strings without their terminating NUL, which no pattern character equals.
 */
module Matcher {

  /** One character, or any number of them; '.' stands for any character. */
  datatype Item = One(c: char) | Many(c: char)

  datatype Pattern = Pattern(items: seq<Item>, toEnd: bool)

  /** How a pattern is read: c* first, then a final $, then single characters. */
  function Parse(re: string): Pattern {
    if re == [] then Pattern([], false)
    else if |re| >= 2 && re[1] == '*' then
      var rest := Parse(re[2..]);
      Pattern([Many(re[0])] + rest.items, rest.toEnd)
    else if re == "$" then Pattern([], true)
    else
      var rest := Parse(re[1..]);
      Pattern([One(re[0])] + rest.items, rest.toEnd)
  }

  // ---------------------------------------------------------------- reading back

  /** The string a pattern is written as. */
  function Render(p: Pattern): string
    decreases |p.items|
  {
    if p.items == [] then if p.toEnd then "$" else ""
    else
      (match p.items[0] case One(c) => [c] case Many(c) => [c, '*'])
      + Render(Pattern(p.items[1..], p.toEnd))
  }

  /** No single character stands where it would be read as part of c* or as a final $. */
  ghost predicate Readable(p: Pattern)
    decreases |p.items|
  {
    p.items == [] ||
      var rest := Pattern(p.items[1..], p.toEnd);
      && Readable(rest)
      && (p.items[0].One? ==> !("*" <= Render(rest)) && !(p.items[0].c == '$' && Render(rest) == ""))
  }

  lemma {:induction false} ParseRenders(re: string)
    ensures Render(Parse(re)) == re && Readable(Parse(re))
  {
    if re == [] || re == "$" {
    } else if |re| >= 2 && re[1] == '*' {
      ParseRenders(re[2..]);
      var p := Parse(re);
      assert Pattern(p.items[1..], p.toEnd) == Parse(re[2..]);
      assert re == [re[0], '*'] + re[2..];
    } else {
      ParseRenders(re[1..]);
      var p := Parse(re);
      assert Pattern(p.items[1..], p.toEnd) == Parse(re[1..]);
      assert re == [re[0]] + re[1..];
    }
  }

  lemma {:induction false} RenderParses(p: Pattern)
    requires Readable(p)
    ensures Parse(Render(p)) == p
    decreases |p.items|
  {
    if p.items != [] {
      var rest := Pattern(p.items[1..], p.toEnd);
      RenderParses(rest);
      var re := Render(p);
      assert p.items == [p.items[0]] + rest.items;
      if p.items[0].One? {
        assert re == [p.items[0].c] + Render(rest) && re[1..] == Render(rest);
      } else {
        assert re == [p.items[0].c, '*'] + Render(rest) && re[2..] == Render(rest);
      }
    }
  }

  /** A string is read as the one pattern that is written so and can be read back. */
  lemma ParseExact(re: string, p: Pattern)
    ensures Parse(re) == p <==> Render(p) == re && Readable(p)
  {
    ParseRenders(re);
    if Render(p) == re && Readable(p) {
      RenderParses(p);
    }
  }

  predicate Hits(c: char, x: char) { c == '.' || c == x }

  // ---------------------------------------------------------------- meaning

  ghost predicate Fits(item: Item, part: string) {
    match item
    case One(c) => |part| == 1 && Hits(c, part[0])
    case Many(c) => forall k :: 0 <= k < |part| ==> Hits(c, part[k])
  }

  function Flatten(parts: seq<string>): string {
    if parts == [] then [] else parts[0] + Flatten(parts[1..])
  }

  /** parts cuts a word into one piece per item. */
  ghost predicate Cut(items: seq<Item>, parts: seq<string>) {
    |parts| == |items| && forall k :: 0 <= k < |items| ==> Fits(items[k], parts[k])
  }

  /** Some beginning of text, or all of it if the pattern ends in $, is a word of the pattern. */
  ghost predicate Begins(p: Pattern, text: string) {
    exists parts :: BeginsWith(p, text, parts)
  }

  ghost predicate BeginsWith(p: Pattern, text: string, parts: seq<string>) {
    && Cut(p.items, parts)
    && Flatten(parts) <= text
    && (p.toEnd ==> Flatten(parts) == text)
  }

  /** A leading ^ ties the match to the start of the text. */
  ghost predicate Matches(re: string, text: string) {
    if re != [] && re[0] == '^' then Begins(Parse(re[1..]), text)
    else exists i :: 0 <= i <= |text| && Begins(Parse(re), text[i..])
  }

  // ---------------------------------------------------------------- unfolding the meaning

  lemma BeginsNothing(text: string, toEnd: bool)
    ensures Begins(Pattern([], toEnd), text) <==> !toEnd || text == []
  {
    assert !toEnd || text == [] ==> BeginsWith(Pattern([], toEnd), text, []);
  }

  ghost function Prefixed(item: Item, rest: Pattern): Pattern {
    Pattern([item] + rest.items, rest.toEnd)
  }

  lemma FirstPart(item: Item, rest: Pattern, text: string, parts: seq<string>)
    requires BeginsWith(Prefixed(item, rest), text, parts)
    ensures parts != [] && |parts[0]| <= |text| && parts[0] == text[..|parts[0]|] && Fits(item, parts[0])
    ensures BeginsWith(rest, text[|parts[0]|..], parts[1..])
  {
    var p := Prefixed(item, rest);
    assert Fits(p.items[0], parts[0]);
    assert Flatten(parts) == parts[0] + Flatten(parts[1..]);
    forall j | 0 <= j < |rest.items| ensures Fits(rest.items[j], parts[1..][j]) {
      assert Fits(p.items[j + 1], parts[j + 1]);
    }
  }

  lemma AddPart(item: Item, rest: Pattern, text: string, k: nat, parts: seq<string>)
    requires k <= |text| && Fits(item, text[..k]) && BeginsWith(rest, text[k..], parts)
    ensures BeginsWith(Prefixed(item, rest), text, [text[..k]] + parts)
  {
    var p, whole := Prefixed(item, rest), [text[..k]] + parts;
    assert whole[1..] == parts;
    forall j | 0 <= j < |p.items| ensures Fits(p.items[j], whole[j]) {
      if j > 0 { assert p.items[j] == rest.items[j - 1] && whole[j] == parts[j - 1]; }
    }
  }

  /** An item takes a first part off the text. */
  lemma BeginsItem(item: Item, rest: Pattern, text: string)
    ensures Begins(Prefixed(item, rest), text) <==>
            exists k :: 0 <= k <= |text| && Fits(item, text[..k]) && Begins(rest, text[k..])
  {
    if Begins(Prefixed(item, rest), text) {
      var parts :| BeginsWith(Prefixed(item, rest), text, parts);
      FirstPart(item, rest, text, parts);
    }
    if k :| 0 <= k <= |text| && Fits(item, text[..k]) && Begins(rest, text[k..]) {
      var parts :| BeginsWith(rest, text[k..], parts);
      AddPart(item, rest, text, k, parts);
    }
  }

  lemma BeginsOne(c: char, rest: Pattern, text: string)
    ensures Begins(Prefixed(One(c), rest), text) <==>
            text != [] && Hits(c, text[0]) && Begins(rest, text[1..])
  {
    BeginsItem(One(c), rest, text);
    if text != [] && Hits(c, text[0]) && Begins(rest, text[1..]) {
      assert Fits(One(c), text[..1]);
    }
  }

  lemma BeginsMany(c: char, rest: Pattern, text: string)
    ensures Begins(Prefixed(Many(c), rest), text) <==>
            exists k :: StarTakes(c, text, k) && Begins(rest, text[k..])
  {
    BeginsItem(Many(c), rest, text);
    if k :| 0 <= k <= |text| && Fits(Many(c), text[..k]) && Begins(rest, text[k..]) {
      assert forall m :: 0 <= m < k ==> text[..k][m] == text[m];
      assert StarTakes(c, text, k);
    }
    if k :| StarTakes(c, text, k) && Begins(rest, text[k..]) {
      assert Fits(Many(c), text[..k]);
    }
  }

  ghost predicate StarTakes(c: char, text: string, k: int) {
    0 <= k <= |text| && forall m :: 0 <= m < k ==> Hits(c, text[m])
  }

  // ---------------------------------------------------------------- patterns without repetition

  /** Characters and dots only. */
  ghost predicate Plain(re: string) {
    forall i :: 0 <= i < |re| ==> re[i] !in "*$^"
  }

  /** text begins with re, where a dot stands for any one character. */
  ghost predicate Covers(re: string, text: string) {
    |re| <= |text| && forall i :: 0 <= i < |re| ==> re[i] == '.' || re[i] == text[i]
  }

  lemma CoversStep(re: string, text: string)
    requires re != [] && text != []
    ensures Covers(re, text) <==> (re[0] == '.' || re[0] == text[0]) && Covers(re[1..], text[1..])
  {
    if Covers(re[1..], text[1..]) {
      assert forall i :: 1 <= i < |re| ==> re[i] == re[1..][i - 1] && text[i] == text[1..][i - 1];
    }
  }

  lemma {:induction false} PlainBegins(re: string, text: string)
    requires Plain(re)
    ensures Begins(Parse(re), text) <==> Covers(re, text)
    ensures Begins(Parse(re + "$"), text) <==> Covers(re, text) && |re| == |text|
  {
    if re == [] {
      BeginsNothing(text, false);
      BeginsNothing(text, true);
      assert re + "$" == "$";
    } else {
      var end := re + "$";
      assert end[0] == re[0] && end[1..] == re[1..] + "$";
      assert Parse(re) == Prefixed(One(re[0]), Parse(re[1..]));
      assert Parse(end) == Prefixed(One(re[0]), Parse(re[1..] + "$"));
      BeginsOne(re[0], Parse(re[1..]), text);
      BeginsOne(re[0], Parse(re[1..] + "$"), text);
      if text != [] {
        PlainBegins(re[1..], text[1..]);
        CoversStep(re, text);
      }
    }
  }

  /** Such a pattern matches exactly the texts it occurs in; with ^ before it or $ after it, it has
      to occur at the beginning or at the end. */
  lemma PlainMatches(re: string, text: string)
    requires Plain(re)
    ensures Matches(re, text) <==> exists i :: 0 <= i <= |text| && Covers(re, text[i..])
    ensures Matches("^" + re, text) <==> Covers(re, text)
    ensures Matches(re + "$", text) <==> |re| <= |text| && Covers(re, text[|text| - |re|..])
  {
    forall i | 0 <= i <= |text|
      ensures Begins(Parse(re), text[i..]) <==> Covers(re, text[i..])
      ensures Begins(Parse(re + "$"), text[i..]) <==> Covers(re, text[i..]) && |re| == |text| - i
    {
      PlainBegins(re, text[i..]);
    }
    PlainBegins(re, text);
    assert ("^" + re)[1..] == re;
    assert re + "$" != [] && (re + "$")[0] != '^';
  }

  /** A starred character alone matches exactly the texts made of it. */
  lemma StarMatches(c: char, text: string)
    requires c != '^'
    ensures Matches(['^', c, '*', '$'], text) <==> forall i :: 0 <= i < |text| ==> c == '.' || text[i] == c
  {
    var re := [c, '*', '$'];
    assert ['^', c, '*', '$'][1..] == re && re[2..] == "$";
    assert Parse(re) == Prefixed(Many(c), Parse("$"));
    BeginsMany(c, Parse("$"), text);
    forall k | 0 <= k <= |text|
      ensures Begins(Parse("$"), text[k..]) <==> k == |text|
    {
      BeginsNothing(text[k..], true);
    }
    if forall i :: 0 <= i < |text| ==> c == '.' || text[i] == c {
      assert StarTakes(c, text, |text|);
    }
  }

  // ---------------------------------------------------------------- grep.c

  method MatchHere(re: string, text: string) returns (r: bool)
    ensures r <==> Begins(Parse(re), text)
    decreases |re|, 0
  {
    if re == [] {
      BeginsNothing(text, false);
      return true;
    }
    if |re| >= 2 && re[1] == '*' {
      r := MatchStar(re[0], re[2..], text);
      BeginsMany(re[0], Parse(re[2..]), text);
      return;
    }
    if re[0] == '$' && |re| == 1 {
      BeginsNothing(text, true);
      return text == [];
    }
    BeginsOne(re[0], Parse(re[1..]), text);
    if text != [] && (re[0] == '.' || re[0] == text[0]) {
      r := MatchHere(re[1..], text[1..]);
      return;
    }
    return false;
  }

  method MatchStar(c: char, re: string, text: string) returns (r: bool)
    ensures r <==> exists k :: StarTakes(c, text, k) && Begins(Parse(re), text[k..])
    decreases |re|, 1
  {
    var k := 0;
    while true
      invariant StarTakes(c, text, k)
      invariant forall j :: 0 <= j < k ==> !Begins(Parse(re), text[j..])
      decreases |text| - k
    {
      r := MatchHere(re, text[k..]);
      if r { return; }
      if !(k < |text| && (text[k] == c || c == '.')) { return false; }
      k := k + 1;
    }
  }

  method Match(re: string, text: string) returns (r: bool)
    ensures r <==> Matches(re, text)
  {
    if re != [] && re[0] == '^' {
      r := MatchHere(re[1..], text);
      return;
    }
    var i := 0;
    while true
      invariant 0 <= i <= |text|
      invariant forall j :: 0 <= j < i ==> !Begins(Parse(re), text[j..])
      decreases |text| - i
    {
      r := MatchHere(re, text[i..]);
      if r { return; }
      if i == |text| { return false; }
      i := i + 1;
    }
  }
}
