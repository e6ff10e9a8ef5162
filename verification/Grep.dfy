/**
The pattern matcher of grep (grep.c).  A pattern is read as a sequence of items; its language is the set
of concatenations of one piece per item.  The recursive matcher is sound and complete for it.
*/
module Grep {
  /** One character, any number of a character, or the end of the text. */
  datatype Item = One(c: char) | Star(c: char) | Eol

  /** Only here are *, and $ at the very end, special; elsewhere they and ^ stand for themselves. */
  function Parse(re: string): (r: seq<Item>)
  {
    if re == "" then []
    else if |re| >= 2 && re[1] == '*' then [Star(re[0])] + Parse(re[2..])
    else if re == "$" then [Eol]
    else [One(re[0])] + Parse(re[1..])
  }

  predicate Fits(c: char, x: char) {
    c == '.' || c == x
  }

  predicate AllFit(c: char, x: string) {
    forall i :: 0 <= i < |x| ==> Fits(c, x[i])
  }

  /** The strings an item stands for. */
  predicate InItem(it: Item, x: string) {
    match it
    case One(c) => |x| == 1 && Fits(c, x[0])
    case Star(c) => AllFit(c, x)
    case Eol => x == ""
  }

  function Concat(ps: seq<string>): string {
    if ps == [] then "" else ps[0] + Concat(ps[1..])
  }

  ghost predicate Reads(items: seq<Item>, ps: seq<string>) {
    |ps| == |items| && forall i :: 0 <= i < |ps| ==> InItem(items[i], ps[i])
  }

  /** The items end with the end of the text. */
  predicate Anchored(items: seq<Item>) {
    items != [] && items[|items| - 1] == Eol
  }

  ghost predicate ReadsText(items: seq<Item>, ps: seq<string>, text: string) {
    Reads(items, ps) && Concat(ps) <= text && (Anchored(items) ==> Concat(ps) == text)
  }

  /** Some prefix of text is in the language; all of text, if the pattern ends with $. */
  ghost predicate PrefixIn(items: seq<Item>, text: string) {
    exists ps :: ReadsText(items, ps, text)
  }

  /** What grep looks for in a line. */
  ghost predicate Occurs(re: string, text: string) {
    if re != "" && re[0] == '^' then PrefixIn(Parse(re[1..]), text)
    else exists i :: 0 <= i <= |text| && PrefixIn(Parse(re), text[i..])
  }

  // ----- the language of a pattern, one item at a time -----

  lemma EmptyPattern(text: string)
    ensures PrefixIn([], text)
  {
    assert ReadsText([], [], text);
  }

  lemma EndPattern(text: string)
    ensures PrefixIn([Eol], text) <==> text == ""
  {
    if text == "" {
      assert Concat([""]) == "";
      assert ReadsText([Eol], [""], text);
    }
    forall ps | ReadsText([Eol], ps, text)
      ensures text == ""
    {
      assert InItem([Eol][0], ps[0]);
      assert ps == [""];
      assert Concat(ps) == ps[0] + Concat(ps[1..]);
    }
  }

  /** Reading item it and then rest is reading a piece x of it and then rest after x. */
  lemma ConsReads(it: Item, rest: seq<Item>, text: string, x: string)
    requires InItem(it, x) && x <= text && (it == Eol ==> rest == []) && rest != [] && PrefixIn(rest, text[|x|..])
    ensures PrefixIn([it] + rest, text)
  {
    var ps :| ReadsText(rest, ps, text[|x|..]);
    var qs := [x] + ps;
    assert qs[1..] == ps;
    assert Concat(qs) == x + Concat(ps);
    assert text == x + text[|x|..];
    assert ReadsText([it] + rest, qs, text);
  }

  lemma LastReads(it: Item, text: string, x: string)
    requires InItem(it, x) && x <= text && it != Eol
    ensures PrefixIn([it], text)
  {
    assert Concat([x]) == x + Concat([x][1..]);
    assert ReadsText([it], [x], text);
  }

  lemma HeadReads(it: Item, rest: seq<Item>, text: string) returns (x: string)
    requires PrefixIn([it] + rest, text)
    ensures InItem(it, x) && x <= text
    ensures PrefixIn(rest, text[|x|..])
  {
    var items := [it] + rest;
    var ps :| ReadsText(items, ps, text);
    x := ps[0];
    assert InItem(items[0], ps[0]);
    assert Concat(ps) == x + Concat(ps[1..]);
    assert Reads(rest, ps[1..]) by {
      forall i | 0 <= i < |rest|
        ensures InItem(rest[i], ps[1..][i])
      {
        assert InItem(items[i + 1], ps[i + 1]);
      }
    }
    var t := text[|x|..];
    assert Concat(ps[1..]) <= t by {
      assert Concat(ps[1..]) == Concat(ps)[|x|..];
    }
    assert ReadsText(rest, ps[1..], t);
  }

  /** Some run of c at the start of text leaves rest matching. */
  ghost predicate RunThen(c: char, rest: seq<Item>, text: string, from: nat) {
    exists k :: from <= k <= |text| && AllFit(c, text[..k]) && PrefixIn(rest, text[k..])
  }

  lemma StarPattern(c: char, rest: seq<Item>, text: string)
    ensures PrefixIn([Star(c)] + rest, text) <==> RunThen(c, rest, text, 0)
  {
    if PrefixIn([Star(c)] + rest, text) {
      var x := HeadReads(Star(c), rest, text);
      assert text[..|x|] == x;
    }
    if RunThen(c, rest, text, 0) {
      var k :| 0 <= k <= |text| && AllFit(c, text[..k]) && PrefixIn(rest, text[k..]);
      if rest == [] {
        assert [Star(c)] + rest == [Star(c)];
        LastReads(Star(c), text, text[..k]);
      } else {
        ConsReads(Star(c), rest, text, text[..k]);
      }
    }
  }

  lemma OnePattern(c: char, rest: seq<Item>, text: string)
    ensures PrefixIn([One(c)] + rest, text) <==> text != "" && Fits(c, text[0]) && PrefixIn(rest, text[1..])
  {
    if PrefixIn([One(c)] + rest, text) {
      var x := HeadReads(One(c), rest, text);
      assert x[0] == text[0];
    }
    if text != "" && Fits(c, text[0]) && PrefixIn(rest, text[1..]) {
      if rest == [] {
        assert [One(c)] + rest == [One(c)];
        LastReads(One(c), text, text[..1]);
      } else {
        ConsReads(One(c), rest, text, text[..1]);
      }
    }
  }

  // ----- the matcher -----

  /** matchhere */
  method Matchhere(re: string, text: string) returns (r: bool)
    ensures r <==> PrefixIn(Parse(re), text)
    decreases |re|, 0
  {
    hide PrefixIn, RunThen;
    if re == "" {
      EmptyPattern(text);
      return true;
    }
    if |re| >= 2 && re[1] == '*' {
      StarPattern(re[0], Parse(re[2..]), text);
      r := Matchstar(re[0], re[2..], text);
      return;
    }
    if re == "$" {
      EndPattern(text);
      return text == "";
    }
    OnePattern(re[0], Parse(re[1..]), text);
    if text != "" && (re[0] == '.' || re[0] == text[0]) {
      r := Matchhere(re[1..], text[1..]);
      return;
    }
    return false;
  }

  /** matchstar: some number of c, zero included, and then re. */
  method Matchstar(c: char, re: string, text: string) returns (r: bool)
    ensures r <==> RunThen(c, Parse(re), text, 0)
    decreases |re|, 1
  {
    hide PrefixIn, Parse;
    var t := 0;
    while true
      invariant 0 <= t <= |text| && AllFit(c, text[..t])
      invariant RunThen(c, Parse(re), text, 0) <==> RunThen(c, Parse(re), text, t)
      decreases |text| - t
    {
      r := Matchhere(re, text[t..]);
      if r {
        return;
      }
      if !(t < |text| && (text[t] == c || c == '.')) {
        RunEnds(c, Parse(re), text, t);
        return false;
      }
      assert text[..t + 1] == text[..t] + [text[t]];
      t := t + 1;
    }
  }

  lemma RunEnds(c: char, rest: seq<Item>, text: string, t: nat)
    requires t <= |text| && !PrefixIn(rest, text[t..])
    requires t == |text| || !Fits(c, text[t])
    ensures !RunThen(c, rest, text, t)
  {
    hide PrefixIn;
    forall k | t < k <= |text|
      ensures !AllFit(c, text[..k])
    {
      assert text[..k][t] == text[t];
    }
  }

  /** match: is the pattern anywhere in the text. */
  method Match(re: string, text: string) returns (r: bool)
    ensures r <==> Occurs(re, text)
  {
    hide PrefixIn;
    if re != "" && re[0] == '^' {
      r := Matchhere(re[1..], text);
      return;
    }
    var t := 0;
    while true
      invariant 0 <= t <= |text|
      invariant forall i :: 0 <= i < t ==> !PrefixIn(Parse(re), text[i..])
      decreases |text| - t
    {
      r := Matchhere(re, text[t..]);
      if r {
        return;
      }
      if t == |text| {
        return false;
      }
      t := t + 1;
    }
  }

  // ----- what patterns mean -----

  /** No special characters, apart from a leading ^. */
  predicate Literal(re: string) {
    forall i :: 0 <= i < |re| ==> re[i] != '*' && re[i] != '.' && re[i] != '$'
  }

  lemma ParseCons(c: char, re: string)
    requires re == "" || re[0] != '*'
    requires !(c == '$' && re == "")
    ensures Parse([c] + re) == [One(c)] + Parse(re)
  {
    var all := [c] + re;
    assert all[1..] == re;
  }

  /** A literal stands for itself. */
  lemma {:induction false} LiteralHere(re: string, text: string)
    requires Literal(re)
    ensures PrefixIn(Parse(re), text) <==> re <= text
    decreases |re|
  {
    hide PrefixIn, Parse;
    if re == "" {
      ParseNone();
      EmptyPattern(text);
    } else {
      assert re == [re[0]] + re[1..];
      ParseCons(re[0], re[1..]);
      OnePattern(re[0], Parse(re[1..]), text);
      if text != "" {
        assert text == [text[0]] + text[1..];
        LiteralHere(re[1..], text[1..]);
        Prefix(re, text);
      }
    }
  }

  lemma ParseNone()
    ensures Parse("") == [] && Parse("$") == [Eol]
  {
  }

  lemma Prefix(a: string, b: string)
    requires a != "" && b != ""
    ensures a <= b <==> a[0] == b[0] && a[1..] <= b[1..]
    ensures a == b <==> a[0] == b[0] && a[1..] == b[1..]
  {
    assert a == [a[0]] + a[1..] && b == [b[0]] + b[1..];
  }

  /** A literal and $ stand for the rest of the text. */
  lemma {:induction false} LiteralEnd(re: string, text: string)
    requires Literal(re)
    ensures PrefixIn(Parse(re + "$"), text) <==> re == text
    decreases |re|
  {
    hide PrefixIn, Parse;
    if re == "" {
      assert re + "$" == "$";
      ParseNone();
      EndPattern(text);
    } else {
      assert re + "$" == [re[0]] + (re[1..] + "$");
      ParseCons(re[0], re[1..] + "$");
      OnePattern(re[0], Parse(re[1..] + "$"), text);
      if text != "" {
        LiteralEnd(re[1..], text[1..]);
        Prefix(re, text);
      }
    }
  }

  /** A dot stands for any one character. */
  lemma DotHere(re: string, text: string)
    requires re == "" || re[0] != '*'
    ensures PrefixIn(Parse("." + re), text) <==> text != "" && PrefixIn(Parse(re), text[1..])
  {
    hide PrefixIn, Parse;
    ParseCons('.', re);
    OnePattern('.', Parse(re), text);
  }

  /** A starred character stands for any number of that character, or of any characters if it is a dot. */
  lemma StarHere(c: char, re: string, text: string)
    ensures PrefixIn(Parse([c] + "*" + re), text) <==>
            exists k :: 0 <= k <= |text| && (forall i :: 0 <= i < k ==> c == '.' || text[i] == c) && PrefixIn(Parse(re), text[k..])
  {
    hide PrefixIn;
    var all := [c] + "*" + re;
    assert all[2..] == re;
    StarPattern(c, Parse(re), text);
    if RunThen(c, Parse(re), text, 0) {
      var k :| 0 <= k <= |text| && AllFit(c, text[..k]) && PrefixIn(Parse(re), text[k..]);
      assert forall i :: 0 <= i < k ==> text[..k][i] == text[i];
    }
  }

  /** What grep finds: a literal anywhere, at the start after ^, at the end before $, or as the whole line. */
  lemma GrepLaws(re: string, text: string)
    requires Literal(re)
    ensures Occurs("^" + re, text) <==> re <= text
    ensures Occurs("^" + (re + "$"), text) <==> re == text
    ensures re == "" || re[0] != '^' ==> (Occurs(re, text) <==> exists i :: 0 <= i <= |text| && re <= text[i..])
    ensures re == "" || re[0] != '^' ==> (Occurs(re + "$", text) <==> exists i :: 0 <= i <= |text| && re == text[i..])
  {
    hide PrefixIn, Parse, Literal;
    assert ("^" + re)[1..] == re && ("^" + (re + "$"))[1..] == re + "$";
    LiteralHere(re, text);
    LiteralEnd(re, text);
    forall i | 0 <= i <= |text|
      ensures PrefixIn(Parse(re), text[i..]) <==> re <= text[i..]
      ensures PrefixIn(Parse(re + "$"), text[i..]) <==> re == text[i..]
    {
      LiteralHere(re, text[i..]);
      LiteralEnd(re, text[i..]);
    }
  }
}
