/**
A second printer, with parentheses only where precedence needs them and redirections among the words,
and the proof that parsing undoes it.
*/
module ShellShow {
  import opened Shell
  import opened ShellGrammar
  import opened ShellRoundTrip

  // ----- writing a derivation -----

  function OpText(op: Op): string {
    match op
    case In => "<"
    case Out => ">"
    case Onto => ">>"
  }

  function ShowItem(x: Item): string {
    match x
    case Arg(w) => w + " "
    case Io(op, f) => OpText(op) + (" " + (f + " "))
  }

  function ShowItems(items: seq<Item>): string {
    if items == [] then "" else ShowItem(items[0]) + ShowItems(items[1..])
  }

  function ShowPart(u: Part): string {
    match u
    case Simple(items) => ShowItems(items)
    case Block(body, redirs) => "( " + (ShowLine(body) + (") " + ShowItems(redirs)))
  }

  function ShowPipes(p: Pipes): string {
    match p
    case Last(u) => ShowPart(u)
    case Bar(u, rest) => ShowPart(u) + ("| " + ShowPipes(rest))
  }

  function ShowAmps(n: nat): string {
    if n == 0 then "" else "& " + ShowAmps(n - 1)
  }

  function ShowLine(x: Line): string {
    match x
    case One(p, n) => ShowPipes(p) + ShowAmps(n)
    case More(p, n, rest) => ShowPipes(p) + (ShowAmps(n) + ("; " + ShowLine(rest)))
  }

  /** Legal words everywhere, and only redirections after a block. */
  predicate GoodItem(x: Item) {
    LegalWord(if x.Arg? then x.w else x.file)
  }

  predicate GoodItems(items: seq<Item>) {
    forall k :: 0 <= k < |items| ==> GoodItem(items[k])
  }

  predicate GoodPart(u: Part) {
    match u
    case Simple(items) => GoodItems(items)
    case Block(body, redirs) => GoodLine(body) && GoodItems(redirs) && forall k :: 0 <= k < |redirs| ==> redirs[k].Io?
  }

  predicate GoodPipes(p: Pipes) {
    match p
    case Last(u) => GoodPart(u)
    case Bar(u, rest) => GoodPart(u) && GoodPipes(rest)
  }

  predicate GoodLine(x: Line) {
    GoodPipes(x.p) && (x.More? ==> GoodLine(x.rest))
  }

  // ----- what is written does not start with white space -----

  predicate Firm(u: string) {
    u != "" ==> !Space(u[0])
  }

  lemma FirmStart(s: string, i: nat, u: string)
    requires Place(s, i, u) && Firm(u) && Solid(s, i + |u|)
    ensures Solid(s, i)
  {
    if u != "" {
      PlaceAt(s, i, u, 0);
    }
  }

  lemma FirmConcat(u: string, v: string)
    requires Firm(u) && Firm(v)
    ensures Firm(u + v)
  {
  }

  lemma ItemsFirm(items: seq<Item>)
    requires GoodItems(items)
    ensures Firm(ShowItems(items))
  {
    if items != [] {
      assert GoodItem(items[0]);
      assert ShowItems(items)[0] == ShowItem(items[0])[0];
    }
  }

  lemma PartFirm(u: Part)
    requires GoodPart(u)
    ensures Firm(ShowPart(u))
  {
    if u.Simple? {
      ItemsFirm(u.items);
    }
  }

  lemma PipesFirm(p: Pipes)
    requires GoodPipes(p)
    ensures Firm(ShowPipes(p))
  {
    PartFirm(p.u);
    if p.Bar? {
      FirmConcat(ShowPart(p.u), "| " + ShowPipes(p.rest));
    }
  }

  lemma LineFirm(x: Line)
    requires GoodLine(x)
    ensures Firm(ShowLine(x))
  {
    hide ShowPipes;
    PipesFirm(x.p);
    if x.One? {
      FirmConcat(ShowPipes(x.p), ShowAmps(x.amps));
    } else {
      FirmConcat(ShowAmps(x.amps), "; " + ShowLine(x.rest));
      FirmConcat(ShowPipes(x.p), ShowAmps(x.amps) + ("; " + ShowLine(x.rest)));
    }
  }

  // ----- tokens in place -----

  lemma SymAt(s: string, i: nat, u: string, v: string)
    requires |u| == 2 && Symbol(u[0]) && u[1] == ' ' && Place(s, i, u + v) && Solid(s, i + 2)
    ensures GetToken(s, i) == Token(Sym(u[0]), i, i + 1, i + 2) && Place(s, i + 2, v) && Sees(s, i, [u[0]]) && !Space(s[i])
  {
    hide GetToken;
    PlaceSplit(s, i, u, v);
    PlaceAt(s, i, u, 0);
    PlaceAt(s, i, u, 1);
    TokenExact(s, i, Sym(u[0]), i, i + 1, i + 2);
  }

  lemma OpAt(s: string, i: nat, op: Op, v: string)
    requires Place(s, i, OpText(op) + (" " + v)) && Solid(s, i + |OpText(op)| + 1)
    ensures var j := i + |OpText(op)|;
            GetToken(s, i) == Token(OpKind(op), i, j, j + 1) && Place(s, j + 1, v)
  {
    hide GetToken, Place;
    var u, j := OpText(op), i + |OpText(op)|;
    PlaceSplit(s, i, u, " " + v);
    PlaceSplit(s, j, " ", v);
    PlaceAt(s, i, u, 0);
    PlaceAt(s, j, " ", 0);
    if op == Onto {
      PlaceAt(s, i, u, 1);
    }
    TokenExact(s, i, OpKind(op), i, j, j + 1);
  }

  lemma WordAt(s: string, i: nat, w: string, v: string)
    requires LegalWord(w) && Place(s, i, w + (" " + v)) && Solid(s, i + |w| + 1)
    ensures GetToken(s, i) == Token(Word, i, i + |w|, i + |w| + 1) && s[i..i + |w|] == w && Place(s, i + |w| + 1, v)
  {
    hide GetToken, LegalWord;
    var j := i + |w|;
    PlaceSplit(s, i, w, " " + v);
    PlaceSplit(s, j, " ", v);
    PlaceAt(s, j, " ", 0);
    WordSpace(s, i, w);
  }

  // ----- the writing matches its derivation -----

  lemma ItemUnfold(items: seq<Item>)
    requires items != []
    ensures ShowItems(items) ==
      match items[0]
      case Arg(w) => w + (" " + ShowItems(items[1..]))
      case Io(op, f) => OpText(op) + (" " + (f + (" " + ShowItems(items[1..]))))
  {
    var rest := ShowItems(items[1..]);
    match items[0]
    case Arg(w) => assert w + " " + rest == w + (" " + rest);
    case Io(op, f) =>
      assert OpText(op) + (" " + (f + " ")) + rest == OpText(op) + (" " + (f + (" " + rest)));
  }

  lemma ArgStep(s: string, i: nat, items: seq<Item>)
    requires GoodItems(items) && items != [] && items[0].Arg? && Place(s, i, ShowItems(items)) && Solid(s, i + |ShowItems(items)|)
    ensures var rest := ShowItems(items[1..]);
            var j := i + |ShowItems(items)| - |rest|;
            && i < j && Place(s, j, rest) && GetToken(s, i).kind == Word && GetToken(s, i).next == j
            && s[GetToken(s, i).q..GetToken(s, i).eq] == items[0].w
  {
    hide GetToken, Place, ShowItems, LegalWord, Firm;
    var w, rest := items[0].w, ShowItems(items[1..]);
    var j := i + |w| + 1;
    ItemUnfold(items);
    assert GoodItem(items[0]);
    ItemsFirm(items[1..]);
    PlaceTail(s, i, w, " ", rest);
    FirmStart(s, j, rest);
    WordAt(s, i, w, rest);
  }

  /** An operator, a file and what follows them. */
  lemma OpWord(s: string, i: nat, op: Op, f: string, rest: string)
    requires LegalWord(f) && Place(s, i, OpText(op) + (" " + (f + (" " + rest))))
    requires Firm(rest) && Solid(s, i + |OpText(op)| + |f| + |rest| + 2)
    ensures var m := i + |OpText(op)| + 1;
            && GetToken(s, i) == Token(OpKind(op), i, m - 1, m)
            && GetToken(s, m) == Token(Word, m, m + |f|, m + |f| + 1) && s[m..m + |f|] == f
            && Place(s, m + |f| + 1, rest)
  {
    hide GetToken, Place, LegalWord, Firm, OpText;
    var v := f + (" " + rest);
    var m := i + |OpText(op)| + 1;
    PlaceTail(s, i, OpText(op), " ", v);
    PlaceTail(s, m, f, " ", rest);
    FirmStart(s, m + |f| + 1, rest);
    WordAt(s, m, f, rest);
    WordFirm(f, " " + rest);
    FirmStart(s, m, v);
    OpAt(s, i, op, v);
  }

  lemma IoStep(s: string, i: nat, items: seq<Item>)
    requires GoodItems(items) && items != [] && items[0].Io? && Place(s, i, ShowItems(items)) && Solid(s, i + |ShowItems(items)|)
    ensures var rest := ShowItems(items[1..]);
            var t := GetToken(s, i);
            var u := GetToken(s, t.next);
            var j := i + |ShowItems(items)| - |rest|;
            && i < j && Place(s, j, rest) && t.kind == OpKind(items[0].op) && u.kind == Word && u.next == j
            && s[u.q..u.eq] == items[0].file
  {
    hide GetToken, Place, ShowItems, LegalWord, Firm, OpText, OpKind;
    ItemUnfold(items);
    assert GoodItem(items[0]);
    ItemsFirm(items[1..]);
    OpWord(s, i, items[0].op, items[0].file, ShowItems(items[1..]));
  }

  lemma MatchWord(s: string, i: nat, items: seq<Item>)
    requires i <= |s| && items != [] && items[0].Arg?
    requires var t := GetToken(s, i); t.kind == Word && s[t.q..t.eq] == items[0].w
    ensures MatchItems(s, i, items) == MatchItems(s, GetToken(s, i).next, items[1..])
  {
    hide GetToken;
  }

  lemma MatchRedir(s: string, i: nat, items: seq<Item>)
    requires i <= |s| && items != [] && items[0].Io? && GetToken(s, i).kind == OpKind(items[0].op)
    requires var u := GetToken(s, GetToken(s, i).next); u.kind == Word && s[u.q..u.eq] == items[0].file
    ensures MatchItems(s, i, items) == MatchItems(s, GetToken(s, GetToken(s, i).next).next, items[1..])
  {
    hide GetToken;
  }

  lemma {:induction false} ItemsMatch(s: string, i: nat, items: seq<Item>)
    requires GoodItems(items) && Place(s, i, ShowItems(items)) && Solid(s, i + |ShowItems(items)|)
    ensures MatchItems(s, i, items) == i + |ShowItems(items)|
    decreases |items|
  {
    hide GetToken, Place, ShowItems, LegalWord, MatchItems, Skip;
    if items == [] {
      EmptyShow();
      EmptyMatch(s, i);
      SkipSolid(s, i);
    } else {
      var j := i + |ShowItems(items)| - |ShowItems(items[1..])|;
      if items[0].Arg? {
        ArgStep(s, i, items);
        MatchWord(s, i, items);
      } else {
        IoStep(s, i, items);
        MatchRedir(s, i, items);
      }
      ItemsMatch(s, j, items[1..]);
    }
  }

  lemma EmptyShow()
    ensures ShowItems([]) == ""
  {
  }

  lemma WordFirm(w: string, v: string)
    requires LegalWord(w)
    ensures Firm(w + v)
  {
    assert (w + v)[0] == w[0];
  }

  lemma PlaceTail(s: string, i: nat, u: string, v: string, w: string)
    requires Place(s, i, u + (v + w))
    ensures Place(s, i + |u| + |v|, w) && i + |u + (v + w)| == i + |u| + |v| + |w|
  {
    PlaceSplit(s, i, u, v + w);
    PlaceSplit(s, i + |u|, v, w);
  }

  /** The line ends at j, or one of these characters is there. */
  predicate Ends(s: string, j: nat, toks: string) {
    j == |s| || Sees(s, j, toks)
  }

  lemma BlockMatch(s: string, i: nat, u: Part)
    requires u.Block? && GoodPart(u) && Place(s, i, ShowPart(u)) && Ends(s, i + |ShowPart(u)|, "|)&;")
    requires var j := i + 2 + |ShowLine(u.body)|;
             Solid(s, i + 2) && MatchLine(s, i + 2, u.body) == j && Solid(s, j + 2)
    ensures MatchPart(s, i, u) == i + |ShowPart(u)|
  {
    hide GetToken, Place, ShowItems, MatchItems, ShowLine, MatchLine, LegalWord;
    var inner, after := ShowLine(u.body), ShowItems(u.redirs);
    var j := i + 2 + |inner|;
    SymAt(s, i, "( ", inner + (") " + after));
    PlaceSplit(s, i + 2, inner, ") " + after);
    SymAt(s, j, ") ", after);
    ItemsMatch(s, j + 2, u.redirs);
  }

  lemma {:induction false} PartMatch(s: string, i: nat, u: Part)
    requires GoodPart(u) && Place(s, i, ShowPart(u)) && Ends(s, i + |ShowPart(u)|, "|)&;")
    ensures MatchPart(s, i, u) == i + |ShowPart(u)|
    decreases u
  {
    hide GetToken, Place, ShowItems, MatchItems, ShowLine, MatchLine, LegalWord, Firm;
    match u
    case Simple(items) =>
      ItemsMatch(s, i, items);
    case Block(body, redirs) =>
      var inner, after := ShowLine(body), ShowItems(redirs);
      var j := i + 2 + |inner|;
      PlaceTail(s, i, "( ", inner, ") " + after);
      PlaceTail(s, j, "", ") ", after);
      ItemsFirm(redirs);
      FirmStart(s, j + 2, after);
      SymAt(s, j, ") ", after);
      BlockStart(s, i, inner, ") " + after);
      LineFirm(body);
      FirmStart(s, i + 2, inner);
      LineMatch(s, i + 2, body);
      BlockMatch(s, i, u);
  }

  lemma BlockStart(s: string, i: nat, u: string, v: string)
    requires Place(s, i, "( " + (u + v))
    ensures Place(s, i + 2, u)
  {
    PlaceSplit(s, i, "( ", u + v);
    PlaceSplit(s, i + 2, u, v);
  }

  lemma PipesStep(s: string, i: nat, p: Pipes)
    requires p.Bar? && GoodPipes(p) && Place(s, i, ShowPipes(p)) && Ends(s, i + |ShowPipes(p)|, ")&;")
    ensures var j := i + |ShowPart(p.u)|;
            && Place(s, i, ShowPart(p.u)) && Sees(s, j, "|") && GetToken(s, j).next == j + 2
            && Place(s, j + 2, ShowPipes(p.rest)) && |ShowPipes(p)| == |ShowPart(p.u)| + 2 + |ShowPipes(p.rest)|
  {
    hide GetToken, Place, ShowPart, GoodPart, Firm;
    var rest := ShowPipes(p.rest);
    var j := i + |ShowPart(p.u)|;
    PlaceSplit(s, i, ShowPart(p.u), "| " + rest);
    PlaceSplit(s, j, "| ", rest);
    PipesFirm(p.rest);
    FirmStart(s, j + 2, rest);
    SymAt(s, j, "| ", rest);
  }

  lemma MatchBar(s: string, i: nat, p: Pipes, j: nat)
    requires i <= |s| && p.Bar? && MatchPart(s, i, p.u) == j && Sees(s, j, "|") && GetToken(s, j).next == j + 2
    ensures MatchPipes(s, i, p) == MatchPipes(s, j + 2, p.rest)
  {
    hide GetToken, MatchPart;
  }

  lemma {:induction false} PipesMatch(s: string, i: nat, p: Pipes)
    requires GoodPipes(p) && Place(s, i, ShowPipes(p)) && Ends(s, i + |ShowPipes(p)|, ")&;")
    ensures MatchPipes(s, i, p) == i + |ShowPipes(p)|
    decreases p
  {
    hide GetToken, Place, ShowPart, MatchPart, GoodPart;
    if p.Last? {
      PartMatch(s, i, p.u);
    } else {
      var j := i + |ShowPart(p.u)|;
      PipesStep(s, i, p);
      PartMatch(s, i, p.u);
      MatchBar(s, i, p, j);
      PipesMatch(s, j + 2, p.rest);
    }
  }

  lemma {:induction false} AmpsMatch(s: string, i: nat, n: nat)
    requires Place(s, i, ShowAmps(n)) && Ends(s, i + |ShowAmps(n)|, ");")
    ensures MatchAmps(s, i, n) == i + |ShowAmps(n)| && Solid(s, i) && (n > 0 ==> Sees(s, i, "&"))
    decreases n
  {
    hide GetToken, Place;
    if n > 0 {
      var rest := ShowAmps(n - 1);
      PlaceSplit(s, i, "& ", rest);
      AmpsMatch(s, i + 2, n - 1);
      SymAt(s, i, "& ", rest);
    }
    SkipSolid(s, i);
  }

  lemma LineStep(s: string, i: nat, x: Line)
    requires x.More? && GoodLine(x) && Place(s, i, ShowLine(x)) && Ends(s, i + |ShowLine(x)|, ")")
    ensures var j := i + |ShowPipes(x.p)|;
            var k := j + |ShowAmps(x.amps)|;
            && Place(s, i, ShowPipes(x.p)) && Place(s, j, ShowAmps(x.amps)) && Sees(s, k, ";") && GetToken(s, k).next == k + 2
            && Place(s, k + 2, ShowLine(x.rest)) && i + |ShowLine(x)| == k + 2 + |ShowLine(x.rest)|
  {
    hide GetToken, Place, ShowPipes, GoodPipes, ShowAmps, Firm;
    var rest := ShowLine(x.rest);
    var j := i + |ShowPipes(x.p)|;
    var k := j + |ShowAmps(x.amps)|;
    PlaceSplit(s, i, ShowPipes(x.p), ShowAmps(x.amps) + ("; " + rest));
    PlaceSplit(s, j, ShowAmps(x.amps), "; " + rest);
    PlaceSplit(s, k, "; ", rest);
    LineFirm(x.rest);
    FirmStart(s, k + 2, rest);
    SymAt(s, k, "; ", rest);
  }

  lemma MatchMore(s: string, i: nat, x: Line, j: nat, k: nat)
    requires i <= |s| && x.More? && MatchPipes(s, i, x.p) == j <= |s| && MatchAmps(s, j, x.amps) == k
    requires Sees(s, k, ";") && GetToken(s, k).next == k + 2
    ensures MatchLine(s, i, x) == MatchLine(s, k + 2, x.rest)
  {
    hide GetToken, MatchPipes, MatchAmps;
  }

  lemma {:induction false} LineMatch(s: string, i: nat, x: Line)
    requires GoodLine(x) && Place(s, i, ShowLine(x)) && Ends(s, i + |ShowLine(x)|, ")")
    ensures MatchLine(s, i, x) == i + |ShowLine(x)|
    decreases x
  {
    hide GetToken, Place, ShowPipes, MatchPipes, GoodPipes, ShowAmps, MatchAmps;
    var j := i + |ShowPipes(x.p)|;
    var k := j + |ShowAmps(x.amps)|;
    if x.One? {
      PlaceSplit(s, i, ShowPipes(x.p), ShowAmps(x.amps));
    } else {
      LineStep(s, i, x);
      LineMatch(s, k + 2, x.rest);
    }
    AmpsMatch(s, j, x.amps);
    AmpsStart(s, j, x.amps, k);
    PipesMatch(s, i, x.p);
    if x.More? {
      MatchMore(s, i, x, j, k);
    }
  }

  /** After a pipeline comes &, or what follows the line or its first part. */
  lemma AmpsStart(s: string, j: nat, n: nat, k: nat)
    requires k == j + |ShowAmps(n)| && Ends(s, k, ");") && (n > 0 ==> Sees(s, j, "&"))
    ensures Ends(s, j, ")&;")
  {
  }

  /**
  The parser reads what is written for a derivation, redirections before, between and after the words
  included, as the tree the derivation stands for.
  */
  lemma ShowTrip(x: Line)
    requires GoodLine(x) && FewLine(x)
    ensures var s := ShowLine(x); ParseCmd(s).Ok? && Text(s, ParseCmd(s).cmd) == LineTree(x)
  {
    hide ParseCmd, Text, LineTree, FewLine, GoodLine, ShowLine;
    var s := ShowLine(x);
    assert s[0..0 + |s|] == s;
    LineMatch(s, 0, x);
    assert Derives(x, s);
    GrammarTheorem(s);
  }

  // ----- the derivation with fewest parentheses -----

  /** For each way to write t, how many steps lead from it to the parts of t. */
  function Rank(t: Cmd<string>, level: nat): nat {
    match t
    case List(_, _) => (level + 1) % 4
    case Back(_) => (level + 2) % 4
    case Pipe(_, _) => (level + 3) % 4
    case _ => level
  }

  function ArgItems(ws: seq<string>): (items: seq<Item>)
    ensures |items| == |ws| && forall k :: 0 <= k < |ws| ==> items[k] == Arg(ws[k])
  {
    if ws == [] then [] else [Arg(ws[0])] + ArgItems(ws[1..])
  }

  /** As a simple command or a block. */
  function PartOf(t: Cmd<string>): Part
    decreases t, Rank(t, 0)
  {
    match t
    case Exec(ws) => Simple(ArgItems(ws))
    case Redir(c, f, out) =>
      var io := Io(if out then Out else In, f);
      (match PartOf(c)
       case Simple(items) => Simple(items + [io])
       case Block(body, redirs) => Block(body, redirs + [io]))
    case _ => Block(LineOf(t), [])
  }

  function PipesOf(t: Cmd<string>): Pipes
    decreases t, Rank(t, 1)
  {
    match t
    case Pipe(l, r) => Bar(PartOf(l), PipesOf(r))
    case _ => Last(PartOf(t))
  }

  /** The pipeline, and how many & follow it. */
  function BacksOf(t: Cmd<string>): (Pipes, nat)
    decreases t, Rank(t, 2)
  {
    match t
    case Back(c) => var (p, n) := BacksOf(c); (p, n + 1)
    case _ => (PipesOf(t), 0)
  }

  function LineOf(t: Cmd<string>): Line
    decreases t, Rank(t, 3)
  {
    match t
    case List(l, r) => var (p, n) := BacksOf(l); More(p, n, LineOf(r))
    case _ => var (p, n) := BacksOf(t); One(p, n)
  }

  lemma {:induction false} ItemsSnoc(items: seq<Item>, io: Item)
    requires io.Io?
    ensures Args(items + [io]) == Args(items) && Ios(items + [io]) == Ios(items) + [(io.file, io.op != In)]
    decreases |items|
  {
    var all := items + [io];
    if items == [] {
      assert all[1..] == [];
    } else {
      assert all[0] == items[0] && all[1..] == items[1..] + [io];
      ItemsSnoc(items[1..], io);
    }
  }

  lemma {:induction false} ArgItemsTree(ws: seq<string>)
    ensures Args(ArgItems(ws)) == ws && Ios(ArgItems(ws)) == []
    decreases |ws|
  {
    if ws != [] {
      assert ArgItems(ws)[1..] == ArgItems(ws[1..]);
      ArgItemsTree(ws[1..]);
    }
  }

  lemma AroundSnoc(c: Cmd<string>, ios: seq<(string, bool)>, f: string, out: bool)
    ensures Around(c, ios + [(f, out)]) == Redir(Around(c, ios), f, out)
  {
    assert (ios + [(f, out)])[..|ios|] == ios;
  }

  /** One more redirection after a part. */
  lemma PartSnoc(u: Part, io: Item)
    requires GoodPart(u) && FewPart(u) && io.Io? && LegalWord(io.file)
    ensures var v := if u.Simple? then Simple(u.items + [io]) else Block(u.body, u.redirs + [io]);
            GoodPart(v) && FewPart(v) && PartTree(v) == Redir(PartTree(u), io.file, io.op != In)
  {
    hide LegalWord, GoodLine, FewLine, LineTree, Around;
    assert GoodItem(io);
    if u.Simple? {
      ItemsSnoc(u.items, io);
      AroundSnoc(Exec(Args(u.items)), Ios(u.items), io.file, io.op != In);
    } else {
      ItemsSnoc(u.redirs, io);
      AroundSnoc(LineTree(u.body), Ios(u.redirs), io.file, io.op != In);
    }
  }

  lemma ExecPart(ws: seq<string>)
    requires Legal(Exec(ws))
    ensures var u := Simple(ArgItems(ws)); GoodPart(u) && FewPart(u) && PartTree(u) == Exec(ws)
  {
    ArgItemsTree(ws);
  }

  lemma BlockPart(x: Line)
    requires GoodLine(x) && FewLine(x)
    ensures var u := Block(x, []); GoodPart(u) && FewPart(u) && PartTree(u) == LineTree(x)
  {
  }

  lemma {:induction false} PartOfTree(t: Cmd<string>)
    requires Legal(t)
    ensures GoodPart(PartOf(t)) && FewPart(PartOf(t)) && PartTree(PartOf(t)) == t
    decreases t, Rank(t, 0)
  {
    hide GoodPart, FewPart, PartTree, LegalWord;
    match t
    case Exec(ws) => ExecPart(ws);
    case Redir(c, f, out) =>
      PartOfTree(c);
      PartSnoc(PartOf(c), Io(if out then Out else In, f));
    case _ =>
      LineOfTree(t);
      BlockPart(LineOf(t));
  }

  lemma {:induction false} PipesOfTree(t: Cmd<string>)
    requires Legal(t)
    ensures GoodPipes(PipesOf(t)) && FewPipes(PipesOf(t)) && PipesTree(PipesOf(t)) == t
    decreases t, Rank(t, 1)
  {
    hide GoodPart, FewPart, PartTree, PartOf;
    match t
    case Pipe(l, r) =>
      PartOfTree(l);
      PipesOfTree(r);
    case _ => PartOfTree(t);
  }

  lemma {:induction false} BacksOfTree(t: Cmd<string>)
    requires Legal(t)
    ensures var (p, n) := BacksOf(t); GoodPipes(p) && FewPipes(p) && Behind(PipesTree(p), n) == t
    decreases t, Rank(t, 2)
  {
    hide GoodPipes, FewPipes, PipesTree, PipesOf;
    match t
    case Back(c) => BacksOfTree(c);
    case _ => PipesOfTree(t);
  }

  lemma {:induction false} LineOfTree(t: Cmd<string>)
    requires Legal(t)
    ensures GoodLine(LineOf(t)) && FewLine(LineOf(t)) && LineTree(LineOf(t)) == t
    decreases t, Rank(t, 3)
  {
    hide GoodPipes, FewPipes, PipesTree, BacksOf, Behind;
    match t
    case List(l, r) =>
      BacksOfTree(l);
      LineOfTree(r);
    case _ => BacksOfTree(t);
  }

  /** Written with parentheses only where precedence needs them, a command is read back as itself. */
  lemma MinimalRoundTrip(t: Cmd<string>)
    requires Legal(t)
    ensures var s := ShowLine(LineOf(t)); ParseCmd(s).Ok? && Text(s, ParseCmd(s).cmd) == t
  {
    hide ParseCmd, Text, LineTree, FewLine, GoodLine, ShowLine, LineOf;
    LineOfTree(t);
    ShowTrip(LineOf(t));
  }

  // ----- a tree that follows the precedences needs no parentheses -----

  predicate FlatPart(t: Cmd<string>) {
    match t
    case Exec(_) => true
    case Redir(c, _, _) => FlatPart(c)
    case _ => false
  }

  predicate FlatPipes(t: Cmd<string>) {
    if t.Pipe? then FlatPart(t.left) && FlatPipes(t.right) else FlatPart(t)
  }

  predicate FlatBacks(t: Cmd<string>) {
    if t.Back? then FlatBacks(t.cmd) else FlatPipes(t)
  }

  predicate FlatLine(t: Cmd<string>) {
    if t.List? then FlatBacks(t.left) && FlatLine(t.right) else FlatBacks(t)
  }

  predicate OpenPipes(p: Pipes) {
    p.u.Simple? && (p.Bar? ==> OpenPipes(p.rest))
  }

  predicate OpenLine(x: Line) {
    OpenPipes(x.p) && (x.More? ==> OpenLine(x.rest))
  }

  lemma {:induction false} FlatPartOf(t: Cmd<string>)
    ensures FlatPart(t) <==> PartOf(t).Simple?
    decreases t
  {
    if t.Redir? {
      FlatPartOf(t.cmd);
    }
  }

  lemma {:induction false} FlatPipesOf(t: Cmd<string>)
    ensures FlatPipes(t) <==> OpenPipes(PipesOf(t))
    decreases t
  {
    hide PartOf, FlatPart;
    if t.Pipe? {
      FlatPartOf(t.left);
      FlatPipesOf(t.right);
    } else {
      FlatPartOf(t);
    }
  }

  lemma {:induction false} FlatBacksOf(t: Cmd<string>)
    ensures FlatBacks(t) <==> OpenPipes(BacksOf(t).0)
    decreases t
  {
    hide PipesOf, FlatPipes, OpenPipes;
    if t.Back? {
      FlatBacksOf(t.cmd);
    } else {
      FlatPipesOf(t);
    }
  }

  lemma {:induction false} FlatLineOf(t: Cmd<string>)
    ensures FlatLine(t) <==> OpenLine(LineOf(t))
    decreases t
  {
    hide BacksOf, FlatBacks, OpenPipes;
    if t.List? {
      FlatBacksOf(t.left);
      FlatLineOf(t.right);
    } else {
      FlatBacksOf(t);
    }
  }

  predicate NoParen(u: string) {
    '(' !in u
  }

  lemma {:induction false} ItemsNoParen(items: seq<Item>)
    requires GoodItems(items)
    ensures NoParen(ShowItems(items))
    decreases |items|
  {
    if items != [] {
      assert GoodItem(items[0]);
      ItemsNoParen(items[1..]);
    }
  }

  lemma {:induction false} PipesNoParen(p: Pipes)
    requires GoodPipes(p)
    ensures NoParen(ShowPipes(p)) <==> OpenPipes(p)
    decreases p
  {
    hide ShowItems, GoodItems, ShowLine, GoodLine;
    if p.u.Simple? {
      ItemsNoParen(p.u.items);
    } else {
      assert ShowPart(p.u)[0] == '(';
      assert ShowPipes(p)[0] == '(';
    }
    if p.Bar? {
      PipesNoParen(p.rest);
      assert ShowPipes(p) == ShowPart(p.u) + ("| " + ShowPipes(p.rest));
    }
  }

  lemma {:induction false} AmpsNoParen(n: nat)
    ensures NoParen(ShowAmps(n))
    decreases n
  {
    if n > 0 {
      AmpsNoParen(n - 1);
    }
  }

  lemma {:induction false} LineNoParen(x: Line)
    requires GoodLine(x)
    ensures NoParen(ShowLine(x)) <==> OpenLine(x)
    decreases x
  {
    hide ShowPipes, GoodPipes, OpenPipes, ShowAmps;
    PipesNoParen(x.p);
    AmpsNoParen(x.amps);
    if x.More? {
      LineNoParen(x.rest);
    }
  }

  lemma {:induction false} AroundFlat(ws: seq<string>, ios: seq<(string, bool)>)
    ensures FlatPart(Around(Exec(ws), ios))
    decreases |ios|
  {
    if ios != [] {
      AroundFlat(ws, ios[..|ios| - 1]);
    }
  }

  lemma {:induction false} OpenPipesFlat(p: Pipes)
    requires OpenPipes(p)
    ensures FlatPipes(PipesTree(p))
    decreases p
  {
    AroundFlat(Args(p.u.items), Ios(p.u.items));
    if p.Bar? {
      OpenPipesFlat(p.rest);
    }
  }

  lemma {:induction false} BehindFlat(c: Cmd<string>, n: nat)
    requires FlatPipes(c)
    ensures FlatBacks(Behind(c, n))
    decreases n
  {
    if n > 0 {
      BehindFlat(c, n - 1);
    }
  }

  lemma {:induction false} OpenLineFlat(x: Line)
    requires OpenLine(x)
    ensures FlatLine(LineTree(x))
    decreases x
  {
    hide FlatBacks, FlatPipes, OpenPipes, PipesTree;
    OpenPipesFlat(x.p);
    BehindFlat(PipesTree(x.p), x.amps);
    BehindTop(PipesTree(x.p), x.amps);
    if x.More? {
      OpenLineFlat(x.rest);
    }
  }

  lemma BehindTop(c: Cmd<string>, n: nat)
    requires FlatPipes(c)
    ensures !Behind(c, n).List?
  {
  }

  /**
  A parenthesis is written exactly when the tree does not follow the precedences ; & | and redirection, and
  then every derivation of the tree has one.
  */
  lemma ParensNeeded(t: Cmd<string>)
    requires Legal(t)
    ensures '(' in ShowLine(LineOf(t)) <==> !FlatLine(t)
    ensures !FlatLine(t) ==> forall x :: GoodLine(x) && LineTree(x) == t ==> '(' in ShowLine(x)
  {
    hide ShowLine, LineOf, OpenLine, FlatLine, GoodLine, LineTree, FewLine;
    LineOfTree(t);
    FlatLineOf(t);
    LineNoParen(LineOf(t));
    forall x | !FlatLine(t) && GoodLine(x) && LineTree(x) == t
      ensures '(' in ShowLine(x)
    {
      if OpenLine(x) {
        OpenLineFlat(x);
        assert false;
      }
      LineNoParen(x);
    }
  }
}
