/** Parsing the fully parenthesised printing of a command gives the command back. */
module ShellRoundTrip {
  import opened Shell

  function PrintArgs(ws: seq<string>): string {
    if ws == [] then "" else ws[0] + " " + PrintArgs(ws[1..])
  }

  function Print(t: Cmd<string>): string {
    match t
    case Exec(ws) => PrintArgs(ws)
    case Redir(c, f, out) => "(" + Print(c) + ")" + ((if out then ">" else "<") + f)
    case Pipe(l, r) => "(" + Print(l) + ")" + ("|" + ("(" + Print(r) + ")"))
    case List(l, r) => "(" + Print(l) + ")" + (";" + ("(" + Print(r) + ")"))
    case Back(c) => "(" + Print(c) + ")" + "&"
  }

  predicate LegalWord(w: string) {
    w != "" && forall k :: 0 <= k < |w| ==> Plain(w[k]) && w[k] != NUL
  }

  predicate Legal(t: Cmd<string>) {
    match t
    case Exec(ws) => |ws| < MAXARGS && forall k :: 0 <= k < |ws| ==> LegalWord(ws[k])
    case Redir(c, f, _) => Legal(c) && LegalWord(f)
    case Pipe(l, r) => Legal(l) && Legal(r)
    case List(l, r) => Legal(l) && Legal(r)
    case Back(c) => Legal(c)
  }

  // ----- texts in place -----

  predicate Place(s: string, i: nat, u: string) {
    i + |u| <= |s| && s[i..i + |u|] == u
  }

  lemma PlaceSplit(s: string, i: nat, u: string, v: string)
    requires Place(s, i, u + v)
    ensures Place(s, i, u) && Place(s, i + |u|, v)
  {
    var w := s[i..i + |u + v|];
    assert s[i..i + |u|] == w[..|u|] == u;
    assert s[i + |u|..i + |u| + |v|] == w[|u|..] == v;
  }

  lemma PlaceAt(s: string, i: nat, u: string, k: nat)
    requires Place(s, i, u) && k < |u|
    ensures i + k < |s| && s[i + k] == u[k]
  {
    assert s[i..i + |u|][k] == u[k];
  }

  /** The line ends at j, or the block around it does. */
  predicate Stop(s: string, j: nat) {
    j == |s| || (j < |s| && s[j] == ')')
  }

  predicate Solid(s: string, j: nat) {
    j == |s| || (j < |s| && !Space(s[j]))
  }

  lemma SkipSolid(s: string, j: nat)
    requires Solid(s, j)
    ensures Skip(s, j) == j
  {
  }

  /** A word in place, with no plain character after it. */
  lemma WordToken(s: string, i: nat, w: string)
    requires LegalWord(w) && Place(s, i, w) && (i + |w| == |s| || !Plain(s[i + |w|]))
    ensures var t := GetToken(s, i); t == Token(Word, i, i + |w|, Skip(s, i + |w|))
  {
    PlaceAt(s, i, w, 0);
    var e := WordEnd(s, i);
    forall k | i <= k < i + |w|
      ensures Plain(s[k])
    {
      PlaceAt(s, i, w, k - i);
    }
    assert e == i + |w|;
  }

  /** The first character of a printed line, or what follows an empty one. */
  lemma PrintSolid(t: Cmd<string>, s: string, i: nat)
    requires Legal(t) && Place(s, i, Print(t)) && Stop(s, i + |Print(t)|)
    ensures Solid(s, i)
    ensures i < |s| ==> s[i] == '(' || s[i] == ')' || Plain(s[i])
  {
    if Print(t) != "" {
      PlaceAt(s, i, Print(t), 0);
    }
  }

  lemma Parens(s: string, i: nat, u: string)
    requires Place(s, i, "(" + u + ")")
    ensures i + |u| + 2 <= |s| && s[i] == '(' && Place(s, i + 1, u) && s[i + |u| + 1] == ')'
  {
    PlaceSplit(s, i, "(" + u, ")");
    PlaceSplit(s, i, "(", u);
    PlaceAt(s, i, "(", 0);
    PlaceAt(s, i + 1 + |u|, ")", 0);
  }

  /** A block, a symbol, and what follows it. */
  lemma ParensThen(s: string, i: nat, u: string, op: string, v: string)
    requires Place(s, i, "(" + u + ")" + (op + v)) && |op| == 1
    ensures Place(s, i, "(" + u + ")") && i + |u| + 2 < |s| && s[i + |u| + 2] == op[0] && Place(s, i + |u| + 3, v)
  {
    PlaceSplit(s, i, "(" + u + ")", op + v);
    PlaceSplit(s, i + |u| + 2, op, v);
    PlaceAt(s, i + |u| + 2, op, 0);
  }

  // ----- how the parsing routines follow one another -----

  lemma NoRedirs(s: string, i: nat)
    requires Solid(s, i) && (i < |s| ==> s[i] != '<' && s[i] != '>')
    ensures ParseRedirs(s, i) == Redirs([], i)
  {
    SkipSolid(s, i);
  }

  function Redirected(c: Cmd<Span>, r: Redirs): Parsed {
    if r.BadRedir? then Err(MissingFile) else Ok(Wrap(c, r.list), r.next)
  }

  lemma StepBlock(s: string, i: nat, c: Cmd<Span>, j: nat)
    requires j < |s| && i < |s| && s[i] == '(' && Solid(s, i + 1) && ParseLine(s, i + 1) == Ok(c, j) && s[j] == ')' && Solid(s, j + 1)
    ensures ParseExec(s, i) == Redirected(c, ParseRedirs(s, j + 1))
  {
    hide ParseLine, ParseRedirs, Wrap;
    SkipSolid(s, i);
    SkipSolid(s, i + 1);
    SkipSolid(s, j);
    SkipSolid(s, j + 1);
    assert GetToken(s, i).next == i + 1 && GetToken(s, j).next == j + 1;
    assert Peek(s, i, "(") && Peek(s, j, ")");
  }

  lemma StepPipe(s: string, i: nat, c: Cmd<Span>, k: nat, d: Cmd<Span>, e: nat)
    requires i <= |s| && k < |s| && ParseExec(s, i) == Ok(c, k) && s[k] == '|' && Solid(s, k + 1) && ParsePipe(s, k + 1) == Ok(d, e)
    ensures ParsePipe(s, i) == Ok(Pipe(c, d), e)
  {
    hide ParseExec;
    SkipSolid(s, k);
    SkipSolid(s, k + 1);
    assert GetToken(s, k).next == k + 1 && Peek(s, k, "|");
  }

  lemma StepEnd(s: string, i: nat, c: Cmd<Span>, k: nat)
    requires i <= |s| && ParseExec(s, i) == Ok(c, k) && k <= |s| && (k < |s| ==> s[k] == ')' || s[k] == ';' || s[k] == '&')
    ensures ParsePipe(s, i) == Ok(c, k)
  {
    hide ParseExec;
    SkipSolid(s, k);
  }

  lemma StepLine(s: string, i: nat, c: Cmd<Span>, k: nat)
    requires i <= |s| && ParsePipe(s, i) == Ok(c, k) && Stop(s, k)
    ensures ParseLine(s, i) == Ok(c, k)
  {
    hide ParsePipe;
    SkipSolid(s, k);
    assert !Peek(s, k, "&") && !Peek(s, k, ";");
  }

  lemma StepList(s: string, i: nat, c: Cmd<Span>, k: nat, d: Cmd<Span>, e: nat)
    requires i <= |s| && k < |s| && ParsePipe(s, i) == Ok(c, k) && s[k] == ';' && Solid(s, k + 1) && ParseLine(s, k + 1) == Ok(d, e)
    ensures ParseLine(s, i) == Ok(List(c, d), e)
  {
    hide ParsePipe;
    SkipSolid(s, k);
    SkipSolid(s, k + 1);
    assert GetToken(s, k).next == k + 1 && !Peek(s, k, "&") && Peek(s, k, ";");
  }

  lemma StepBack(s: string, i: nat, c: Cmd<Span>, k: nat)
    requires i <= |s| && k < |s| && ParsePipe(s, i) == Ok(c, k) && s[k] == '&' && Stop(s, k + 1)
    ensures ParseLine(s, i) == Ok(Back(c), k + 1)
  {
    hide ParsePipe;
    SkipSolid(s, k);
    SkipSolid(s, k + 1);
    assert GetToken(s, k).next == k + 1 && Peek(s, k, "&") && !Peek(s, k + 1, "&") && !Peek(s, k + 1, ";");
    assert ParseBacks(s, k + 1, Back(c)) == Ok(Back(c), k + 1);
  }

  lemma StepWord(s: string, i: nat, j: nat, argv: seq<Span>)
    requires i < j < |s| && Plain(s[i]) && GetToken(s, i) == Token(Word, i, j, j + 1) && |argv| + 1 < MAXARGS
    requires Solid(s, j + 1) && (j + 1 < |s| ==> s[j + 1] == ')' || Plain(s[j + 1]))
    requires forall k :: 0 <= k < |argv| ==> SpanOk(s, argv[k])
    ensures SpanOk(s, Span(i, j))
    ensures ParseWords(s, i, argv, []) == ParseWords(s, j + 1, argv + [Span(i, j)], [])
  {
    hide ParseRedirs, GetToken, SpanOk;
    SkipSolid(s, i);
    NoRedirs(s, j + 1);
    assert !Peek(s, i, "|)&;");
    var none: seq<(Span, bool)> := [];
    assert none + none == none;
  }

  // ----- simple commands -----

  lemma ArgsSolid(ws: seq<string>, s: string, i: nat)
    requires forall k :: 0 <= k < |ws| ==> LegalWord(ws[k])
    requires Place(s, i, PrintArgs(ws)) && Stop(s, i + |PrintArgs(ws)|)
    ensures Solid(s, i) && (i < |s| ==> s[i] == ')' || Plain(s[i]))
  {
    if ws != [] {
      assert LegalWord(ws[0]);
      PlaceAt(s, i, PrintArgs(ws), 0);
    }
  }

  lemma ArgsUnfold(ws: seq<string>)
    requires ws != []
    ensures PrintArgs(ws) == ws[0] + (" " + PrintArgs(ws[1..]))
  {
    assert ws[0] + " " + PrintArgs(ws[1..]) == ws[0] + (" " + PrintArgs(ws[1..]));
  }

  /** The first printed argument and the rest. */
  lemma ArgsSplit(ws: seq<string>, s: string, i: nat)
    requires ws != [] && LegalWord(ws[0]) && Place(s, i, PrintArgs(ws))
    ensures var j := i + |ws[0]|;
            && j < |s| && s[j] == ' ' && Place(s, i, ws[0]) && Place(s, j + 1, PrintArgs(ws[1..]))
            && |PrintArgs(ws)| == |ws[0]| + 1 + |PrintArgs(ws[1..])|
            && Plain(s[i])
  {
    hide Place, PrintArgs;
    var w, j := ws[0], i + |ws[0]|;
    ArgsUnfold(ws);
    PlaceSplit(s, i, w, " " + PrintArgs(ws[1..]));
    PlaceSplit(s, j, " ", PrintArgs(ws[1..]));
    PlaceAt(s, j, " ", 0);
    PlaceAt(s, i, w, 0);
  }

  /** argv holds words that read ws, after its first n. */
  ghost predicate ReadsFrom(s: string, argv: seq<Span>, n: nat, ws: seq<string>) {
    && |argv| == n + |ws|
    && (forall k :: 0 <= k < |argv| ==> SpanOk(s, argv[k]))
    && forall k :: n <= k < |argv| ==> s[argv[k].q..argv[k].eq] == ws[k - n]
  }

  lemma {:induction false} ArgsTrip(ws: seq<string>, s: string, i: nat, argv: seq<Span>)
    requires |argv| + |ws| < MAXARGS && forall k :: 0 <= k < |ws| ==> LegalWord(ws[k])
    requires forall k :: 0 <= k < |argv| ==> SpanOk(s, argv[k])
    requires Place(s, i, PrintArgs(ws)) && Stop(s, i + |PrintArgs(ws)|)
    ensures var r := ParseWords(s, i, argv, []);
            && r.Words? && r.list == [] && r.next == i + |PrintArgs(ws)|
            && argv <= r.argv && ReadsFrom(s, r.argv, |argv|, ws)
    decreases |ws|
  {
    hide Place, PrintArgs, ParseWords, ReadsFrom, SpanOk, LegalWord, GetToken;
    if ws == [] {
      NoMoreArgs(s, i, argv);
    } else {
      var j, rest := i + |ws[0]|, ws[1..];
      assert LegalWord(ws[0]);
      ArgsSplit(ws, s, i);
      ArgsSolid(rest, s, j + 1);
      WordSpace(s, i, ws[0]);
      StepWord(s, i, j, argv);
      ArgsTrip(rest, s, j + 1, argv + [Span(i, j)]);
      var r := ParseWords(s, i, argv, []);
      ReadsCons(s, r.argv, argv, Span(i, j), ws);
    }
  }

  lemma WordSpace(s: string, i: nat, w: string)
    requires LegalWord(w) && Place(s, i, w) && i + |w| < |s| && s[i + |w|] == ' ' && Solid(s, i + |w| + 1)
    ensures w != "" && GetToken(s, i) == Token(Word, i, i + |w|, i + |w| + 1) && s[i..i + |w|] == w
  {
    WordToken(s, i, w);
    SkipSolid(s, i + |w| + 1);
    assert Skip(s, i + |w|) == i + |w| + 1;
  }

  lemma NoMoreArgs(s: string, i: nat, argv: seq<Span>)
    requires Stop(s, i + |PrintArgs([])|) && forall k :: 0 <= k < |argv| ==> SpanOk(s, argv[k])
    ensures PrintArgs([]) == "" && ReadsFrom(s, argv, |argv|, [])
    ensures ParseWords(s, i, argv, []) == Words(argv, [], i)
  {
    SkipSolid(s, i);
    assert Peek(s, i, "|)&;") || GetToken(s, i) == Token(End, i, i, i);
  }

  lemma ReadsCons(s: string, all: seq<Span>, argv: seq<Span>, w: Span, ws: seq<string>)
    requires ws != [] && argv + [w] <= all && ReadsFrom(s, all, |argv| + 1, ws[1..]) && SpanOk(s, w) && s[w.q..w.eq] == ws[0]
    ensures argv <= all && ReadsFrom(s, all, |argv|, ws)
  {
    assert all[|argv|] == (argv + [w])[|argv|];
  }

  lemma ReadsTexts(s: string, argv: seq<Span>, ws: seq<string>)
    requires ReadsFrom(s, argv, 0, ws)
    ensures Texts(s, argv) == ws
  {
  }

  lemma ExecTrip(ws: seq<string>, s: string, i: nat)
    requires |ws| < MAXARGS && forall k :: 0 <= k < |ws| ==> LegalWord(ws[k])
    requires Place(s, i, PrintArgs(ws)) && Stop(s, i + |PrintArgs(ws)|)
    ensures var r := ParseExec(s, i);
            r.Ok? && r.next == i + |PrintArgs(ws)| && Text(s, r.cmd) == Exec(ws)
  {
    hide Place, PrintArgs, ParseWords;
    ArgsSolid(ws, s, i);
    SkipSolid(s, i);
    NoRedirs(s, i);
    ArgsTrip(ws, s, i, []);
    ReadsTexts(s, ParseWords(s, i, [], []).argv, ws);
    assert !Peek(s, i, "(");
  }

  // ----- blocks -----

  /** After a block come its redirections, if any. */
  lemma BlockTrip(t: Cmd<string>, s: string, i: nat) returns (c: Cmd<Span>)
    requires Legal(t) && Place(s, i, "(" + Print(t) + ")") && Solid(s, i + |Print(t)| + 2)
    ensures SpansOk(s, c) && Text(s, c) == t
    ensures ParseExec(s, i) == Redirected(c, ParseRedirs(s, i + |Print(t)| + 2))
    decreases t, 2
  {
    hide Place, Print, Legal, ParseExec, ParseLine, ParseRedirs, Wrap, Text, SpansOk;
    Parens(s, i, Print(t));
    PrintSolid(t, s, i + 1);
    LineTrip(t, s, i + 1);
    c := ParseLine(s, i + 1).cmd;
    StepBlock(s, i, c, i + |Print(t)| + 1);
  }

  lemma BlockAlone(t: Cmd<string>, s: string, i: nat)
    requires Legal(t) && Place(s, i, "(" + Print(t) + ")")
    requires var k := i + |Print(t)| + 2; k <= |s| && (k < |s| ==> s[k] == '|' || s[k] == ';' || s[k] == '&' || s[k] == ')')
    ensures var r := ParseExec(s, i);
            r.Ok? && r.next == i + |Print(t)| + 2 && Text(s, r.cmd) == t
    decreases t, 3
  {
    hide Place, Print, Legal, ParseExec, ParseRedirs, Text, SpansOk;
    var c := BlockTrip(t, s, i);
    NoRedirs(s, i + |Print(t)| + 2);
  }

  lemma RedirTrip(t: Cmd<string>, s: string, i: nat)
    requires t.Redir? && Legal(t) && Place(s, i, Print(t)) && Stop(s, i + |Print(t)|)
    ensures var r := ParseExec(s, i);
            r.Ok? && r.next == i + |Print(t)| && Text(s, r.cmd) == t
    decreases t, 0
  {
    hide Place, ParseExec, ParseRedirs, Print, LegalWord, GetToken, Wrap, SpansOk, Text;
    var k, f := i + |Print(t.cmd)| + 2, t.file;
    PrintRedir(t);
    ParensThen(s, i, Print(t.cmd), if t.out then ">" else "<", f);
    WordStop(s, k + 1, f);
    var c := BlockTrip(t.cmd, s, i);
    OneRedir(s, k, f, t.out, c);
    TextRedir(s, c, Span(k + 1, k + 1 + |f|), t);
  }

  lemma PrintRedir(t: Cmd<string>)
    requires t.Redir?
    ensures Print(t) == "(" + Print(t.cmd) + ")" + ((if t.out then ">" else "<") + t.file)
  {
  }

  lemma WordStop(s: string, i: nat, w: string)
    requires LegalWord(w) && Place(s, i, w) && Stop(s, i + |w|)
    ensures w != "" && i + |w| <= |s| && GetToken(s, i) == Token(Word, i, i + |w|, i + |w|) && s[i..i + |w|] == w
    ensures Plain(s[i]) && SpanOk(s, Span(i, i + |w|))
  {
    WordToken(s, i, w);
    SkipSolid(s, i + |w|);
    PlaceAt(s, i, w, 0);
  }

  lemma TextRedir(s: string, c: Cmd<Span>, w: Span, t: Cmd<string>)
    requires t.Redir? && SpansOk(s, c) && SpanOk(s, w) && Text(s, c) == t.cmd && s[w.q..w.eq] == t.file
    ensures SpansOk(s, Redir(c, w, t.out)) && Text(s, Redir(c, w, t.out)) == t
  {
  }

  lemma SymToken(s: string, k: nat)
    requires k + 1 < |s| && Symbol(s[k]) && Plain(s[k + 1])
    ensures GetToken(s, k) == Token(Sym(s[k]), k, k + 1, k + 1)
  {
    SkipSolid(s, k);
    SkipSolid(s, k + 1);
  }

  lemma OneRedir(s: string, k: nat, f: string, out: bool, c: Cmd<Span>)
    requires k + 1 + |f| <= |s| && f != "" && s[k] == (if out then '>' else '<') && Plain(s[k + 1]) && SpansOk(s, c)
    requires Stop(s, k + 1 + |f|)
    requires GetToken(s, k + 1) == Token(Word, k + 1, k + 1 + |f|, k + 1 + |f|)
    ensures var w := Span(k + 1, k + 1 + |f|);
            ParseRedirs(s, k) == Redirs([(w, out)], k + 1 + |f|) && Wrap(c, [(w, out)]) == Redir(c, w, out)
  {
    hide GetToken, SpansOk, SpanOk;
    var w, e := Span(k + 1, k + 1 + |f|), k + 1 + |f|;
    NoRedirs(s, e);
    SkipSolid(s, k);
    SymToken(s, k);
    assert Peek(s, k, "<>");
    assert [(w, out)][1..] == [];
  }

  // ----- lines -----

  lemma {:induction false} LineTrip(t: Cmd<string>, s: string, i: nat)
    requires Legal(t) && Place(s, i, Print(t)) && Stop(s, i + |Print(t)|)
    ensures var r := ParseLine(s, i);
            r.Ok? && r.next == i + |Print(t)| && Text(s, r.cmd) == t
    decreases t, 1
  {
    hide Place, ParseExec, ParseLine, ParsePipe, Text, Stop;
    match t
    case Exec(ws) =>
      ExecTrip(ws, s, i);
      WholeLine(s, i);
    case Redir(_, _, _) =>
      RedirTrip(t, s, i);
      WholeLine(s, i);
    case Pipe(_, _) => PipeTrip(t, s, i);
    case List(_, _) => ListTrip(t, s, i);
    case Back(_) => BackTrip(t, s, i);
  }

  /** A parsed simple command or block that nothing follows is the whole line. */
  lemma WholeLine(s: string, i: nat)
    requires i <= |s| && ParseExec(s, i).Ok? && Stop(s, ParseExec(s, i).next)
    ensures ParseLine(s, i) == ParseExec(s, i) == ParsePipe(s, i)
  {
    hide ParseExec, ParsePipe, ParseLine;
    var r := ParseExec(s, i);
    StepEnd(s, i, r.cmd, r.next);
    StepLine(s, i, r.cmd, r.next);
  }

  lemma PipeTrip(t: Cmd<string>, s: string, i: nat)
    requires t.Pipe? && Legal(t) && Place(s, i, Print(t)) && Stop(s, i + |Print(t)|)
    ensures var p := ParseLine(s, i);
            p.Ok? && p.next == i + |Print(t)| && Text(s, p.cmd) == t
    decreases t, 0
  {
    hide Place, ParseExec, ParseLine, ParsePipe;
    var k := i + |Print(t.left)| + 2;
    ParensThen(s, i, Print(t.left), "|", "(" + Print(t.right) + ")");
    Parens(s, k + 1, Print(t.right));
    BlockAlone(t.left, s, i);
    BlockAlone(t.right, s, k + 1);
    var c, d := ParseExec(s, i).cmd, ParseExec(s, k + 1).cmd;
    StepEnd(s, k + 1, d, k + |Print(t.right)| + 3);
    StepPipe(s, i, c, k, d, k + |Print(t.right)| + 3);
    StepLine(s, i, Pipe(c, d), k + |Print(t.right)| + 3);
  }

  lemma ListTrip(t: Cmd<string>, s: string, i: nat)
    requires t.List? && Legal(t) && Place(s, i, Print(t)) && Stop(s, i + |Print(t)|)
    ensures var p := ParseLine(s, i);
            p.Ok? && p.next == i + |Print(t)| && Text(s, p.cmd) == t
    decreases t, 0
  {
    hide Place, ParseExec, ParseLine, ParsePipe;
    var k := i + |Print(t.left)| + 2;
    ParensThen(s, i, Print(t.left), ";", "(" + Print(t.right) + ")");
    Parens(s, k + 1, Print(t.right));
    BlockAlone(t.left, s, i);
    BlockAlone(t.right, s, k + 1);
    WholeLine(s, k + 1);
    var c := ParseExec(s, i).cmd;
    StepEnd(s, i, c, k);
    StepList(s, i, c, k, ParseLine(s, k + 1).cmd, k + |Print(t.right)| + 3);
  }

  lemma BackTrip(t: Cmd<string>, s: string, i: nat)
    requires t.Back? && Legal(t) && Place(s, i, Print(t)) && Stop(s, i + |Print(t)|)
    ensures var p := ParseLine(s, i);
            p.Ok? && p.next == i + |Print(t)| && Text(s, p.cmd) == t
    decreases t, 0
  {
    hide Place, ParseExec, ParseLine, ParsePipe;
    var k := i + |Print(t.cmd)| + 2;
    assert "&" == "&" + "";
    ParensThen(s, i, Print(t.cmd), "&", "");
    BlockAlone(t.cmd, s, i);
    var c := ParseExec(s, i).cmd;
    StepEnd(s, i, c, k);
    StepBack(s, i, c, k);
  }

  /** The shell reads back every legal command that it is shown in full parentheses. */
  lemma RoundTrip(t: Cmd<string>)
    requires Legal(t)
    ensures var r := ParseCmd(Print(t)); r.Ok? && Text(Print(t), r.cmd) == t
  {
    LineTrip(t, Print(t), 0);
    SkipSolid(Print(t), |Print(t)|);
  }
}
