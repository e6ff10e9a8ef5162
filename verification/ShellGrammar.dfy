/**
What the shell's parser accepts, and what it makes of it.  A line is derived by the grammar below; the
parser accepts exactly the derivable lines and builds the tree that the derivation stands for.
*/
module ShellGrammar {
  import opened Shell

  // ----- tokens -----

  /** From i, over white space, a token of this kind at q..e, and white space up to j. */
  ghost predicate Reads(s: string, i: nat, kind: Kind, q: nat, e: nat, j: nat) {
    && i <= q <= e <= j <= |s|
    && (forall k :: i <= k < q ==> Space(s[k]))
    && (forall k :: e <= k < j ==> Space(s[k]))
    && (j < |s| ==> !Space(s[j]))
    && match kind
       case End => q == e == |s|
       case Word => q < e && (forall k :: q <= k < e ==> Plain(s[k])) && (e < |s| ==> !Plain(s[e]))
       case Append => e == q + 2 && s[q] == '>' && s[q + 1] == '>'
       case Sym(c) => e == q + 1 && s[q] == c && Symbol(c) && (c == '>' && e < |s| ==> s[e] != '>')
  }

  /** gettoken finds the token that is there, and there is only one. */
  lemma TokenExact(s: string, i: nat, kind: Kind, q: nat, e: nat, j: nat)
    requires i <= |s|
    ensures Reads(s, i, kind, q, e, j) <==> GetToken(s, i) == Token(kind, q, e, j)
  {
    var t := GetToken(s, i);
    if Reads(s, i, kind, q, e, j) {
      SkipIs(s, i, q);
      SkipIs(s, e, j);
      if kind.Word? {
        WordEndIs(s, q, e);
      }
    }
  }

  lemma SkipIs(s: string, i: nat, j: nat)
    requires i <= j <= |s| && (forall k :: i <= k < j ==> Space(s[k])) && (j < |s| ==> !Space(s[j]))
    ensures Skip(s, i) == j
  {
    var k := Skip(s, i);
  }

  lemma WordEndIs(s: string, i: nat, j: nat)
    requires i <= j <= |s| && (forall k :: i <= k < j ==> Plain(s[k])) && (j < |s| ==> !Plain(s[j]))
    ensures WordEnd(s, i) == j
  {
    var k := WordEnd(s, i);
  }

  // ----- the grammar -----

  datatype Op = In | Out | Onto

  /** A word, or a redirection of input, of output, or of output at the end of a file. */
  datatype Item = Arg(w: string) | Io(op: Op, file: string)

  /** Words and redirections in any order, or a block and redirections after it. */
  datatype Part = Simple(items: seq<Item>) | Block(body: Line, redirs: seq<Item>)

  /** Parts with | between them. */
  datatype Pipes = Last(u: Part) | Bar(u: Part, rest: Pipes)

  /** Pipelines, each with any number of & after it, and ; between them. */
  datatype Line = One(p: Pipes, amps: nat) | More(p: Pipes, amps: nat, rest: Line)

  function OpKind(op: Op): Kind {
    match op
    case In => Sym('<')
    case Out => Sym('>')
    case Onto => Append
  }

  /** Where the items end, if they are what is spelled from i on. */
  function MatchItems(s: string, i: nat, items: seq<Item>): (r: nat)
    requires i <= |s|
    ensures r <= |s| + 1 && (r <= |s| ==> i <= r && (r < |s| ==> !Space(s[r])))
    decreases |items|
  {
    if items == [] then Skip(s, i)
    else
      var t := GetToken(s, i);
      match items[0]
      case Arg(w) =>
        if t.kind == Word && s[t.q..t.eq] == w then MatchItems(s, t.next, items[1..]) else |s| + 1
      case Io(op, f) =>
        var u := GetToken(s, t.next);
        if t.kind == OpKind(op) && u.kind == Word && s[u.q..u.eq] == f then MatchItems(s, u.next, items[1..]) else |s| + 1
  }

  predicate Sees(s: string, j: nat, toks: string) {
    j < |s| && s[j] in toks
  }

  /** |s| + 1 stands for no match. */
  function MatchPart(s: string, i: nat, u: Part): (r: nat)
    requires i <= |s|
    ensures r <= |s| + 1 && (r <= |s| ==> i <= r && (r < |s| ==> !Space(s[r])))
    decreases u
  {
    match u
    case Simple(items) =>
      var j := MatchItems(s, i, items);
      if j == |s| || Sees(s, j, "|)&;") then j else |s| + 1
    case Block(body, redirs) =>
      var t := GetToken(s, i);
      if t.kind != Sym('(') then |s| + 1
      else
        var k := MatchLine(s, t.next, body);
        if !Sees(s, k, ")") then |s| + 1
        else
          var j := MatchItems(s, GetToken(s, k).next, redirs);
          if j <= |s| && (forall x :: 0 <= x < |redirs| ==> redirs[x].Io?) && !Sees(s, j, "<>") then j else |s| + 1
  }

  function MatchPipes(s: string, i: nat, p: Pipes): (r: nat)
    requires i <= |s|
    ensures r <= |s| + 1 && (r <= |s| ==> i <= r && (r < |s| ==> !Space(s[r])))
    decreases p
  {
    match p
    case Last(u) =>
      var j := MatchPart(s, i, u);
      if j <= |s| && !Sees(s, j, "|") then j else |s| + 1
    case Bar(u, rest) =>
      var j := MatchPart(s, i, u);
      if Sees(s, j, "|") then MatchPipes(s, GetToken(s, j).next, rest) else |s| + 1
  }

  function MatchAmps(s: string, i: nat, n: nat): (r: nat)
    requires i <= |s|
    ensures r <= |s| + 1 && (r <= |s| ==> i <= r && (r < |s| ==> !Space(s[r])))
    decreases n
  {
    var j := Skip(s, i);
    if n == 0 then (if Sees(s, j, "&") then |s| + 1 else j)
    else if Sees(s, j, "&") then MatchAmps(s, GetToken(s, j).next, n - 1) else |s| + 1
  }

  function MatchLine(s: string, i: nat, x: Line): (r: nat)
    requires i <= |s|
    ensures r <= |s| + 1 && (r <= |s| ==> i <= r && (r < |s| ==> !Space(s[r])))
    decreases x
  {
    var j := MatchPipes(s, i, x.p);
    if j > |s| then |s| + 1
    else
      var k := MatchAmps(s, j, x.amps);
      match x
      case One(_, _) => if k <= |s| && !Sees(s, k, ";") then k else |s| + 1
      case More(_, _, rest) => if Sees(s, k, ";") then MatchLine(s, GetToken(s, k).next, rest) else |s| + 1
  }

  /** x derives the whole line s. */
  predicate Derives(x: Line, s: string) {
    MatchLine(s, 0, x) == |s|
  }

  // ----- what a derivation stands for -----

  function Args(items: seq<Item>): seq<string> {
    if items == [] then [] else (if items[0].Arg? then [items[0].w] else []) + Args(items[1..])
  }

  function Ios(items: seq<Item>): seq<(string, bool)> {
    if items == [] then [] else (if items[0].Io? then [(items[0].file, items[0].op != In)] else []) + Ios(items[1..])
  }

  /** The last redirection is outermost. */
  function Around(c: Cmd<string>, ios: seq<(string, bool)>): Cmd<string> {
    if ios == [] then c else Redir(Around(c, ios[..|ios| - 1]), ios[|ios| - 1].0, ios[|ios| - 1].1)
  }

  function PartTree(u: Part): Cmd<string> {
    match u
    case Simple(items) => Around(Exec(Args(items)), Ios(items))
    case Block(body, redirs) => Around(LineTree(body), Ios(redirs))
  }

  function PipesTree(p: Pipes): Cmd<string> {
    match p
    case Last(u) => PartTree(u)
    case Bar(u, rest) => Pipe(PartTree(u), PipesTree(rest))
  }

  function Behind(c: Cmd<string>, n: nat): Cmd<string> {
    if n == 0 then c else Back(Behind(c, n - 1))
  }

  function LineTree(x: Line): Cmd<string> {
    match x
    case One(p, n) => Behind(PipesTree(p), n)
    case More(p, n, rest) => List(Behind(PipesTree(p), n), LineTree(rest))
  }

  /** Every simple command has fewer than MAXARGS words. */
  predicate FewPart(u: Part) {
    match u
    case Simple(items) => |Args(items)| < MAXARGS
    case Block(body, _) => FewLine(body)
  }

  predicate FewPipes(p: Pipes) {
    match p
    case Last(u) => FewPart(u)
    case Bar(u, rest) => FewPart(u) && FewPipes(rest)
  }

  predicate FewLine(x: Line) {
    FewPipes(x.p) && (x.More? ==> FewLine(x.rest))
  }

  // ----- the parser follows every derivation -----

  function TextIos(s: string, list: seq<(Span, bool)>): (r: seq<(string, bool)>)
    requires forall k :: 0 <= k < |list| ==> SpanOk(s, list[k].0)
    ensures |r| == |list|
  {
    seq(|list|, k requires 0 <= k < |list| && SpanOk(s, list[k].0) => (s[list[k].0.q..list[k].0.eq], list[k].1))
  }

  lemma {:induction false} AroundFirst(c: Cmd<string>, ios: seq<(string, bool)>)
    requires ios != []
    ensures Around(c, ios) == Around(Redir(c, ios[0].0, ios[0].1), ios[1..])
    decreases |ios|
  {
    var n := |ios| - 1;
    if n > 0 {
      AroundFirst(c, ios[..n]);
      assert ios[..n][1..] == ios[1..][..n - 1];
    }
  }

  lemma {:induction false} WrapText(s: string, c: Cmd<Span>, list: seq<(Span, bool)>)
    requires SpansOk(s, c) && forall k :: 0 <= k < |list| ==> SpanOk(s, list[k].0)
    ensures SpansOk(s, Wrap(c, list)) && Text(s, Wrap(c, list)) == Around(Text(s, c), TextIos(s, list))
    decreases |list|
  {
    if list == [] {
      assert TextIos(s, list) == [];
    } else {
      var d := Redir(c, list[0].0, list[0].1);
      WrapText(s, d, list[1..]);
      assert TextIos(s, list)[1..] == TextIos(s, list[1..]);
      AroundFirst(Text(s, c), TextIos(s, list));
    }
  }

  lemma SkipTwice(s: string, i: nat)
    requires i <= |s|
    ensures Skip(s, Skip(s, i)) == Skip(s, i) && GetToken(s, Skip(s, i)) == GetToken(s, i)
  {
  }

  lemma MatchSkip(s: string, i: nat, items: seq<Item>)
    requires i <= |s|
    ensures MatchItems(s, Skip(s, i), items) == MatchItems(s, i, items)
  {
    hide GetToken, Skip;
    SkipTwice(s, i);
  }

  /** How many redirections stand before the first word. */
  function Lead(items: seq<Item>): (n: nat)
    ensures n <= |items| && (forall k :: 0 <= k < n ==> items[k].Io?) && (n < |items| ==> items[n].Arg?)
  {
    if items == [] || items[0].Arg? then 0 else 1 + Lead(items[1..])
  }

  lemma TokenStart(s: string, i: nat)
    requires i <= |s|
    ensures var t := GetToken(s, i);
            && t.q == Skip(s, i)
            && (t.kind.Word? ==> t.q < |s| && Plain(s[t.q]))
            && (t.kind == Sym('<') ==> Sees(s, t.q, "<")) && (t.kind == Sym('>') || t.kind == Append ==> Sees(s, t.q, ">"))
            && (Sees(s, t.q, "<") ==> t.kind == Sym('<')) && (Sees(s, t.q, ">") ==> t.kind == Sym('>') || t.kind == Append)
            && (t.kind == Sym('(') <==> Sees(s, t.q, "(")) && (t.kind.End? <==> t.q == |s|)
            && Skip(s, t.next) == t.next
  {
  }

  lemma IosCons(items: seq<Item>, n: nat)
    requires 0 < n <= |items| && items[0].Io?
    ensures Ios(items[..n]) == [(items[0].file, items[0].op != In)] + Ios(items[1..][..n - 1])
  {
    assert items[..n][1..] == items[1..][..n - 1];
  }

  lemma RedirsNone(s: string, i: nat)
    requires i <= |s| && !Sees(s, Skip(s, i), "<>")
    ensures ParseRedirs(s, i) == Redirs([], Skip(s, i))
  {
  }

  lemma RedirsOne(s: string, i: nat)
    requires i <= |s| && Sees(s, Skip(s, i), "<>") && GetToken(s, GetToken(s, i).next).kind == Word
    ensures var t, u := GetToken(s, i), GetToken(s, GetToken(s, i).next);
            var r := ParseRedirs(s, u.next);
            ParseRedirs(s, i) ==
            if r.BadRedir? then BadRedir else Redirs([(Span(u.q, u.eq), t.kind != Sym('<'))] + r.list, r.next)
  {
    hide GetToken;
    SkipTwice(s, i);
  }

  /** The first item is a redirection. */
  lemma MatchIo(s: string, i: nat, items: seq<Item>)
    requires i <= |s| && items != [] && items[0].Io? && MatchItems(s, i, items) <= |s|
    ensures var t, u := GetToken(s, i), GetToken(s, GetToken(s, i).next);
            && t.kind == OpKind(items[0].op) && u.kind == Word && s[u.q..u.eq] == items[0].file && SpanOk(s, Span(u.q, u.eq))
            && Sees(s, Skip(s, i), "<>") && (t.kind != Sym('<') <==> items[0].op != In)
            && MatchItems(s, u.next, items[1..]) == MatchItems(s, i, items)
  {
    TokenStart(s, i);
  }

  lemma MatchArg(s: string, i: nat, items: seq<Item>)
    requires i <= |s| && items != [] && items[0].Arg? && MatchItems(s, i, items) <= |s|
    ensures var t := GetToken(s, i);
            && t.kind == Word && s[t.q..t.eq] == items[0].w && SpanOk(s, Span(t.q, t.eq))
            && t.q == Skip(s, i) < |s| && Plain(s[t.q])
            && MatchItems(s, t.next, items[1..]) == MatchItems(s, i, items)
  {
    TokenStart(s, i);
  }

  lemma TextIosCons(s: string, w: Span, out: bool, list: seq<(Span, bool)>)
    requires SpanOk(s, w) && forall k :: 0 <= k < |list| ==> SpanOk(s, list[k].0)
    ensures TextIos(s, [(w, out)] + list) == [(s[w.q..w.eq], out)] + TextIos(s, list)
  {
    hide SpanOk;
  }

  lemma {:induction false} RedirsFollow(s: string, i: nat, items: seq<Item>)
    requires i <= |s| && MatchItems(s, i, items) <= |s| && !Sees(s, MatchItems(s, i, items), "<>")
    ensures var r, n := ParseRedirs(s, i), Lead(items);
            && r.Redirs? && TextIos(s, r.list) == Ios(items[..n])
            && MatchItems(s, r.next, items[n..]) == MatchItems(s, i, items) && Skip(s, r.next) == r.next
    decreases |items|
  {
    hide GetToken, SpanOk, ParseRedirs, MatchItems, TextIos, Ios, Skip;
    if items == [] || items[0].Arg? {
      NoLead(s, i, items);
    } else {
      MatchIo(s, i, items);
      RedirsOne(s, i);
      var t, u := GetToken(s, i), GetToken(s, GetToken(s, i).next);
      RedirsFollow(s, u.next, items[1..]);
      var n := Lead(items);
      IosCons(items, n);
      assert items[1..][n - 1..] == items[n..];
      TextIosCons(s, Span(u.q, u.eq), t.kind != Sym('<'), ParseRedirs(s, u.next).list);
    }
  }

  lemma NoLead(s: string, i: nat, items: seq<Item>)
    requires i <= |s| && MatchItems(s, i, items) <= |s| && !Sees(s, MatchItems(s, i, items), "<>")
    requires items == [] || items[0].Arg?
    ensures ParseRedirs(s, i) == Redirs([], Skip(s, i)) && TextIos(s, []) == Ios(items[..0])
    ensures items[0..] == items && MatchItems(s, Skip(s, i), items) == MatchItems(s, i, items) && Skip(s, Skip(s, i)) == Skip(s, i)
  {
    hide GetToken;
    SkipTwice(s, i);
    MatchSkip(s, i, items);
    if items != [] {
      MatchArg(s, i, items);
    }
    RedirsNone(s, i);
  }

  // ----- simple commands -----

  lemma Assoc<T>(a: seq<T>, b: seq<T>, c: seq<T>)
    ensures (a + b) + c == a + (b + c)
  {
  }

  /** What the first item contributes. */
  function ArgOf(x: Item): seq<string> {
    if x.Arg? then [x.w] else []
  }

  function IoOf(x: Item): seq<(string, bool)> {
    if x.Io? then [(x.file, x.op != In)] else []
  }

  lemma ItemsCons(items: seq<Item>)
    requires items != []
    ensures Args(items) == ArgOf(items[0]) + Args(items[1..]) && Ios(items) == IoOf(items[0]) + Ios(items[1..])
  {
  }

  lemma {:induction false} ItemsSplit(items: seq<Item>, n: nat)
    requires n <= |items|
    ensures Args(items) == Args(items[..n]) + Args(items[n..]) && Ios(items) == Ios(items[..n]) + Ios(items[n..])
    decreases n
  {
    hide Args, Ios, ArgOf, IoOf;
    if n == 0 {
      NoItems();
      assert items[..0] == [] && items[0..] == items;
    } else {
      ItemsSplit(items[1..], n - 1);
      assert items[1..][..n - 1] == items[..n][1..] && items[1..][n - 1..] == items[n..];
      ItemsCons(items);
      ItemsCons(items[..n]);
      Assoc(ArgOf(items[0]), Args(items[..n][1..]), Args(items[n..]));
      Assoc(IoOf(items[0]), Ios(items[..n][1..]), Ios(items[n..]));
    }
  }

  lemma NoItems()
    ensures Args([]) == [] && Ios([]) == []
  {
  }

  lemma {:induction false} NoArgs(items: seq<Item>)
    requires forall k :: 0 <= k < |items| ==> items[k].Io?
    ensures Args(items) == []
  {
    if items != [] {
      NoArgs(items[1..]);
    }
  }

  /** A word and the redirections after it. */
  lemma WordStep(s: string, i: nat, argv: seq<Span>, list: seq<(Span, bool)>)
    requires i <= |s| && GetToken(s, i).kind == Word && |argv| + 1 < MAXARGS && ParseRedirs(s, GetToken(s, i).next).Redirs?
    requires forall k :: 0 <= k < |argv| ==> SpanOk(s, argv[k])
    requires forall k :: 0 <= k < |list| ==> SpanOk(s, list[k].0)
    ensures var t := GetToken(s, i);
            var r := ParseRedirs(s, t.next);
            && SpanOk(s, Span(t.q, t.eq)) && (forall k :: 0 <= k < |r.list| ==> SpanOk(s, r.list[k].0)) && r.next <= |s|
            && ParseWords(s, i, argv, list) == ParseWords(s, r.next, argv + [Span(t.q, t.eq)], list + r.list)
  {
    hide GetToken, ParseRedirs, SpanOk;
    SkipTwice(s, i);
    TokenStart(s, i);
    assert !Peek(s, i, "|)&;");
  }

  lemma WordsEnd(s: string, i: nat, argv: seq<Span>, list: seq<(Span, bool)>)
    requires i <= |s| && (Skip(s, i) == |s| || Sees(s, Skip(s, i), "|)&;"))
    requires forall k :: 0 <= k < |argv| ==> SpanOk(s, argv[k])
    requires forall k :: 0 <= k < |list| ==> SpanOk(s, list[k].0)
    ensures ParseWords(s, i, argv, list) == Words(argv, list, Skip(s, i))
  {
    hide SpanOk;
    SkipTwice(s, i);
  }

  lemma TextsSnoc(s: string, argv: seq<Span>, w: Span)
    requires (forall k :: 0 <= k < |argv| ==> SpanOk(s, argv[k])) && SpanOk(s, w)
    ensures Texts(s, argv + [w]) == Texts(s, argv) + [s[w.q..w.eq]]
  {
    hide SpanOk;
  }

  lemma TextIosConcat(s: string, a: seq<(Span, bool)>, b: seq<(Span, bool)>)
    requires (forall k :: 0 <= k < |a| ==> SpanOk(s, a[k].0)) && forall k :: 0 <= k < |b| ==> SpanOk(s, b[k].0)
    ensures TextIos(s, a + b) == TextIos(s, a) + TextIos(s, b)
  {
    hide SpanOk;
  }

  lemma {:induction false} WordsFollow(s: string, i: nat, items: seq<Item>, argv: seq<Span>, list: seq<(Span, bool)>)
    requires i <= |s| && (items == [] || items[0].Arg?) && |argv| + |Args(items)| < MAXARGS
    requires var j := MatchItems(s, i, items); j == |s| || Sees(s, j, "|)&;")
    requires forall k :: 0 <= k < |argv| ==> SpanOk(s, argv[k])
    requires forall k :: 0 <= k < |list| ==> SpanOk(s, list[k].0)
    ensures var r := ParseWords(s, i, argv, list);
            && r.Words? && r.next == MatchItems(s, i, items)
            && Texts(s, r.argv) == Texts(s, argv) + Args(items) && TextIos(s, r.list) == TextIos(s, list) + Ios(items)
    decreases |items|
  {
    hide GetToken, SpanOk, ParseRedirs, MatchItems, TextIos, Texts, Skip, ParseWords, Args, Ios;
    NoItems();
    if items == [] {
      EmptyMatch(s, i);
      WordsEnd(s, i, argv, list);
    } else {
      var t, rest := GetToken(s, i), items[1..];
      ItemsCons(items);
      MatchArg(s, i, items);
      RedirsFollow(s, t.next, rest);
      var r, n := ParseRedirs(s, t.next), Lead(rest);
      WordStep(s, i, argv, list);
      ItemsSplit(rest, n);
      NoArgs(rest[..n]);
      WordsFollow(s, r.next, rest[n..], argv + [Span(t.q, t.eq)], list + r.list);
      TextsSnoc(s, argv, Span(t.q, t.eq));
      TextIosConcat(s, list, r.list);
      Assoc(Texts(s, argv), [items[0].w], Args(rest[n..]));
      Assoc(TextIos(s, list), TextIos(s, r.list), Ios(rest[n..]));
    }
  }

  lemma EmptyMatch(s: string, i: nat)
    requires i <= |s|
    ensures MatchItems(s, i, []) == Skip(s, i)
  {
  }

  lemma SimpleFollow(s: string, i: nat, items: seq<Item>)
    requires i <= |s| && |Args(items)| < MAXARGS && MatchPart(s, i, Simple(items)) <= |s|
    ensures var r := ParseExec(s, i);
            r.Ok? && r.next == MatchPart(s, i, Simple(items)) && Text(s, r.cmd) == PartTree(Simple(items))
  {
    hide GetToken, SpanOk, ParseRedirs, MatchItems, TextIos, Texts, Skip, ParseWords, Args, Ios, Wrap, Around;
    NotBlock(s, i, items);
    SkipTwice(s, i);
    MatchSkip(s, i, items);
    RedirsFollow(s, Skip(s, i), items);
    var r, n := ParseRedirs(s, Skip(s, i)), Lead(items);
    ItemsSplit(items, n);
    NoArgs(items[..n]);
    WordsFollow(s, r.next, items[n..], [], r.list);
    var w := ParseWords(s, r.next, [], r.list);
    NoTexts(s);
    WrapText(s, Exec(w.argv), w.list);
  }

  lemma NoTexts(s: string)
    ensures Texts(s, []) == []
  {
  }

  lemma NotBlock(s: string, i: nat, items: seq<Item>)
    requires i <= |s| && MatchPart(s, i, Simple(items)) <= |s|
    ensures MatchPart(s, i, Simple(items)) == MatchItems(s, i, items) && !Peek(s, i, "(")
    ensures !Sees(s, MatchItems(s, i, items), "<>")
  {
    TokenStart(s, i);
  }

  // ----- blocks, pipelines and lines -----

  lemma BlockStep(s: string, i: nat)
    requires i <= |s| && GetToken(s, i).kind == Sym('(')
    ensures var p := ParseLine(s, GetToken(s, i).next);
            ParseExec(s, i) ==
            if p.Err? then p
            else if !Sees(s, Skip(s, p.next), ")") then Err(MissingParen)
            else
              var r := ParseRedirs(s, GetToken(s, p.next).next);
              if r.BadRedir? then Err(MissingFile) else Ok(Wrap(p.cmd, r.list), r.next)
  {
    hide GetToken, ParseLine, ParseRedirs, Wrap, ParseWords;
    TokenStart(s, i);
    SkipTwice(s, i);
    var p := ParseLine(s, GetToken(s, i).next);
    if p.Ok? {
      SkipTwice(s, p.next);
    }
  }

  lemma PipeStep(s: string, i: nat)
    requires i <= |s| && ParseExec(s, i).Ok?
    ensures var p := ParseExec(s, i);
            && (!Sees(s, Skip(s, p.next), "|") ==> ParsePipe(s, i) == Ok(p.cmd, Skip(s, p.next)))
            && (Sees(s, Skip(s, p.next), "|") ==>
                  var q := ParsePipe(s, GetToken(s, p.next).next);
                  ParsePipe(s, i) == if q.Err? then q else Ok(Pipe(p.cmd, q.cmd), q.next))
  {
    hide GetToken, ParseExec;
    SkipTwice(s, ParseExec(s, i).next);
  }

  lemma LineStep(s: string, i: nat)
    requires i <= |s| && ParsePipe(s, i).Ok?
    ensures var p := ParsePipe(s, i);
            var b := ParseBacks(s, p.next, p.cmd);
            && (!Sees(s, Skip(s, b.next), ";") ==> ParseLine(s, i) == Ok(b.cmd, Skip(s, b.next)))
            && (Sees(s, Skip(s, b.next), ";") ==>
                  var q := ParseLine(s, GetToken(s, b.next).next);
                  ParseLine(s, i) == if q.Err? then q else Ok(List(b.cmd, q.cmd), q.next))
  {
    hide GetToken, ParsePipe, ParseBacks;
    var p := ParsePipe(s, i);
    SkipTwice(s, ParseBacks(s, p.next, p.cmd).next);
  }

  lemma NoSkip(s: string, j: nat)
    requires j <= |s| && (j < |s| ==> !Space(s[j]))
    ensures Skip(s, j) == j
  {
  }

  lemma {:induction false} PartFollow(s: string, i: nat, u: Part)
    requires i <= |s| && FewPart(u) && MatchPart(s, i, u) <= |s|
    ensures var r := ParseExec(s, i);
            r.Ok? && r.next == MatchPart(s, i, u) && Text(s, r.cmd) == PartTree(u)
    decreases u
  {
    hide GetToken, ParseExec, ParseLine, ParseRedirs, MatchItems, MatchLine, Text, Wrap, TextIos, Skip, Args, Ios, Around, LineTree;
    match u
    case Simple(items) => SimpleFollow(s, i, items);
    case Block(body, redirs) =>
      var t := GetToken(s, i);
      LineFollow(s, t.next, body);
      BlockStep(s, i);
      var p := ParseLine(s, t.next);
      NoSkip(s, p.next);
      var k := GetToken(s, p.next).next;
      RedirsFollow(s, k, redirs);
      assert Lead(redirs) == |redirs| && redirs[..|redirs|] == redirs && redirs[|redirs|..] == [];
      var r := ParseRedirs(s, k);
      EmptyMatch(s, r.next);
      WrapText(s, p.cmd, r.list);
  }

  lemma {:induction false} PipesFollow(s: string, i: nat, x: Pipes)
    requires i <= |s| && FewPipes(x) && MatchPipes(s, i, x) <= |s|
    ensures var r := ParsePipe(s, i);
            r.Ok? && r.next == MatchPipes(s, i, x) && Text(s, r.cmd) == PipesTree(x)
    decreases x
  {
    hide GetToken, ParseExec, ParsePipe, MatchPart, PartTree, FewPart, Skip;
    PartFollow(s, i, x.u);
    PipeStep(s, i);
    var p := ParseExec(s, i);
    NoSkip(s, p.next);
    match x
    case Last(_) =>
    case Bar(_, rest) => PipesFollow(s, GetToken(s, p.next).next, rest);
  }

  lemma {:induction false} AmpsFollow(s: string, i: nat, c: Cmd<Span>, n: nat, d: Cmd<string>, m: nat)
    requires i <= |s| && SpansOk(s, c) && MatchAmps(s, i, n) <= |s| && Text(s, c) == Behind(d, m)
    ensures var r := ParseBacks(s, i, c);
            r.next == MatchAmps(s, i, n) && Text(s, r.cmd) == Behind(d, m + n)
    decreases n
  {
    hide GetToken, Text, SpansOk;
    SkipTwice(s, i);
    if n > 0 {
      BackText(s, c);
      AmpsFollow(s, GetToken(s, i).next, Back(c), n - 1, d, m + 1);
    }
  }

  lemma BackText(s: string, c: Cmd<Span>)
    requires SpansOk(s, c)
    ensures SpansOk(s, Back(c)) && Text(s, Back(c)) == Back(Text(s, c))
  {
  }

  lemma ListText(s: string, c: Cmd<Span>, d: Cmd<Span>)
    requires SpansOk(s, c) && SpansOk(s, d)
    ensures SpansOk(s, List(c, d)) && Text(s, List(c, d)) == List(Text(s, c), Text(s, d))
  {
  }

  lemma {:induction false} LineFollow(s: string, i: nat, x: Line)
    requires i <= |s| && FewLine(x) && MatchLine(s, i, x) <= |s|
    ensures var r := ParseLine(s, i);
            r.Ok? && r.next == MatchLine(s, i, x) && Text(s, r.cmd) == LineTree(x)
    decreases x
  {
    hide GetToken, ParseLine, ParsePipe, ParseBacks, MatchPipes, MatchAmps, PipesTree, FewPipes, Skip, Text, SpansOk;
    PipesFollow(s, i, x.p);
    var p := ParsePipe(s, i);
    assert Behind(PipesTree(x.p), 0) == PipesTree(x.p);
    AmpsFollow(s, p.next, p.cmd, x.amps, PipesTree(x.p), 0);
    LineStep(s, i);
    var b := ParseBacks(s, p.next, p.cmd);
    NoSkip(s, b.next);
    match x
    case One(_, _) =>
    case More(_, _, rest) =>
      LineFollow(s, GetToken(s, b.next).next, rest);
      ListText(s, b.cmd, ParseLine(s, GetToken(s, b.next).next).cmd);
  }

  // ----- whatever the parser accepts has a derivation -----

  lemma {:induction false} MatchConcat(s: string, i: nat, a: seq<Item>, b: seq<Item>)
    requires i <= |s| && MatchItems(s, i, a) <= |s|
    ensures MatchItems(s, i, a + b) == MatchItems(s, MatchItems(s, i, a), b)
    decreases |a|
  {
    hide GetToken, Skip;
    if a == [] {
      assert a + b == b;
      MatchSkip(s, i, b);
    } else {
      assert (a + b)[1..] == a[1..] + b;
      var t := GetToken(s, i);
      MatchConcat(s, if a[0].Arg? then t.next else GetToken(s, t.next).next, a[1..], b);
    }
  }

  /** The operator of a redirection token. */
  function OpOf(k: Kind): Op {
    if k == Sym('<') then In else if k == Append then Onto else Out
  }

  lemma {:induction false} RedirsDerive(s: string, i: nat) returns (items: seq<Item>)
    requires i <= |s| && ParseRedirs(s, i).Redirs?
    ensures (forall k :: 0 <= k < |items| ==> items[k].Io?)
    ensures MatchItems(s, i, items) == ParseRedirs(s, i).next && !Sees(s, ParseRedirs(s, i).next, "<>")
    decreases |s| - i
  {
    hide GetToken, ParseRedirs, MatchItems;
    if !Sees(s, Skip(s, i), "<>") {
      RedirsNone(s, i);
      EmptyMatch(s, i);
      items := [];
    } else {
      RedirGiven(s, i);
      RedirsOne(s, i);
      var t, u := GetToken(s, i), GetToken(s, GetToken(s, i).next);
      var rest := RedirsDerive(s, u.next);
      items := [Io(OpOf(t.kind), s[u.q..u.eq])] + rest;
      IoMatches(s, i, rest);
    }
  }

  lemma RedirGiven(s: string, i: nat)
    requires i <= |s| && Sees(s, Skip(s, i), "<>") && ParseRedirs(s, i).Redirs?
    ensures GetToken(s, GetToken(s, i).next).kind == Word && i < GetToken(s, GetToken(s, i).next).next
    ensures ParseRedirs(s, GetToken(s, GetToken(s, i).next).next).Redirs?
  {
    hide GetToken;
    SkipTwice(s, i);
  }

  lemma IoMatches(s: string, i: nat, rest: seq<Item>)
    requires i <= |s| && Sees(s, Skip(s, i), "<>") && GetToken(s, GetToken(s, i).next).kind == Word
    ensures var t, u := GetToken(s, i), GetToken(s, GetToken(s, i).next);
            MatchItems(s, i, [Io(OpOf(t.kind), s[u.q..u.eq])] + rest) == MatchItems(s, u.next, rest)
  {
    hide GetToken;
    TokenStart(s, i);
    var t, u := GetToken(s, i), GetToken(s, GetToken(s, i).next);
    var items := [Io(OpOf(t.kind), s[u.q..u.eq])] + rest;
    assert items[0] == Io(OpOf(t.kind), s[u.q..u.eq]) && items[1..] == rest;
  }

  lemma ArgMatches(s: string, i: nat, rest: seq<Item>)
    requires i <= |s| && GetToken(s, i).kind == Word
    ensures var t := GetToken(s, i);
            MatchItems(s, i, [Arg(s[t.q..t.eq])] + rest) == MatchItems(s, t.next, rest)
  {
    hide GetToken;
    var t := GetToken(s, i);
    var items := [Arg(s[t.q..t.eq])] + rest;
    assert items[0] == Arg(s[t.q..t.eq]) && items[1..] == rest;
  }

  /** The loop of parseexec stops here, or goes on with a word and redirections. */
  lemma WordsGiven(s: string, i: nat, argv: seq<Span>, list: seq<(Span, bool)>)
    requires i <= |s| && !(Skip(s, i) == |s| || Sees(s, Skip(s, i), "|)&;"))
    requires forall k :: 0 <= k < |argv| ==> SpanOk(s, argv[k])
    requires forall k :: 0 <= k < |list| ==> SpanOk(s, list[k].0)
    requires ParseWords(s, i, argv, list).Words?
    ensures GetToken(s, i).kind == Word && |argv| + 1 < MAXARGS && ParseRedirs(s, GetToken(s, i).next).Redirs?
    ensures i < ParseRedirs(s, GetToken(s, i).next).next
  {
    hide GetToken, ParseRedirs, SpanOk;
    SkipTwice(s, i);
    TokenStart(s, i);
  }

  lemma {:induction false} WordsDerive(s: string, i: nat, argv: seq<Span>, list: seq<(Span, bool)>) returns (items: seq<Item>)
    requires i <= |s| && |argv| < MAXARGS
    requires forall k :: 0 <= k < |argv| ==> SpanOk(s, argv[k])
    requires forall k :: 0 <= k < |list| ==> SpanOk(s, list[k].0)
    requires ParseWords(s, i, argv, list).Words?
    ensures var r := ParseWords(s, i, argv, list);
            && MatchItems(s, i, items) == r.next && (r.next == |s| || Sees(s, r.next, "|)&;"))
            && |argv| + |Args(items)| < MAXARGS
    decreases |s| - i
  {
    hide GetToken, SpanOk, ParseRedirs, MatchItems, Skip, ParseWords, Args, Ios;
    NoItems();
    if Skip(s, i) == |s| || Sees(s, Skip(s, i), "|)&;") {
      WordsEnd(s, i, argv, list);
      EmptyMatch(s, i);
      items := [];
    } else {
      WordsGiven(s, i, argv, list);
      WordStep(s, i, argv, list);
      var t := GetToken(s, i);
      var r := ParseRedirs(s, t.next);
      var ios := RedirsDerive(s, t.next);
      var rest := WordsDerive(s, r.next, argv + [Span(t.q, t.eq)], list + r.list);
      items := [Arg(s[t.q..t.eq])] + (ios + rest);
      MatchConcat(s, t.next, ios, rest);
      ArgMatches(s, i, ios + rest);
      OneArg(s[t.q..t.eq], ios, rest);
    }
  }

  lemma OneArg(w: string, ios: seq<Item>, rest: seq<Item>)
    requires forall k :: 0 <= k < |ios| ==> ios[k].Io?
    ensures |Args([Arg(w)] + (ios + rest))| == 1 + |Args(rest)|
  {
    hide Args, Ios;
    var items := [Arg(w)] + (ios + rest);
    ItemsCons(items);
    assert items[1..] == ios + rest;
    ItemsSplit(ios + rest, |ios|);
    assert (ios + rest)[..|ios|] == ios && (ios + rest)[|ios|..] == rest;
    NoArgs(ios);
  }

  lemma SimpleDerive(s: string, i: nat) returns (u: Part)
    requires i <= |s| && GetToken(s, i).kind != Sym('(') && ParseExec(s, i).Ok?
    ensures MatchPart(s, i, u) == ParseExec(s, i).next && FewPart(u)
  {
    hide GetToken, SpanOk, ParseRedirs, MatchItems, Skip, ParseWords, Args, Ios, Wrap;
    TokenStart(s, i);
    SkipTwice(s, i);
    var r := ParseRedirs(s, Skip(s, i));
    var ios := RedirsDerive(s, Skip(s, i));
    var rest := WordsDerive(s, r.next, [], r.list);
    MatchConcat(s, Skip(s, i), ios, rest);
    MatchSkip(s, i, ios + rest);
    ItemsSplit(ios + rest, |ios|);
    assert (ios + rest)[..|ios|] == ios && (ios + rest)[|ios|..] == rest;
    NoArgs(ios);
    u := Simple(ios + rest);
  }

  lemma {:induction false} PartDerive(s: string, i: nat) returns (u: Part)
    requires i <= |s| && ParseExec(s, i).Ok?
    ensures MatchPart(s, i, u) == ParseExec(s, i).next && FewPart(u)
    decreases |s| - i, 1
  {
    hide GetToken, ParseExec, ParseLine, ParseRedirs, MatchItems, MatchLine, Wrap, Skip;
    if GetToken(s, i).kind != Sym('(') {
      u := SimpleDerive(s, i);
    } else {
      BlockStep(s, i);
      var t := GetToken(s, i);
      var p := ParseLine(s, t.next);
      var body := LineDerive(s, t.next);
      NoSkip(s, p.next);
      var redirs := RedirsDerive(s, GetToken(s, p.next).next);
      u := Block(body, redirs);
    }
  }

  lemma {:induction false} PipesDerive(s: string, i: nat) returns (x: Pipes)
    requires i <= |s| && ParsePipe(s, i).Ok?
    ensures MatchPipes(s, i, x) == ParsePipe(s, i).next && FewPipes(x)
    decreases |s| - i, 2
  {
    hide GetToken, ParseExec, ParsePipe, MatchPart, FewPart, Skip;
    PipeGiven(s, i);
    PipeStep(s, i);
    var p := ParseExec(s, i);
    var u := PartDerive(s, i);
    NoSkip(s, p.next);
    if Sees(s, p.next, "|") {
      var rest := PipesDerive(s, GetToken(s, p.next).next);
      x := Bar(u, rest);
    } else {
      x := Last(u);
    }
  }

  lemma PipeGiven(s: string, i: nat)
    requires i <= |s| && ParsePipe(s, i).Ok?
    ensures ParseExec(s, i).Ok?
  {
  }

  lemma LineGiven(s: string, i: nat)
    requires i <= |s| && ParseLine(s, i).Ok?
    ensures ParsePipe(s, i).Ok?
  {
  }

  lemma {:induction false} AmpsDerive(s: string, i: nat, c: Cmd<Span>) returns (n: nat)
    requires i <= |s| && SpansOk(s, c)
    ensures MatchAmps(s, i, n) == ParseBacks(s, i, c).next
    decreases |s| - i
  {
    hide GetToken, SpansOk;
    SkipTwice(s, i);
    if Sees(s, Skip(s, i), "&") {
      BackText(s, c);
      n := AmpsDerive(s, GetToken(s, i).next, Back(c));
      n := n + 1;
    } else {
      n := 0;
    }
  }

  lemma {:induction false} LineDerive(s: string, i: nat) returns (x: Line)
    requires i <= |s| && ParseLine(s, i).Ok?
    ensures MatchLine(s, i, x) == ParseLine(s, i).next && FewLine(x)
    decreases |s| - i, 3
  {
    hide GetToken, ParseLine, ParsePipe, ParseBacks, MatchPipes, MatchAmps, FewPipes, Skip, SpansOk;
    LineGiven(s, i);
    LineStep(s, i);
    var p := ParsePipe(s, i);
    var b := ParseBacks(s, p.next, p.cmd);
    var pipes := PipesDerive(s, i);
    var n := AmpsDerive(s, p.next, p.cmd);
    NoSkip(s, b.next);
    if Sees(s, b.next, ";") {
      var rest := LineDerive(s, GetToken(s, b.next).next);
      x := More(pipes, n, rest);
    } else {
      x := One(pipes, n);
    }
  }

  /** The parser accepts exactly the lines of the grammar, and builds the tree of the derivation. */
  lemma GrammarTheorem(s: string)
    ensures ParseCmd(s).Ok? <==> exists x :: Derives(x, s) && FewLine(x)
    ensures forall x :: Derives(x, s) && FewLine(x) ==> ParseCmd(s).Ok? && Text(s, ParseCmd(s).cmd) == LineTree(x)
  {
    hide ParseLine, MatchLine, FewLine, LineTree, Text;
    if ParseCmd(s).Ok? {
      var x := LineDerive(s, 0);
      NoSkip(s, ParseLine(s, 0).next);
      assert Derives(x, s) && FewLine(x);
    }
    forall x | Derives(x, s) && FewLine(x)
      ensures ParseCmd(s).Ok? && Text(s, ParseCmd(s).cmd) == LineTree(x)
    {
      LineFollow(s, 0, x);
    }
  }
}
