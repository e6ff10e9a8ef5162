/**
The shell's grammar (sh.c).  Positions stand for the source's pointers into the line; a command holds the
spans of its words.  These functions say what each parsing routine returns and where it leaves the cursor.
*/
module Shell {
  const MAXARGS: int := 10
  const NUL: char := 0 as char

  /** Commands over words of type W: spans of the line, or the texts themselves. */
  datatype Cmd<W> =
    | Exec(argv: seq<W>)
    | Redir(cmd: Cmd<W>, file: W, out: bool)
    | Pipe(left: Cmd<W>, right: Cmd<W>)
    | List(left: Cmd<W>, right: Cmd<W>)
    | Back(cmd: Cmd<W>)

  /** The characters q..eq of the line. */
  datatype Span = Span(q: nat, eq: nat)

  datatype Error = MissingFile | MissingParen | Syntax | TooManyArgs | Leftovers

  datatype Parsed = Ok(cmd: Cmd<Span>, next: nat) | Err(error: Error)

  // ----- characters and tokens -----

  predicate Space(c: char) {
    c == ' ' || c == '\t' || c == '\r' || c == '\n' || c as int == 11
  }

  predicate Symbol(c: char) {
    c == '<' || c == '|' || c == '>' || c == '&' || c == ';' || c == '(' || c == ')'
  }

  predicate Plain(c: char) {
    !Space(c) && !Symbol(c)
  }

  /** The first position from i on that is not white space. */
  function Skip(s: string, i: nat): (j: nat)
    requires i <= |s|
    ensures i <= j <= |s| && (j < |s| ==> !Space(s[j]))
    ensures forall k :: i <= k < j ==> Space(s[k])
    decreases |s| - i
  {
    if i < |s| && Space(s[i]) then Skip(s, i + 1) else i
  }

  /** The end of the word that i is in. */
  function WordEnd(s: string, i: nat): (j: nat)
    requires i <= |s|
    ensures i <= j <= |s| && (j < |s| ==> !Plain(s[j]))
    ensures forall k :: i <= k < j ==> Plain(s[k])
    decreases |s| - i
  {
    if i < |s| && Plain(s[i]) then WordEnd(s, i + 1) else i
  }

  /** End, a symbol, >> or a word. */
  datatype Kind = End | Sym(c: char) | Append | Word

  datatype Token = Token(kind: Kind, q: nat, eq: nat, next: nat)

  function GetToken(s: string, i: nat): (t: Token)
    requires i <= |s|
    ensures i <= t.q <= t.eq <= t.next <= |s|
    ensures t.kind.End? <==> t.q == |s|
    ensures !t.kind.End? ==> t.q < t.eq
    ensures t.kind.Word? ==> SpanOk(s, Span(t.q, t.eq))
  {
    var q := Skip(s, i);
    if q == |s| then Token(End, q, q, q)
    else if s[q] == '>' then
      if q + 1 < |s| && s[q + 1] == '>' then Token(Append, q, q + 2, Skip(s, q + 2)) else Token(Sym('>'), q, q + 1, Skip(s, q + 1))
    else if Symbol(s[q]) then Token(Sym(s[q]), q, q + 1, Skip(s, q + 1))
    else Token(Word, q, WordEnd(s, q), Skip(s, WordEnd(s, q)))
  }

  predicate Peek(s: string, i: nat, toks: string)
    requires i <= |s|
  {
    Skip(s, i) < |s| && s[Skip(s, i)] in toks
  }

  // ----- the grammar -----

  datatype Redirs = Redirs(list: seq<(Span, bool)>, next: nat) | BadRedir

  /** parseredirs: the redirections from i on, each a file and whether it is output. */
  function ParseRedirs(s: string, i: nat): (r: Redirs)
    requires i <= |s|
    ensures r.Redirs? ==> i <= r.next <= |s| && forall k :: 0 <= k < |r.list| ==> SpanOk(s, r.list[k].0)
    decreases |s| - i
  {
    if !Peek(s, i, "<>") then Redirs([], Skip(s, i))
    else
      var t := GetToken(s, Skip(s, i));
      var u := GetToken(s, t.next);
      if u.kind != Word then BadRedir
      else
        var r := ParseRedirs(s, u.next);
        if r.BadRedir? then BadRedir else Redirs([(Span(u.q, u.eq), t.kind != Sym('<'))] + r.list, r.next)
  }

  /** The first redirection is innermost. */
  function Wrap(c: Cmd<Span>, list: seq<(Span, bool)>): Cmd<Span>
    decreases |list|
  {
    if list == [] then c else Wrap(Redir(c, list[0].0, list[0].1), list[1..])
  }

  datatype Words = Words(argv: seq<Span>, list: seq<(Span, bool)>, next: nat) | BadWords(error: Error)

  /** The loop of parseexec, with the arguments and redirections found so far. */
  function ParseWords(s: string, i: nat, argv: seq<Span>, list: seq<(Span, bool)>): (r: Words)
    requires i <= |s|
    requires forall k :: 0 <= k < |argv| ==> SpanOk(s, argv[k])
    requires forall k :: 0 <= k < |list| ==> SpanOk(s, list[k].0)
    ensures r.Words? ==>
      && i <= r.next <= |s|
      && (forall k :: 0 <= k < |r.argv| ==> SpanOk(s, r.argv[k]))
      && (forall k :: 0 <= k < |r.list| ==> SpanOk(s, r.list[k].0))
    decreases |s| - i
  {
    var t := GetToken(s, Skip(s, i));
    if Peek(s, i, "|)&;") then Words(argv, list, Skip(s, i))
    else if t.kind.End? then Words(argv, list, t.next)
    else if !t.kind.Word? then BadWords(Syntax)
    else if |argv| + 1 >= MAXARGS then BadWords(TooManyArgs)
    else
      var r := ParseRedirs(s, t.next);
      if r.BadRedir? then BadWords(MissingFile)
      else ParseWords(s, r.next, argv + [Span(t.q, t.eq)], list + r.list)
  }

  function ParseExec(s: string, i: nat): (r: Parsed)
    requires i <= |s|
    ensures r.Ok? ==> i <= r.next <= |s| && SpansOk(s, r.cmd)
    decreases |s| - i, 1
  {
    if Peek(s, i, "(") then ParseBlock(s, Skip(s, i))
    else
      var r := ParseRedirs(s, Skip(s, i));
      if r.BadRedir? then Err(MissingFile)
      else match ParseWords(s, r.next, [], r.list)
        case BadWords(e) => Err(e)
        case Words(argv, list, next) => WrapOk(s, Exec(argv), list); Ok(Wrap(Exec(argv), list), next)
  }

  function ParseBlock(s: string, i: nat): (r: Parsed)
    requires i < |s| && s[i] == '('
    ensures r.Ok? ==> i <= r.next <= |s| && SpansOk(s, r.cmd)
    decreases |s| - i, 0
  {
    match ParseLine(s, GetToken(s, i).next)
    case Err(e) => Err(e)
    case Ok(c, j) =>
      if !Peek(s, j, ")") then Err(MissingParen)
      else
        var r := ParseRedirs(s, GetToken(s, Skip(s, j)).next);
        if r.BadRedir? then Err(MissingFile) else WrapOk(s, c, r.list); Ok(Wrap(c, r.list), r.next)
  }

  function ParsePipe(s: string, i: nat): (r: Parsed)
    requires i <= |s|
    ensures r.Ok? ==> i <= r.next <= |s| && SpansOk(s, r.cmd)
    decreases |s| - i, 2
  {
    match ParseExec(s, i)
    case Err(e) => Err(e)
    case Ok(c, j) =>
      if !Peek(s, j, "|") then Ok(c, Skip(s, j))
      else match ParsePipe(s, GetToken(s, Skip(s, j)).next)
        case Err(e) => Err(e)
        case Ok(d, k) => Ok(Pipe(c, d), k)
  }

  /** The & loop of parseline. */
  function ParseBacks(s: string, i: nat, c: Cmd<Span>): (r: Parsed)
    requires i <= |s| && SpansOk(s, c)
    ensures r.Ok? && i <= r.next <= |s| && SpansOk(s, r.cmd)
    decreases |s| - i
  {
    if !Peek(s, i, "&") then Ok(c, Skip(s, i)) else ParseBacks(s, GetToken(s, Skip(s, i)).next, Back(c))
  }

  function ParseLine(s: string, i: nat): (r: Parsed)
    requires i <= |s|
    ensures r.Ok? ==> i <= r.next <= |s| && SpansOk(s, r.cmd)
    decreases |s| - i, 3
  {
    match ParsePipe(s, i)
    case Err(e) => Err(e)
    case Ok(c, j) =>
      var b := ParseBacks(s, j, c);
      if !Peek(s, b.next, ";") then Ok(b.cmd, Skip(s, b.next))
      else match ParseLine(s, GetToken(s, Skip(s, b.next)).next)
        case Err(e) => Err(e)
        case Ok(d, k) => Ok(List(b.cmd, d), k)
  }

  function ParseCmd(s: string): (r: Parsed)
    ensures r.Ok? ==> r.next == |s| && SpansOk(s, r.cmd)
  {
    match ParseLine(s, 0)
    case Err(e) => Err(e)
    case Ok(c, j) => if Skip(s, j) != |s| then Err(Leftovers) else Ok(c, |s|)
  }

  // ----- spans -----

  /** A nonempty stretch of plain characters that cannot be extended to the right. */
  predicate SpanOk(s: string, w: Span) {
    && w.q < w.eq <= |s|
    && (forall k :: w.q <= k < w.eq ==> Plain(s[k]))
    && (w.eq < |s| ==> !Plain(s[w.eq]))
  }

  predicate SpansOk(s: string, c: Cmd<Span>) {
    match c
    case Exec(argv) => forall k :: 0 <= k < |argv| ==> SpanOk(s, argv[k])
    case Redir(d, file, _) => SpansOk(s, d) && SpanOk(s, file)
    case Pipe(l, r) => SpansOk(s, l) && SpansOk(s, r)
    case List(l, r) => SpansOk(s, l) && SpansOk(s, r)
    case Back(d) => SpansOk(s, d)
  }

  lemma {:induction false} WrapOk(s: string, c: Cmd<Span>, list: seq<(Span, bool)>)
    requires SpansOk(s, c) && forall k :: 0 <= k < |list| ==> SpanOk(s, list[k].0)
    ensures SpansOk(s, Wrap(c, list))
    decreases |list|
  {
    if list != [] {
      WrapOk(s, Redir(c, list[0].0, list[0].1), list[1..]);
    }
  }

  /** The command with its words read from buffer s. */
  function Text(s: string, c: Cmd<Span>): Cmd<string>
    requires SpansOk(s, c)
  {
    match c
    case Exec(argv) => Exec(Texts(s, argv))
    case Redir(d, file, out) => Redir(Text(s, d), s[file.q..file.eq], out)
    case Pipe(l, r) => Pipe(Text(s, l), Text(s, r))
    case List(l, r) => List(Text(s, l), Text(s, r))
    case Back(d) => Back(Text(s, d))
  }

  function Texts(s: string, argv: seq<Span>): (r: seq<string>)
    requires forall k :: 0 <= k < |argv| ==> SpanOk(s, argv[k])
  {
    seq(|argv|, k requires 0 <= k < |argv| && SpanOk(s, argv[k]) => s[argv[k].q..argv[k].eq])
  }
}
