/**
The shell's parser as it runs (sh.c): routines that move a shared cursor over the line, and nulterminate,
which writes a NUL after every word into the line itself.
*/
module ShellParser {
  import opened Shell
  import opened ShellRoundTrip

  class Parser {
    const s: string
    var ps: nat

    ghost predicate Valid()
      reads this
    {
      ps <= |s|
    }

    constructor (s: string)
      ensures this.s == s && ps == 0 && Valid()
    {
      this.s := s;
      ps := 0;
    }

    /** The white-space loop of gettoken and peek. */
    method SkipSpace()
      requires Valid()
      modifies this
      ensures Valid() && ps == Skip(s, old(ps))
    {
      while ps < |s| && Space(s[ps])
        invariant Valid() && old(ps) <= ps && Skip(s, ps) == Skip(s, old(ps))
        decreases |s| - ps
      {
        ps := ps + 1;
      }
    }

    /** gettoken: the kind of token and its span; the cursor moves past it and the space after it. */
    method GetTok() returns (kind: Kind, q: nat, eq: nat)
      requires Valid()
      modifies this
      ensures Valid() && GetToken(s, old(ps)) == Token(kind, q, eq, ps)
    {
      SkipSpace();
      q := ps;
      kind := End;
      if ps < |s| {
        if s[ps] == '>' {
          kind := Sym('>');
          ps := ps + 1;
          if ps < |s| && s[ps] == '>' {
            kind := Append;
            ps := ps + 1;
          }
        } else if Symbol(s[ps]) {
          kind := Sym(s[ps]);
          ps := ps + 1;
        } else {
          kind := Word;
          while ps < |s| && !Space(s[ps]) && !Symbol(s[ps])
            invariant Valid() && q <= ps && WordEnd(s, ps) == WordEnd(s, q)
            decreases |s| - ps
          {
            ps := ps + 1;
          }
        }
      }
      eq := ps;
      SkipSpace();
    }

    /** peek */
    method PeekAt(toks: string) returns (r: bool)
      requires Valid()
      modifies this
      ensures Valid() && ps == Skip(s, old(ps)) && r == Peek(s, old(ps), toks)
    {
      SkipSpace();
      return ps < |s| && s[ps] in toks;
    }

    /** parseredirs: the redirections found, in order. */
    method ReadRedirs() returns (r: Redirs)
      requires Valid()
      modifies this
      ensures Valid() && r == ParseRedirs(s, old(ps)) && (r.Redirs? ==> ps == r.next)
    {
      var list := [];
      while true
        invariant Valid() && old(ps) <= ps
        invariant ParseRedirs(s, old(ps)) == Preceded(list, ParseRedirs(s, ps))
        decreases |s| - ps
      {
        ghost var i := ps;
        var more := PeekAt("<>");
        if !more {
          return Redirs(list, ps);
        }
        var op, _, _ := GetTok();
        var kind, q, eq := GetTok();
        if kind != Word {
          return BadRedir;
        }
        PrecededStep(s, i, list);
        list := list + [(Span(q, eq), op != Sym('<'))];
      }
    }

    /** The argument loop of parseexec. */
    method ReadWords(first: seq<(Span, bool)>) returns (r: Words)
      requires Valid() && forall k :: 0 <= k < |first| ==> SpanOk(s, first[k].0)
      modifies this
      ensures Valid() && r == ParseWords(s, old(ps), [], first) && (r.Words? ==> ps == r.next)
    {
      hide ParseRedirs, GetToken, SpanOk;
      var argv: seq<Span>, list := [], first;
      while true
        invariant Valid() && old(ps) <= ps
        invariant forall k :: 0 <= k < |argv| ==> SpanOk(s, argv[k])
        invariant forall k :: 0 <= k < |list| ==> SpanOk(s, list[k].0)
        invariant ParseWords(s, old(ps), [], first) == ParseWords(s, ps, argv, list)
        decreases |s| - ps
      {
        var stop := PeekAt("|)&;");
        if stop {
          return Words(argv, list, ps);
        }
        var kind, q, eq := GetTok();
        if kind.End? {
          return Words(argv, list, ps);
        }
        if !kind.Word? {
          return BadWords(Syntax);
        }
        if |argv| + 1 >= MAXARGS {
          return BadWords(TooManyArgs);
        }
        var more := ReadRedirs();
        if more.BadRedir? {
          return BadWords(MissingFile);
        }
        argv, list := argv + [Span(q, eq)], list + more.list;
      }
    }

    /** parseexec */
    method ReadExec() returns (r: Parsed)
      requires Valid()
      modifies this
      ensures Valid() && r == ParseExec(s, old(ps)) && (r.Ok? ==> ps == r.next)
      decreases |s| - ps, 1
    {
      hide ParseLine, ParseRedirs, ParseWords;
      var block := PeekAt("(");
      if block {
        r := ReadBlock();
        return;
      }
      var redirs := ReadRedirs();
      if redirs.BadRedir? {
        return Err(MissingFile);
      }
      var words := ReadWords(redirs.list);
      if words.BadWords? {
        return Err(words.error);
      }
      return Ok(Wrap(Exec(words.argv), words.list), ps);
    }

    /** parseblock */
    method ReadBlock() returns (r: Parsed)
      requires Valid() && ps < |s| && s[ps] == '('
      modifies this
      ensures Valid() && r == ParseBlock(s, old(ps)) && (r.Ok? ==> ps == r.next)
      decreases |s| - ps, 0
    {
      hide ParseLine, ParseRedirs, Wrap;
      var _, _, _ := GetTok();
      r := ReadLine();
      if r.Err? {
        return;
      }
      var close := PeekAt(")");
      if !close {
        return Err(MissingParen);
      }
      var _, _, _ := GetTok();
      var redirs := ReadRedirs();
      if redirs.BadRedir? {
        return Err(MissingFile);
      }
      return Ok(Wrap(r.cmd, redirs.list), ps);
    }

    /** parsepipe */
    method ReadPipe() returns (r: Parsed)
      requires Valid()
      modifies this
      ensures Valid() && r == ParsePipe(s, old(ps)) && (r.Ok? ==> ps == r.next)
      decreases |s| - ps, 2
    {
      hide ParseExec;
      r := ReadExec();
      if r.Err? {
        return;
      }
      var more := PeekAt("|");
      if !more {
        return Ok(r.cmd, ps);
      }
      var _, _, _ := GetTok();
      var right := ReadPipe();
      if right.Err? {
        return right;
      }
      return Ok(Pipe(r.cmd, right.cmd), ps);
    }

    /** The & loop of parseline. */
    method ReadBacks(c: Cmd<Span>) returns (cmd: Cmd<Span>)
      requires Valid() && SpansOk(s, c)
      modifies this
      ensures Valid() && ParseBacks(s, old(ps), c) == Ok(cmd, ps)
    {
      cmd := c;
      while true
        invariant Valid() && old(ps) <= ps && SpansOk(s, cmd)
        invariant ParseBacks(s, old(ps), c) == ParseBacks(s, ps, cmd)
        decreases |s| - ps
      {
        var more := PeekAt("&");
        if !more {
          return;
        }
        var _, _, _ := GetTok();
        cmd := Back(cmd);
      }
    }

    /** parseline */
    method ReadLine() returns (r: Parsed)
      requires Valid()
      modifies this
      ensures Valid() && r == ParseLine(s, old(ps)) && (r.Ok? ==> ps == r.next)
      decreases |s| - ps, 3
    {
      hide ParsePipe, ParseBacks;
      r := ReadPipe();
      if r.Err? {
        return;
      }
      var cmd := ReadBacks(r.cmd);
      var more := PeekAt(";");
      if !more {
        return Ok(cmd, ps);
      }
      var _, _, _ := GetTok();
      var right := ReadLine();
      if right.Err? {
        return right;
      }
      return Ok(List(cmd, right.cmd), ps);
    }

    /** parsecmd, up to nulterminate. */
    method ReadCmd() returns (r: Parsed)
      requires ps == 0
      modifies this
      ensures r == ParseCmd(s)
    {
      hide ParseLine;
      r := ReadLine();
      if r.Err? {
        return;
      }
      var _ := PeekAt("");
      if ps != |s| {
        return Err(Leftovers);
      }
      return Ok(r.cmd, ps);
    }
  }

  ghost function Preceded(list: seq<(Span, bool)>, r: Redirs): Redirs {
    if r.BadRedir? then BadRedir else Redirs(list + r.list, r.next)
  }

  lemma PrecededStep(s: string, i: nat, list: seq<(Span, bool)>)
    requires i <= |s| && Peek(s, i, "<>")
    ensures var t := GetToken(s, Skip(s, i)); var u := GetToken(s, t.next);
            u.kind == Word ==>
              Preceded(list, ParseRedirs(s, i)) == Preceded(list + [(Span(u.q, u.eq), t.kind != Sym('<'))], ParseRedirs(s, u.next))
  {
    hide GetToken, Skip;
    var t := GetToken(s, Skip(s, i));
    var u := GetToken(s, t.next);
    var r := ParseRedirs(s, u.next);
    if u.kind == Word && r.Redirs? {
      var one := [(Span(u.q, u.eq), t.kind != Sym('<'))];
      assert list + (one + r.list) == (list + one) + r.list;
    }
  }

  // ----- nulterminate -----

  /** The positions just past the words of a command. */
  ghost function Ends(c: Cmd<Span>): set<nat> {
    match c
    case Exec(argv) => set k | 0 <= k < |argv| :: argv[k].eq
    case Redir(d, file, _) => Ends(d) + {file.eq}
    case Pipe(l, r) => Ends(l) + Ends(r)
    case List(l, r) => Ends(l) + Ends(r)
    case Back(d) => Ends(d)
  }

  ghost function Nulled(buf: string, ends: set<nat>): (r: string) {
    seq(|buf|, k requires 0 <= k < |buf| => if k in ends then NUL else buf[k])
  }

  lemma NulledTwice(buf: string, a: set<nat>, b: set<nat>)
    ensures Nulled(Nulled(buf, a), b) == Nulled(buf, a + b)
  {
  }

  /** nulterminate, on the line with its terminating NUL. */
  method NulTerminate(c: Cmd<Span>, ghost s: string, buf: array<char>)
    requires SpansOk(s, c) && buf.Length == |s| + 1
    modifies buf
    ensures buf[..] == Nulled(old(buf[..]), Ends(c))
    decreases c
  {
    ghost var was := buf[..];
    match c
    case Exec(argv) =>
      var i := 0;
      while i < |argv|
        invariant 0 <= i <= |argv|
        invariant forall k :: 0 <= k < buf.Length ==> buf[k] == if (exists a :: 0 <= a < i && argv[a].eq == k) then NUL else was[k]
      {
        assert SpanOk(s, argv[i]);
        buf[argv[i].eq] := NUL;
        i := i + 1;
      }
    case Redir(d, file, _) =>
      NulTerminate(d, s, buf);
      ghost var mid := buf[..];
      buf[file.eq] := NUL;
      assert buf[..] == Nulled(mid, {file.eq});
      NulledTwice(was, Ends(d), {file.eq});
    case Pipe(l, r) =>
      NulTerminate(l, s, buf);
      NulTerminate(r, s, buf);
      NulledTwice(was, Ends(l), Ends(r));
    case List(l, r) =>
      NulTerminate(l, s, buf);
      NulTerminate(r, s, buf);
      NulledTwice(was, Ends(l), Ends(r));
    case Back(d) =>
      NulTerminate(d, s, buf);
  }

  /** The C string that starts at q. */
  function CString(buf: string, q: nat): string
    decreases |buf| - q
  {
    if q >= |buf| || buf[q] == NUL then "" else [buf[q]] + CString(buf, q + 1)
  }

  /** The command as execution will see it: every word is the C string at its start. */
  function CText(buf: string, c: Cmd<Span>): Cmd<string> {
    match c
    case Exec(argv) => Exec(seq(|argv|, k requires 0 <= k < |argv| => CString(buf, argv[k].q)))
    case Redir(d, file, out) => Redir(CText(buf, d), CString(buf, file.q), out)
    case Pipe(l, r) => Pipe(CText(buf, l), CText(buf, r))
    case List(l, r) => List(CText(buf, l), CText(buf, r))
    case Back(d) => Back(CText(buf, d))
  }

  predicate NoNul(s: string) {
    forall k :: 0 <= k < |s| ==> s[k] != NUL
  }

  /** Words end only where no word goes on. */
  ghost predicate AtEnds(s: string, ends: set<nat>) {
    forall e :: e in ends ==> e <= |s| && (e < |s| ==> !Plain(s[e]))
  }

  lemma {:induction false} EndsOk(s: string, c: Cmd<Span>)
    requires SpansOk(s, c)
    ensures AtEnds(s, Ends(c))
  {
    match c
    case Exec(argv) =>
      forall e | e in Ends(c)
        ensures e <= |s| && (e < |s| ==> !Plain(s[e]))
      {
        var k :| 0 <= k < |argv| && argv[k].eq == e;
        assert SpanOk(s, argv[k]);
      }
    case Redir(d, _, _) => EndsOk(s, d);
    case Pipe(l, r) =>
      EndsOk(s, l);
      EndsOk(s, r);
    case List(l, r) =>
      EndsOk(s, l);
      EndsOk(s, r);
    case Back(d) => EndsOk(s, d);
  }

  lemma {:induction false} WordIsString(s: string, ends: set<nat>, w: Span, i: nat)
    requires NoNul(s) && AtEnds(s, ends) && SpanOk(s, w) && w.eq in ends && w.q <= i <= w.eq
    ensures CString(Nulled(s + [NUL], ends), i) == s[i..w.eq]
    decreases w.eq - i
  {
    var buf := Nulled(s + [NUL], ends);
    if i < w.eq {
      assert i !in ends && buf[i] == s[i];
      WordIsString(s, ends, w, i + 1);
    }
  }

  lemma {:induction false} CTextIsText(s: string, c: Cmd<Span>, ends: set<nat>)
    requires NoNul(s) && SpansOk(s, c) && AtEnds(s, ends) && Ends(c) <= ends
    ensures CText(Nulled(s + [NUL], ends), c) == Text(s, c)
  {
    var buf := Nulled(s + [NUL], ends);
    match c
    case Exec(argv) =>
      forall k | 0 <= k < |argv|
        ensures CString(buf, argv[k].q) == s[argv[k].q..argv[k].eq]
      {
        assert SpanOk(s, argv[k]) && argv[k].eq in Ends(c);
        WordIsString(s, ends, argv[k], argv[k].q);
      }
      assert CText(buf, c).argv == Texts(s, argv);
    case Redir(d, file, _) =>
      assert file.eq in Ends(c);
      WordIsString(s, ends, file, file.q);
      CTextIsText(s, d, ends);
    case Pipe(l, r) =>
      CTextIsText(s, l, ends);
      CTextIsText(s, r, ends);
    case List(l, r) =>
      CTextIsText(s, l, ends);
      CTextIsText(s, r, ends);
    case Back(d) => CTextIsText(s, d, ends);
  }

  /** After nulterminate every argument and file name, read as a C string, is the text of its token. */
  lemma NulTerminated(s: string)
    requires NoNul(s) && ParseCmd(s).Ok?
    ensures var c := ParseCmd(s).cmd; CText(Nulled(s + [NUL], Ends(c)), c) == Text(s, c)
  {
    var c := ParseCmd(s).cmd;
    EndsOk(s, c);
    CTextIsText(s, c, Ends(c));
  }

  lemma {:induction false} ArgsNoNul(ws: seq<string>)
    requires forall k :: 0 <= k < |ws| ==> LegalWord(ws[k])
    ensures NoNul(PrintArgs(ws))
  {
    if ws != [] {
      assert LegalWord(ws[0]);
      ArgsNoNul(ws[1..]);
    }
  }

  lemma {:induction false} PrintNoNul(t: Cmd<string>)
    requires Legal(t)
    ensures NoNul(Print(t))
  {
    match t
    case Exec(ws) => ArgsNoNul(ws);
    case Redir(c, _, _) => PrintNoNul(c);
    case Pipe(l, r) =>
      PrintNoNul(l);
      PrintNoNul(r);
    case List(l, r) =>
      PrintNoNul(l);
      PrintNoNul(r);
    case Back(c) => PrintNoNul(c);
  }

  /** The whole way round: a legal command, printed, parsed and NUL-terminated in place, is itself again. */
  lemma ShellRoundTripTheorem(t: Cmd<string>)
    requires Legal(t)
    ensures var r := ParseCmd(Print(t));
            r.Ok? && CText(Nulled(Print(t) + [NUL], Ends(r.cmd)), r.cmd) == t
  {
    PrintNoNul(t);
    RoundTrip(t);
    NulTerminated(Print(t));
  }
}
