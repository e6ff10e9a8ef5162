/** Why the shell's parser panics: the message of every rejected line names something that is in the line. */
module ShellErrors {
  import opened Shell
  import opened ShellGrammar

  /** A redirection operator with no word after it. */
  predicate NoFile(s: string, j: nat) {
    j <= |s| && Sees(s, j, "<>") && GetToken(s, GetToken(s, j).next).kind != Word
  }

  /** MAXARGS words, with redirections between them, from j on. */
  predicate ManyWords(s: string, j: nat, items: seq<Item>) {
    j <= |s| && MatchItems(s, j, items) <= |s| && |Args(items)| == MAXARGS
  }

  /** The parenthesis at j opens the line x, and no parenthesis closes it. */
  predicate Open(s: string, j: nat, x: Line) {
    && Sees(s, j, "(")
    && var k := MatchLine(s, GetToken(s, j).next, x); k <= |s| && !Sees(s, k, ")")
  }

  ghost predicate Reason(s: string, e: Error) {
    match e
    case MissingFile => exists j: nat :: NoFile(s, j)
    case Syntax => exists j: nat :: Sees(s, j, "(")
    case TooManyArgs => exists j: nat, items: seq<Item> :: ManyWords(s, j, items)
    case MissingParen => exists j: nat, x: Line :: Open(s, j, x)
    case Leftovers => exists x: Line :: MatchLine(s, 0, x) < |s|
  }

  lemma {:induction false} RedirsReason(s: string, i: nat)
    requires i <= |s| && ParseRedirs(s, i).BadRedir?
    ensures Reason(s, MissingFile)
    decreases |s| - i
  {
    hide GetToken, Skip;
    SkipTwice(s, i);
    TokenStart(s, i);
    var u := GetToken(s, GetToken(s, i).next);
    if u.kind != Word {
      assert NoFile(s, Skip(s, i));
    } else {
      RedirsReason(s, u.next);
    }
  }

  /** The word at i and those after it. */
  lemma ManyNext(s: string, i: nat, ios: seq<Item>, rest: seq<Item>, n: nat)
    requires i <= |s| && GetToken(s, i).kind == Word && (forall k :: 0 <= k < |ios| ==> ios[k].Io?)
    requires MatchItems(s, GetToken(s, i).next, ios) <= |s|
    requires MatchItems(s, MatchItems(s, GetToken(s, i).next, ios), rest) <= |s| && |Args(rest)| == n
    ensures var items := [Arg(s[GetToken(s, i).q..GetToken(s, i).eq])] + (ios + rest);
            MatchItems(s, i, items) <= |s| && |Args(items)| == n + 1
  {
    hide GetToken, MatchItems, Args;
    var t := GetToken(s, i);
    MatchConcat(s, t.next, ios, rest);
    ArgMatches(s, i, ios + rest);
    OneArg(s[t.q..t.eq], ios, rest);
  }

  /** The loop of parseexec fails at a parenthesis, at one word too many, or at a redirection. */
  lemma WordsFail(s: string, i: nat, argv: seq<Span>, list: seq<(Span, bool)>)
    requires i <= |s| && |argv| < MAXARGS && !Sees(s, Skip(s, i), "<>")
    requires forall k :: 0 <= k < |argv| ==> SpanOk(s, argv[k])
    requires forall k :: 0 <= k < |list| ==> SpanOk(s, list[k].0)
    requires ParseWords(s, i, argv, list).BadWords?
    ensures var e, t := ParseWords(s, i, argv, list).error, GetToken(s, i);
            if t.kind != Word then e == Syntax && Sees(s, Skip(s, i), "(")
            else if |argv| + 1 == MAXARGS then e == TooManyArgs
            else if ParseRedirs(s, t.next).BadRedir? then e == MissingFile
            else var r := ParseRedirs(s, t.next);
                 i < r.next && ParseWords(s, r.next, argv + [Span(t.q, t.eq)], list + r.list) == BadWords(e)
  {
    hide ParseRedirs, SpanOk;
  }

  lemma {:induction false} WordsReason(s: string, i: nat, argv: seq<Span>, list: seq<(Span, bool)>) returns (items: seq<Item>)
    requires i <= |s| && |argv| < MAXARGS && !Sees(s, Skip(s, i), "<>")
    requires forall k :: 0 <= k < |argv| ==> SpanOk(s, argv[k])
    requires forall k :: 0 <= k < |list| ==> SpanOk(s, list[k].0)
    requires ParseWords(s, i, argv, list).BadWords?
    ensures var e := ParseWords(s, i, argv, list).error;
            if e == TooManyArgs then MatchItems(s, i, items) <= |s| && |argv| + |Args(items)| == MAXARGS
            else (e == Syntax || e == MissingFile) && Reason(s, e)
    decreases |s| - i
  {
    hide GetToken, Skip, SpanOk, ParseRedirs, ParseWords, MatchItems, Args;
    WordsFail(s, i, argv, list);
    items := [];
    var t := GetToken(s, i);
    if t.kind == Word {
      if |argv| + 1 == MAXARGS {
        NoItems();
        EmptyMatch(s, t.next);
        EmptyMatch(s, Skip(s, t.next));
        ManyNext(s, i, [], [], 0);
        items := [Arg(s[t.q..t.eq])] + ([] + []);
      } else if ParseRedirs(s, t.next).BadRedir? {
        RedirsReason(s, t.next);
      } else {
        var r := ParseRedirs(s, t.next);
        var ios := RedirsDerive(s, t.next);
        RedirsStop(s, t.next);
        var rest := WordsReason(s, r.next, argv + [Span(t.q, t.eq)], list + r.list);
        if ParseWords(s, i, argv, list).error == TooManyArgs {
          ManyNext(s, i, ios, rest, |Args(rest)|);
          items := [Arg(s[t.q..t.eq])] + (ios + rest);
        }
      }
    }
  }

  lemma {:induction false} RedirsStop(s: string, i: nat)
    requires i <= |s| && ParseRedirs(s, i).Redirs?
    ensures Skip(s, ParseRedirs(s, i).next) == ParseRedirs(s, i).next
    decreases |s| - i
  {
    hide GetToken, Skip;
    SkipTwice(s, i);
    TokenStart(s, i);
    if Sees(s, Skip(s, i), "<>") {
      RedirsStop(s, GetToken(s, GetToken(s, i).next).next);
    }
  }

  lemma SimpleReason(s: string, i: nat)
    requires i <= |s| && !Sees(s, Skip(s, i), "(") && ParseExec(s, i).Err?
    ensures Reason(s, ParseExec(s, i).error)
  {
    hide GetToken, Skip, ParseRedirs, ParseWords, MatchItems, SpanOk, Reason, Wrap, Args;
    var r := ParseRedirs(s, Skip(s, i));
    if r.BadRedir? {
      RedirsReason(s, Skip(s, i));
    } else {
      RedirsStop(s, Skip(s, i));
      var ios := RedirsDerive(s, Skip(s, i));
      var items := WordsReason(s, r.next, [], r.list);
      if ParseExec(s, i).error == TooManyArgs {
        Many(s, r.next, items);
      }
    }
  }

  lemma Many(s: string, j: nat, items: seq<Item>)
    requires ManyWords(s, j, items)
    ensures Reason(s, TooManyArgs)
  {
  }

  lemma Unclosed(s: string, j: nat, x: Line)
    requires Open(s, j, x)
    ensures Reason(s, MissingParen)
  {
  }

  /** parseblock fails in its line, at the missing parenthesis, or at a redirection. */
  lemma BlockFail(s: string, i: nat)
    requires i <= |s| && Sees(s, Skip(s, i), "(") && ParseExec(s, i).Err?
    ensures var e, t := ParseExec(s, i).error, GetToken(s, Skip(s, i));
            i < t.next && var p := ParseLine(s, t.next);
            if p.Err? then e == p.error
            else if !Sees(s, Skip(s, p.next), ")") then e == MissingParen
            else e == MissingFile && ParseRedirs(s, GetToken(s, Skip(s, p.next)).next).BadRedir?
  {
    hide ParseLine, ParseRedirs, Wrap;
  }

  lemma {:induction false} ExecReason(s: string, i: nat)
    requires i <= |s| && ParseExec(s, i).Err?
    ensures Reason(s, ParseExec(s, i).error)
    decreases |s| - i, 1
  {
    hide GetToken, Skip, ParseExec, ParseLine, ParseRedirs, MatchLine, Reason;
    if !Sees(s, Skip(s, i), "(") {
      SimpleReason(s, i);
    } else {
      BlockFail(s, i);
      var t := GetToken(s, Skip(s, i));
      var p := ParseLine(s, t.next);
      if p.Err? {
        LineReason(s, t.next);
      } else {
        var x := LineDerive(s, t.next);
        if !Sees(s, Skip(s, p.next), ")") {
          NoSkip(s, p.next);
          Unclosed(s, Skip(s, i), x);
        } else {
          RedirsReason(s, GetToken(s, Skip(s, p.next)).next);
        }
      }
    }
  }

  lemma PipeFail(s: string, i: nat)
    requires i <= |s| && ParsePipe(s, i).Err?
    ensures var p := ParseExec(s, i);
            if p.Err? then ParsePipe(s, i) == p
            else var j := GetToken(s, Skip(s, p.next)).next; i < j && ParsePipe(s, j) == ParsePipe(s, i)
  {
    hide ParseExec;
  }

  lemma {:induction false} PipeReason(s: string, i: nat)
    requires i <= |s| && ParsePipe(s, i).Err?
    ensures Reason(s, ParsePipe(s, i).error)
    decreases |s| - i, 2
  {
    hide GetToken, Skip, ParseExec, ParsePipe, Reason;
    PipeFail(s, i);
    if ParseExec(s, i).Err? {
      ExecReason(s, i);
    } else {
      PipeReason(s, GetToken(s, Skip(s, ParseExec(s, i).next)).next);
    }
  }

  lemma LineFail(s: string, i: nat)
    requires i <= |s| && ParseLine(s, i).Err?
    ensures var p := ParsePipe(s, i);
            if p.Err? then ParseLine(s, i) == p
            else var j := GetToken(s, Skip(s, ParseBacks(s, p.next, p.cmd).next)).next; i < j && ParseLine(s, j) == ParseLine(s, i)
  {
    hide ParsePipe, ParseBacks, SpansOk;
  }

  lemma {:induction false} LineReason(s: string, i: nat)
    requires i <= |s| && ParseLine(s, i).Err?
    ensures Reason(s, ParseLine(s, i).error)
    decreases |s| - i, 3
  {
    hide GetToken, Skip, ParseLine, ParsePipe, ParseBacks, Reason, SpansOk;
    LineFail(s, i);
    var p := ParsePipe(s, i);
    if p.Err? {
      PipeReason(s, i);
    } else {
      LineReason(s, GetToken(s, Skip(s, ParseBacks(s, p.next, p.cmd).next)).next);
    }
  }

  /**
  A line is refused with a reason: a redirection without a file, a parenthesis where a word should be, MAXARGS
  words in one command, a block that is not closed, or something after the end of the command.
  */
  lemma ErrorReason(s: string)
    requires ParseCmd(s).Err?
    ensures Reason(s, ParseCmd(s).error)
  {
    hide ParseLine, MatchLine;
    if ParseLine(s, 0).Err? {
      LineReason(s, 0);
    } else {
      var x := LineDerive(s, 0);
      NoSkip(s, ParseLine(s, 0).next);
      assert MatchLine(s, 0, x) < |s|;
    }
  }
}
