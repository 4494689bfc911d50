/** Why parsecmd refuses a line: each error is reported for exactly the symbols that begin
    with a broken derivation of its kind. */
module ShellErrors {

  import opened ShellGrammar
  import opened ShellLanguage

  /** A command up to the symbol where it goes wrong. */
  datatype BadSimple =
    | NoFile(lead: Redirects, items: Items, out: bool)
    | ExtraWord(lead: Redirects, items: Items, word: string)
    | Stray(lead: Redirects, items: Items)
    | InBlock(bad: BadLine)
    | NoClose(line: LineD)
    | BlockNoFile(line: LineD, redirects: Redirects, out: bool)

  datatype BadPipe = BadFirst(bad: BadSimple) | BadRest(first: SimpleD, rest: BadPipe)

  datatype BadLine = BadHere(bad: BadPipe) | BadLater(pipe: PipeD, amps: nat, rest: BadLine)

  function SignOf(out: bool): (x: Symbol) { if out then Greater else Less }

  function BadSimpleThen(b: BadSimple, rest: Symbols): (r: Symbols) {
    match b
    case NoFile(lead, items, out) => RedirectsThen(lead, ItemsThen(items, Cons(SignOf(out), rest)))
    case ExtraWord(lead, items, word) => RedirectsThen(lead, ItemsThen(items, Cons(Word(word), rest)))
    case Stray(lead, items) => RedirectsThen(lead, ItemsThen(items, Cons(Open, rest)))
    case InBlock(bad) => Cons(Open, BadLineThen(bad, rest))
    case NoClose(line) => Cons(Open, LineThen(line, rest))
    case BlockNoFile(line, redirects, out) =>
      Cons(Open, LineThen(line, Cons(Close, RedirectsThen(redirects, Cons(SignOf(out), rest)))))
  }

  function BadPipeThen(b: BadPipe, rest: Symbols): (r: Symbols) {
    match b
    case BadFirst(bad) => BadSimpleThen(bad, rest)
    case BadRest(first, more) => SimpleThen(first, Cons(Bar, BadPipeThen(more, rest)))
  }

  function BadLineThen(b: BadLine, rest: Symbols): (r: Symbols) {
    match b
    case BadHere(bad) => BadPipeThen(bad, rest)
    case BadLater(pipe, amps, more) => PipeThen(pipe, AmpsThen(amps, Cons(Semi, BadLineThen(more, rest))))
  }

  predicate NoWord(rest: Symbols) { rest.Nil? || !rest.head.Word? }

  /** The derivation b really goes wrong when `rest` follows. */
  predicate SimpleBreaks(b: BadSimple, rest: Symbols) {
    match b
    case NoFile(_, items, _) => Count(items) < MAXARGS && NoWord(rest)
    case ExtraWord(_, items, _) => Count(items) == MAXARGS - 1
    case Stray(lead, items) => Count(items) < MAXARGS && (lead.Redirect? || items.Item?)
    case InBlock(bad) => LineBreaks(bad, rest)
    case NoClose(line) => Short(line) && LineStops(line, rest) && !Starts(rest, Close)
    case BlockNoFile(line, _, _) => Short(line) && NoWord(rest)
  }

  predicate PipeBreaks(b: BadPipe, rest: Symbols) {
    match b
    case BadFirst(bad) => SimpleBreaks(bad, rest)
    case BadRest(first, more) => ShortSimple(first) && PipeBreaks(more, rest)
  }

  predicate LineBreaks(b: BadLine, rest: Symbols) {
    match b
    case BadHere(bad) => PipeBreaks(bad, rest)
    case BadLater(pipe, _, more) => ShortPipe(pipe) && LineBreaks(more, rest)
  }

  function SimpleFault(b: BadSimple): (e: Error)
    ensures e != Leftovers
  {
    match b
    case NoFile(_, _, _) => MissingFile
    case ExtraWord(_, _, _) => TooManyArgs
    case Stray(_, _) => Syntax
    case InBlock(bad) => LineFault(bad)
    case NoClose(_) => MissingParen
    case BlockNoFile(_, _, _) => MissingFile
  }

  function PipeFault(b: BadPipe): (e: Error)
    ensures e != Leftovers
  {
    if b.BadFirst? then SimpleFault(b.bad) else PipeFault(b.rest)
  }

  function LineFault(b: BadLine): (e: Error)
    ensures e != Leftovers
  {
    if b.BadHere? then PipeFault(b.bad) else LineFault(b.rest)
  }

  // ---------------------------------------------- every error has a broken derivation

  lemma {:induction false} RedirsFail(s: string, i: nat) returns (d: Redirects, out: bool, rest: Symbols)
    requires Settled(s, i) && Redirs(s, i).Err?
    ensures Redirs(s, i).error == MissingFile && Lex(s, i) == RedirectsThen(d, Cons(SignOf(out), rest)) && NoWord(rest)
    decreases |s| - i
  {
    hide Lex, Skip, WordEnd;
    d, out := Plain, At(s, i, '>');
    var j := Skip(s, AfterSign(s, i));
    rest := Lex(s, j);
    LexHead(s, i);
    LexHead(s, j);
    HeadKinds(s, j);
    if WordAt(s, j) {
      var e := WordEnd(s, j);
      d, out, rest := RedirsFail(s, Skip(s, e));
      d := Redirect(At(s, i, '>'), s[j..e], d);
    }
  }

  lemma OneItem(word: string, d: Redirects, rest: Symbols)
    ensures ItemsThen(Item(word, d, NoItems), rest) == Cons(Word(word), RedirectsThen(d, rest))
  {
    assert ItemsThen(NoItems, rest) == rest;
  }

  lemma {:induction false} ArgsFail(s: string, i: nat, args: seq<Token>, rs: seq<Redirection>)
    returns (b: BadSimple, rest: Symbols)
    requires Settled(s, i) && |args| < MAXARGS && Args(s, i, args, rs).Err? && NoSign(Lex(s, i))
    ensures (b.NoFile? && NoWord(rest)) || (b.ExtraWord? && |args| + Count(b.items) == MAXARGS - 1) || b.Stray?
    ensures b.lead == Plain && |args| + Count(b.items) < MAXARGS && (b.NoFile? ==> b.items.Item?)
    ensures Lex(s, i) == BadSimpleThen(b, rest) && SimpleFault(b) == Args(s, i, args, rs).error
    decreases |s| - i
  {
    hide Lex, Skip, WordEnd, Redirs, WrapAll;
    LexHead(s, i);
    HeadKinds(s, i);
    if WordAt(s, i) {
      var e := WordEnd(s, i);
      var q := Skip(s, e);
      if |args| + 1 >= MAXARGS {
        b, rest := ExtraWord(Plain, NoItems, s[i..e]), Lex(s, q);
      } else if Redirs(s, q).Err? {
        var d, out;
        d, out, rest := RedirsFail(s, q);
        b := NoFile(Plain, Item(s[i..e], d, NoItems), out);
        OneItem(s[i..e], d, Cons(SignOf(out), rest));
      } else {
        var d := RedirsSound(s, q);
        var r := Redirs(s, q);
        b, rest := ArgsFail(s, r.pos, args + [Token(i, e)], rs + r.value);
        b := b.(items := Item(s[i..e], d, b.items));
      }
    } else {
      b, rest := Stray(Plain, NoItems), Lex(s, Skip(s, i + 1));
    }
  }

  lemma {:induction false} SimpleFails(s: string, i: nat) returns (b: BadSimple, rest: Symbols)
    requires i <= |s| && Simple(s, i).Err?
    ensures Lex(s, i) == BadSimpleThen(b, rest) && SimpleBreaks(b, rest) && SimpleFault(b) == Simple(s, i).error
    decreases |s| - i, 1
  {
    hide Lex, Skip, WordEnd, Redirs, Args, WrapAll;
    var j := Skip(s, i);
    LexSkips(s, i);
    LexHead(s, j);
    HeadKinds(s, j);
    if At(s, j, '(') {
      b, rest := BlockFails(s, i, j);
    } else if Redirs(s, j).Err? {
      var d, out;
      d, out, rest := RedirsFail(s, j);
      b := NoFile(d, NoItems, out);
    } else {
      var d := RedirsSound(s, j);
      var r := Redirs(s, j);
      b, rest := ArgsFail(s, r.pos, [], r.value);
      b := b.(lead := d);
    }
  }

  lemma {:induction false} BlockFails(s: string, i: nat, j: nat) returns (b: BadSimple, rest: Symbols)
    requires i <= |s| && j == Skip(s, i) && At(s, j, '(') && Simple(s, i).Err?
    ensures Lex(s, j) == BadSimpleThen(b, rest) && SimpleBreaks(b, rest) && SimpleFault(b) == Simple(s, i).error
    decreases |s| - i, 0
  {
    hide Lex, Skip, WordEnd, Redirs, WrapAll;
    LexHead(s, j);
    var next := Skip(s, j + 1);
    var r := Line(s, next);
    if r.Err? {
      var bad;
      bad, rest := LineFails(s, next);
      b := InBlock(bad);
    } else {
      var line := LineSound(s, next);
      LexHead(s, r.pos);
      HeadKinds(s, r.pos);
      if At(s, r.pos, ')') {
        var d, out;
        d, out, rest := RedirsFail(s, Skip(s, r.pos + 1));
        b := BlockNoFile(line, d, out);
      } else {
        b, rest := NoClose(line), Lex(s, r.pos);
      }
    }
  }

  lemma {:induction false} PipelineFails(s: string, i: nat) returns (b: BadPipe, rest: Symbols)
    requires i <= |s| && Pipeline(s, i).Err?
    ensures Lex(s, i) == BadPipeThen(b, rest) && PipeBreaks(b, rest) && PipeFault(b) == Pipeline(s, i).error
    decreases |s| - i, 2
  {
    hide Lex, Skip, Simple, SimpleThen;
    if Simple(s, i).Err? {
      var bad;
      bad, rest := SimpleFails(s, i);
      b := BadFirst(bad);
    } else {
      var first := SimpleSound(s, i);
      var p := Simple(s, i).pos;
      LexHead(s, p);
      b, rest := PipelineFails(s, Skip(s, p + 1));
      b := BadRest(first, b);
    }
  }

  lemma {:induction false} LineFails(s: string, i: nat) returns (b: BadLine, rest: Symbols)
    requires i <= |s| && Line(s, i).Err?
    ensures Lex(s, i) == BadLineThen(b, rest) && LineBreaks(b, rest) && LineFault(b) == Line(s, i).error
    decreases |s| - i, 3
  {
    hide Lex, Skip, Pipeline, PipeThen, PipeStops, Backs, AmpsThen;
    var r := Pipeline(s, i);
    if r.Err? {
      var bad;
      bad, rest := PipelineFails(s, i);
      b := BadHere(bad);
    } else {
      var pipe := PipelineSound(s, i);
      var amps := BacksSound(s, r.value, r.pos);
      var q := Backs(s, r.value, r.pos).1;
      LexHead(s, q);
      b, rest := LineFails(s, Skip(s, q + 1));
      b := BadLater(pipe, amps, b);
    }
  }

  // -------------------------------------------- every broken derivation is refused

  lemma {:induction false} RedirsRefuse(s: string, i: nat, d: Redirects, out: bool, rest: Symbols)
    requires Settled(s, i) && Lex(s, i) == RedirectsThen(d, Cons(SignOf(out), rest)) && NoWord(rest)
    ensures Redirs(s, i) == Err(MissingFile)
    decreases d
  {
    hide Lex, Skip, WordEnd;
    LexHead(s, i);
    HeadKinds(s, i);
    var j := Skip(s, AfterSign(s, i));
    LexHead(s, j);
    HeadKinds(s, j);
    if d.Redirect? { RedirsRefuse(s, Skip(s, WordEnd(s, j)), d.rest, out, rest); }
  }

  /** The word loop on the words and redirections of b, from its first word on. */
  lemma {:induction false} ArgsRefuse(s: string, i: nat, args: seq<Token>, rs: seq<Redirection>, b: BadSimple, rest: Symbols)
    requires b.NoFile? || b.ExtraWord? || b.Stray?
    requires b.lead == Plain && |args| + Count(b.items) < MAXARGS && (b.NoFile? ==> b.items.Item? && NoWord(rest))
    requires b.ExtraWord? ==> |args| + Count(b.items) == MAXARGS - 1
    requires Settled(s, i) && Lex(s, i) == BadSimpleThen(b, rest)
    ensures Args(s, i, args, rs) == Err(SimpleFault(b))
    decreases b.items
  {
    hide Lex, Skip, WordEnd, Redirs, WrapAll;
    LexHead(s, i);
    HeadKinds(s, i);
    if b.items.Item? {
      var e := WordEnd(s, i);
      var q := Skip(s, e);
      var tail := b.(items := b.items.rest);
      if b.NoFile? && b.items.rest.NoItems? {
        OneItem(b.items.word, b.items.redirects, Cons(SignOf(b.out), rest));
        RedirsRefuse(s, q, b.items.redirects, b.out, rest);
      } else {
        RedirsComplete(s, q, b.items.redirects, BadSimpleThen(tail, rest));
        var r := Redirs(s, q);
        ArgsRefuse(s, r.pos, args + [Token(i, e)], rs + r.value, tail, rest);
      }
    }
  }

  lemma {:induction false} SimpleRefuses(s: string, i: nat, b: BadSimple, rest: Symbols)
    requires i <= |s| && Lex(s, i) == BadSimpleThen(b, rest) && SimpleBreaks(b, rest)
    ensures Simple(s, i) == Err(SimpleFault(b))
    decreases b, 0
  {
    hide Lex, Skip, WordEnd, Redirs, Args, WrapAll;
    var j := Skip(s, i);
    LexSkips(s, i);
    LexHead(s, j);
    HeadKinds(s, j);
    match b
    case InBlock(bad) => LineRefuses(s, Skip(s, j + 1), bad, rest);
    case NoClose(line) => LineComplete(s, Skip(s, j + 1), line, rest); LexHead(s, Line(s, Skip(s, j + 1)).pos);
    case BlockNoFile(line, redirects, out) =>
      var after := Cons(Close, RedirectsThen(redirects, Cons(SignOf(out), rest)));
      LineStopsAt(line, after);
      LineComplete(s, Skip(s, j + 1), line, after);
      var p := Line(s, Skip(s, j + 1)).pos;
      LexHead(s, p);
      HeadKinds(s, p);
      RedirsRefuse(s, Skip(s, p + 1), redirects, out, rest);
    case _ => WordsRefuse(s, j, b, rest);
  }

  lemma WordsRefuse(s: string, j: nat, b: BadSimple, rest: Symbols)
    requires b.NoFile? || b.ExtraWord? || b.Stray?
    requires Settled(s, j) && Lex(s, j) == BadSimpleThen(b, rest) && SimpleBreaks(b, rest)
    ensures !At(s, j, '(')
    ensures match Redirs(s, j)
            case Err(x) => x == SimpleFault(b)
            case Ok(rs, p) => Args(s, p, [], rs) == Err(SimpleFault(b))
  {
    hide Lex, Skip, WordEnd, Redirs, Args, WrapAll;
    LexHead(s, j);
    if b.NoFile? && b.items.NoItems? {
      RedirsRefuse(s, j, b.lead, b.out, rest);
    } else {
      var tail := b.(lead := Plain);
      RedirsComplete(s, j, b.lead, BadSimpleThen(tail, rest));
      var r := Redirs(s, j);
      ArgsRefuse(s, r.pos, [], r.value, tail, rest);
    }
  }

  lemma {:induction false} PipelineRefuses(s: string, i: nat, b: BadPipe, rest: Symbols)
    requires i <= |s| && Lex(s, i) == BadPipeThen(b, rest) && PipeBreaks(b, rest)
    ensures Pipeline(s, i) == Err(PipeFault(b))
    decreases b, 1
  {
    hide Lex, Skip, Simple, SimpleThen;
    match b
    case BadFirst(bad) => SimpleRefuses(s, i, bad, rest);
    case BadRest(first, more) =>
      SimpleComplete(s, i, first, Cons(Bar, BadPipeThen(more, rest)));
      var p := Simple(s, i).pos;
      LexHead(s, p);
      HeadKinds(s, p);
      PipelineRefuses(s, Skip(s, p + 1), more, rest);
  }

  lemma {:induction false} LineRefuses(s: string, i: nat, b: BadLine, rest: Symbols)
    requires i <= |s| && Lex(s, i) == BadLineThen(b, rest) && LineBreaks(b, rest)
    ensures Line(s, i) == Err(LineFault(b))
    decreases b, 2
  {
    hide Lex, Skip, Pipeline, PipeThen, PipeStops, Backs;
    match b
    case BadHere(bad) => PipelineRefuses(s, i, bad, rest);
    case BadLater(pipe, amps, more) =>
      var after := Cons(Semi, BadLineThen(more, rest));
      PipeStopsAt(pipe, AmpsThen(amps, after));
      PipelineComplete(s, i, pipe, AmpsThen(amps, after));
      var r := Pipeline(s, i);
      BacksComplete(s, r.value, r.pos, amps, after);
      var q := Backs(s, r.value, r.pos).1;
      LexHead(s, q);
      HeadKinds(s, q);
      LineRefuses(s, Skip(s, q + 1), more, rest);
  }

  // ------------------------------------------------------------------ main results

  /** The first symbols of s are the broken derivation b. */
  ghost predicate Breaks(b: BadLine, rest: Symbols, s: string) { Lex(s, 0) == BadLineThen(b, rest) && LineBreaks(b, rest) }

  /** d derives a part of s that cannot be continued, and `rest` is left over. */
  ghost predicate LeavesOver(d: LineD, rest: Symbols, s: string) {
    Short(d) && rest.Cons? && LineStops(d, rest) && Lex(s, 0) == LineThen(d, rest)
  }

  /** Each error is reported for exactly the lines that go wrong in its way. */
  lemma RefusedIff(s: string, e: Error)
    requires e != Leftovers
    ensures Parse(s) == Err(e) <==> exists b, rest :: Breaks(b, rest, s) && LineFault(b) == e
  {
    hide Lex, Line, BadLineThen, LineBreaks, LineFault;
    if b, rest :| Breaks(b, rest, s) && LineFault(b) == e { LineRefuses(s, 0, b, rest); }
    if Parse(s) == Err(e) {
      var b, rest := LineFails(s, 0);
      assert Breaks(b, rest, s);
    }
  }

  lemma LeftoversIff(s: string)
    ensures Parse(s) == Err(Leftovers) <==> exists d, rest :: LeavesOver(d, rest, s)
  {
    hide Lex, Line, LineThen, LineStops, Short, BadLineThen, LineBreaks, LineFault;
    if d, rest :| LeavesOver(d, rest, s) {
      LineComplete(s, 0, d, rest);
      LexHead(s, Line(s, 0).pos);
    }
    if Parse(s) == Err(Leftovers) {
      if Line(s, 0).Err? {
        var b, rest := LineFails(s, 0);
      } else {
        var d := LineSound(s, 0);
        var p := Line(s, 0).pos;
        LexHead(s, p);
        assert LeavesOver(d, Lex(s, p), s);
      }
    }
  }
}
