/** The shell's language, given by a grammar over symbols instead of by the parser, and
    the proof that parsecmd accepts exactly the sentences of that grammar and gives
    each the tree of its derivation. */
module ShellLanguage {

  import opened ShellGrammar
  import opened ShellRoundTrip

  /** > and >> are one symbol, as they are one to the parser. */
  datatype Symbol = Word(text: string) | Less | Greater | Bar | Amp | Semi | Open | Close

  datatype Symbols = Nil | Cons(head: Symbol, tail: Symbols)

  // ------------------------------------------------------------------ grammar

  /** (< word | > word)* */
  datatype Redirects = Plain | Redirect(out: bool, file: string, rest: Redirects)

  /** (word redirects)* */
  datatype Items = NoItems | Item(word: string, redirects: Redirects, rest: Items)

  datatype SimpleD = Words(lead: Redirects, items: Items) | Block(line: LineD, redirects: Redirects)

  /** simple (| simple)* */
  datatype PipeD = Single(only: SimpleD) | Piped(first: SimpleD, rest: PipeD)

  /** pipe &* (; line)? */
  datatype LineD = Final(pipe: PipeD, amps: nat) | Sequence(pipe: PipeD, amps: nat, line: LineD)

  // The symbols of a derivation, put in front of `rest`.

  function RedirectsThen(d: Redirects, rest: Symbols): (r: Symbols) {
    match d
    case Plain => rest
    case Redirect(out, file, more) => Cons(if out then Greater else Less, Cons(Word(file), RedirectsThen(more, rest)))
  }

  function ItemsThen(d: Items, rest: Symbols): (r: Symbols) {
    match d
    case NoItems => rest
    case Item(word, redirects, more) => Cons(Word(word), RedirectsThen(redirects, ItemsThen(more, rest)))
  }

  function SimpleThen(d: SimpleD, rest: Symbols): (r: Symbols) {
    match d
    case Words(lead, items) => RedirectsThen(lead, ItemsThen(items, rest))
    case Block(line, redirects) => Cons(Open, LineThen(line, Cons(Close, RedirectsThen(redirects, rest))))
  }

  function PipeThen(d: PipeD, rest: Symbols): (r: Symbols) {
    match d
    case Single(only) => SimpleThen(only, rest)
    case Piped(first, more) => SimpleThen(first, Cons(Bar, PipeThen(more, rest)))
  }

  function AmpsThen(n: nat, rest: Symbols): (r: Symbols) { if n == 0 then rest else Cons(Amp, AmpsThen(n - 1, rest)) }

  function LineThen(d: LineD, rest: Symbols): (r: Symbols) {
    match d
    case Final(pipe, amps) => PipeThen(pipe, AmpsThen(amps, rest))
    case Sequence(pipe, amps, line) => PipeThen(pipe, AmpsThen(amps, Cons(Semi, LineThen(line, rest))))
  }

  // No command has ten words.

  function Count(d: Items): (n: nat) { if d.NoItems? then 0 else 1 + Count(d.rest) }

  predicate ShortSimple(d: SimpleD) {
    match d
    case Words(_, items) => Count(items) < MAXARGS
    case Block(line, _) => Short(line)
  }

  predicate ShortPipe(d: PipeD) {
    match d
    case Single(only) => ShortSimple(only)
    case Piped(first, more) => ShortSimple(first) && ShortPipe(more)
  }

  predicate Short(d: LineD) { ShortPipe(d.pipe) && (d.Sequence? ==> Short(d.line)) }

  // The tree that a derivation stands for.

  function Redirected(t: Tree, d: Redirects): (r: Tree)
    decreases d
  {
    match d
    case Plain => t
    case Redirect(out, file, more) => Redirected(RedirT(t, file, out), more)
  }

  function AllRedirected(t: Tree, d: Items): (r: Tree)
    decreases d
  {
    match d
    case NoItems => t
    case Item(_, redirects, more) => AllRedirected(Redirected(t, redirects), more)
  }

  function WordsOf(d: Items): (r: seq<string>) { if d.NoItems? then [] else [d.word] + WordsOf(d.rest) }

  function SimpleTree(d: SimpleD): (r: Tree) {
    match d
    case Words(lead, items) => AllRedirected(Redirected(ExecT(WordsOf(items)), lead), items)
    case Block(line, redirects) => Redirected(LineTree(line), redirects)
  }

  function PipeTree(d: PipeD): (r: Tree) {
    match d
    case Single(only) => SimpleTree(only)
    case Piped(first, more) => PipeT(SimpleTree(first), PipeTree(more))
  }

  function Marked(t: Tree, n: nat): (r: Tree)
    decreases n
  {
    if n == 0 then t else Marked(BackT(t), n - 1)
  }

  function LineTree(d: LineD): (r: Tree) {
    match d
    case Final(pipe, amps) => Marked(PipeTree(pipe), amps)
    case Sequence(pipe, amps, line) => ListT(Marked(PipeTree(pipe), amps), LineTree(line))
  }

  // -------------------------------------------------------------------- lexer

  function SymbolOf(c: char): (r: Symbol)
    requires IsSymbol(c)
  {
    match c
    case '<' => Less
    case '>' => Greater
    case '|' => Bar
    case '&' => Amp
    case ';' => Semi
    case '(' => Open
    case _ => Close
  }

  /** Where the next symbol begins after the redirection sign at i. */
  function AfterSign(s: string, i: nat): (j: nat) { if At(s, i, '>') && At(s, i + 1, '>') then i + 2 else i + 1 }

  /** gettoken, repeated to the end of the input */
  function Lex(s: string, i: nat): (r: Symbols)
    requires i <= |s|
    decreases |s| - i
  {
    var j := Skip(s, i);
    if j == |s| then Nil
    else if IsWord(s[j]) then Cons(Word(s[j..WordEnd(s, j)]), Lex(s, WordEnd(s, j)))
    else Cons(SymbolOf(s[j]), Lex(s, AfterSign(s, j)))
  }

  lemma LexSkips(s: string, i: nat)
    requires i <= |s|
    ensures Lex(s, Skip(s, i)) == Lex(s, i)
  {
    assert Skip(s, Skip(s, i)) == Skip(s, i);
  }

  /** The first symbol at a position that is not at white space. */
  lemma LexHead(s: string, i: nat)
    requires Settled(s, i)
    ensures Lex(s, i).Nil? <==> i == |s|
    ensures WordAt(s, i) ==> Lex(s, i) == Cons(Word(s[i..WordEnd(s, i)]), Lex(s, Skip(s, WordEnd(s, i))))
    ensures At(s, i, '<') ==> Lex(s, i) == Cons(Less, Lex(s, Skip(s, AfterSign(s, i))))
    ensures At(s, i, '>') ==> Lex(s, i) == Cons(Greater, Lex(s, Skip(s, AfterSign(s, i))))
    ensures At(s, i, '|') ==> Lex(s, i) == Cons(Bar, Lex(s, Skip(s, i + 1)))
    ensures At(s, i, '&') ==> Lex(s, i) == Cons(Amp, Lex(s, Skip(s, i + 1)))
    ensures At(s, i, ';') ==> Lex(s, i) == Cons(Semi, Lex(s, Skip(s, i + 1)))
    ensures At(s, i, '(') ==> Lex(s, i) == Cons(Open, Lex(s, Skip(s, i + 1)))
    ensures At(s, i, ')') ==> Lex(s, i) == Cons(Close, Lex(s, Skip(s, i + 1)))
  {
    assert Skip(s, i) == i;
    if i < |s| { LexSkips(s, if WordAt(s, i) then WordEnd(s, i) else AfterSign(s, i)); }
  }

  /** At such a position stands the end, a word or one of the symbols. */
  lemma HeadKinds(s: string, i: nat)
    requires Settled(s, i)
    ensures i == |s| || WordAt(s, i) || At(s, i, '<') || At(s, i, '>') || At(s, i, '|') || At(s, i, '&') || At(s, i, ';')
         || At(s, i, '(') || At(s, i, ')')
  {
  }

  // ------------------------------------------------------- where a part must end

  predicate Starts(rest: Symbols, x: Symbol) { rest.Cons? && rest.head == x }

  predicate NoSign(rest: Symbols) { !Starts(rest, Less) && !Starts(rest, Greater) }

  /** What stops the word loop: the end, or a symbol that joins commands. */
  predicate Joins(rest: Symbols) {
    rest.Nil? || Starts(rest, Bar) || Starts(rest, Amp) || Starts(rest, Semi) || Starts(rest, Close)
  }

  predicate SimpleStops(d: SimpleD, rest: Symbols) {
    match d
    case Words(_, _) => Joins(rest)
    case Block(_, _) => NoSign(rest)
  }

  predicate PipeStops(d: PipeD, rest: Symbols) {
    match d
    case Single(only) => SimpleStops(only, rest) && !Starts(rest, Bar)
    case Piped(_, more) => PipeStops(more, rest)
  }

  /** The symbols of d cannot be continued with the first of `rest`. */
  predicate LineStops(d: LineD, rest: Symbols) {
    match d
    case Final(pipe, amps) => !Starts(rest, Amp) && !Starts(rest, Semi) && (amps == 0 ==> PipeStops(pipe, rest))
    case Sequence(_, _, line) => LineStops(line, rest)
  }

  lemma {:induction false} PipeStopsAt(d: PipeD, rest: Symbols)
    requires Joins(rest) && !Starts(rest, Bar)
    ensures PipeStops(d, rest)
  {
    if d.Piped? { PipeStopsAt(d.rest, rest); }
  }

  lemma {:induction false} LineStopsAt(d: LineD, rest: Symbols)
    requires rest.Nil? || Starts(rest, Close)
    ensures LineStops(d, rest)
  {
    PipeStopsAt(d.pipe, rest);
    if d.Sequence? { LineStopsAt(d.line, rest); }
  }

  // -------------------------------------------------- every parse has a derivation

  /** The redirections read, as the derivation has them. */
  ghost predicate Stand(s: string, rs: seq<Redirection>, d: Redirects)
    decreases d
  {
    match d
    case Plain => rs == []
    case Redirect(out, file, more) => rs != [] && rs[0].out == out && Slice(s, rs[0].file) == file && Stand(s, rs[1..], more)
  }

  lemma {:induction false} WrapFirst(c: Cmd, rs: seq<Redirection>, k: nat)
    requires 1 <= k <= |rs|
    ensures Wrap(c, rs, k) == Wrap(Redir(c, rs[0].file, rs[0].out), rs[1..], k - 1)
  {
    if k > 1 { WrapFirst(c, rs, k - 1); }
  }

  lemma {:induction false} WrapMore(c: Cmd, rs: seq<Redirection>, more: seq<Redirection>, k: nat)
    requires k <= |more|
    ensures Wrap(c, rs + more, |rs| + k) == Wrap(WrapAll(c, rs), more, k)
  {
    if k > 0 { WrapMore(c, rs, more, k - 1); } else { WrapPrefix(c, rs, more, |rs|); }
  }

  lemma {:induction false} WrapPrefix(c: Cmd, rs: seq<Redirection>, more: seq<Redirection>, k: nat)
    requires k <= |rs|
    ensures Wrap(c, rs + more, k) == Wrap(c, rs, k)
  {
    if k > 0 { WrapPrefix(c, rs, more, k - 1); }
  }

  lemma {:induction false} StandTree(s: string, c: Cmd, rs: seq<Redirection>, d: Redirects)
    requires Stand(s, rs, d)
    ensures Text(s, WrapAll(c, rs)) == Redirected(Text(s, c), d)
    decreases d
  {
    if d.Redirect? {
      WrapFirst(c, rs, |rs|);
      StandTree(s, Redir(c, rs[0].file, rs[0].out), rs[1..], d.rest);
    }
  }

  lemma {:induction false} RedirsSound(s: string, i: nat) returns (d: Redirects)
    requires Settled(s, i) && Redirs(s, i).Ok?
    ensures Lex(s, i) == RedirectsThen(d, Lex(s, Redirs(s, i).pos)) && Stand(s, Redirs(s, i).value, d)
    ensures NoSign(Lex(s, Redirs(s, i).pos))
    decreases |s| - i
  {
    hide Lex, Skip, WordEnd;
    d := Plain;
    LexHead(s, i);
    HeadKinds(s, i);
    if At(s, i, '<') || At(s, i, '>') {
      var j := Skip(s, AfterSign(s, i));
      LexHead(s, j);
      var e := WordEnd(s, j);
      var more := RedirsSound(s, Skip(s, e));
      d := Redirect(At(s, i, '>'), s[j..e], more);
      assert Redirs(s, i).value[1..] == Redirs(s, Skip(s, e)).value;
    }
  }

  lemma {:induction false} ArgsSound(s: string, i: nat, args: seq<Token>, rs: seq<Redirection>)
    returns (d: Items, all: seq<Token>)
    requires Settled(s, i) && |args| < MAXARGS && Args(s, i, args, rs).Ok? && NoSign(Lex(s, i))
    ensures Lex(s, i) == ItemsThen(d, Lex(s, Args(s, i, args, rs).pos)) && |args| + Count(d) < MAXARGS
    ensures Texts(s, all) == Texts(s, args) + WordsOf(d)
    ensures Text(s, Args(s, i, args, rs).value) == AllRedirected(Text(s, WrapAll(Exec(all), rs)), d)
    ensures Joins(Lex(s, Args(s, i, args, rs).pos))
    decreases |s| - i
  {
    hide Lex, Skip, WordEnd, Redirs, Stand, WrapAll, Text;
    d, all := NoItems, args;
    LexHead(s, i);
    HeadKinds(s, i);
    if WordAt(s, i) {
      var e := WordEnd(s, i);
      var first := RedirsSound(s, Skip(s, e));
      var r := Redirs(s, Skip(s, e));
      var rest;
      rest, all := ArgsSound(s, r.pos, args + [Token(i, e)], rs + r.value);
      d := Item(s[i..e], first, rest);
      WrapJoin(s, Exec(all), rs, r.value, first);
      TextsMore(s, args, Token(i, e), WordsOf(rest));
    }
  }

  lemma WrapJoin(s: string, c: Cmd, rs: seq<Redirection>, more: seq<Redirection>, d: Redirects)
    requires Stand(s, more, d)
    ensures Text(s, WrapAll(c, rs + more)) == Redirected(Text(s, WrapAll(c, rs)), d)
  {
    WrapMore(c, rs, more, |more|);
    StandTree(s, WrapAll(c, rs), more, d);
  }

  lemma TextsMore(s: string, args: seq<Token>, t: Token, rest: seq<string>)
    ensures Texts(s, args + [t]) + rest == Texts(s, args) + ([Slice(s, t)] + rest)
  {
  }

  lemma {:induction false} SimpleSound(s: string, i: nat) returns (d: SimpleD)
    requires i <= |s| && Simple(s, i).Ok?
    ensures ShortSimple(d) && Lex(s, i) == SimpleThen(d, Lex(s, Simple(s, i).pos))
    ensures SimpleStops(d, Lex(s, Simple(s, i).pos)) && Text(s, Simple(s, i).value) == SimpleTree(d)
    decreases |s| - i, 0
  {
    hide Lex, Skip, WordEnd, Redirs, Args, Stand, WrapAll;
    var j := Skip(s, i);
    LexSkips(s, i);
    LexHead(s, j);
    if At(s, j, '(') {
      var line := LineSound(s, Skip(s, j + 1));
      var r := Line(s, Skip(s, j + 1));
      LexHead(s, r.pos);
      var redirects := RedirsSound(s, Skip(s, r.pos + 1));
      StandTree(s, r.value, Redirs(s, Skip(s, r.pos + 1)).value, redirects);
      d := Block(line, redirects);
    } else {
      var lead := RedirsSound(s, j);
      var r := Redirs(s, j);
      var items, all := ArgsSound(s, r.pos, [], r.value);
      StandTree(s, Exec(all), r.value, lead);
      assert Texts(s, []) + WordsOf(items) == WordsOf(items);
      d := Words(lead, items);
    }
  }

  lemma {:induction false} PipelineSound(s: string, i: nat) returns (d: PipeD)
    requires i <= |s| && Pipeline(s, i).Ok?
    ensures ShortPipe(d) && Lex(s, i) == PipeThen(d, Lex(s, Pipeline(s, i).pos))
    ensures PipeStops(d, Lex(s, Pipeline(s, i).pos)) && Text(s, Pipeline(s, i).value) == PipeTree(d)
    decreases |s| - i, 1
  {
    hide Lex, Skip, Simple, SimpleThen, SimpleStops;
    var first := SimpleSound(s, i);
    var p := Simple(s, i).pos;
    LexHead(s, p);
    HeadKinds(s, p);
    d := Single(first);
    if At(s, p, '|') {
      var rest := PipelineSound(s, Skip(s, p + 1));
      d := Piped(first, rest);
    }
  }

  lemma {:induction false} BacksSound(s: string, c: Cmd, i: nat) returns (n: nat)
    requires Settled(s, i)
    ensures Lex(s, i) == AmpsThen(n, Lex(s, Backs(s, c, i).1)) && Text(s, Backs(s, c, i).0) == Marked(Text(s, c), n)
    ensures !Starts(Lex(s, Backs(s, c, i).1), Amp) && (n == 0 ==> Backs(s, c, i).1 == i)
    decreases |s| - i
  {
    hide Lex, Skip;
    n := 0;
    LexHead(s, i);
    HeadKinds(s, i);
    if At(s, i, '&') {
      n := BacksSound(s, Back(c), Skip(s, i + 1));
      n := n + 1;
    }
  }

  lemma {:induction false} LineSound(s: string, i: nat) returns (d: LineD)
    requires i <= |s| && Line(s, i).Ok?
    ensures Short(d) && Lex(s, i) == LineThen(d, Lex(s, Line(s, i).pos))
    ensures LineStops(d, Lex(s, Line(s, i).pos)) && Text(s, Line(s, i).value) == LineTree(d)
    decreases |s| - i, 2
  {
    hide Lex, Skip, Pipeline, PipeThen, PipeStops, Backs;
    var pipe := PipelineSound(s, i);
    var r := Pipeline(s, i);
    var amps := BacksSound(s, r.value, r.pos);
    var q := Backs(s, r.value, r.pos).1;
    LexHead(s, q);
    HeadKinds(s, q);
    d := Final(pipe, amps);
    if At(s, q, ';') {
      var rest := LineSound(s, Skip(s, q + 1));
      d := Sequence(pipe, amps, rest);
    }
  }

  // --------------------------------------------------- every derivation is parsed

  lemma {:induction false} RedirsComplete(s: string, i: nat, d: Redirects, rest: Symbols)
    requires Settled(s, i) && Lex(s, i) == RedirectsThen(d, rest) && NoSign(rest)
    ensures Redirs(s, i).Ok? && Lex(s, Redirs(s, i).pos) == rest
    decreases d
  {
    hide Lex, Skip, WordEnd;
    LexHead(s, i);
    HeadKinds(s, i);
    if d.Redirect? {
      var j := Skip(s, AfterSign(s, i));
      LexHead(s, j);
      HeadKinds(s, j);
      RedirsComplete(s, Skip(s, WordEnd(s, j)), d.rest, rest);
    }
  }

  lemma {:induction false} ArgsComplete(s: string, i: nat, args: seq<Token>, rs: seq<Redirection>, d: Items, rest: Symbols)
    requires Settled(s, i) && |args| + Count(d) < MAXARGS && Lex(s, i) == ItemsThen(d, rest) && Joins(rest)
    ensures Args(s, i, args, rs).Ok? && Lex(s, Args(s, i, args, rs).pos) == rest
    decreases d
  {
    hide Lex, Skip, WordEnd, Redirs, WrapAll;
    LexHead(s, i);
    HeadKinds(s, i);
    if d.Item? {
      var e := WordEnd(s, i);
      RedirsComplete(s, Skip(s, e), d.redirects, ItemsThen(d.rest, rest));
      var r := Redirs(s, Skip(s, e));
      ArgsComplete(s, r.pos, args + [Token(i, e)], rs + r.value, d.rest, rest);
    }
  }

  lemma {:induction false} SimpleComplete(s: string, i: nat, d: SimpleD, rest: Symbols)
    requires i <= |s| && Lex(s, i) == SimpleThen(d, rest) && ShortSimple(d) && SimpleStops(d, rest)
    ensures Simple(s, i).Ok? && Lex(s, Simple(s, i).pos) == rest
    decreases d, 0
  {
    hide Lex, Skip, WordEnd, Redirs, Args, WrapAll;
    var j := Skip(s, i);
    LexSkips(s, i);
    LexHead(s, j);
    HeadKinds(s, j);
    match d
    case Words(lead, items) =>
      RedirsComplete(s, j, lead, ItemsThen(items, rest));
      var r := Redirs(s, j);
      ArgsComplete(s, r.pos, [], r.value, items, rest);
    case Block(line, redirects) =>
      LineStopsAt(line, Cons(Close, RedirectsThen(redirects, rest)));
      LineComplete(s, Skip(s, j + 1), line, Cons(Close, RedirectsThen(redirects, rest)));
      var p := Line(s, Skip(s, j + 1)).pos;
      LexHead(s, p);
      HeadKinds(s, p);
      RedirsComplete(s, Skip(s, p + 1), redirects, rest);
  }

  lemma {:induction false} PipelineComplete(s: string, i: nat, d: PipeD, rest: Symbols)
    requires i <= |s| && Lex(s, i) == PipeThen(d, rest) && ShortPipe(d) && PipeStops(d, rest)
    ensures Pipeline(s, i).Ok? && Lex(s, Pipeline(s, i).pos) == rest
    decreases d, 1
  {
    hide Lex, Skip, Simple, SimpleThen;
    match d
    case Single(only) =>
      SimpleComplete(s, i, only, rest);
      LexHead(s, Simple(s, i).pos);
    case Piped(first, more) =>
      SimpleComplete(s, i, first, Cons(Bar, PipeThen(more, rest)));
      var p := Simple(s, i).pos;
      LexHead(s, p);
      HeadKinds(s, p);
      PipelineComplete(s, Skip(s, p + 1), more, rest);
  }

  lemma {:induction false} BacksComplete(s: string, c: Cmd, i: nat, n: nat, rest: Symbols)
    requires Settled(s, i) && Lex(s, i) == AmpsThen(n, rest) && !Starts(rest, Amp)
    ensures Lex(s, Backs(s, c, i).1) == rest
    decreases n
  {
    hide Lex, Skip;
    LexHead(s, i);
    HeadKinds(s, i);
    if n > 0 { BacksComplete(s, Back(c), Skip(s, i + 1), n - 1, rest); }
  }

  /** What stands after the background marks of d. */
  function AfterAmps(d: LineD, rest: Symbols): (r: Symbols) {
    if d.Final? then rest else Cons(Semi, LineThen(d.line, rest))
  }

  lemma LineHead(d: LineD, rest: Symbols)
    requires LineStops(d, rest)
    ensures LineThen(d, rest) == PipeThen(d.pipe, AmpsThen(d.amps, AfterAmps(d, rest)))
    ensures PipeStops(d.pipe, AmpsThen(d.amps, AfterAmps(d, rest))) && !Starts(AfterAmps(d, rest), Amp)
  {
    if d.Sequence? || d.amps > 0 { PipeStopsAt(d.pipe, AmpsThen(d.amps, AfterAmps(d, rest))); }
  }

  lemma {:induction false} LineComplete(s: string, i: nat, d: LineD, rest: Symbols)
    requires i <= |s| && Lex(s, i) == LineThen(d, rest) && Short(d) && LineStops(d, rest)
    ensures Line(s, i).Ok? && Lex(s, Line(s, i).pos) == rest
    decreases d, 2
  {
    hide Lex, Skip, Pipeline, PipeThen, PipeStops, Backs, AmpsThen;
    LineHead(d, rest);
    var after := AfterAmps(d, rest);
    PipelineComplete(s, i, d.pipe, AmpsThen(d.amps, after));
    var r := Pipeline(s, i);
    BacksComplete(s, r.value, r.pos, d.amps, after);
    var q := Backs(s, r.value, r.pos).1;
    LexHead(s, q);
    HeadKinds(s, q);
    if d.Sequence? { LineComplete(s, Skip(s, q + 1), d.line, rest); }
  }

  // ------------------------------------------------- a sentence has one derivation

  lemma {:induction false} RedirectsSame(d: Redirects, e: Redirects, x: Symbols, y: Symbols)
    requires RedirectsThen(d, x) == RedirectsThen(e, y) && NoSign(x) && NoSign(y)
    ensures d == e && x == y
  {
    if d.Redirect? && e.Redirect? { RedirectsSame(d.rest, e.rest, x, y); }
  }

  lemma {:induction false} ItemsSame(d: Items, e: Items, x: Symbols, y: Symbols)
    requires ItemsThen(d, x) == ItemsThen(e, y) && Joins(x) && Joins(y)
    ensures d == e && x == y
  {
    if d.Item? && e.Item? {
      RedirectsSame(d.redirects, e.redirects, ItemsThen(d.rest, x), ItemsThen(e.rest, y));
      ItemsSame(d.rest, e.rest, x, y);
    }
  }

  lemma {:induction false} SimpleSame(d: SimpleD, e: SimpleD, x: Symbols, y: Symbols)
    requires SimpleThen(d, x) == SimpleThen(e, y) && SimpleStops(d, x) && SimpleStops(e, y)
    ensures d == e && x == y
    decreases d, 0
  {
    if d.Words? && e.Words? {
      RedirectsSame(d.lead, e.lead, ItemsThen(d.items, x), ItemsThen(e.items, y));
      ItemsSame(d.items, e.items, x, y);
    } else if d.Block? && e.Block? {
      var v, w := Cons(Close, RedirectsThen(d.redirects, x)), Cons(Close, RedirectsThen(e.redirects, y));
      LineStopsAt(d.line, v);
      LineStopsAt(e.line, w);
      LineSame(d.line, e.line, v, w);
      RedirectsSame(d.redirects, e.redirects, x, y);
    }
  }

  lemma {:induction false} PipeSame(d: PipeD, e: PipeD, x: Symbols, y: Symbols)
    requires PipeThen(d, x) == PipeThen(e, y) && PipeStops(d, x) && PipeStops(e, y)
    ensures d == e && x == y
    decreases d, 1
  {
    hide SimpleThen;
    var a, v := if d.Single? then d.only else d.first, if d.Single? then x else Cons(Bar, PipeThen(d.rest, x));
    var b, w := if e.Single? then e.only else e.first, if e.Single? then y else Cons(Bar, PipeThen(e.rest, y));
    SimpleSame(a, b, v, w);
    if d.Piped? && e.Piped? { PipeSame(d.rest, e.rest, x, y); }
  }

  lemma {:induction false} AmpsSame(n: nat, m: nat, x: Symbols, y: Symbols)
    requires AmpsThen(n, x) == AmpsThen(m, y) && !Starts(x, Amp) && !Starts(y, Amp)
    ensures n == m && x == y
  {
    if n > 0 && m > 0 { AmpsSame(n - 1, m - 1, x, y); }
  }

  lemma {:induction false} LineSame(d: LineD, e: LineD, x: Symbols, y: Symbols)
    requires LineThen(d, x) == LineThen(e, y) && LineStops(d, x) && LineStops(e, y)
    ensures d == e && x == y
    decreases d, 2
  {
    hide PipeThen, PipeStops, AmpsThen;
    LineHead(d, x);
    LineHead(e, y);
    PipeSame(d.pipe, e.pipe, AmpsThen(d.amps, AfterAmps(d, x)), AmpsThen(e.amps, AfterAmps(e, y)));
    AmpsSame(d.amps, e.amps, AfterAmps(d, x), AfterAmps(e, y));
    if d.Sequence? && e.Sequence? { LineSame(d.line, e.line, x, y); }
  }

  /** d derives all of s. */
  ghost predicate Derives(d: LineD, s: string) { Short(d) && Lex(s, 0) == LineThen(d, Nil) }

  /** parsecmd accepts exactly the sentences of the grammar ... */
  lemma AcceptsIff(s: string)
    ensures Parse(s).Ok? <==> exists d :: Derives(d, s)
  {
    hide Lex, Line, LineThen, Short;
    if d :| Derives(d, s) {
      LineStopsAt(d, Nil);
      LineComplete(s, 0, d, Nil);
      LexHead(s, Line(s, 0).pos);
    }
    if Parse(s).Ok? {
      var d := LineSound(s, 0);
      LexHead(s, |s|);
      assert Derives(d, s);
    }
  }

  /** ... and gives each the tree of its one derivation. */
  lemma DerivedTree(s: string, d: LineD)
    requires Derives(d, s)
    ensures Parse(s).Ok? && Text(s, Parse(s).value) == LineTree(d)
    ensures forall e :: Derives(e, s) ==> e == d
  {
    hide Lex, Line, LineThen, Short, LineTree, Text;
    AcceptsIff(s);
    var e := LineSound(s, 0);
    LexHead(s, |s|);
    forall e | Derives(e, s) ensures e == d {
      LineStopsAt(d, Nil);
      LineStopsAt(e, Nil);
      LineSame(d, e, Nil, Nil);
    }
    assert Derives(e, s);
  }
}
