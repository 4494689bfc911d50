/** Printing a command with every part in parentheses and parsing it again (sh.c). */
module ShellRoundTrip {
  import opened ShellGrammar

  /** A command with the texts of its words. */
  datatype Tree =
    | ExecT(words: seq<string>)
    | RedirT(cmd: Tree, file: string, out: bool)
    | PipeT(left: Tree, right: Tree)
    | ListT(left: Tree, right: Tree)
    | BackT(cmd: Tree)

  function Slice(s: string, t: Token): (r: string) { if t.b <= t.e <= |s| then s[t.b..t.e] else [] }

  function Texts(s: string, ts: seq<Token>): (r: seq<string>) {
    seq(|ts|, i requires 0 <= i < |ts| => Slice(s, ts[i]))
  }

  function Text(s: string, c: Cmd): (r: Tree) {
    match c
    case Exec(args) => ExecT(Texts(s, args))
    case Redir(d, file, out) => RedirT(Text(s, d), Slice(s, file), out)
    case Pipe(l, r) => PipeT(Text(s, l), Text(s, r))
    case List(l, r) => ListT(Text(s, l), Text(s, r))
    case Back(d) => BackT(Text(s, d))
  }

  predicate IsWordText(w: string) { w != [] && forall k :: 0 <= k < |w| ==> IsWord(w[k]) }

  /** The trees the grammar can produce: separator-free words, at most 9 arguments. */
  predicate Producible(t: Tree) {
    match t
    case ExecT(words) => |words| < MAXARGS && forall i :: 0 <= i < |words| ==> IsWordText(words[i])
    case RedirT(c, file, _) => Producible(c) && IsWordText(file)
    case PipeT(l, r) => Producible(l) && Producible(r)
    case ListT(l, r) => Producible(l) && Producible(r)
    case BackT(c) => Producible(c)
  }

  /** words[k..] separated by single blanks */
  function Joined(words: seq<string>, k: nat): (r: string)
    requires k <= |words|
    decreases |words| - k
  {
    if k == |words| then [] else if k + 1 == |words| then words[k] else words[k] + " " + Joined(words, k + 1)
  }

  function Print(t: Tree): (r: string) {
    match t
    case ExecT(words) => Joined(words, 0)
    case RedirT(c, file, out) => "(" + Print(c) + (if out then ")>" else ")<") + file
    case PipeT(l, r) => "(" + Print(l) + ")|(" + Print(r) + ")"
    case ListT(l, r) => "(" + Print(l) + ");(" + Print(r) + ")"
    case BackT(c) => "(" + Print(c) + ")&"
  }

  /** w stands in s at position i. */
  predicate Reads(s: string, i: nat, w: string) { i + |w| <= |s| && forall k :: 0 <= k < |w| ==> s[i + k] == w[k] }

  /** The end of the input or of a parenthesised part. */
  predicate Stops(s: string, p: nat) { p == |s| || At(s, p, ')') }

  lemma ReadsSplit(s: string, i: nat, u: string, v: string, all: string)
    requires all == u + v && Reads(s, i, all)
    ensures Reads(s, i, u) && Reads(s, i + |u|, v) && |all| == |u| + |v|
  {
    forall k | 0 <= k < |u| ensures s[i + k] == u[k] { assert all[k] == u[k]; }
    forall k | 0 <= k < |v| ensures s[i + |u| + k] == v[k] { assert all[|u| + k] == v[k]; }
  }

  lemma ReadsChar(s: string, i: nat, w: string, k: nat)
    requires Reads(s, i, w) && k < |w|
    ensures s[i + k] == w[k]
  {
  }

  lemma WordReads(s: string, i: nat, w: string)
    requires Reads(s, i, w) && IsWordText(w) && (i + |w| == |s| || !IsWord(s[i + |w|]))
    ensures WordAt(s, i) && WordEnd(s, i) == i + |w| && Slice(s, Token(i, i + |w|)) == w
  {
    assert s[i + 0] == w[0];
    forall k | i <= k < i + |w| ensures IsWord(s[k]) { ReadsChar(s, i, w, k - i); }
    WordEndsAt(s, i, i + |w|);
  }

  lemma {:induction false} WordEndsAt(s: string, i: nat, e: nat)
    requires i <= e <= |s| && (e == |s| || !IsWord(s[e])) && forall k :: i <= k < e ==> IsWord(s[k])
    ensures WordEnd(s, i) == e
    decreases e - i
  {
    if i < e { WordEndsAt(s, i + 1, e); }
  }

  /** One round of parseexec's loop, when no redirection follows the word. */
  lemma ArgsStep(s: string, i: nat, args: seq<Token>, e: nat, q: nat, more: seq<Token>)
    requires WordAt(s, i) && |args| + 1 < MAXARGS && e == WordEnd(s, i) && q == Skip(s, e) && !At(s, q, '<') && !At(s, q, '>')
    requires more == args + [Token(i, e)]
    ensures Args(s, i, args, []) == Args(s, q, more, [])
  {
    assert Redirs(s, q) == Ok([], q);
    var none: seq<Redirection> := [];
    assert none + none == none;
  }

  ghost predicate TextsAre(s: string, args: seq<Token>, words: seq<string>, k: nat) {
    |args| == k <= |words| && forall i :: 0 <= i < k ==> Slice(s, args[i]) == words[i]
  }

  /** What parseexec's loop makes of a word list that ends at p. */
  ghost predicate ReadBack(s: string, r: Result<Cmd>, words: seq<string>, p: nat) {
    r.Ok? && r.pos == p && r.value.Exec? && TextsAre(s, r.value.args, words, |words|)
  }

  /** The word words[k] stands at i, and is followed by the next word at q or, after
      the last word, by the end q. */
  lemma NextWord(s: string, i: nat, words: seq<string>, k: nat) returns (e: nat, q: nat)
    requires k < |words| && IsWordText(words[k]) && Reads(s, i, Joined(words, k)) && Stops(s, i + |Joined(words, k)|)
    ensures WordAt(s, i) && e == WordEnd(s, i) && Slice(s, Token(i, e)) == words[k]
    ensures i < e <= q <= |s| && forall j :: e <= j < q ==> IsSpace(s[j])
    ensures q + |Joined(words, k + 1)| == i + |Joined(words, k)| && Reads(s, q, Joined(words, k + 1))
  {
    var w := words[k];
    e, q := i + |w|, i + |w|;
    if k + 1 < |words| {
      BlankReads(s, i, w, Joined(words, k + 1), Joined(words, k));
      q := e + 1;
    }
    WordReads(s, i, w);
  }

  lemma BlankReads(s: string, i: nat, u: string, v: string, w: string)
    requires w == u + " " + v && Reads(s, i, w)
    ensures Reads(s, i, u) && At(s, i + |u|, ' ') && Reads(s, i + |u| + 1, v)
  {
    assert w == u + (" " + v);
    ReadsSplit(s, i, u, " " + v, w);
    ReadsSplit(s, i + |u|, " ", v, " " + v);
    ReadsChar(s, i + |u|, " ", 0);
  }

  lemma {:induction false} SkipTo(s: string, e: nat, q: nat)
    requires e <= q && Settled(s, q) && forall j :: e <= j < q ==> IsSpace(s[j])
    ensures Skip(s, e) == q
    decreases q - e
  {
    if e < q { SkipTo(s, e + 1, q); }
  }

  /** parseexec's loop reads back the words from words[k] on. */
  lemma {:induction false} ArgsRead(s: string, i: nat, words: seq<string>, args: seq<Token>, k: nat)
    requires |words| < MAXARGS && TextsAre(s, args, words, k)
    requires forall k :: 0 <= k < |words| ==> IsWordText(words[k])
    requires Reads(s, i, Joined(words, k)) && Stops(s, i + |Joined(words, k)|)
    ensures Settled(s, i) && !At(s, i, '<') && !At(s, i, '>') && !At(s, i, '(')
    ensures ReadBack(s, Args(s, i, args, []), words, i + |Joined(words, k)|)
    decreases |words| - k
  {
    if k < |words| {
      var e, q := NextWord(s, i, words, k);
      var more := args + [Token(i, e)];
      ArgsRead(s, q, words, more, k + 1);
      SkipTo(s, e, q);
      ArgsStep(s, i, args, e, q, more);
    }
  }

  ghost predicate Gives(s: string, r: Result<Cmd>, t: Tree, p: nat) { r.Ok? && r.pos == p && Text(s, r.value) == t }

  /** A command that reaches the end of its part is the whole line. */
  lemma LineEnds(s: string, i: nat, p: nat)
    requires i <= |s| && Simple(s, i).Ok? && Simple(s, i).pos == p && Stops(s, p)
    ensures Pipeline(s, i) == Simple(s, i) == Line(s, i)
  {
  }

  /** parseblock on "(", a line up to p, ")", and redirections up to q. */
  lemma SimpleBlock(s: string, i: nat, c: Cmd, p: nat, rs: seq<Redirection>, q: nat)
    requires At(s, i, '(') && Settled(s, i + 1) && Line(s, i + 1) == Ok(c, p) && At(s, p, ')')
    requires Settled(s, p + 1) && Redirs(s, p + 1) == Ok(rs, q)
    ensures Simple(s, i) == Ok(WrapAll(c, rs), q)
  {
    assert Skip(s, i) == i && Skip(s, i + 1) == i + 1 && Skip(s, p + 1) == p + 1;
  }

  lemma BlockReads(s: string, i: nat, p: nat)
    requires At(s, i, '(') && Settled(s, i + 1) && Line(s, i + 1).Ok? && Line(s, i + 1).pos == p && At(s, p, ')')
    requires Settled(s, p + 1) && !At(s, p + 1, '<') && !At(s, p + 1, '>')
    ensures Simple(s, i) == Ok(Line(s, i + 1).value, p + 1)
  {
    SimpleBlock(s, i, Line(s, i + 1).value, p, [], p + 1);
  }

  lemma OneRedir(s: string, p: nat, file: string, out: bool)
    requires At(s, p, if out then '>' else '<') && Reads(s, p + 1, file) && IsWordText(file) && Stops(s, p + 1 + |file|)
    ensures Redirs(s, p) == Ok([Redirection(Token(p + 1, p + 1 + |file|), out)], p + 1 + |file|)
    ensures Slice(s, Token(p + 1, p + 1 + |file|)) == file
  {
    WordReads(s, p + 1, file);
    var e := p + 1 + |file|;
    assert Skip(s, p + 1) == p + 1 && Skip(s, e) == e && Redirs(s, e) == Ok([], e);
    var r := Redirection(Token(p + 1, e), out);
    assert [r] + [] == [r];
  }

  /** The same with one redirection after it. */
  lemma RedirReads(s: string, i: nat, c: Cmd, p: nat, r: Redirection, q: nat)
    requires At(s, i, '(') && Settled(s, i + 1) && Line(s, i + 1) == Ok(c, p) && At(s, p, ')')
    requires Settled(s, p + 1) && Redirs(s, p + 1) == Ok([r], q)
    ensures Simple(s, i) == Ok(Redir(c, r.file, r.out), q)
  {
    SimpleBlock(s, i, c, p, [r], q);
    OneWrap(c, r);
  }

  lemma RedirLine(s: string, i: nat, c: Cmd, p: nat, r: Redirection, q: nat)
    requires At(s, i, '(') && Settled(s, i + 1) && Line(s, i + 1) == Ok(c, p) && At(s, p, ')')
    requires Settled(s, p + 1) && Redirs(s, p + 1) == Ok([r], q) && Stops(s, q)
    ensures Line(s, i) == Ok(Redir(c, r.file, r.out), q)
  {
    RedirReads(s, i, c, p, r, q);
    LineEnds(s, i, q);
  }

  lemma OneWrap(c: Cmd, r: Redirection)
    ensures WrapAll(c, [r]) == Redir(c, r.file, r.out)
  {
    assert Wrap(c, [r], 0) == c;
  }

  /** "(" u ")" then v, at i. */
  lemma ReadsBlock(s: string, i: nat, u: string, v: string)
    requires Reads(s, i, "(" + u + v) && v != [] && v[0] == ')'
    ensures At(s, i, '(') && Reads(s, i + 1, u) && At(s, i + 1 + |u|, ')') && Reads(s, i + 1 + |u|, v)
  {
    assert "(" + u + v == "(" + (u + v);
    ReadsSplit(s, i, "(", u + v, "(" + (u + v));
    ReadsChar(s, i, "(", 0);
    ReadsSplit(s, i + 1, u, v, u + v);
    ReadsChar(s, i + 1 + |u|, v, 0);
  }

  /** Whatever stands before and after it, a printed command parses to itself. */
  lemma {:induction false} LineReads(s: string, i: nat, t: Tree)
    requires Producible(t) && Reads(s, i, Print(t)) && Stops(s, i + |Print(t)|)
    ensures Settled(s, i) && Gives(s, Line(s, i), t, i + |Print(t)|)
    decreases t, 1
  {
    match t
    case ExecT(words) => ExecReads(s, i, words);
    case RedirT(_, _, _) => RedirCase(s, i, t);
    case PipeT(_, _) => PipeCase(s, i, t);
    case ListT(_, _) => ListCase(s, i, t);
    case BackT(_) => BackCase(s, i, t);
  }

  lemma {:induction false} RedirCase(s: string, i: nat, t: Tree)
    requires t.RedirT? && Producible(t) && Reads(s, i, Print(t)) && Stops(s, i + |Print(t)|)
    ensures Settled(s, i) && Gives(s, Line(s, i), t, i + |Print(t)|)
    decreases t, 0
  {
    hide Reads, Line, Redirs, IsWordText;
    var p := RedirSplit(s, i, Print(t.cmd), t.file, t.out, Print(t));
    LineReads(s, i + 1, t.cmd);
    var q := p + 2 + |t.file|;
    OneRedir(s, p + 1, t.file, t.out);
    RedirLine(s, i, Line(s, i + 1).value, p, Redirection(Token(p + 2, q), t.out), q);
  }

  lemma {:induction false} PipeCase(s: string, i: nat, t: Tree)
    requires t.PipeT? && Producible(t) && Reads(s, i, Print(t)) && Stops(s, i + |Print(t)|)
    ensures Settled(s, i) && Gives(s, Line(s, i), t, i + |Print(t)|)
    decreases t, 0
  {
    var p, q := PairReads(s, i, Print(t.left), '|', Print(t.right), Print(t));
    LineReads(s, i + 1, t.left);
    LineReads(s, p + 3, t.right);
    PipeReads(s, i, p, q);
  }

  lemma {:induction false} ListCase(s: string, i: nat, t: Tree)
    requires t.ListT? && Producible(t) && Reads(s, i, Print(t)) && Stops(s, i + |Print(t)|)
    ensures Settled(s, i) && Gives(s, Line(s, i), t, i + |Print(t)|)
    decreases t, 0
  {
    var p, q := PairReads(s, i, Print(t.left), ';', Print(t.right), Print(t));
    LineReads(s, i + 1, t.left);
    LineReads(s, p + 3, t.right);
    ListReads(s, i, p, q);
  }

  lemma {:induction false} BackCase(s: string, i: nat, t: Tree)
    requires t.BackT? && Producible(t) && Reads(s, i, Print(t)) && Stops(s, i + |Print(t)|)
    ensures Settled(s, i) && Gives(s, Line(s, i), t, i + |Print(t)|)
    decreases t, 0
  {
    var p := BackSplit(s, i, Print(t.cmd), Print(t));
    LineReads(s, i + 1, t.cmd);
    BackReads(s, i, p);
  }

  lemma RedirSplit(s: string, i: nat, u: string, file: string, out: bool, w: string) returns (p: nat)
    requires w == "(" + u + (if out then ")>" else ")<") + file && Reads(s, i, w)
    ensures p == i + 1 + |u| && i + |w| == p + 2 + |file|
    ensures At(s, i, '(') && Reads(s, i + 1, u) && At(s, p, ')') && At(s, p + 1, if out then '>' else '<') && Reads(s, p + 2, file)
  {
    var m := if out then ")>" else ")<";
    assert w == "(" + u + (m + file);
    ReadsBlock(s, i, u, m + file);
    p := i + 1 + |u|;
    ReadsSplit(s, p, m, file, m + file);
    ReadsChar(s, p, m, 1);
  }

  lemma BackSplit(s: string, i: nat, u: string, w: string) returns (p: nat)
    requires w == "(" + u + ")&" && Reads(s, i, w)
    ensures p == i + 1 + |u| && i + |w| == p + 2
    ensures At(s, i, '(') && Reads(s, i + 1, u) && At(s, p, ')') && At(s, p + 1, '&')
  {
    ReadsBlock(s, i, u, ")&");
    p := i + 1 + |u|;
    ReadsChar(s, p, ")&", 1);
  }

  lemma ExecReads(s: string, i: nat, words: seq<string>)
    requires Producible(ExecT(words)) && Reads(s, i, Joined(words, 0)) && Stops(s, i + |Joined(words, 0)|)
    ensures Settled(s, i) && Gives(s, Line(s, i), ExecT(words), i + |Joined(words, 0)|)
  {
    ArgsRead(s, i, words, [], 0);
    assert Skip(s, i) == i;
    assert Redirs(s, i) == Ok([], i);
    var r := Args(s, i, [], []);
    assert Simple(s, i) == r;
    LineEnds(s, i, r.pos);
    assert Texts(s, r.value.args) == words;
  }

  /** "(" u ")" x "(" v ")" at i. */
  lemma PairReads(s: string, i: nat, u: string, x: char, v: string, w: string) returns (p: nat, q: nat)
    requires w == "(" + u + [')', x, '('] + v + ")" && Reads(s, i, w)
    ensures p == i + 1 + |u| && q == p + 3 + |v| && i + |w| == q + 1
    ensures At(s, i, '(') && Reads(s, i + 1, u) && At(s, p, ')') && At(s, p + 1, x) && At(s, p + 2, '(')
    ensures Reads(s, p + 3, v) && At(s, q, ')')
  {
    var m := [')', x, '('];
    assert w == "(" + u + (m + (v + ")"));
    ReadsBlock(s, i, u, m + (v + ")"));
    p, q := i + 1 + |u|, i + 4 + |u| + |v|;
    MiddleReads(s, p, x, v);
  }

  /** ")" x "(" v ")" at p. */
  lemma MiddleReads(s: string, p: nat, x: char, v: string)
    requires Reads(s, p, [')', x, '('] + (v + ")"))
    ensures At(s, p + 1, x) && At(s, p + 2, '(') && Reads(s, p + 3, v) && At(s, p + 3 + |v|, ')')
  {
    var m := [')', x, '('];
    ReadsSplit(s, p, m, v + ")", m + (v + ")"));
    ReadsChar(s, p, m, 1);
    ReadsChar(s, p, m, 2);
    ReadsSplit(s, p + 3, v, ")", v + ")");
    ReadsChar(s, p + 3 + |v|, ")", 0);
  }

  lemma PipelineJoins(s: string, i: nat, c: Cmd, p: nat, d: Cmd, q: nat)
    requires i <= |s| && Simple(s, i) == Ok(c, p) && At(s, p, '|') && Settled(s, p + 1) && Pipeline(s, p + 1) == Ok(d, q)
    ensures Pipeline(s, i) == Ok(Pipe(c, d), q)
  {
    assert Skip(s, p + 1) == p + 1;
  }

  lemma LineOfPipeline(s: string, i: nat, c: Cmd, p: nat)
    requires i <= |s| && Pipeline(s, i) == Ok(c, p) && Stops(s, p)
    ensures Line(s, i) == Ok(c, p)
  {
  }

  lemma LineJoins(s: string, i: nat, c: Cmd, p: nat, d: Cmd, q: nat)
    requires i <= |s| && Simple(s, i) == Ok(c, p) && At(s, p, ';') && Settled(s, p + 1) && Line(s, p + 1) == Ok(d, q)
    ensures Line(s, i) == Ok(List(c, d), q)
  {
    assert Skip(s, p + 1) == p + 1;
    assert Pipeline(s, i) == Ok(c, p);
  }

  lemma PipeReads(s: string, i: nat, p: nat, q: nat)
    requires At(s, i, '(') && Settled(s, i + 1) && Line(s, i + 1).Ok? && Line(s, i + 1).pos == p && At(s, p, ')')
    requires At(s, p + 1, '|') && At(s, p + 2, '(') && Settled(s, p + 3)
    requires Line(s, p + 3).Ok? && Line(s, p + 3).pos == q && At(s, q, ')') && Stops(s, q + 1)
    ensures Line(s, i) == Ok(Pipe(Line(s, i + 1).value, Line(s, p + 3).value), q + 1)
  {
    var c, d := Line(s, i + 1).value, Line(s, p + 3).value;
    hide Line, Pipeline, Simple, Redirs, Args, Skip;
    BlockReads(s, i, p);
    BlockReads(s, p + 2, q);
    LineEnds(s, p + 2, q + 1);
    PipelineJoins(s, i, c, p + 1, d, q + 1);
    LineOfPipeline(s, i, Pipe(c, d), q + 1);
  }

  lemma ListReads(s: string, i: nat, p: nat, q: nat)
    requires At(s, i, '(') && Settled(s, i + 1) && Line(s, i + 1).Ok? && Line(s, i + 1).pos == p && At(s, p, ')')
    requires At(s, p + 1, ';') && At(s, p + 2, '(') && Settled(s, p + 3)
    requires Line(s, p + 3).Ok? && Line(s, p + 3).pos == q && At(s, q, ')') && Stops(s, q + 1)
    ensures Line(s, i) == Ok(List(Line(s, i + 1).value, Line(s, p + 3).value), q + 1)
  {
    hide Line, Pipeline, Simple, Redirs, Args, Skip;
    BlockReads(s, i, p);
    BlockReads(s, p + 2, q);
    LineEnds(s, p + 2, q + 1);
    LineJoins(s, i, Line(s, i + 1).value, p + 1, Line(s, p + 3).value, q + 1);
  }

  lemma BackReads(s: string, i: nat, p: nat)
    requires At(s, i, '(') && Settled(s, i + 1) && Line(s, i + 1).Ok? && Line(s, i + 1).pos == p && At(s, p, ')')
    requires At(s, p + 1, '&') && Stops(s, p + 2)
    ensures Line(s, i) == Ok(Back(Line(s, i + 1).value), p + 2)
  {
    BlockReads(s, i, p);
    var c := Line(s, i + 1).value;
    assert Skip(s, p + 2) == p + 2;
    assert Backs(s, Back(c), p + 2) == (Back(c), p + 2);
    assert Backs(s, c, p + 1) == (Back(c), p + 2);
  }

  /** Parsing undoes printing and consumes all of the input. */
  lemma RoundTrip(t: Tree)
    requires Producible(t)
    ensures Gives(Print(t), Parse(Print(t)), t, |Print(t)|)
  {
    LineReads(Print(t), 0, t);
  }

  lemma {:induction false} TextProducible(s: string, c: Cmd)
    requires TokensOk(s, c)
    ensures Producible(Text(s, c))
  {
    match c
    case Exec(args) =>
      forall i | 0 <= i < |args| ensures IsWordText(Texts(s, args)[i]) { SliceWord(s, args[i]); }
    case Redir(d, file, _) =>
      TextProducible(s, d);
      SliceWord(s, file);
    case Pipe(l, r) =>
      TextProducible(s, l);
      TextProducible(s, r);
    case List(l, r) =>
      TextProducible(s, l);
      TextProducible(s, r);
    case Back(d) => TextProducible(s, d);
  }

  lemma SliceWord(s: string, t: Token)
    requires IsToken(s, t)
    ensures IsWordText(Slice(s, t))
  {
  }

  /** So every line that parses means the same as its parenthesised printing. */
  lemma Reprint(s: string)
    requires Parse(s).Ok?
    ensures var t := Text(s, Parse(s).value); Producible(t) && Gives(Print(t), Parse(Print(t)), t, |Print(t)|)
  {
    LineOk(s, 0);
    var t := Text(s, Parse(s).value);
    TextProducible(s, Parse(s).value);
    RoundTrip(t);
  }
}
