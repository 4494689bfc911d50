/** The shell's command language (sh.c): the value that parsecmd computes, as functions
    of the input and a position in it. */
module ShellGrammar {

  /** A token is the range of the input between its two pointers. */
  datatype Token = Token(b: nat, e: nat)

  /** `out` is true for > and >>, which are treated alike. */
  datatype Redirection = Redirection(file: Token, out: bool)

  datatype Cmd =
    | Exec(args: seq<Token>)
    | Redir(cmd: Cmd, file: Token, out: bool)
    | Pipe(left: Cmd, right: Cmd)
    | List(left: Cmd, right: Cmd)
    | Back(cmd: Cmd)

  datatype Error = MissingFile | MissingParen | Syntax | TooManyArgs | Leftovers

  datatype Result<T> = Ok(value: T, pos: nat) | Err(error: Error)

  const MAXARGS: nat := 10

  // -------------------------------------------------------------------- lexer

  predicate IsSpace(c: char) { c == ' ' || c == '\t' || c == '\r' || c == '\n' || c == 11 as char }

  predicate IsSymbol(c: char) { c == '<' || c == '|' || c == '>' || c == '&' || c == ';' || c == '(' || c == ')' }

  predicate IsWord(c: char) { !IsSpace(c) && !IsSymbol(c) }

  predicate At(s: string, i: nat, c: char) { i < |s| && s[i] == c }

  function Skip(s: string, i: nat): (j: nat)
    requires i <= |s|
    ensures i <= j && Settled(s, j)
    decreases |s| - i
  {
    if i < |s| && IsSpace(s[i]) then Skip(s, i + 1) else i
  }

  function WordEnd(s: string, i: nat): (j: nat)
    requires i <= |s|
    ensures i <= j <= |s| && (j == |s| || !IsWord(s[j])) && (WordAt(s, i) ==> i < j)
    decreases |s| - i
  {
    if i < |s| && IsWord(s[i]) then WordEnd(s, i + 1) else i
  }

  /** A position that is not at white space. */
  predicate Settled(s: string, i: nat) { i <= |s| && (i == |s| || !IsSpace(s[i])) }

  /** A maximal run of word characters. */
  predicate IsToken(s: string, t: Token) {
    t.b < t.e <= |s| && (t.e == |s| || !IsWord(s[t.e])) && forall k :: t.b <= k < t.e ==> IsWord(s[k])
  }

  predicate WordAt(s: string, i: nat) { i < |s| && IsWord(s[i]) }

  lemma {:induction false} WordRun(s: string, i: nat, k: nat)
    requires i <= |s| && i <= k < WordEnd(s, i)
    ensures IsWord(s[k])
    decreases |s| - i
  {
    if i < k { WordRun(s, i + 1, k); }
  }

  lemma WordIsToken(s: string, i: nat)
    requires WordAt(s, i)
    ensures IsToken(s, Token(i, WordEnd(s, i)))
  {
    forall k | i <= k < WordEnd(s, i) ensures IsWord(s[k]) { WordRun(s, i, k); }
  }

  // ------------------------------------------------------------------- parser

  function Wrap(c: Cmd, rs: seq<Redirection>, k: nat): (r: Cmd)
    requires k <= |rs|
    decreases k
  {
    if k == 0 then c else Redir(Wrap(c, rs, k - 1), rs[k - 1].file, rs[k - 1].out)
  }

  function WrapAll(c: Cmd, rs: seq<Redirection>): (r: Cmd) { Wrap(c, rs, |rs|) }

  /** parseredirs */
  function Redirs(s: string, i: nat): (r: Result<seq<Redirection>>)
    requires Settled(s, i)
    ensures r.Ok? ==> i <= r.pos && Settled(s, r.pos) && !At(s, r.pos, '<') && !At(s, r.pos, '>')
    decreases |s| - i
  {
    if !At(s, i, '<') && !At(s, i, '>') then Ok([], i)
    else
      var j := Skip(s, if At(s, i, '>') && At(s, i + 1, '>') then i + 2 else i + 1);
      if !WordAt(s, j) then Err(MissingFile)
      else
        var e := WordEnd(s, j);
        match Redirs(s, Skip(s, e))
        case Err(x) => Err(x)
        case Ok(rs, p) => Ok([Redirection(Token(j, e), At(s, i, '>'))] + rs, p)
  }

  /** The loop of parseexec. */
  function Args(s: string, i: nat, args: seq<Token>, rs: seq<Redirection>): (r: Result<Cmd>)
    requires Settled(s, i) && |args| < MAXARGS
    ensures r.Ok? ==> i <= r.pos && Settled(s, r.pos)
    decreases |s| - i
  {
    if i == |s| || At(s, i, '|') || At(s, i, ')') || At(s, i, '&') || At(s, i, ';') then Ok(WrapAll(Exec(args), rs), i)
    else if !WordAt(s, i) then Err(Syntax)
    else
      var e := WordEnd(s, i);
      if |args| + 1 >= MAXARGS then Err(TooManyArgs)
      else
        match Redirs(s, Skip(s, e))
        case Err(x) => Err(x)
        case Ok(more, p) => Args(s, p, args + [Token(i, e)], rs + more)
  }

  /** What follows the line inside parentheses. */
  function BlockEnd(s: string, c: Cmd, i: nat): (r: Result<Cmd>)
    ensures r.Ok? ==> i < r.pos && Settled(s, r.pos)
  {
    if !At(s, i, ')') then Err(MissingParen)
    else
      match Redirs(s, Skip(s, i + 1))
      case Err(x) => Err(x)
      case Ok(rs, q) => Ok(WrapAll(c, rs), q)
  }

  /** parseexec and parseblock */
  function Simple(s: string, i: nat): (r: Result<Cmd>)
    requires i <= |s|
    ensures r.Ok? ==> i <= r.pos && Settled(s, r.pos)
    decreases |s| - i, 0
  {
    var j := Skip(s, i);
    if At(s, j, '(') then
      match Line(s, Skip(s, j + 1))
      case Err(x) => Err(x)
      case Ok(c, p) => BlockEnd(s, c, p)
    else
      match Redirs(s, j)
      case Err(x) => Err(x)
      case Ok(rs, p) => Args(s, p, [], rs)
  }

  /** parsepipe */
  function Pipeline(s: string, i: nat): (r: Result<Cmd>)
    requires i <= |s|
    ensures r.Ok? ==> i <= r.pos && Settled(s, r.pos)
    decreases |s| - i, 1
  {
    match Simple(s, i)
    case Err(x) => Err(x)
    case Ok(c, p) =>
      if !At(s, p, '|') then Ok(c, p)
      else
        match Pipeline(s, Skip(s, p + 1))
        case Err(x) => Err(x)
        case Ok(d, q) => Ok(Pipe(c, d), q)
  }

  /** The & loop of parseline. */
  function Backs(s: string, c: Cmd, i: nat): (r: (Cmd, nat))
    requires Settled(s, i)
    ensures i <= r.1 && Settled(s, r.1) && !At(s, r.1, '&')
    decreases |s| - i
  {
    if At(s, i, '&') then Backs(s, Back(c), Skip(s, i + 1)) else (c, i)
  }

  /** parseline */
  function Line(s: string, i: nat): (r: Result<Cmd>)
    requires i <= |s|
    ensures r.Ok? ==> i <= r.pos && Settled(s, r.pos)
    decreases |s| - i, 2
  {
    match Pipeline(s, i)
    case Err(x) => Err(x)
    case Ok(c, p) =>
      var (d, q) := Backs(s, c, p);
      if !At(s, q, ';') then Ok(d, q)
      else
        match Line(s, Skip(s, q + 1))
        case Err(x) => Err(x)
        case Ok(e, r) => Ok(List(d, e), r)
  }

  /** parsecmd, before the tokens are terminated */
  function Parse(s: string): (r: Result<Cmd>) {
    match Line(s, 0)
    case Err(x) => Err(x)
    case Ok(c, p) => if p == |s| then Ok(c, p) else Err(Leftovers)
  }

  // ------------------------------------------------- what a parse can return

  /** Every argument and file is a maximal run of word characters, and no command has
      more than nine arguments. */
  predicate TokensOk(s: string, c: Cmd) {
    match c
    case Exec(args) => |args| < MAXARGS && forall i :: 0 <= i < |args| ==> IsToken(s, args[i])
    case Redir(d, file, _) => TokensOk(s, d) && IsToken(s, file)
    case Pipe(l, r) => TokensOk(s, l) && TokensOk(s, r)
    case List(l, r) => TokensOk(s, l) && TokensOk(s, r)
    case Back(d) => TokensOk(s, d)
  }

  predicate FilesOk(s: string, rs: seq<Redirection>) { forall i :: 0 <= i < |rs| ==> IsToken(s, rs[i].file) }

  lemma {:induction false} RedirsOk(s: string, i: nat)
    requires Settled(s, i) && Redirs(s, i).Ok?
    ensures FilesOk(s, Redirs(s, i).value)
    decreases |s| - i
  {
    if At(s, i, '<') || At(s, i, '>') {
      var j := Skip(s, if At(s, i, '>') && At(s, i + 1, '>') then i + 2 else i + 1);
      WordIsToken(s, j);
      RedirsOk(s, Skip(s, WordEnd(s, j)));
    }
  }

  lemma {:induction false} WrapOk(s: string, c: Cmd, rs: seq<Redirection>, k: nat)
    requires TokensOk(s, c) && FilesOk(s, rs) && k <= |rs|
    ensures TokensOk(s, Wrap(c, rs, k))
  {
    if k > 0 { WrapOk(s, c, rs, k - 1); }
  }

  lemma {:induction false} ArgsOk(s: string, i: nat, args: seq<Token>, rs: seq<Redirection>)
    requires Settled(s, i) && |args| < MAXARGS && FilesOk(s, rs) && Args(s, i, args, rs).Ok?
    requires forall k :: 0 <= k < |args| ==> IsToken(s, args[k])
    ensures TokensOk(s, Args(s, i, args, rs).value)
    decreases |s| - i
  {
    if i == |s| || At(s, i, '|') || At(s, i, ')') || At(s, i, '&') || At(s, i, ';') {
      WrapOk(s, Exec(args), rs, |rs|);
    } else {
      var e := WordEnd(s, i);
      var q := Skip(s, e);
      WordIsToken(s, i);
      RedirsOk(s, q);
      ArgsOk(s, Redirs(s, q).pos, args + [Token(i, e)], rs + Redirs(s, q).value);
    }
  }

  lemma {:induction false} SimpleOk(s: string, i: nat)
    requires i <= |s| && Simple(s, i).Ok?
    ensures TokensOk(s, Simple(s, i).value)
    decreases |s| - i, 0
  {
    var j := Skip(s, i);
    if At(s, j, '(') {
      var inner := Line(s, Skip(s, j + 1));
      LineOk(s, Skip(s, j + 1));
      var rs := Redirs(s, Skip(s, inner.pos + 1));
      RedirsOk(s, Skip(s, inner.pos + 1));
      WrapOk(s, inner.value, rs.value, |rs.value|);
    } else {
      RedirsOk(s, j);
      ArgsOk(s, Redirs(s, j).pos, [], Redirs(s, j).value);
    }
  }

  lemma {:induction false} PipelineOk(s: string, i: nat)
    requires i <= |s| && Pipeline(s, i).Ok?
    ensures TokensOk(s, Pipeline(s, i).value)
    decreases |s| - i, 1
  {
    SimpleOk(s, i);
    var p := Simple(s, i).pos;
    if At(s, p, '|') { PipelineOk(s, Skip(s, p + 1)); }
  }

  lemma {:induction false} BacksOk(s: string, c: Cmd, i: nat)
    requires Settled(s, i) && TokensOk(s, c)
    ensures TokensOk(s, Backs(s, c, i).0)
    decreases |s| - i
  {
    if At(s, i, '&') { BacksOk(s, Back(c), Skip(s, i + 1)); }
  }

  lemma {:induction false} LineOk(s: string, i: nat)
    requires i <= |s| && Line(s, i).Ok?
    ensures TokensOk(s, Line(s, i).value)
    decreases |s| - i, 2
  {
    PipelineOk(s, i);
    var r := Pipeline(s, i);
    BacksOk(s, r.value, r.pos);
    var q := Backs(s, r.value, r.pos).1;
    if At(s, q, ';') { LineOk(s, Skip(s, q + 1)); }
  }
}
