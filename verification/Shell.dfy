/** The shell's parser as it runs (sh.c): a cursor over the input buffer, moved by
    mutually recursive routines, and then NULs written into that same buffer. */
module Shell {
  import opened ShellGrammar
  import RT = ShellRoundTrip

  const NUL: char := 0 as char

  predicate NulFree(s: string) { forall k :: 0 <= k < |s| ==> s[k] != NUL }

  /** What parseredirs returns after it has already collected rs. */
  function Prepend(rs: seq<Redirection>, r: Result<seq<Redirection>>): (x: Result<seq<Redirection>>) {
    if r.Ok? then Ok(rs + r.value, r.pos) else r
  }

  lemma PrependAll(rs: seq<Redirection>, x: Redirection, r: Result<seq<Redirection>>)
    ensures Prepend(rs, Prepend([x], r)) == Prepend(rs + [x], r)
  {
    if r.Ok? { assert rs + ([x] + r.value) == rs + [x] + r.value; }
  }

  lemma PrependNone(r: Result<seq<Redirection>>)
    ensures Prepend([], r) == r
  {
    if r.Ok? { assert [] + r.value == r.value; }
  }

  lemma SimpleSkips(s: string, i: nat)
    requires i <= |s|
    ensures Simple(s, i) == Simple(s, Skip(s, i))
  {
    assert Skip(s, Skip(s, i)) == Skip(s, i);
  }

  // --------------------------------------------------------- NUL termination

  /** nulterminate(c) writes a NUL at position k. */
  predicate Terminates(c: Cmd, k: nat) {
    match c
    case Exec(args) => exists i :: 0 <= i < |args| && args[i].e == k
    case Redir(d, file, _) => Terminates(d, k) || file.e == k
    case Pipe(l, r) => Terminates(l, k) || Terminates(r, k)
    case List(l, r) => Terminates(l, k) || Terminates(r, k)
    case Back(d) => Terminates(d, k)
  }

  function Nulled(b: string, c: Cmd): (r: string)
    ensures |r| == |b|
  {
    seq(|b|, k requires 0 <= k < |b| => if Terminates(c, k) then NUL else b[k])
  }

  /** t is an argument or a redirection file of c. */
  predicate TokenOf(c: Cmd, t: Token) {
    match c
    case Exec(args) => t in args
    case Redir(d, file, _) => TokenOf(d, t) || file == t
    case Pipe(l, r) => TokenOf(l, t) || TokenOf(r, t)
    case List(l, r) => TokenOf(l, t) || TokenOf(r, t)
    case Back(d) => TokenOf(d, t)
  }

  /** The C string at position i. */
  function CString(b: string, i: nat): (r: string)
    decreases |b| - i
  {
    if i < |b| && b[i] != NUL then [b[i]] + CString(b, i + 1) else []
  }

  lemma {:induction false} TokenIsToken(s: string, c: Cmd, t: Token)
    requires TokensOk(s, c) && TokenOf(c, t)
    ensures IsToken(s, t) && Terminates(c, t.e)
  {
    match c
    case Exec(args) =>
      var i :| 0 <= i < |args| && args[i] == t;
    case Redir(d, file, _) => if TokenOf(d, t) { TokenIsToken(s, d, t); }
    case Pipe(l, r) => if TokenOf(l, t) { TokenIsToken(s, l, t); } else { TokenIsToken(s, r, t); }
    case List(l, r) => if TokenOf(l, t) { TokenIsToken(s, l, t); } else { TokenIsToken(s, r, t); }
    case Back(d) => TokenIsToken(s, d, t);
  }

  /** A NUL goes only where no word character stands. */
  lemma {:induction false} TerminatorOutside(s: string, c: Cmd, k: nat)
    requires TokensOk(s, c) && Terminates(c, k)
    ensures k <= |s| && (k < |s| ==> !IsWord(s[k]))
  {
    match c
    case Exec(args) =>
      var i :| 0 <= i < |args| && args[i].e == k;
      assert IsToken(s, args[i]);
    case Redir(d, file, _) => if Terminates(d, k) { TerminatorOutside(s, d, k); }
    case Pipe(l, r) => if Terminates(l, k) { TerminatorOutside(s, l, k); } else { TerminatorOutside(s, r, k); }
    case List(l, r) => if Terminates(l, k) { TerminatorOutside(s, l, k); } else { TerminatorOutside(s, r, k); }
    case Back(d) => TerminatorOutside(s, d, k);
  }

  lemma {:induction false} CStringIs(b: string, i: nat, e: nat)
    requires i <= e < |b| && b[e] == NUL && forall k :: i <= k < e ==> b[k] != NUL
    ensures CString(b, i) == b[i..e]
    decreases e - i
  {
    if i < e { CStringIs(b, i + 1, e); }
  }

  /** After nulterminate every argument and file, read as a C string, is exactly the
      text the lexer cut out. */
  lemma Faithful(s: string, c: Cmd, t: Token)
    requires NulFree(s) && TokensOk(s, c) && TokenOf(c, t)
    ensures t.b < t.e <= |s| && CString(Nulled(s + [NUL], c), t.b) == s[t.b..t.e]
  {
    TokenIsToken(s, c, t);
    var b := Nulled(s + [NUL], c);
    forall k | t.b <= k < t.e ensures b[k] == s[k] {
      if Terminates(c, k) { TerminatorOutside(s, c, k); }
    }
    CStringIs(b, t.b, t.e);
    assert b[t.b..t.e] == s[t.b..t.e];
  }

  lemma NulledTwice(b: string, c: Cmd, l: Cmd, r: Cmd)
    requires c == Pipe(l, r) || c == List(l, r)
    ensures Nulled(Nulled(b, l), r) == Nulled(b, c)
  {
  }

  class Parser {
    const buf: array<char>
    const n: nat
    var pos: nat
    ghost const text: string

    /** While parsing, the buffer holds the line and its terminating NUL. */
    ghost predicate Valid()
      reads this, buf
    {
      buf.Length == n + 1 && buf[n] == NUL && NulFree(text) && |text| == n && buf[..n] == text && pos <= n
    }

    constructor (line: string)
      requires NulFree(line)
      ensures Valid() && fresh(buf) && text == line && pos == 0
    {
      var b := new char[|line| + 1](i requires 0 <= i <= |line| => if i < |line| then line[i] else NUL);
      buf, n, pos, text := b, |line|, 0, line;
      new;
      assert buf[..n] == line;
    }

    method SkipSpace()
      requires Valid()
      modifies this`pos
      ensures Valid() && pos == Skip(text, old(pos))
    {
      while pos < n && IsSpace(buf[pos])
        invariant pos <= n && Skip(text, pos) == Skip(text, old(pos))
        decreases n - pos
      {
        pos := pos + 1;
      }
    }

    method Peek(toks: string) returns (found: bool)
      requires Valid() && NUL !in toks
      modifies this`pos
      ensures Valid() && pos == Skip(text, old(pos))
      ensures found <==> pos < n && text[pos] in toks
    {
      SkipSpace();
      found := buf[pos] != NUL && buf[pos] in toks;
    }

    /** The token's kind is a symbol, 'a' for a word, '+' for >>, or NUL at the end. */
    method GetToken() returns (tok: char, q: nat, eq: nat)
      requires Valid()
      modifies this`pos
      ensures Valid() && q == Skip(text, old(pos)) && q <= eq <= n && pos == Skip(text, eq)
      ensures q == n ==> tok == NUL && eq == q
      ensures q < n && IsSymbol(text[q]) ==>
        if At(text, q, '>') && At(text, q + 1, '>') then tok == '+' && eq == q + 2 else tok == text[q] && eq == q + 1
      ensures WordAt(text, q) ==> tok == 'a' && eq == WordEnd(text, q)
    {
      SkipSpace();
      q := pos;
      tok := buf[pos];
      if tok == NUL {
      } else if tok == '|' || tok == '(' || tok == ')' || tok == ';' || tok == '&' || tok == '<' {
        pos := pos + 1;
      } else if tok == '>' {
        pos := pos + 1;
        if buf[pos] == '>' {
          tok := '+';
          pos := pos + 1;
        }
      } else {
        tok := 'a';
        while pos < n && !IsSpace(buf[pos]) && !IsSymbol(buf[pos])
          invariant q <= pos <= n && WordEnd(text, pos) == WordEnd(text, q)
          decreases n - pos
        {
          pos := pos + 1;
        }
      }
      eq := pos;
      SkipSpace();
    }

    /** One redirection, at an operator. */
    method OneRedir() returns (file: Token, out: bool, ok: bool)
      requires Valid() && (At(text, pos, '<') || At(text, pos, '>'))
      modifies this`pos
      ensures Valid() && Settled(text, pos) && old(pos) < pos
      ensures !ok ==> Redirs(text, old(pos)) == Err(MissingFile)
      ensures ok ==> Redirs(text, old(pos)) == Prepend([Redirection(file, out)], Redirs(text, pos))
    {
      var tok, _, _ := GetToken();
      out := tok != '<';
      var kind, q, eq := GetToken();
      file := Token(q, eq);
      ok := kind == 'a';
    }

    /** parseredirs, returning the redirections in order. */
    method ParseRedirs() returns (r: Result<seq<Redirection>>)
      requires Valid()
      modifies this`pos
      ensures Valid() && r == Redirs(text, Skip(text, old(pos))) && (r.Ok? ==> pos == r.pos)
    {
      var rs: seq<Redirection> := [];
      ghost var all := Redirs(text, Skip(text, pos));
      var more := Peek("<>");
      PrependNone(all);
      while more
        invariant Valid() && Settled(text, pos) && (more <==> At(text, pos, '<') || At(text, pos, '>'))
        invariant all == Prepend(rs, Redirs(text, pos))
        decreases n - pos, more
      {
        var file, out, ok := OneRedir();
        if !ok {
          return Err(MissingFile);
        }
        PrependAll(rs, Redirection(file, out), Redirs(text, pos));
        rs := rs + [Redirection(file, out)];
        ghost var q := pos;
        more := Peek("<>");
        assert pos == q;
      }
      assert rs + [] == rs;
      return Ok(rs, pos);
    }
  
    /** One round of parseexec's loop, at a token that is none of | ) & ; and not the
        end of the input. */
    method OneArg(args: seq<Token>, rs: seq<Redirection>) returns (r: Result<(seq<Token>, seq<Redirection>)>)
      requires Valid() && Settled(text, pos) && pos < n && |args| < MAXARGS
      requires !At(text, pos, '|') && !At(text, pos, ')') && !At(text, pos, '&') && !At(text, pos, ';')
      requires !At(text, pos, '<') && !At(text, pos, '>')
      modifies this`pos
      ensures Valid()
      ensures r.Err? ==> Args(text, old(pos), args, rs) == Err(r.error)
      ensures r.Ok? ==>
        && Settled(text, pos) && old(pos) < pos && |r.value.0| < MAXARGS && !At(text, pos, '<') && !At(text, pos, '>')
        && Args(text, old(pos), args, rs) == Args(text, pos, r.value.0, r.value.1)
    {
      var tok, q, eq := GetToken();
      if tok != 'a' {
        return Err(Syntax);
      }
      if |args| + 1 >= MAXARGS {
        return Err(TooManyArgs);
      }
      ghost var p := pos;
      var more := ParseRedirs();
      assert Skip(text, p) == p;
      if more.Err? {
        return Err(more.error);
      }
      return Ok((args + [Token(q, eq)], rs + more.value), pos);
    }

    method ParseArgs(first: seq<Redirection>) returns (r: Result<Cmd>)
      requires Valid() && Settled(text, pos) && !At(text, pos, '<') && !At(text, pos, '>')
      modifies this`pos
      ensures Valid() && r == Args(text, old(pos), [], first) && (r.Ok? ==> pos == r.pos)
    {
      var args: seq<Token>, rs := [], first;
      ghost var all := Args(text, pos, [], first);
      var stop := Peek("|)&;");
      while !stop
        invariant Valid() && Settled(text, pos) && |args| < MAXARGS && !At(text, pos, '<') && !At(text, pos, '>')
        invariant stop <==> At(text, pos, '|') || At(text, pos, ')') || At(text, pos, '&') || At(text, pos, ';')
        invariant all == Args(text, pos, args, rs)
        decreases n - pos, !stop
      {
        if pos == n {
          break;
        }
        var one := OneArg(args, rs);
        if one.Err? {
          return Err(one.error);
        }
        args, rs := one.value.0, one.value.1;
        ghost var q := pos;
        stop := Peek("|)&;");
        assert pos == q;
      }
      return Ok(WrapAll(Exec(args), rs), pos);
    }

    /** peek for one symbol, and gettoken past it if it is there. */
    method Accept(c: char) returns (found: bool)
      requires Valid() && IsSymbol(c) && c != '>'
      modifies this`pos
      ensures Valid() && Settled(text, pos)
      ensures var j := Skip(text, old(pos)); found == At(text, j, c) && pos == if found then Skip(text, j + 1) else j
    {
      found := Peek([c]);
      if found {
        ghost var j := pos;
        assert Skip(text, j) == j;
        var _, _, _ := GetToken();
      }
    }

    /** The end of parseblock. */
    method CloseBlock(cmd: Cmd) returns (r: Result<Cmd>)
      requires Valid() && Settled(text, pos)
      modifies this`pos
      ensures Valid() && r == BlockEnd(text, cmd, old(pos)) && (r.Ok? ==> pos == r.pos)
    {
      ghost var p := pos;
      assert Skip(text, p) == p;
      var close := Accept(')');
      if !close {
        return Err(MissingParen);
      }
      assert Skip(text, pos) == pos;
      var rs := ParseRedirs();
      if rs.Err? {
        return Err(rs.error);
      }
      return Ok(WrapAll(cmd, rs.value), pos);
    }

    method ParseBlock() returns (r: Result<Cmd>)
      requires Valid() && At(text, pos, '(')
      modifies this`pos
      ensures Valid() && r == Simple(text, old(pos)) && (r.Ok? ==> pos == r.pos)
      decreases n - pos, 0
    {
      assert Skip(text, pos) == pos;
      var open := Accept('(');
      r := ParseLine();
      if r.Ok? {
        r := CloseBlock(r.value);
      }
    }

    method ParseExec() returns (r: Result<Cmd>)
      requires Valid()
      modifies this`pos
      ensures Valid() && r == Simple(text, old(pos)) && (r.Ok? ==> pos == r.pos)
      decreases n - pos, 1
    {
      var block := Peek("(");
      ghost var j := pos;
      assert Skip(text, j) == j;
      if block {
        SimpleSkips(text, old(pos));
        r := ParseBlock();
        return;
      }
      var rs := ParseRedirs();
      if rs.Err? {
        return Err(rs.error);
      }
      r := ParseArgs(rs.value);
    }

    method ParsePipe() returns (r: Result<Cmd>)
      requires Valid()
      modifies this`pos
      ensures Valid() && r == Pipeline(text, old(pos)) && (r.Ok? ==> pos == r.pos)
      decreases n - pos, 2
    {
      r := ParseExec();
      if r.Err? {
        return;
      }
      ghost var p := pos;
      assert Skip(text, p) == p;
      var more := Accept('|');
      if more {
        var right := ParsePipe();
        if right.Err? {
          return right;
        }
        r := Ok(Pipe(r.value, right.value), pos);
      }
    }

    /** The & loop of parseline. */
    method ParseBacks(first: Cmd) returns (cmd: Cmd)
      requires Valid() && Settled(text, pos)
      modifies this`pos
      ensures Valid() && (cmd, pos) == Backs(text, first, old(pos))
    {
      cmd := first;
      ghost var all, p := Backs(text, first, pos), pos;
      assert Skip(text, p) == p;
      var more := Accept('&');
      while more
        invariant Valid() && Settled(text, pos) && p <= pos && (more ==> p < pos)
        invariant all == Backs(text, if more then Back(cmd) else cmd, pos) && (!more ==> !At(text, pos, '&'))
        decreases n - pos, more
      {
        cmd := Back(cmd);
        p := pos;
        assert Skip(text, p) == p;
        more := Accept('&');
      }
    }

    method ParseLine() returns (r: Result<Cmd>)
      requires Valid()
      modifies this`pos
      ensures Valid() && r == Line(text, old(pos)) && (r.Ok? ==> pos == r.pos)
      decreases n - pos, 3
    {
      r := ParsePipe();
      if r.Err? {
        return;
      }
      var cmd := ParseBacks(r.value);
      ghost var q := pos;
      assert Skip(text, q) == q;
      var list := Accept(';');
      if list {
        var right := ParseLine();
        if right.Err? {
          return right;
        }
        return Ok(List(cmd, right.value), pos);
      }
      return Ok(cmd, pos);
    }
  
    method NulTerminate(c: Cmd)
      requires buf.Length == n + 1 && |text| == n && TokensOk(text, c)
      modifies buf
      ensures buf[..] == Nulled(old(buf[..]), c)
      decreases c
    {
      match c
      case Exec(args) =>
        var i := 0;
        while i < |args|
          invariant 0 <= i <= |args|
          invariant forall k :: 0 <= k <= n ==>
            buf[k] == if exists j :: 0 <= j < i && args[j].e == k then NUL else old(buf[k])
        {
          assert IsToken(text, args[i]);
          buf[args[i].e] := NUL;
          i := i + 1;
        }
      case Redir(d, file, _) =>
        NulTerminate(d);
        buf[file.e] := NUL;
      case Pipe(l, r) =>
        NulTerminate(l);
        NulTerminate(r);
        NulledTwice(old(buf[..]), c, l, r);
      case List(l, r) =>
        NulTerminate(l);
        NulTerminate(r);
        NulledTwice(old(buf[..]), c, l, r);
      case Back(d) =>
        NulTerminate(d);
    }

    /** parsecmd: the parse of the whole line, with every token of the result left in
        the buffer as a C string equal to its text. */
    method ParseCmd() returns (r: Result<Cmd>)
      requires Valid() && pos == 0
      modifies this`pos, buf
      ensures r == Parse(text)
      ensures r.Ok? ==> forall t :: TokenOf(r.value, t) ==> t.e <= |text| && CString(buf[..], t.b) == RT.Slice(text, t)
    {
      r := ParseLine();
      if r.Err? {
        return;
      }
      ghost var p := pos;
      assert Skip(text, p) == p;
      var _ := Peek("");
      if pos != n {
        return Err(Leftovers);
      }
      LineOk(text, 0);
      assert buf[..] == text + [NUL];
      NulTerminate(r.value);
      forall t | TokenOf(r.value, t) ensures t.e <= |text| && CString(buf[..], t.b) == RT.Slice(text, t) {
        Faithful(text, r.value, t);
      }
    }
  }
}
