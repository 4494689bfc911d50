/** Printing a command with only the parentheses it needs and parsing it again (sh.c):
    | binds tighter than &, and & tighter than ;, both | and ; group to the right, and
    redirections belong to the nearest command. */
module ShellPrecedence {
  import opened ShellGrammar
  import opened ShellRoundTrip

  function Sign(out: bool): (c: char) { if out then '>' else '<' }

  /** A command that parseexec returns: words, or anything in parentheses, with
      redirections after it. */
  function Atom(t: Tree): (r: string)
    decreases t, 0
  {
    match t
    case ExecT(words) => Joined(words, 0)
    case RedirT(c, file, out) => Atom(c) + [Sign(out)] + file
    case PipeT(l, r) => "(" + (Atom(l) + "|" + Piped(r)) + ")"
    case ListT(l, r) => "(" + (Backed(l) + ";" + Listed(r)) + ")"
    case BackT(c) => "(" + (Backed(c) + "&") + ")"
  }

  function Piped(t: Tree): (r: string)
    decreases t, 1
  {
    if t.PipeT? then Atom(t.left) + "|" + Piped(t.right) else Atom(t)
  }

  function Backed(t: Tree): (r: string)
    decreases t, 2
  {
    if t.BackT? then Backed(t.cmd) + "&" else Piped(t)
  }

  function Listed(t: Tree): (r: string)
    decreases t, 3
  {
    if t.ListT? then Backed(t.left) + ";" + Listed(t.right) else Backed(t)
  }

  // ------------------------------------------------------------- redirections

  datatype RedirText = RedirText(file: string, out: bool)

  /** The command under its redirections, and the redirections, innermost first. */
  function Base(t: Tree): (r: Tree) { if t.RedirT? then Base(t.cmd) else t }

  function Rs(t: Tree): (r: seq<RedirText>) { if t.RedirT? then Rs(t.cmd) + [RedirText(t.file, t.out)] else [] }

  /** rs[k..] printed */
  function RedirsFrom(rs: seq<RedirText>, k: nat): (r: string)
    requires k <= |rs|
    decreases |rs| - k
  {
    if k == |rs| then [] else [Sign(rs[k].out)] + rs[k].file + RedirsFrom(rs, k + 1)
  }

  function WrapText(t: Tree, rs: seq<RedirText>, k: nat): (r: Tree)
    requires k <= |rs|
  {
    if k == 0 then t else RedirT(WrapText(t, rs, k - 1), rs[k - 1].file, rs[k - 1].out)
  }

  lemma {:induction false} RedirsSnoc(rs: seq<RedirText>, x: RedirText, k: nat)
    requires k <= |rs|
    ensures RedirsFrom(rs + [x], k) == RedirsFrom(rs, k) + ([Sign(x.out)] + x.file)
    decreases |rs| - k
  {
    var all := rs + [x];
    if k == |rs| {
      assert RedirsFrom(all, k + 1) == [];
      assert RedirsFrom(all, k) == [Sign(x.out)] + x.file;
    } else {
      RedirsSnoc(rs, x, k + 1);
      assert all[k] == rs[k];
    }
  }

  lemma {:induction false} WrapTextPrefix(t: Tree, rs: seq<RedirText>, x: RedirText, k: nat)
    requires k <= |rs|
    ensures WrapText(t, rs + [x], k) == WrapText(t, rs, k)
  {
    if k > 0 { WrapTextPrefix(t, rs, x, k - 1); }
  }

  /** A tree is its base wrapped in its redirections, and prints so. */
  lemma {:induction false} Unwrap(t: Tree)
    ensures t == WrapText(Base(t), Rs(t), |Rs(t)|) && !Base(t).RedirT? && Atom(t) == Atom(Base(t)) + RedirsFrom(Rs(t), 0)
  {
    if t.RedirT? {
      Unwrap(t.cmd);
      var rs, x := Rs(t.cmd), RedirText(t.file, t.out);
      WrapTextPrefix(Base(t), rs, x, |rs|);
      RedirsSnoc(rs, x, 0);
      var a, b, c := Atom(Base(t)), RedirsFrom(rs, 0), [Sign(t.out)] + t.file;
      assert (a + b) + c == a + (b + c);
      assert Atom(t) == Atom(t.cmd) + c;
    } else {
      assert Atom(t) == Atom(t) + [];
    }
  }

  lemma {:induction false} UnwrapProducible(t: Tree)
    requires Producible(t)
    ensures Producible(Base(t)) && forall i :: 0 <= i < |Rs(t)| ==> IsWordText(Rs(t)[i].file)
  {
    if t.RedirT? { UnwrapProducible(t.cmd); }
  }

  lemma CharReads(s: string, i: nat, u: string, x: char, v: string, all: string)
    requires all == u + [x] + v && Reads(s, i, all)
    ensures Reads(s, i, u) && At(s, i + |u|, x) && Reads(s, i + |u| + 1, v) && |all| == |u| + 1 + |v|
  {
    ReadsSplit(s, i, u + [x], v, all);
    ReadsSplit(s, i, u, [x], u + [x]);
    assert [x][0] == x;
  }

  /** What may follow a command printed by Atom. */
  predicate Ends(s: string, p: nat) { p == |s| || At(s, p, ')') || At(s, p, '|') || At(s, p, '&') || At(s, p, ';') }

  predicate AllWords(words: seq<string>) { forall k :: 0 <= k < |words| ==> IsWordText(words[k]) }

  predicate AllFiles(rs: seq<RedirText>) { forall j :: 0 <= j < |rs| ==> IsWordText(rs[j].file) }

  // ------------------------------------------------------ reading redirections

  /** The tokens of rs[k..] as parseredirs finds them. */
  ghost predicate FilesAre(s: string, found: seq<Redirection>, rs: seq<RedirText>, k: nat) {
    && k <= |rs| && |found| == |rs| - k
    && forall i :: 0 <= i < |found| ==> Slice(s, found[i].file) == rs[k + i].file && found[i].out == rs[k + i].out
  }

  ghost predicate RedirsGive(s: string, r: Result<seq<Redirection>>, rs: seq<RedirText>, k: nat, p: nat) {
    r.Ok? && r.pos == p && FilesAre(s, r.value, rs, k)
  }

  /** Redirections stand at i and end the command at p. */
  ghost predicate RedirsAt(s: string, i: nat, rs: seq<RedirText>, k: nat, p: nat)
    requires k <= |rs|
  {
    Reads(s, i, RedirsFrom(rs, k)) && p == i + |RedirsFrom(rs, k)| && Ends(s, p)
  }

  lemma RedirsText(rs: seq<RedirText>, k: nat)
    requires k < |rs|
    ensures RedirsFrom(rs, k) == [] + [Sign(rs[k].out)] + (rs[k].file + RedirsFrom(rs, k + 1))
  {
  }

  /** Printed redirections start with an operator, and what follows a word ends it. */
  lemma RedirsStart(s: string, e: nat, rs: seq<RedirText>, k: nat, p: nat)
    requires k <= |rs| && RedirsAt(s, e, rs, k, p)
    ensures Settled(s, e) && (e < |s| ==> !IsWord(s[e])) && (k < |rs| ==> At(s, e, Sign(rs[k].out))) && (k == |rs| ==> e == p)
  {
    if k < |rs| {
      RedirsText(rs, k);
      CharReads(s, e, [], Sign(rs[k].out), rs[k].file + RedirsFrom(rs, k + 1), RedirsFrom(rs, k));
    }
  }

  lemma RedirsNext(s: string, i: nat, rs: seq<RedirText>, k: nat, p: nat)
    requires k < |rs| && RedirsAt(s, i, rs, k, p)
    ensures At(s, i, Sign(rs[k].out)) && Reads(s, i + 1, rs[k].file) && RedirsAt(s, i + 1 + |rs[k].file|, rs, k + 1, p)
  {
    var f, rest := rs[k].file, RedirsFrom(rs, k + 1);
    RedirsText(rs, k);
    CharReads(s, i, [], Sign(rs[k].out), f + rest, RedirsFrom(rs, k));
    ReadsSplit(s, i + 1, f, rest, f + rest);
  }

  lemma RedirHead(s: string, i: nat, rs: seq<RedirText>, k: nat, p: nat)
    requires k < |rs| && IsWordText(rs[k].file) && RedirsAt(s, i, rs, k, p)
    ensures var e := i + 1 + |rs[k].file|;
      && At(s, i, Sign(rs[k].out)) && WordAt(s, i + 1) && WordEnd(s, i + 1) == e
      && Slice(s, Token(i + 1, e)) == rs[k].file && RedirsAt(s, e, rs, k + 1, p)
  {
    RedirsNext(s, i, rs, k, p);
    RedirsStart(s, i + 1 + |rs[k].file|, rs, k + 1, p);
    WordReads(s, i + 1, rs[k].file);
  }

  lemma RedirsCons(s: string, i: nat, e: nat)
    requires (At(s, i, '<') || At(s, i, '>')) && WordAt(s, i + 1) && WordEnd(s, i + 1) == e && Settled(s, e) && Redirs(s, e).Ok?
    ensures Redirs(s, i) == Ok([Redirection(Token(i + 1, e), At(s, i, '>'))] + Redirs(s, e).value, Redirs(s, e).pos)
  {
    assert Skip(s, i + 1) == i + 1 && Skip(s, e) == e;
  }

  lemma FilesCons(s: string, x: Redirection, found: seq<Redirection>, rs: seq<RedirText>, k: nat)
    requires k < |rs| && FilesAre(s, found, rs, k + 1) && Slice(s, x.file) == rs[k].file && x.out == rs[k].out
    ensures FilesAre(s, [x] + found, rs, k)
  {
    forall i | 0 <= i < |found| + 1 ensures var y := ([x] + found)[i]; Slice(s, y.file) == rs[k + i].file && y.out == rs[k + i].out {
      if i > 0 { assert ([x] + found)[i] == found[i - 1]; }
    }
  }

  lemma {:induction false} RedirsRead(s: string, i: nat, rs: seq<RedirText>, k: nat, p: nat)
    requires k <= |rs| && AllFiles(rs) && RedirsAt(s, i, rs, k, p)
    ensures Settled(s, i) && RedirsGive(s, Redirs(s, i), rs, k, p)
    decreases |rs| - k
  {
    RedirsStart(s, i, rs, k, p);
    if k < |rs| {
      assert IsWordText(rs[k].file);
      RedirHead(s, i, rs, k, p);
      var e := i + 1 + |rs[k].file|;
      RedirsRead(s, e, rs, k + 1, p);
      RedirsCons(s, i, e);
      FilesCons(s, Redirection(Token(i + 1, e), At(s, i, '>')), Redirs(s, e).value, rs, k);
    }
  }

  lemma {:induction false} TextWrap(s: string, c: Cmd, found: seq<Redirection>, rs: seq<RedirText>, k: nat)
    requires FilesAre(s, found, rs, 0) && k <= |rs|
    ensures Text(s, Wrap(c, found, k)) == WrapText(Text(s, c), rs, k)
  {
    if k > 0 { TextWrap(s, c, found, rs, k - 1); }
  }

  // ------------------------------------------------------------ reading words

  /** words[k..] and then redirections, printed. */
  function Tail(words: seq<string>, k: nat, rs: seq<RedirText>): (r: string)
    requires k < |words|
    decreases |words| - k
  {
    if k + 1 == |words| then words[k] + RedirsFrom(rs, 0) else words[k] + [' '] + Tail(words, k + 1, rs)
  }

  lemma {:induction false} TailIs(words: seq<string>, k: nat, rs: seq<RedirText>)
    requires k < |words|
    ensures Tail(words, k, rs) == Joined(words, k) + RedirsFrom(rs, 0)
    decreases |words| - k
  {
    if k + 1 < |words| {
      TailIs(words, k + 1, rs);
      var w, j, t := words[k], Joined(words, k + 1), RedirsFrom(rs, 0);
      assert (w + " " + j) + t == w + [' '] + (j + t);
    }
  }

  /** The last word stands at i, followed by the redirections. */
  lemma LastWord(s: string, i: nat, w: string, rs: seq<RedirText>, all: string, p: nat)
    requires IsWordText(w) && all == w + RedirsFrom(rs, 0) && Reads(s, i, all) && p == i + |all| && Ends(s, p)
    ensures var e := i + |w|;
      WordAt(s, i) && WordEnd(s, i) == e && Slice(s, Token(i, e)) == w && RedirsAt(s, e, rs, 0, p)
  {
    ReadsSplit(s, i, w, RedirsFrom(rs, 0), all);
    RedirsStart(s, i + |w|, rs, 0, p);
    WordReads(s, i, w);
  }

  /** A word stands at i, followed by a blank and more. */
  lemma BlankWord(s: string, i: nat, w: string, rest: string, all: string)
    requires IsWordText(w) && all == w + [' '] + rest && Reads(s, i, all)
    ensures var e := i + |w|;
      && WordAt(s, i) && WordEnd(s, i) == e && Slice(s, Token(i, e)) == w && At(s, e, ' ')
      && Reads(s, e + 1, rest) && i + |all| == e + 1 + |rest|
  {
    CharReads(s, i, w, ' ', rest, all);
    WordReads(s, i, w);
  }

  lemma ArgsLast(s: string, i: nat, args: seq<Token>, e: nat, found: seq<Redirection>, p: nat)
    requires WordAt(s, i) && |args| + 1 < MAXARGS && e == WordEnd(s, i) && Settled(s, e) && Redirs(s, e) == Ok(found, p) && Ends(s, p)
    ensures Args(s, i, args, []) == Ok(WrapAll(Exec(args + [Token(i, e)]), found), p)
  {
    assert Skip(s, e) == e;
    assert [] + found == found;
  }

  lemma ArgsNext(s: string, i: nat, args: seq<Token>, e: nat)
    requires WordAt(s, i) && |args| + 1 < MAXARGS && e == WordEnd(s, i) && At(s, e, ' ') && WordAt(s, e + 1)
    ensures Args(s, i, args, []) == Args(s, e + 1, args + [Token(i, e)], [])
  {
    assert Skip(s, e + 1) == e + 1;
    assert Skip(s, e) == e + 1;
    ArgsStep(s, i, args, e, e + 1, args + [Token(i, e)]);
  }

  lemma TextsMore(s: string, args: seq<Token>, words: seq<string>, k: nat, t: Token)
    requires TextsAre(s, args, words, k) && k < |words| && Slice(s, t) == words[k]
    ensures TextsAre(s, args + [t], words, k + 1)
  {
  }

  lemma LastGives(s: string, i: nat, words: seq<string>, args: seq<Token>, e: nat, rs: seq<RedirText>, p: nat)
    requires |words| < MAXARGS && 0 < |words| && TextsAre(s, args, words, |words| - 1)
    requires WordAt(s, i) && e == WordEnd(s, i) && Slice(s, Token(i, e)) == words[|words| - 1]
    requires Settled(s, e) && RedirsGive(s, Redirs(s, e), rs, 0, p) && Ends(s, p)
    ensures Gives(s, Args(s, i, args, []), WrapText(ExecT(words), rs, |rs|), p)
  {
    var found, more := Redirs(s, e).value, args + [Token(i, e)];
    ArgsLast(s, i, args, e, found, p);
    assert Texts(s, more) == words;
    TextWrap(s, Exec(more), found, rs, |rs|);
  }

  lemma {:induction false} WordsRead(s: string, i: nat, words: seq<string>, args: seq<Token>, k: nat, rs: seq<RedirText>, p: nat)
    requires |words| < MAXARGS && TextsAre(s, args, words, k) && k < |words| && AllWords(words) && AllFiles(rs)
    requires Reads(s, i, Tail(words, k, rs)) && p == i + |Tail(words, k, rs)| && Ends(s, p)
    ensures WordAt(s, i) && Gives(s, Args(s, i, args, []), WrapText(ExecT(words), rs, |rs|), p)
    decreases |words| - k
  {
    hide Reads, Args, Redirs, Skip, Text, WrapText, RedirsFrom, TextsAre;
    assert IsWordText(words[k]);
    var e := i + |words[k]|;
    if k + 1 == |words| {
      LastWord(s, i, words[k], rs, Tail(words, k, rs), p);
      RedirsRead(s, e, rs, 0, p);
      LastGives(s, i, words, args, e, rs, p);
    } else {
      BlankWord(s, i, words[k], Tail(words, k + 1, rs), Tail(words, k, rs));
      TextsMore(s, args, words, k, Token(i, e));
      WordsRead(s, e + 1, words, args + [Token(i, e)], k + 1, rs, p);
      ArgsNext(s, i, args, e);
    }
  }

  // -------------------------------------------------------------------- atoms

  lemma SimplePlain(s: string, i: nat)
    requires Settled(s, i) && !At(s, i, '(') && Redirs(s, i).Ok?
    ensures Simple(s, i) == Args(s, Redirs(s, i).pos, [], Redirs(s, i).value)
  {
    assert Skip(s, i) == i;
  }

  /** parseexec on words with redirections. */
  lemma WordsAtom(s: string, i: nat, words: seq<string>, rs: seq<RedirText>, p: nat)
    requires 0 < |words| < MAXARGS && AllWords(words) && AllFiles(rs)
    requires Reads(s, i, Tail(words, 0, rs)) && p == i + |Tail(words, 0, rs)| && Ends(s, p)
    ensures Settled(s, i) && Gives(s, Simple(s, i), WrapText(ExecT(words), rs, |rs|), p)
  {
    WordsRead(s, i, words, [], 0, rs, p);
    assert Redirs(s, i) == Ok([], i);
    SimplePlain(s, i);
  }

  /** parseexec on redirections alone. */
  lemma NoWordsAtom(s: string, i: nat, rs: seq<RedirText>, p: nat)
    requires AllFiles(rs) && RedirsAt(s, i, rs, 0, p)
    ensures Settled(s, i) && Gives(s, Simple(s, i), WrapText(ExecT([]), rs, |rs|), p)
  {
    RedirsStart(s, i, rs, 0, p);
    RedirsRead(s, i, rs, 0, p);
    SimplePlain(s, i);
    var found := Redirs(s, i).value;
    assert Args(s, p, [], found) == Ok(WrapAll(Exec([]), found), p);
    assert Texts(s, []) == [];
    TextWrap(s, Exec([]), found, rs, |rs|);
  }

  lemma BlockText(s: string, i: nat, u: string, rs: seq<RedirText>, all: string, p: nat)
    requires all == ['('] + u + [')'] + RedirsFrom(rs, 0) && Reads(s, i, all) && p == i + |all| && Ends(s, p)
    ensures At(s, i, '(') && Reads(s, i + 1, u) && At(s, i + 1 + |u|, ')') && RedirsAt(s, i + 2 + |u|, rs, 0, p)
  {
    var front := ['('] + u;
    CharReads(s, i, front, ')', RedirsFrom(rs, 0), all);
    ReadsSplit(s, i, ['('], u, front);
    assert s[i + 0] == ['('][0];
  }

  /** parseblock on a parenthesised line with redirections. */
  lemma BlockAtom(s: string, i: nat, p: nat, c: Cmd, t: Tree, rs: seq<RedirText>, q: nat)
    requires At(s, i, '(') && Settled(s, i + 1) && Line(s, i + 1) == Ok(c, p) && Text(s, c) == t && At(s, p, ')')
    requires Settled(s, p + 1) && RedirsGive(s, Redirs(s, p + 1), rs, 0, q)
    ensures Gives(s, Simple(s, i), WrapText(t, rs, |rs|), q)
  {
    var found := Redirs(s, p + 1).value;
    SimpleBlock(s, i, c, p, found, q);
    TextWrap(s, c, found, rs, |rs|);
  }

  // -------------------------------------------------------- the whole grammar

  function Size(t: Tree): (n: nat) {
    match t
    case ExecT(_) => 1
    case RedirT(c, _, _) => 1 + Size(c)
    case PipeT(l, r) => 1 + Size(l) + Size(r)
    case ListT(l, r) => 1 + Size(l) + Size(r)
    case BackT(c) => 1 + Size(c)
  }

  lemma {:induction false} BaseSize(t: Tree)
    ensures Size(Base(t)) <= Size(t) && (t.RedirT? ==> Size(Base(t)) < Size(t))
  {
    if t.RedirT? { BaseSize(t.cmd); }
  }

  lemma AtomParens(t: Tree)
    requires !t.ExecT? && !t.RedirT?
    ensures Atom(t) == ['('] + Listed(t) + [')']
  {
    if t.PipeT? {
      assert Listed(t) == Backed(t) == Piped(t) == Atom(t.left) + "|" + Piped(t.right);
    } else if t.BackT? {
      assert Listed(t) == Backed(t) == Backed(t.cmd) + "&";
    }
  }

  /** The four lemmas below call each other on the same tree in a circle that is broken
      where the tree's own operator is handled. */
  function Rank(level: nat, t: Tree): (n: nat) {
    var start := if t.PipeT? then 1 else if t.BackT? then 2 else if t.ListT? then 3 else 0;
    (level + 4 - start) % 4
  }

  /** What may follow a pipeline, and a line without its ; part. */
  predicate EndsPiped(s: string, p: nat) { p == |s| || At(s, p, ')') || At(s, p, '&') || At(s, p, ';') }

  lemma PipelineAlone(s: string, i: nat)
    requires i <= |s| && Simple(s, i).Ok? && !At(s, Simple(s, i).pos, '|')
    ensures Pipeline(s, i) == Simple(s, i)
  {
  }

  lemma BacksStep(s: string, c: Cmd, p: nat)
    requires At(s, p, '&') && Settled(s, p + 1)
    ensures Backs(s, c, p) == Backs(s, Back(c), p + 1)
  {
    assert Skip(s, p + 1) == p + 1;
  }

  lemma LineAlone(s: string, i: nat, c0: Cmd, p0: nat, c: Cmd, p: nat)
    requires i <= |s| && Pipeline(s, i) == Ok(c0, p0) && Settled(s, p0) && Settled(s, p)
    requires Backs(s, c0, p0) == Backs(s, c, p) && Stops(s, p)
    ensures Line(s, i) == Ok(c, p)
  {
    assert Backs(s, c, p) == (c, p);
  }

  lemma LineThen(s: string, i: nat, c0: Cmd, p0: nat, c: Cmd, p: nat, d: Cmd, q: nat)
    requires i <= |s| && Pipeline(s, i) == Ok(c0, p0) && Settled(s, p0) && Settled(s, p)
    requires Backs(s, c0, p0) == Backs(s, c, p) && At(s, p, ';') && Settled(s, p + 1) && Line(s, p + 1) == Ok(d, q)
    ensures Line(s, i) == Ok(List(c, d), q)
  {
    assert Backs(s, c, p) == (c, p);
    assert Skip(s, p + 1) == p + 1;
  }

  /** How Atom(t) reads: words and redirections, or a parenthesised line and
      redirections. */
  lemma AtomText(s: string, i: nat, t: Tree, p: nat)
    requires Producible(t) && Reads(s, i, Atom(t)) && p == i + |Atom(t)| && Ends(s, p)
    ensures t == WrapText(Base(t), Rs(t), |Rs(t)|) && Producible(Base(t)) && AllFiles(Rs(t)) && !Base(t).RedirT?
    ensures Base(t).ExecT? && Base(t).words != [] ==> var w := Tail(Base(t).words, 0, Rs(t)); Reads(s, i, w) && p == i + |w|
    ensures Base(t).ExecT? && Base(t).words == [] ==> RedirsAt(s, i, Rs(t), 0, p)
    ensures !Base(t).ExecT? ==> Atom(t) == ['('] + Listed(Base(t)) + [')'] + RedirsFrom(Rs(t), 0)
  {
    var b, rs := Base(t), Rs(t);
    Unwrap(t);
    UnwrapProducible(t);
    if b.ExecT? {
      if b.words == [] { assert Atom(t) == RedirsFrom(rs, 0); } else { TailIs(b.words, 0, rs); }
    } else {
      AtomParens(b);
    }
  }

  lemma {:induction false} AtomReads(s: string, i: nat, t: Tree, p: nat)
    requires Producible(t) && Reads(s, i, Atom(t)) && p == i + |Atom(t)| && Ends(s, p)
    ensures Settled(s, i) && Gives(s, Simple(s, i), t, p)
    decreases Size(t), Rank(0, t)
  {
    var b, rs := Base(t), Rs(t);
    AtomText(s, i, t, p);
    BaseSize(t);
    if b.ExecT? {
      if b.words == [] { NoWordsAtom(s, i, rs, p); } else { WordsAtom(s, i, b.words, rs, p); }
    } else {
      BlockText(s, i, Listed(b), rs, Atom(t), p);
      var q := i + 1 + |Listed(b)|;
      ListedReads(s, i + 1, b, q);
      RedirsRead(s, q + 1, rs, 0, p);
      BlockAtom(s, i, q, Line(s, i + 1).value, b, rs, p);
    }
  }

  lemma PipedGives(s: string, i: nat, p: nat, t: Tree, q: nat)
    requires t.PipeT? && i <= |s| && Gives(s, Simple(s, i), t.left, p) && At(s, p, '|')
    requires Settled(s, p + 1) && Gives(s, Pipeline(s, p + 1), t.right, q)
    ensures Gives(s, Pipeline(s, i), t, q)
  {
    PipelineJoins(s, i, Simple(s, i).value, p, Pipeline(s, p + 1).value, q);
  }

  lemma {:induction false} PipedReads(s: string, i: nat, t: Tree, p: nat)
    requires Producible(t) && Reads(s, i, Piped(t)) && p == i + |Piped(t)| && EndsPiped(s, p)
    ensures Settled(s, i) && Gives(s, Pipeline(s, i), t, p)
    decreases Size(t), Rank(1, t)
  {
    if t.PipeT? {
      var q := i + |Atom(t.left)|;
      CharReads(s, i, Atom(t.left), '|', Piped(t.right), Piped(t));
      AtomReads(s, i, t.left, q);
      PipedReads(s, q + 1, t.right, p);
      PipedGives(s, i, q, t, p);
    } else {
      AtomReads(s, i, t, p);
      PipelineAlone(s, i);
    }
  }

  /** parseline up to p: what its & loop has made of the pipeline at i so far. */
  ghost predicate BackedGives(s: string, i: nat, c0: Cmd, p0: nat, c: Cmd, t: Tree, p: nat) {
    && i <= |s| && Pipeline(s, i) == Ok(c0, p0) && Settled(s, p0) && Settled(s, p)
    && Backs(s, c0, p0) == Backs(s, c, p) && Text(s, c) == t
  }

  lemma {:induction false} BackedReads(s: string, i: nat, t: Tree, p: nat) returns (c0: Cmd, p0: nat, c: Cmd)
    requires Producible(t) && Reads(s, i, Backed(t)) && p == i + |Backed(t)| && EndsPiped(s, p)
    ensures Settled(s, i) && BackedGives(s, i, c0, p0, c, t, p)
    decreases Size(t), Rank(2, t)
  {
    if t.BackT? {
      var q := i + |Backed(t.cmd)|;
      assert Backed(t) == Backed(t.cmd) + ['&'] + [];
      CharReads(s, i, Backed(t.cmd), '&', [], Backed(t));
      c0, p0, c := BackedReads(s, i, t.cmd, q);
      BacksStep(s, c, q);
      c := Back(c);
    } else {
      PipedReads(s, i, t, p);
      c0, p0, c := Pipeline(s, i).value, Pipeline(s, i).pos, Pipeline(s, i).value;
    }
  }

  lemma {:induction false} ListedReads(s: string, i: nat, t: Tree, p: nat)
    requires Producible(t) && Reads(s, i, Listed(t)) && p == i + |Listed(t)| && Stops(s, p)
    ensures Settled(s, i) && Gives(s, Line(s, i), t, p)
    decreases Size(t), Rank(3, t), 1
  {
    if t.ListT? {
      ThenReads(s, i, t, p);
    } else {
      var c0, p0, c := BackedReads(s, i, t, p);
      LineAlone(s, i, c0, p0, c, p);
    }
  }

  lemma {:induction false} ThenReads(s: string, i: nat, t: Tree, p: nat)
    requires t.ListT? && Producible(t) && Reads(s, i, Listed(t)) && p == i + |Listed(t)| && Stops(s, p)
    ensures Settled(s, i) && Gives(s, Line(s, i), t, p)
    decreases Size(t), Rank(3, t), 0
  {
    var q := i + |Backed(t.left)|;
    CharReads(s, i, Backed(t.left), ';', Listed(t.right), Listed(t));
    var c0, p0, c := BackedReads(s, i, t.left, q);
    ListedReads(s, q + 1, t.right, p);
    ThenGives(s, i, c0, p0, c, q, t, p);
  }

  lemma ThenGives(s: string, i: nat, c0: Cmd, p0: nat, c: Cmd, p: nat, t: Tree, q: nat)
    requires t.ListT? && BackedGives(s, i, c0, p0, c, t.left, p)
    requires At(s, p, ';') && Settled(s, p + 1) && Gives(s, Line(s, p + 1), t.right, q)
    ensures Gives(s, Line(s, i), t, q)
  {
    LineThen(s, i, c0, p0, c, p, Line(s, p + 1).value, q);
  }

  /** The parser reads a line with only the necessary parentheses as it is meant. */
  lemma PrecedenceRoundTrip(t: Tree)
    requires Producible(t)
    ensures Gives(Listed(t), Parse(Listed(t)), t, |Listed(t)|)
  {
    ListedReads(Listed(t), 0, t, |Listed(t)|);
  }
}
