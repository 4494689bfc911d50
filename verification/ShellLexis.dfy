/** The characters of the shell's language, by the two literals of sh.c: what each of
    them is to the parser, and that white space is free. */
module ShellLexis {
  import opened ShellGrammar
  import opened ShellRoundTrip
  import opened ShellLanguage
  import opened ShellErrors

  const WHITESPACE: string := " \t\r\n\U{B}"
  const SYMBOLS: string := "<|>&;()"

  // ------------------------------------------------------- only the symbols matter

  /** The two inputs are the same to parsecmd: the same tree, or the same error. */
  ghost predicate SameCommand(s: string, t: string) {
    match (Parse(s), Parse(t))
    case (Ok(c, _), Ok(d, _)) => Text(s, c) == Text(t, d)
    case (Err(x), Err(y)) => x == y
    case _ => false
  }

  lemma SymbolsDecide(s: string, t: string)
    requires Lex(s, 0) == Lex(t, 0)
    ensures SameCommand(s, t)
  {
    hide Lex, Parse, LineThen, Short, LineTree, LineStops, BadLineThen, LineBreaks, LineFault;
    if Parse(s).Ok? {
      AcceptsIff(s);
      var d :| Derives(d, s);
      assert Derives(d, t);
      DerivedTree(s, d);
      DerivedTree(t, d);
    } else if Parse(s).error == Leftovers {
      LeftoversIff(s);
      var d, rest :| LeavesOver(d, rest, s);
      assert LeavesOver(d, rest, t);
      LeftoversIff(t);
    } else {
      var e := Parse(s).error;
      RefusedIff(s, e);
      var b, rest :| Breaks(b, rest, s) && LineFault(b) == e;
      assert Breaks(b, rest, t);
      RefusedIff(t, e);
    }
  }

  // ------------------------------------------------------------- single characters

  /** A character is white space, a symbol, or stands in words. */
  lemma CharacterKinds(c: char)
    ensures c in " \t\r\n\U{B}" <==> Lex([c], 0) == Nil
    ensures c in "<|>&;()" <==> Lex([c], 0).Cons? && !Lex([c], 0).head.Word?
    ensures c !in " \t\r\n\U{B}<|>&;()" <==> Lex([c], 0) == Cons(Word([c]), Nil)
  {
    assert WHITESPACE[4] == 11 as char;
    assert c in WHITESPACE <==> IsSpace(c);
    assert c in SYMBOLS <==> IsSymbol(c);
    assert [c][0..1] == [c];
  }

  // ------------------------------------------------------------------- white space

  lemma {:induction false} WordEndSuffix(s: string, i: nat, t: string, j: nat)
    requires i <= |s| && j <= |t| && s[i..] == t[j..]
    ensures WordEnd(s, i) - i == WordEnd(t, j) - j
    decreases |s| - i
  {
    if i < |s| {
      assert s[i] == s[i..][0] == t[j..][0] == t[j];
      assert s[i + 1..] == s[i..][1..] == t[j + 1..];
      if IsWord(s[i]) { WordEndSuffix(s, i + 1, t, j + 1); }
    }
  }

  lemma LexStep(s: string, i: nat)
    requires i < |s|
    ensures IsSpace(s[i]) ==> Lex(s, i) == Lex(s, i + 1)
    ensures IsWord(s[i]) ==> Lex(s, i) == Cons(Word(s[i..WordEnd(s, i)]), Lex(s, WordEnd(s, i)))
    ensures IsSymbol(s[i]) ==> Lex(s, i) == Cons(SymbolOf(s[i]), Lex(s, AfterSign(s, i)))
  {
  }

  lemma OneSymbol(c: char)
    requires IsSymbol(c)
    ensures Lex([c], 0) == Cons(SymbolOf(c), Nil)
  {
    LexStep([c], 0);
    LexHead([c], 1);
  }

  lemma SymbolCharacters()
    ensures Lex("<", 0) == Cons(Less, Nil) && Lex(">", 0) == Lex(">>", 0) == Cons(Greater, Nil)
    ensures Lex("|", 0) == Cons(Bar, Nil) && Lex("&", 0) == Cons(Amp, Nil) && Lex(";", 0) == Cons(Semi, Nil)
    ensures Lex("(", 0) == Cons(Open, Nil) && Lex(")", 0) == Cons(Close, Nil)
  {
    hide Lex, WordEnd;
    OneSymbol('<');
    OneSymbol('>');
    OneSymbol('|');
    OneSymbol('&');
    OneSymbol(';');
    OneSymbol('(');
    OneSymbol(')');
    LexStep(">>", 0);
    LexHead(">>", 2);
  }

  lemma SliceSuffix(s: string, i: nat, t: string, j: nat, n: nat)
    requires i + n <= |s| && j + n <= |t| && s[i..] == t[j..]
    ensures s[i..i + n] == t[j..j + n] && s[i + n..] == t[j + n..]
    ensures n > 0 ==> s[i] == t[j]
    ensures n > 1 ==> s[i + 1] == t[j + 1]
  {
    assert s[i..i + n] == s[i..][..n] && t[j..j + n] == t[j..][..n];
    assert s[i + n..] == s[i..][n..] && t[j + n..] == t[j..][n..];
    assert n > 0 ==> s[i] == s[i..][0] && t[j] == t[j..][0];
    assert n > 1 ==> s[i + 1] == s[i..][1] && t[j + 1] == t[j..][1];
  }

  /** The symbols from a position on depend only on the text from there on. */
  lemma {:induction false} LexSuffix(s: string, i: nat, t: string, j: nat)
    requires i <= |s| && j <= |t| && s[i..] == t[j..]
    ensures Lex(s, i) == Lex(t, j)
    decreases |s| - i
  {
    hide Lex, WordEnd, SymbolOf;
    assert |s| - i == |s[i..]| == |t[j..]| == |t| - j;
    if i == |s| {
      LexHead(s, i);
      LexHead(t, j);
    } else {
      LexStep(s, i);
      LexStep(t, j);
      SliceSuffix(s, i, t, j, |s| - i);
      var e := if IsSpace(s[i]) then i + 1 else if IsWord(s[i]) then WordEnd(s, i) else AfterSign(s, i);
      WordEndSuffix(s, i, t, j);
      SliceSuffix(s, i, t, j, e - i);
      LexSuffix(s, e, t, j + (e - i));
    }
  }

  function Insert(s: string, k: nat, c: char): (r: string)
    requires k <= |s|
  {
    s[..k] + [c] + s[k..]
  }

  /** No word, and no >>, goes across position k. */
  predicate Gap(s: string, k: nat)
    requires k <= |s|
  {
    0 < k < |s| ==> (s[k - 1] in WHITESPACE + SYMBOLS || s[k] in WHITESPACE + SYMBOLS) && !(s[k - 1] == '>' && s[k] == '>')
  }

  lemma GapChar(c: char)
    ensures c in WHITESPACE <==> IsSpace(c)
    ensures c in WHITESPACE + SYMBOLS <==> !IsWord(c)
  {
    assert WHITESPACE[4] == 11 as char;
  }

  /** A word that begins before a gap ends there at the latest. */
  lemma {:induction false} WordBeforeGap(s: string, k: nat, c: char, i: nat)
    requires i <= k <= |s| && Gap(s, k) && (i == k ==> k > 0 && IsWord(s[k - 1])) && IsSpace(c)
    ensures WordEnd(s, i) == WordEnd(Insert(s, k, c), i) <= k
    decreases k - i
  {
    if i == k {
      GapChar(s[k - 1]);
      if k < |s| { GapChar(s[k]); }
    } else if IsWord(s[i]) {
      WordBeforeGap(s, k, c, i + 1);
    }
  }

  lemma {:induction false} InsertLex(s: string, k: nat, c: char, i: nat)
    requires i <= k <= |s| && Gap(s, k) && IsSpace(c)
    ensures Lex(Insert(s, k, c), i) == Lex(s, i)
    decreases k - i
  {
    hide Lex, WordEnd, SymbolOf;
    var t := Insert(s, k, c);
    LexStep(t, i);
    if i == k {
      assert t[k + 1..] == s[k..];
      LexSuffix(t, k + 1, s, k);
    } else {
      LexStep(s, i);
      if IsSpace(s[i]) {
        InsertLex(s, k, c, i + 1);
      } else if IsWord(s[i]) {
        WordBeforeGap(s, k, c, i);
        assert t[i..WordEnd(s, i)] == s[i..WordEnd(s, i)];
        InsertLex(s, k, c, WordEnd(s, i));
      } else {
        assert AfterSign(t, i) == AfterSign(s, i) <= k;
        InsertLex(s, k, c, AfterSign(s, i));
      }
    }
  }

  /** White space may be put in wherever it does not cut a word or >> in two. */
  lemma WhiteInserted(s: string, k: nat, c: char)
    requires k <= |s| && Gap(s, k) && c in WHITESPACE
    ensures SameCommand(s, Insert(s, k, c))
  {
    GapChar(c);
    InsertLex(s, k, c, 0);
    SymbolsDecide(s, Insert(s, k, c));
  }

  /** A line means the same with and without its newline. */
  lemma NewlineIgnored(s: string)
    ensures SameCommand(s, s + "\n")
  {
    assert Insert(s, |s|, '\n') == s + "\n";
    WhiteInserted(s, |s|, '\n');
  }

  /** One white character is as good as another. */
  lemma WhiteReplaced(s: string, k: nat, c: char)
    requires k < |s| && s[k] in WHITESPACE && c in WHITESPACE
    ensures SameCommand(s, s[k := c])
  {
    GapChar(c);
    GapChar(s[k]);
    var t := s[k := c];
    assert Insert(s, k, c) == Insert(t, k + 1, s[k]);
    assert Gap(s, k) && Gap(t, k + 1);
    InsertLex(s, k, c, 0);
    InsertLex(t, k + 1, s[k], 0);
    SymbolsDecide(s, t);
  }

  // ------------------------------------------------------------------------ words

  function Append(x: Symbols, y: Symbols): (r: Symbols) { if x.Nil? then y else Cons(x.head, Append(x.tail, y)) }

  lemma {:induction false} WordEndBefore(s: string, t: string, i: nat)
    requires i <= |s|
    ensures WordEnd(s + " " + t, i) == WordEnd(s, i)
    decreases |s| - i
  {
    if i < |s| && IsWord(s[i]) { WordEndBefore(s, t, i + 1); }
  }

  lemma {:induction false} LexBefore(s: string, t: string, i: nat)
    requires i <= |s|
    ensures Lex(s + " " + t, i) == Append(Lex(s, i), Lex(t, 0))
    decreases |s| - i
  {
    hide Lex, WordEnd, SymbolOf;
    var u := s + " " + t;
    LexStep(u, i);
    if i == |s| {
      LexHead(s, i);
      assert u[i + 1..] == t[0..];
      LexSuffix(u, i + 1, t, 0);
    } else {
      LexStep(s, i);
      WordEndBefore(s, t, i);
      assert u[i..WordEnd(s, i)] == s[i..WordEnd(s, i)];
      assert AfterSign(u, i) == AfterSign(s, i);
      LexBefore(s, t, if IsSpace(s[i]) then i + 1 else if IsWord(s[i]) then WordEnd(s, i) else AfterSign(s, i));
    }
  }

  /** With a blank between them, two texts are read one after the other. */
  lemma LexJoin(s: string, t: string)
    ensures Lex(s + " " + t, 0) == Append(Lex(s, 0), Lex(t, 0))
  {
    LexBefore(s, t, 0);
  }

  predicate PlainWord(w: string) { w != "" && forall k :: 0 <= k < |w| ==> w[k] !in WHITESPACE + SYMBOLS }

  lemma {:induction false} PlainEnd(w: string, i: nat)
    requires PlainWord(w) && i <= |w|
    ensures WordEnd(w, i) == |w|
    decreases |w| - i
  {
    if i < |w| {
      GapChar(w[i]);
      PlainEnd(w, i + 1);
    }
  }

  /** Any other characters are a word. */
  lemma WordAlone(w: string)
    requires PlainWord(w)
    ensures Lex(w, 0) == Cons(Word(w), Nil)
  {
    GapChar(w[0]);
    PlainEnd(w, 0);
    LexStep(w, 0);
    LexHead(w, |w|);
    assert w[0..|w|] == w;
  }

  /** A command of plain words, as typed. */
  function Spaced(ws: seq<string>): (s: string) { if ws == [] then "" else ws[0] + " " + Spaced(ws[1..]) }

  function WordSymbols(ws: seq<string>): (r: Symbols) { if ws == [] then Nil else Cons(Word(ws[0]), WordSymbols(ws[1..])) }

  function ItemsOf(ws: seq<string>): (d: Items) { if ws == [] then NoItems else Item(ws[0], Plain, ItemsOf(ws[1..])) }

  lemma {:induction false} SpacedLex(ws: seq<string>)
    requires forall k :: 0 <= k < |ws| ==> PlainWord(ws[k])
    ensures Lex(Spaced(ws), 0) == WordSymbols(ws)
  {
    if ws != [] {
      LexJoin(ws[0], Spaced(ws[1..]));
      WordAlone(ws[0]);
      SpacedLex(ws[1..]);
    }
  }

  lemma {:induction false} ItemsOfWords(ws: seq<string>, k: nat)
    requires k <= |ws|
    ensures ItemsThen(ItemsOf(ws[..k]), WordSymbols(ws[k..])) == WordSymbols(ws)
    ensures Count(ItemsOf(ws[..k])) == k && WordsOf(ItemsOf(ws[..k])) == ws[..k]
  {
    if k > 0 {
      assert ws[..k][0] == ws[0] && ws[..k][1..] == ws[1..][..k - 1] && ws[k..] == ws[1..][k - 1..];
      ItemsOfWords(ws[1..], k - 1);
    }
  }

  lemma {:induction false} NoneRedirected(t: Tree, ws: seq<string>)
    ensures AllRedirected(t, ItemsOf(ws)) == t
  {
    if ws != [] { NoneRedirected(t, ws[1..]); }
  }

  /** The derivation of a command of these words ... */
  lemma WordsShape(d: Items)
    ensures LineThen(Final(Single(Words(Plain, d)), 0), Nil) == ItemsThen(d, Nil)
    ensures Short(Final(Single(Words(Plain, d)), 0)) <==> Count(d) < 10
    ensures LineTree(Final(Single(Words(Plain, d)), 0)) == AllRedirected(ExecT(WordsOf(d)), d)
  {
    hide ItemsThen, Count, AllRedirected, WordsOf;
    var x := Words(Plain, d);
    assert SimpleThen(x, Nil) == ItemsThen(d, Nil) && (ShortSimple(x) <==> Count(d) < 10);
    assert SimpleTree(x) == AllRedirected(ExecT(WordsOf(d)), d);
    assert PipeThen(Single(x), Nil) == SimpleThen(x, Nil) && ShortPipe(Single(x)) == ShortSimple(x);
    assert PipeTree(Single(x)) == SimpleTree(x);
  }

  /** ... and of one with a word too many. */
  lemma ExtraShape(d: Items, word: string, rest: Symbols)
    ensures var b := BadHere(BadFirst(ExtraWord(Plain, d, word)));
      && BadLineThen(b, rest) == ItemsThen(d, Cons(Word(word), rest)) && (LineBreaks(b, rest) <==> Count(d) == 9)
      && LineFault(b) == TooManyArgs
  {
    hide ItemsThen, Count;
    ExtraSimple(d, word, rest);
    ExtraPipe(ExtraWord(Plain, d, word), rest);
    ExtraLine(BadFirst(ExtraWord(Plain, d, word)), rest);
  }

  lemma ExtraSimple(d: Items, word: string, rest: Symbols)
    ensures var b := ExtraWord(Plain, d, word);
      && BadSimpleThen(b, rest) == ItemsThen(d, Cons(Word(word), rest)) && (SimpleBreaks(b, rest) <==> Count(d) == 9)
      && SimpleFault(b) == TooManyArgs
  {
  }

  lemma ExtraPipe(b: BadSimple, rest: Symbols)
    ensures BadPipeThen(BadFirst(b), rest) == BadSimpleThen(b, rest)
    ensures PipeBreaks(BadFirst(b), rest) == SimpleBreaks(b, rest) && PipeFault(BadFirst(b)) == SimpleFault(b)
  {
  }

  lemma ExtraLine(b: BadPipe, rest: Symbols)
    ensures BadLineThen(BadHere(b), rest) == BadPipeThen(b, rest)
    ensures LineBreaks(BadHere(b), rest) == PipeBreaks(b, rest) && LineFault(BadHere(b)) == PipeFault(b)
  {
  }

  lemma FewWords(ws: seq<string>, s: string)
    requires |ws| < 10 && Lex(s, 0) == WordSymbols(ws)
    ensures Parse(s).Ok? && Text(s, Parse(s).value) == ExecT(ws)
  {
    hide Lex, Parse, Text, AllRedirected, ItemsThen, Count, WordsOf, LineThen, Short, LineTree;
    assert ws[..|ws|] == ws && ws[|ws|..] == [];
    ItemsOfWords(ws, |ws|);
    NoneRedirected(ExecT(ws), ws);
    WordsShape(ItemsOf(ws));
    var d := Final(Single(Words(Plain, ItemsOf(ws))), 0);
    assert Derives(d, s);
    DerivedTree(s, d);
  }

  lemma ManyWords(ws: seq<string>, s: string)
    requires |ws| >= 10 && Lex(s, 0) == WordSymbols(ws)
    ensures Parse(s) == Err(TooManyArgs)
  {
    hide Lex, Parse, AllRedirected, ItemsOf, ItemsThen, Count, WordsOf, BadLineThen, LineBreaks, LineFault;
    ItemsOfWords(ws, 9);
    var d, rest := ItemsOf(ws[..9]), WordSymbols(ws[10..]);
    assert ws[9..][1..] == ws[10..] && WordSymbols(ws[9..]) == Cons(Word(ws[9]), rest);
    ExtraShape(d, ws[9], rest);
    assert Breaks(BadHere(BadFirst(ExtraWord(Plain, d, ws[9]))), rest, s);
    RefusedIff(s, TooManyArgs);
  }

  /** Up to nine words are a command with just these arguments; ten are too many. */
  lemma SpacedWords(ws: seq<string>)
    requires forall k :: 0 <= k < |ws| ==> PlainWord(ws[k])
    ensures var s := Spaced(ws);
      if |ws| < 10 then Parse(s).Ok? && Text(s, Parse(s).value) == ExecT(ws) else Parse(s) == Err(TooManyArgs)
  {
    hide Lex, Parse, Text;
    SpacedLex(ws);
    if |ws| < 10 { FewWords(ws, Spaced(ws)); } else { ManyWords(ws, Spaced(ws)); }
  }
}
