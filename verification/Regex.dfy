/** grep's matcher (grep.c) against the language its patterns denote. C strings are
    sequences without their NUL. */
module Regex {

  // --------------------------------------------------------------- the matcher

  predicate Fits(c: char, x: char) { c == '.' || c == x }

  predicate MatchHere(re: string, text: string)
    decreases |re|, |text|, 0
  {
    if re == "" then true
    else if |re| > 1 && re[1] == '*' then MatchStar(re[0], re[2..], text)
    else if re == "$" then text == ""
    else text != "" && Fits(re[0], text[0]) && MatchHere(re[1..], text[1..])
  }

  predicate MatchStar(c: char, re: string, text: string)
    decreases |re|, |text|, 1
  {
    MatchHere(re, text) || (text != "" && Fits(c, text[0]) && MatchStar(c, re, text[1..]))
  }

  /** matchstar's loop. */
  method Star(c: char, re: string, text: string) returns (found: bool)
    ensures found == MatchStar(c, re, text)
    decreases |re|, |text|, 1
  {
    var i := 0;
    while true
      invariant 0 <= i <= |text| && MatchStar(c, re, text[i..]) == MatchStar(c, re, text)
      decreases |text| - i
    {
      var here := Here(re, text[i..]);
      if here {
        return true;
      }
      if i == |text| {
        return false;
      }
      i := i + 1;
      if text[i - 1] != c && c != '.' {
        return false;
      }
      assert text[i - 1..][1..] == text[i..];
    }
  }

  method Here(re: string, text: string) returns (found: bool)
    ensures found == MatchHere(re, text)
    decreases |re|, |text|, 0
  {
    if re == "" {
      return true;
    }
    if |re| > 1 && re[1] == '*' {
      found := Star(re[0], re[2..], text);
      return;
    }
    if re[0] == '$' && |re| == 1 {
      return text == "";
    }
    if text != "" && (re[0] == '.' || re[0] == text[0]) {
      found := Here(re[1..], text[1..]);
      return;
    }
    return false;
  }

  // ------------------------------------------------------ what a pattern denotes

  datatype Item = One(c: char) | Many(c: char)

  /** A pattern without its ^: items, and whether a final $ ties it to the end. */
  datatype Pattern = Pattern(items: seq<Item>, ending: bool)

  function Compile(re: string): (p: Pattern)
    decreases |re|
  {
    if re == "" then Pattern([], false)
    else if |re| > 1 && re[1] == '*' then
      var p := Compile(re[2..]);
      Pattern([Many(re[0])] + p.items, p.ending)
    else if re == "$" then Pattern([], true)
    else
      var p := Compile(re[1..]);
      Pattern([One(re[0])] + p.items, p.ending)
  }

  /** The strings an item stands for: one fitting character, or any number of them. */
  predicate ItemLanguage(it: Item, w: string) {
    (it.One? ==> |w| == 1) && forall k :: 0 <= k < |w| ==> Fits(it.c, w[k])
  }

  /** The strings that items[k..] stand for, by concatenation. */
  predicate Language(items: seq<Item>, k: nat, w: string)
    requires k <= |items|
    decreases |items| - k
  {
    if k == |items| then w == ""
    else exists n :: 0 <= n <= |w| && ItemLanguage(items[k], w[..n]) && Language(items, k + 1, w[n..])
  }

  /** Some substring text[i..j] is in the language. */
  ghost predicate StartsAt(p: Pattern, text: string, i: nat)
    requires i <= |text|
  {
    exists j :: i <= j <= |text| && (p.ending ==> j == |text|) && Language(p.items, 0, text[i..j])
  }

  predicate Anchored(re: string) { re != "" && re[0] == '^' }

  /** Some substring of the text is in the pattern's language, where ^ and $ tie it to
      the start and the end. */
  ghost predicate Matches(re: string, text: string) {
    if Anchored(re) then StartsAt(Compile(re[1..]), text, 0) else StartsSomewhere(Compile(re), text)
  }

  ghost predicate StartsSomewhere(p: Pattern, text: string) { exists i: nat :: i <= |text| && StartsAt(p, text, i) }

  // -------------------------------------------------------------------- proofs

  /** Some prefix of the text is in the language of items[k..]. */
  ghost predicate Prefix(p: Pattern, k: nat, text: string)
    requires k <= |p.items|
  {
    exists j :: 0 <= j <= |text| && (p.ending ==> j == |text|) && Language(p.items, k, text[..j])
  }

  /** Peeling the first item off. */
  lemma PrefixStep(p: Pattern, k: nat, text: string)
    requires k < |p.items|
    ensures Prefix(p, k, text) <==> exists n :: 0 <= n <= |text| && ItemLanguage(p.items[k], text[..n]) && Prefix(p, k + 1, text[n..])
  {
    if Prefix(p, k, text) {
      var j :| 0 <= j <= |text| && (p.ending ==> j == |text|) && Language(p.items, k, text[..j]);
      var w := text[..j];
      var n :| 0 <= n <= |w| && ItemLanguage(p.items[k], w[..n]) && Language(p.items, k + 1, w[n..]);
      assert w[..n] == text[..n] && w[n..] == text[n..][..j - n];
      assert Prefix(p, k + 1, text[n..]);
    }
    if n :| 0 <= n <= |text| && ItemLanguage(p.items[k], text[..n]) && Prefix(p, k + 1, text[n..]) {
      var t := text[n..];
      var j :| 0 <= j <= |t| && (p.ending ==> j == |t|) && Language(p.items, k + 1, t[..j]);
      var w := text[..n + j];
      assert w[..n] == text[..n] && w[n..] == t[..j];
      assert Language(p.items, k, w);
    }
  }

  /** The language of a pattern's tail is that of the tail as a pattern. */
  lemma {:induction false} LanguageShift(x: Item, items: seq<Item>, k: nat, w: string)
    requires k <= |items|
    ensures Language([x] + items, k + 1, w) == Language(items, k, w)
    decreases |items| - k
  {
    if k < |items| {
      forall n | 0 <= n <= |w| ensures Language([x] + items, k + 2, w[n..]) == Language(items, k + 1, w[n..]) {
        LanguageShift(x, items, k + 1, w[n..]);
      }
    }
  }

  lemma PrefixShift(x: Item, p: Pattern, text: string)
    ensures Prefix(Pattern([x] + p.items, p.ending), 1, text) == Prefix(p, 0, text)
  {
    forall j | 0 <= j <= |text| ensures Language([x] + p.items, 1, text[..j]) == Language(p.items, 0, text[..j]) {
      LanguageShift(x, p.items, 0, text[..j]);
    }
  }

  /** c* takes the first n characters and the rest of the pattern matches after them. */
  predicate Repeats(c: char, re: string, text: string, n: nat) {
    n <= |text| && (forall k :: 0 <= k < n ==> Fits(c, text[k])) && MatchHere(re, text[n..])
  }

  lemma {:induction false} StarSound(c: char, re: string, text: string) returns (n: nat)
    requires MatchStar(c, re, text)
    ensures Repeats(c, re, text, n)
    decreases |text|
  {
    if MatchHere(re, text) {
      n := 0;
      assert text[0..] == text;
    } else {
      var m := StarSound(c, re, text[1..]);
      n := m + 1;
      assert text[n..] == text[1..][m..];
      forall k | 0 <= k < n ensures Fits(c, text[k]) {
        if k > 0 { assert text[k] == text[1..][k - 1]; }
      }
    }
  }

  lemma {:induction false} StarComplete(c: char, re: string, text: string, n: nat)
    requires Repeats(c, re, text, n)
    ensures MatchStar(c, re, text)
    decreases n
  {
    if n == 0 {
      assert text[0..] == text;
    } else {
      assert text[n..] == text[1..][n - 1..];
      StarComplete(c, re, text[1..], n - 1);
    }
  }

  /** matchstar tries every number of repetitions. */
  lemma StarIff(c: char, re: string, text: string)
    ensures MatchStar(c, re, text) <==> exists n: nat :: Repeats(c, re, text, n)
  {
    if MatchStar(c, re, text) { var n := StarSound(c, re, text); }
    if n: nat :| Repeats(c, re, text, n) { StarComplete(c, re, text, n); }
  }

  lemma RepeatPrefix(c: char, re: string, q: Pattern, p: Pattern, text: string, n: nat)
    requires p == Pattern([Many(c)] + q.items, q.ending) && n <= |text|
    requires MatchHere(re, text[n..]) == Prefix(q, 0, text[n..])
    ensures Repeats(c, re, text, n) <==> ItemLanguage(Many(c), text[..n]) && Prefix(p, 1, text[n..])
  {
    PrefixShift(Many(c), q, text[n..]);
    var w := text[..n];
    assert (forall k :: 0 <= k < n ==> Fits(c, text[k])) <==> forall k :: 0 <= k < n ==> Fits(c, w[k]);
  }

  lemma HereStar(re: string, text: string)
    requires |re| > 1 && re[1] == '*'
    requires forall t :: |t| <= |text| ==> MatchHere(re[2..], t) == Prefix(Compile(re[2..]), 0, t)
    ensures MatchHere(re, text) == Prefix(Compile(re), 0, text)
  {
    var c, rest, p, q := re[0], re[2..], Compile(re), Compile(re[2..]);
    assert MatchHere(re, text) == MatchStar(c, rest, text);
    assert p == Pattern([Many(c)] + q.items, q.ending);
    forall n: nat | n <= |text|
      ensures Repeats(c, rest, text, n) <==> ItemLanguage(Many(c), text[..n]) && Prefix(p, 1, text[n..])
    {
      RepeatPrefix(c, rest, q, p, text, n);
    }
    StarPrefix(c, rest, p, text);
  }

  lemma StarPrefix(c: char, re: string, p: Pattern, text: string)
    requires p.items != [] && p.items[0] == Many(c)
    requires forall n: nat :: n <= |text| ==> (Repeats(c, re, text, n) <==> ItemLanguage(Many(c), text[..n]) && Prefix(p, 1, text[n..]))
    ensures MatchStar(c, re, text) == Prefix(p, 0, text)
  {
    StarIff(c, re, text);
    PrefixStep(p, 0, text);
    if n: nat :| Repeats(c, re, text, n) { assert ItemLanguage(Many(c), text[..n]) && Prefix(p, 1, text[n..]); }
    if n :| 0 <= n <= |text| && ItemLanguage(p.items[0], text[..n]) && Prefix(p, 1, text[n..]) { assert Repeats(c, re, text, n); }
  }

  lemma OneStep(re: string, text: string)
    requires re != "" && !(|re| > 1 && re[1] == '*') && re != "$"
    ensures MatchHere(re, text) <==> text != "" && Fits(re[0], text[0]) && MatchHere(re[1..], text[1..])
    ensures Compile(re) == Pattern([One(re[0])] + Compile(re[1..]).items, Compile(re[1..]).ending)
  {
  }

  lemma OneLanguage(c: char, text: string, n: nat)
    requires n <= |text|
    ensures ItemLanguage(One(c), text[..n]) <==> n == 1 && Fits(c, text[0])
  {
    if n == 1 { assert text[..1][0] == text[0]; }
  }

  lemma HereOne(re: string, text: string)
    requires re != "" && !(|re| > 1 && re[1] == '*') && re != "$"
    requires forall t :: |t| <= |text| ==> MatchHere(re[1..], t) == Prefix(Compile(re[1..]), 0, t)
    ensures MatchHere(re, text) == Prefix(Compile(re), 0, text)
  {
    hide Prefix, Language, MatchHere, Compile, ItemLanguage;
    var p, q := Compile(re), Compile(re[1..]);
    OneStep(re, text);
    PrefixStep(p, 0, text);
    forall n: nat | n <= |text| ensures ItemLanguage(p.items[0], text[..n]) <==> n == 1 && Fits(re[0], text[0]) {
      OneLanguage(re[0], text, n);
    }
    if text != "" { PrefixShift(One(re[0]), q, text[1..]); }
  }

  /** matchhere succeeds exactly if a prefix of the text is in the language. */
  lemma {:induction false} HereIff(re: string, text: string)
    ensures MatchHere(re, text) == Prefix(Compile(re), 0, text)
    decreases |re|
  {
    if re == "" || re == "$" {
      assert Language([], 0, text[..0]) && (text == "" ==> text[..0] == text);
    } else if |re| > 1 && re[1] == '*' {
      forall t | |t| <= |text| ensures MatchHere(re[2..], t) == Prefix(Compile(re[2..]), 0, t) { HereIff(re[2..], t); }
      HereStar(re, text);
    } else {
      forall t | |t| <= |text| ensures MatchHere(re[1..], t) == Prefix(Compile(re[1..]), 0, t) { HereIff(re[1..], t); }
      HereOne(re, text);
    }
  }

  lemma SuffixPrefix(p: Pattern, text: string, i: nat)
    requires i <= |text|
    ensures Prefix(p, 0, text[i..]) <==> StartsAt(p, text, i)
  {
    var t := text[i..];
    if Prefix(p, 0, t) {
      var k :| 0 <= k <= |t| && (p.ending ==> k == |t|) && Language(p.items, 0, t[..k]);
      assert t[..k] == text[i..i + k];
    }
    if j :| i <= j <= |text| && (p.ending ==> j == |text|) && Language(p.items, 0, text[i..j]) {
      assert t[..j - i] == text[i..j];
    }
  }

  /** match is sound and complete, and its loop ends: it looks at every suffix, the
      empty one included. */
  method Match(re: string, text: string) returns (found: bool)
    ensures found <==> Matches(re, text)
  {
    if re != "" && re[0] == '^' {
      found := Here(re[1..], text);
      HereIff(re[1..], text);
      assert text[0..] == text;
      SuffixPrefix(Compile(re[1..]), text, 0);
      return;
    }
    var i: nat := 0;
    while true
      invariant i <= |text|
      invariant forall k :: 0 <= k < i ==> !MatchHere(re, text[k..])
      decreases |text| - i
    {
      var here := Here(re, text[i..]);
      if here {
        HereIff(re, text[i..]);
        SuffixPrefix(Compile(re), text, i);
        assert StartsSomewhere(Compile(re), text);
        return true;
      }
      if i == |text| {
        break;
      }
      i := i + 1;
    }
    NowhereMatches(re, text);
    return false;
  }

  lemma NowhereMatches(re: string, text: string)
    requires !Anchored(re) && forall k :: 0 <= k <= |text| ==> !MatchHere(re, text[k..])
    ensures !Matches(re, text)
  {
    forall k | 0 <= k <= |text| ensures !StartsAt(Compile(re), text, k) {
      HereIff(re, text[k..]);
      SuffixPrefix(Compile(re), text, k);
    }
  }

  // ------------------------------------------------------ what that means, concretely

  lemma MatchesHere(re: string, text: string)
    ensures Anchored(re) ==> (Matches(re, text) <==> MatchHere(re[1..], text))
    ensures !Anchored(re) ==> (Matches(re, text) <==> exists i :: 0 <= i <= |text| && MatchHere(re, text[i..]))
  {
    if Anchored(re) {
      assert text[0..] == text;
      HereIff(re[1..], text);
      SuffixPrefix(Compile(re[1..]), text, 0);
    } else {
      forall i | 0 <= i <= |text| ensures MatchHere(re, text[i..]) <==> StartsAt(Compile(re), text, i) {
        HereIff(re, text[i..]);
        SuffixPrefix(Compile(re), text, i);
      }
    }
  }

  predicate NoOperators(re: string) { forall k :: 0 <= k < |re| ==> re[k] !in "*^$" }

  /** The text begins like re, where a dot is like any character. */
  predicate Agrees(re: string, text: string) {
    |re| <= |text| && forall k :: 0 <= k < |re| ==> re[k] == '.' || re[k] == text[k]
  }

  lemma {:induction false} PlainHere(re: string, text: string)
    requires NoOperators(re)
    ensures MatchHere(re, text) <==> Agrees(re, text)
    ensures MatchHere(re + "$", text) <==> |re| == |text| && Agrees(re, text)
  {
    if re != "" {
      assert "*^$"[0] == '*' && "*^$"[2] == '$';
      assert re[0] != '$' && (|re| > 1 ==> re[1] != '*');
      assert NoOperators(re[1..]) && (re + "$")[1..] == re[1..] + "$";
      if text != "" {
        PlainHere(re[1..], text[1..]);
        assert Agrees(re, text) <==> Fits(re[0], text[0]) && Agrees(re[1..], text[1..]);
      }
    }
  }

  /** A pattern without operators is looked for anywhere, with ^ at the start, with $ at
      the end, with both it is the whole text. */
  lemma PlainMatches(re: string, text: string)
    requires NoOperators(re)
    ensures Matches(re, text) <==> exists i :: 0 <= i <= |text| && Agrees(re, text[i..])
    ensures Matches("^" + re, text) <==> Agrees(re, text)
    ensures Matches(re + "$", text) <==> |re| <= |text| && Agrees(re, text[|text| - |re|..])
    ensures Matches("^" + re + "$", text) <==> |re| == |text| && Agrees(re, text)
  {
    forall i | 0 <= i <= |text|
      ensures MatchHere(re, text[i..]) <==> Agrees(re, text[i..])
      ensures MatchHere(re + "$", text[i..]) <==> i == |text| - |re| && Agrees(re, text[i..])
    {
      PlainHere(re, text[i..]);
    }
    PlainHere(re, text);
    MatchesHere(re, text);
    MatchesHere(re + "$", text);
    MatchesHere("^" + re, text);
    MatchesHere("^" + re + "$", text);
    assert ("^" + re)[1..] == re && ("^" + re + "$")[1..] == re + "$";
  }

  /** c* is any number of that character, and .* is anything. */
  lemma StarMatches(c: char, text: string)
    ensures Matches("^" + [c] + "*$", text) <==> forall k :: 0 <= k < |text| ==> c == '.' || text[k] == c
  {
    var re := "^" + [c] + "*$";
    MatchesHere(re, text);
    assert re[1..][0] == c && re[1..][1] == '*' && re[1..][2..] == "$";
    assert MatchHere(re[1..], text) == MatchStar(c, "$", text);
    StarIff(c, "$", text);
    assert Repeats(c, "$", text, |text|) <==> forall k :: 0 <= k < |text| ==> Fits(c, text[k]);
  }
}
