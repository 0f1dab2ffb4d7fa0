/**
The regular-expression matcher of grep.c against a declarative semantics: a pattern is a
sequence of items, each taking one piece of the text, and the matcher succeeds exactly
when some stretch of the text can be cut into such pieces.
*/
module Grep {

  // ----- patterns and their meaning

  /* One occurrence of a character, or any number of them; '.' stands for any character. */
  datatype Item = One(c: char) | Many(c: char)

  datatype Pattern = Pattern(items: seq<Item>, atEnd: bool)

  predicate Fits(c: char, x: char) {
    c == '.' || c == x
  }

  predicate PieceOf(item: Item, piece: string) {
    match item
    case One(c) => |piece| == 1 && Fits(c, piece[0])
    case Many(c) => forall i :: 0 <= i < |piece| ==> Fits(c, piece[i])
  }

  function Concat(pieces: seq<string>): string {
    if pieces == [] then "" else pieces[0] + Concat(pieces[1..])
  }

  ghost predicate Cut(items: seq<Item>, s: string, pieces: seq<string>) {
    && |pieces| == |items| && Concat(pieces) == s
    && forall i :: 0 <= i < |items| ==> PieceOf(items[i], pieces[i])
  }

  /* s is in the language of the items. */
  ghost predicate Language(items: seq<Item>, s: string) {
    exists pieces :: Cut(items, s, pieces)
  }

  /* A prefix of text, all of it for a pattern that ends in '$', is in the language. */
  ghost predicate Accepts(p: Pattern, text: string) {
    exists k :: 0 <= k <= |text| && Language(p.items, text[..k]) && (p.atEnd ==> k == |text|)
  }

  /* How the characters of a pattern are read: '*' is an operator after any character, '$'
     one at the very end, and both are literals anywhere else. */
  function Parse(re: string): Pattern {
    if re == "" then Pattern([], false)
    else if |re| > 1 && re[1] == '*' then
      var rest := Parse(re[2..]); Pattern([Many(re[0])] + rest.items, rest.atEnd)
    else if re == "$" then Pattern([], true)
    else
      var rest := Parse(re[1..]); Pattern([One(re[0])] + rest.items, rest.atEnd)
  }

  /* The meaning of a whole pattern: '^' in front pins it to the beginning. */
  ghost predicate Found(re: string, text: string) {
    if re != "" && re[0] == '^' then Accepts(Parse(re[1..]), text)
    else exists j :: 0 <= j <= |text| && Accepts(Parse(re), text[j..])
  }

  // ----- taking the first item off

  lemma NoItems(s: string)
    ensures Language([], s) <==> s == ""
  {
    if s == "" {
      assert Cut([], s, []);
    }
  }

  lemma FirstOne(c: char, items: seq<Item>, s: string)
    ensures Language([One(c)] + items, s) <==> s != "" && Fits(c, s[0]) && Language(items, s[1..])
  {
    var all := [One(c)] + items;
    if Language(all, s) {
      var pieces :| Cut(all, s, pieces);
      assert PieceOf(all[0], pieces[0]);
      assert s == pieces[0] + Concat(pieces[1..]);
      forall i | 0 <= i < |items|
        ensures PieceOf(items[i], pieces[1..][i])
      {
        assert PieceOf(all[i + 1], pieces[i + 1]);
      }
      assert Cut(items, s[1..], pieces[1..]);
    }
    if s != "" && Fits(c, s[0]) && Language(items, s[1..]) {
      var pieces :| Cut(items, s[1..], pieces);
      var pieces' := [[s[0]]] + pieces;
      assert pieces'[1..] == pieces;
      assert Cut(all, s, pieces');
    }
  }

  /* A starred item takes some number of fitting characters. */
  lemma FirstMany(c: char, items: seq<Item>, s: string)
    ensures Language([Many(c)] + items, s) <==>
            exists n :: 0 <= n <= |s| && (forall i :: 0 <= i < n ==> Fits(c, s[i])) && Language(items, s[n..])
  {
    var all := [Many(c)] + items;
    if Language(all, s) {
      var pieces :| Cut(all, s, pieces);
      assert PieceOf(all[0], pieces[0]);
      assert s == pieces[0] + Concat(pieces[1..]);
      forall i | 0 <= i < |items|
        ensures PieceOf(items[i], pieces[1..][i])
      {
        assert PieceOf(all[i + 1], pieces[i + 1]);
      }
      assert Cut(items, s[|pieces[0]|..], pieces[1..]);
    }
    if n :| 0 <= n <= |s| && (forall i :: 0 <= i < n ==> Fits(c, s[i])) && Language(items, s[n..]) {
      var pieces :| Cut(items, s[n..], pieces);
      var pieces' := [s[..n]] + pieces;
      assert pieces'[1..] == pieces;
      assert Cut(all, s, pieces');
    }
  }

  lemma AcceptsNone(atEnd: bool, text: string)
    ensures Accepts(Pattern([], atEnd), text) <==> !atEnd || text == ""
  {
    NoItems(text[..0]);
    forall k | 0 <= k <= |text| ensures Language([], text[..k]) <==> k == 0 { NoItems(text[..k]); }
  }

  lemma AcceptsOne(c: char, rest: Pattern, text: string)
    ensures Accepts(Pattern([One(c)] + rest.items, rest.atEnd), text) <==>
            text != "" && Fits(c, text[0]) && Accepts(rest, text[1..])
  {
    var p := Pattern([One(c)] + rest.items, rest.atEnd);
    if Accepts(p, text) {
      var k :| 0 <= k <= |text| && Language(p.items, text[..k]) && (p.atEnd ==> k == |text|);
      FirstOne(c, rest.items, text[..k]);
      assert text[..k][1..] == text[1..][..k - 1];
    }
    if text != "" && Fits(c, text[0]) && Accepts(rest, text[1..]) {
      var k :| 0 <= k <= |text[1..]| && Language(rest.items, text[1..][..k]) && (rest.atEnd ==> k == |text[1..]|);
      assert text[..k + 1][1..] == text[1..][..k];
      FirstOne(c, rest.items, text[..k + 1]);
    }
  }

  lemma AcceptsMany(c: char, rest: Pattern, text: string)
    ensures Accepts(Pattern([Many(c)] + rest.items, rest.atEnd), text) <==>
            exists n :: 0 <= n <= |text| && (forall i :: 0 <= i < n ==> Fits(c, text[i])) && Accepts(rest, text[n..])
  {
    var p := Pattern([Many(c)] + rest.items, rest.atEnd);
    if Accepts(p, text) {
      var k :| 0 <= k <= |text| && Language(p.items, text[..k]) && (p.atEnd ==> k == |text|);
      FirstMany(c, rest.items, text[..k]);
      var n :| 0 <= n <= k && (forall i :: 0 <= i < n ==> Fits(c, text[..k][i]))
      && Language(rest.items, text[..k][n..]);
      assert text[..k][n..] == text[n..][..k - n];
      assert forall i :: 0 <= i < n ==> text[..k][i] == text[i];
    }
    if n :| 0 <= n <= |text| && (forall i :: 0 <= i < n ==> Fits(c, text[i])) && Accepts(rest, text[n..]) {
      var k :| 0 <= k <= |text[n..]| && Language(rest.items, text[n..][..k]) && (rest.atEnd ==> k == |text[n..]|);
      assert text[..n + k][n..] == text[n..][..k];
      FirstMany(c, rest.items, text[..n + k]);
    }
  }

  // ----- the matcher

  method Matchhere(re: string, text: string) returns (b: bool)
    ensures b <==> Accepts(Parse(re), text)
    decreases |re|, 0
  {
    if re == "" {
      AcceptsNone(false, text);
      return true;
    }
    if |re| > 1 && re[1] == '*' {
      AcceptsMany(re[0], Parse(re[2..]), text);
      b := Matchstar(re[0], re[2..], text);
      return;
    }
    if re[0] == '$' && |re| == 1 {
      AcceptsNone(true, text);
      return text == "";
    }
    AcceptsOne(re[0], Parse(re[1..]), text);
    if text != "" && (re[0] == '.' || re[0] == text[0]) {
      b := Matchhere(re[1..], text[1..]);
      return;
    }
    return false;
  }

  /* c* and then re, at the beginning of text. */
  method Matchstar(c: char, re: string, text: string) returns (b: bool)
    ensures b <==>
              exists n ::
                0 <= n <= |text| && (forall i :: 0 <= i < n ==> Fits(c, text[i])) && Accepts(Parse(re), text[n..])
    decreases |re|, 1
  {
    var k := 0;
    while true
      invariant 0 <= k <= |text| && forall i :: 0 <= i < k ==> Fits(c, text[i])
      invariant forall n :: 0 <= n < k ==> !Accepts(Parse(re), text[n..])
      decreases |text| - k
    {
      b := Matchhere(re, text[k..]);
      if b {
        return true;
      }
      if k == |text| || !(text[k] == c || c == '.') {
        return false;
      }
      k := k + 1;
    }
  }

  /* match: the pattern is found in the text exactly when the declarative semantics says so. */
  method Match(re: string, text: string) returns (b: bool)
    ensures b <==> Found(re, text)
  {
    if re != "" && re[0] == '^' {
      b := Matchhere(re[1..], text);
      return;
    }
    var j := 0;
    while true
      invariant 0 <= j <= |text| && forall i :: 0 <= i < j ==> !Accepts(Parse(re), text[i..])
      decreases |text| - j
    {
      b := Matchhere(re, text[j..]);
      if b {
        return true;
      }
      if j == |text| {
        return false;
      }
      j := j + 1;
    }
  }

  // ----- plain text

  predicate Plain(re: string) {
    forall i :: 0 <= i < |re| ==> re[i] != '*' && re[i] != '$' && re[i] != '.' && re[i] != '^'
  }

  lemma {:induction false} AcceptsPlain(re: string, text: string)
    requires Plain(re)
    ensures Accepts(Parse(re), text) <==> re <= text
    decreases |re|
  {
    if re == "" {
      AcceptsNone(false, text);
    } else {
      AcceptsOne(re[0], Parse(re[1..]), text);
      if text != "" {
        AcceptsPlain(re[1..], text[1..]);
        assert re <= text <==> re[0] == text[0] && re[1..] <= text[1..] by {
          assert re == [re[0]] + re[1..] && text == [text[0]] + text[1..];
        }
      }
    }
  }

  /* A pattern without special characters is found exactly where it occurs literally. */
  lemma PlainFound(re: string, text: string)
    requires Plain(re)
    ensures Found(re, text) <==> exists j :: 0 <= j <= |text| && re <= text[j..]
  {
    forall j | 0 <= j <= |text| ensures Accepts(Parse(re), text[j..]) <==> re <= text[j..] {
      AcceptsPlain(re, text[j..]);
    }
  }

  // ----- the operators

  lemma ParseOne(c: char, re: string)
    requires !(re != "" && re[0] == '*') && !(c == '$' && re == "")
    ensures Parse([c] + re) == Pattern([One(c)] + Parse(re).items, Parse(re).atEnd)
  {
    var all := [c] + re;
    assert all[1..] == re && all[0] == c;
    assert re != "" ==> all[1] == re[0];
  }

  lemma ParseMany(c: char, re: string)
    ensures Parse([c, '*'] + re) == Pattern([Many(c)] + Parse(re).items, Parse(re).atEnd)
  {
    var all := [c, '*'] + re;
    assert all[2..] == re && all[1] == '*' && all[0] == c;
  }

  /* An ordinary character, that is any but '.', followed by anything but '*', and not the
     '$' at the end, takes itself; '.' takes any character. */
  lemma CharLaw(c: char, re: string, text: string)
    requires !(re != "" && re[0] == '*') && !(c == '$' && re == "")
    ensures Accepts(Parse([c] + re), text) <==>
            text != "" && (c == '.' || c == text[0]) && Accepts(Parse(re), text[1..])
  {
    ParseOne(c, re);
    AcceptsOne(c, Parse(re), text);
  }

  /* c* takes any number of c, and .* any number of characters. */
  lemma StarLaw(c: char, re: string, text: string)
    ensures Accepts(Parse([c, '*'] + re), text) <==>
            exists n ::
              0 <= n <= |text| && (forall i :: 0 <= i < n ==> c == '.' || c == text[i]) && Accepts(Parse(re), text[n..])
  {
    ParseMany(c, re);
    AcceptsMany(c, Parse(re), text);
    if n :| 0 <= n <= |text| && (forall i :: 0 <= i < n ==> Fits(c, text[i])) && Accepts(Parse(re), text[n..]) {
      assert forall i :: 0 <= i < n ==> c == '.' || c == text[i];
    }
    if n :| 0 <= n <= |text| && (forall i :: 0 <= i < n ==> c == '.' || c == text[i]) && Accepts(Parse(re), text[n..]) {
      assert forall i :: 0 <= i < n ==> Fits(c, text[i]);
    }
  }

  lemma EndLaw(text: string)
    ensures Accepts(Parse("$"), text) <==> text == ""
    ensures Accepts(Parse(""), text)
  {
    AcceptsNone(true, text);
    AcceptsNone(false, text);
  }

  /* Plain text in front of a pattern. */
  lemma {:induction false} PlainThen(w: string, re: string, text: string)
    requires Plain(w) && !(re != "" && re[0] == '*')
    ensures Accepts(Parse(w + re), text) <==> w <= text && Accepts(Parse(re), text[|w|..])
    decreases |w|
  {
    hide Accepts;
    if w == "" {
      assert w + re == re && text[0..] == text;
    } else {
      var w', re' := w[1..], w[1..] + re;
      assert w + re == [w[0]] + re';
      assert re' != "" ==> re'[0] != '*';
      CharLaw(w[0], re', text);
      if text != "" {
        PlainThen(w', re, text[1..]);
        assert w <= text <==> w[0] == text[0] && w' <= text[1..] by {
          assert w == [w[0]] + w' && text == [text[0]] + text[1..];
        }
        if w <= text {
          assert text[1..][|w'|..] == text[|w|..];
        }
      }
    }
  }

  /* "^w$" is found exactly in the text w. */
  lemma WholeLine(w: string, text: string)
    requires Plain(w)
    ensures Found("^" + w + "$", text) <==> text == w
  {
    hide Accepts;
    hide Parse;
    var re := "^" + w + "$";
    assert re[0] == '^' && re[1..] == w + "$";
    PlainThen(w, "$", text);
    if w <= text {
      EndLaw(text[|w|..]);
    }
  }

  /* "w$" is found exactly in texts that end with w, and "^w" in those that begin with it. */
  lemma Anchors(w: string, text: string)
    requires Plain(w)
    ensures Found(w + "$", text) <==> |w| <= |text| && text[|text| - |w|..] == w
    ensures Found("^" + w, text) <==> w <= text
  {
    hide Accepts;
    hide Parse;
    assert ("^" + w)[1..] == w + "";
    PlainThen(w, "", text);
    if w <= text {
      EndLaw(text[|w|..]);
    }
    forall j | 0 <= j <= |text|
      ensures Accepts(Parse(w + "$"), text[j..]) <==> text[j..] == w
    {
      PlainThen(w, "$", text[j..]);
      if w <= text[j..] {
        EndLaw(text[j..][|w|..]);
      }
    }
    assert (w + "$")[0] != '^';
    if |w| <= |text| && text[|text| - |w|..] == w {
      assert Accepts(Parse(w + "$"), text[|text| - |w|..]);
    }
  }

  /* "a.*b" is found exactly where a occurs and b after it. */
  lemma AnyBetween(a: string, b: string, text: string)
    requires Plain(a) && Plain(b)
    ensures Found(a + ".*" + b, text) <==>
            exists i, j :: 0 <= i <= i + |a| <= j <= |text| && a <= text[i..] && b <= text[j..]
  {
    hide Accepts;
    hide Parse;
    var re := a + ".*" + b;
    assert re == a + (".*" + b) && re[0] != '^';
    forall i | 0 <= i <= |text|
      ensures Accepts(Parse(re), text[i..]) <==>
              a <= text[i..] && exists j :: i + |a| <= j <= |text| && b <= text[j..]
    {
      PlainThen(a, ".*" + b, text[i..]);
      if a <= text[i..] {
        AnyThen(b, text, i + |a|);
        assert text[i..][|a|..] == text[i + |a|..];
      }
    }
  }

  lemma AnyThen(b: string, text: string, k: nat)
    requires Plain(b) && k <= |text|
    ensures Accepts(Parse(".*" + b), text[k..]) <==> exists j :: k <= j <= |text| && b <= text[j..]
  {
    hide Accepts;
    hide Parse;
    assert ['.', '*'] + b == ".*" + b;
    StarLaw('.', b, text[k..]);
    forall n | 0 <= n <= |text| - k ensures Accepts(Parse(b), text[k..][n..]) <==> b <= text[k + n..] {
      assert text[k..][n..] == text[k + n..];
      AcceptsPlain(b, text[k + n..]);
    }
    if n :| 0 <= n <= |text[k..]| && Accepts(Parse(b), text[k..][n..]) {
      assert b <= text[k + n..];
    }
    if j :| k <= j <= |text| && b <= text[j..] {
      assert Accepts(Parse(b), text[k..][j - k..]);
    }
  }

  // ----- patterns as text

  function Print(items: seq<Item>, atEnd: bool): string {
    if items == [] then (if atEnd then "$" else "")
    else (if items[0].One? then [items[0].c] else [items[0].c, '*']) + Print(items[1..], atEnd)
  }

  /* No single character stands before a literal '*', and no literal '$' at the end. */
  predicate Readable(items: seq<Item>, atEnd: bool) {
    && (forall i :: 0 <= i < |items| - 1 && items[i].One? ==> items[i + 1].c != '*')
    && (items != [] && items[|items| - 1] == One('$') ==> atEnd)
  }

  lemma PrintedHead(items: seq<Item>, atEnd: bool)
    ensures var re := Print(items, atEnd);
            if items == [] then re == (if atEnd then "$" else "") else re != "" && re[0] == items[0].c
  {
  }

  /* Reading undoes printing for every pattern that can be written, and printing undoes
     reading for every text. */
  lemma {:induction false} ParsePrinted(items: seq<Item>, atEnd: bool)
    requires Readable(items, atEnd)
    ensures Parse(Print(items, atEnd)) == Pattern(items, atEnd)
    decreases |items|
  {
    if items != [] {
      hide Parse;
      ParsePrinted(items[1..], atEnd);
      PrintedHead(items[1..], atEnd);
      if items[0].One? {
        ParseOne(items[0].c, Print(items[1..], atEnd));
      } else {
        ParseMany(items[0].c, Print(items[1..], atEnd));
      }
      assert items == [items[0]] + items[1..];
    }
  }

  lemma {:induction false} PrintParsed(re: string)
    ensures Print(Parse(re).items, Parse(re).atEnd) == re && Readable(Parse(re).items, Parse(re).atEnd)
    decreases |re|
  {
    if re == "" || re == "$" {
    } else if |re| > 1 && re[1] == '*' {
      PrintParsed(re[2..]);
      assert re == [re[0], '*'] + re[2..];
    } else {
      PrintParsed(re[1..]);
      assert re == [re[0]] + re[1..];
    }
  }
}
