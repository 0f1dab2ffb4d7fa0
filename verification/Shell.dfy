/**
The command language of the shell (sh.c): what its parser accepts, said on strings, and a
printer.  Parsing the printed form of any command gives the command back.
*/
module Shell {

  const MAXARGS: nat := 10

  // ----- characters and tokens

  predicate IsSpace(c: char) {
    c == ' ' || c == '\t' || c == '\r' || c == '\n' || c == '\U{b}'
  }

  predicate IsSymbol(c: char) {
    c == '<' || c == '|' || c == '>' || c == '&' || c == ';' || c == '(' || c == ')'
  }

  lemma Characters(c: char)
    ensures IsSpace(c) <==> c in " \t\r\n\U{b}"
    ensures IsSymbol(c) <==> c in "<|>&;()"
  {
  }

  predicate IsWordChar(c: char) {
    !IsSpace(c) && !IsSymbol(c)
  }

  datatype Token = End | Symbol(c: char) | Append | Word(w: string)

  /* Leading white space dropped. */
  function Trim(s: string): (r: string)
    ensures |r| <= |s| && (r != "" ==> !IsSpace(r[0]))
  {
    if s != "" && IsSpace(s[0]) then Trim(s[1..]) else s
  }

  /* The length of the word at the beginning of s. */
  function WordLength(s: string): (n: nat)
    ensures n <= |s| && (forall i :: 0 <= i < n ==> IsWordChar(s[i])) && (n < |s| ==> !IsWordChar(s[n]))
  {
    if s != "" && IsWordChar(s[0]) then 1 + WordLength(s[1..]) else 0
  }

  /* What gettoken returns for a text without leading white space, and what it leaves. */
  function NextToken(s: string): (Token, string) {
    if s == "" then (End, "")
    else if s[0] == '>' && |s| > 1 && s[1] == '>' then (Append, Trim(s[2..]))
    else if IsSymbol(s[0]) then (Symbol(s[0]), Trim(s[1..]))
    else (Word(s[..WordLength(s)]), Trim(s[WordLength(s)..]))
  }

  /* peek: one of toks comes next. */
  predicate PeekIn(s: string, toks: string) {
    s != "" && s[0] in toks
  }

  // ----- commands

  datatype Kind = Input | Output

  datatype Redirection = Redirection(file: string, kind: Kind)

  datatype Cmd =
    | Exec(args: seq<string>)
    | Redir(cmd: Cmd, r: Redirection)
    | Pipe(left: Cmd, right: Cmd)
    | List(left: Cmd, right: Cmd)
    | Back(cmd: Cmd)

  function Wrap(c: Cmd, rs: seq<Redirection>): Cmd {
    if rs == [] then c else Redir(Wrap(c, rs[..|rs| - 1]), rs[|rs| - 1])
  }

  datatype Error = MissingFile | Syntax | TooManyArgs | NotBlock | MissingParen | Leftovers

  datatype Parsed<T> = Ok(v: T, rest: string) | Err(e: Error)

  // ----- the parser

  /* '>' and '>>' build the same node. */
  function KindOf(t: Token): Kind {
    if t == Symbol('<') then Input else Output
  }

  function ParseRedirs(s: string): (r: Parsed<seq<Redirection>>)
    ensures r.Ok? ==> |r.rest| <= |s|
    decreases |s|
  {
    if PeekIn(s, "<>") then
      var (t, s1) := NextToken(s);
      var (f, s2) := NextToken(s1);
      if !f.Word? then Err(MissingFile)
      else
        var more := ParseRedirs(s2);
        if more.Err? then more else Ok([Redirection(f.w, KindOf(t))] + more.v, more.rest)
    else Ok([], s)
  }

  /* The words after argc others, and the redirections among them. */
  function ParseArgs(argc: nat, s: string): (r: Parsed<(seq<string>, seq<Redirection>)>)
    ensures r.Ok? ==> |r.rest| <= |s|
    decreases |s|
  {
    if PeekIn(s, "|)&;") then Ok(([], []), s)
    else
      var (t, s1) := NextToken(s);
      if t.End? then Ok(([], []), s1)
      else if !t.Word? then Err(Syntax)
      else if argc + 1 >= MAXARGS then Err(TooManyArgs)
      else
        var rs := ParseRedirs(s1);
        if rs.Err? then Err(rs.e)
        else
          var more := ParseArgs(argc + 1, rs.rest);
          if more.Err? then more else Ok(([t.w] + more.v.0, rs.v + more.v.1), more.rest)
  }

  function ParseExec(s: string): (r: Parsed<Cmd>)
    ensures r.Ok? ==> |r.rest| <= |s|
    decreases |s|, 1
  {
    if PeekIn(s, "(") then ParseBlock(s)
    else
      var rs := ParseRedirs(s);
      if rs.Err? then Err(rs.e)
      else
        var more := ParseArgs(0, rs.rest);
        if more.Err? then Err(more.e) else Ok(Wrap(Exec(more.v.0), rs.v + more.v.1), more.rest)
  }

  function ParseBlock(s: string): (r: Parsed<Cmd>)
    ensures r.Ok? ==> |r.rest| <= |s|
    decreases |s|, 0
  {
    if !PeekIn(s, "(") then Err(NotBlock)
    else
      var (t, s1) := NextToken(s);
      var c := ParseLine(s1);
      if c.Err? then c
      else if !PeekIn(c.rest, ")") then Err(MissingParen)
      else
        var (t2, s2) := NextToken(c.rest);
        var rs := ParseRedirs(s2);
        if rs.Err? then Err(rs.e) else Ok(Wrap(c.v, rs.v), rs.rest)
  }

  function ParsePipe(s: string): (r: Parsed<Cmd>)
    ensures r.Ok? ==> |r.rest| <= |s|
    decreases |s|, 2
  {
    var c := ParseExec(s);
    if c.Err? || !PeekIn(c.rest, "|") then c
    else
      var (t, s1) := NextToken(c.rest);
      var d := ParsePipe(s1);
      if d.Err? then d else Ok(Pipe(c.v, d.v), d.rest)
  }

  /* The '&'s after a command. */
  function ParseBacks(c: Cmd, s: string): (r: (Cmd, string))
    ensures |r.1| <= |s|
    decreases |s|
  {
    if PeekIn(s, "&") then ParseBacks(Back(c), NextToken(s).1) else (c, s)
  }

  function ParseLine(s: string): (r: Parsed<Cmd>)
    ensures r.Ok? ==> |r.rest| <= |s|
    decreases |s|, 3
  {
    var c := ParsePipe(s);
    if c.Err? then c
    else
      var (d, s1) := ParseBacks(c.v, c.rest);
      if !PeekIn(s1, ";") then Ok(d, s1)
      else
        var e := ParseLine(NextToken(s1).1);
        if e.Err? then e else Ok(List(d, e.v), e.rest)
  }

  function ParseCmd(s: string): Parsed<Cmd> {
    var c := ParseLine(Trim(s));
    if c.Ok? && c.rest != "" then Err(Leftovers) else c
  }

  // ----- the printer

  function PrintWords(ws: seq<string>): string {
    if ws == [] then "" else ws[0] + " " + PrintWords(ws[1..])
  }

  function PrintRedir(r: Redirection): string {
    (if r.kind == Input then "< " else "> ") + r.file + " "
  }

  function PrintRedirs(rs: seq<Redirection>): string {
    if rs == [] then "" else PrintRedir(rs[0]) + PrintRedirs(rs[1..])
  }

  /* A command that needs no parentheses around it inside a pipeline, or gets them. */
  function PrintAtom(c: Cmd): string
    decreases c, 1
  {
    match c
    case Exec(args) => PrintWords(args)
    case Redir(d, r) => PrintAtom(d) + PrintRedir(r)
    case _ => "( " + PrintInside(c) + ") "
  }

  /* A compound command without parentheses. */
  function PrintInside(c: Cmd): string
    requires c.Pipe? || c.List? || c.Back?
    decreases c, 0
  {
    match c
    case Pipe(l, r) => PrintAtom(l) + "| " + PrintPipe(r)
    case Back(d) => PrintBack(d) + "& "
    case List(l, r) => PrintBack(l) + "; " + PrintLine(r)
  }

  function PrintPipe(c: Cmd): string
    decreases c, 2
  {
    if c.Pipe? then PrintInside(c) else PrintAtom(c)
  }

  function PrintBack(c: Cmd): string
    decreases c, 3
  {
    if c.Back? then PrintInside(c) else PrintPipe(c)
  }

  function PrintLine(c: Cmd): string
    decreases c, 4
  {
    if c.List? then PrintInside(c) else PrintBack(c)
  }

  // ----- commands that can be typed

  predicate LegalWord(w: string) {
    w != "" && forall i :: 0 <= i < |w| ==> IsWordChar(w[i])
  }

  predicate LegalWords(ws: seq<string>) {
    forall i :: 0 <= i < |ws| ==> LegalWord(ws[i])
  }

  predicate Legal(c: Cmd) {
    match c
    case Exec(args) => |args| < MAXARGS && LegalWords(args)
    case Redir(d, r) => Legal(d) && LegalWord(r.file)
    case Pipe(l, r) => Legal(l) && Legal(r)
    case List(l, r) => Legal(l) && Legal(r)
    case Back(d) => Legal(d)
  }

  /* post may follow a phrase: it is empty or starts with one of stops. */
  predicate Follows(post: string, stops: string) {
    post == "" || post[0] in stops
  }

  // ----- reading back what was printed

  lemma {:induction false} WordLengthOf(w: string, post: string)
    requires LegalWord(w) || w == ""
    ensures WordLength(w + " " + post) == |w|
    decreases |w|
  {
    var s := w + " " + post;
    if w == "" {
      assert s[0] == ' ';
    } else {
      assert s[0] == w[0] && s[1..] == w[1..] + " " + post;
      WordLengthOf(w[1..], post);
    }
  }

  predicate Bare(s: string) {
    s == "" || !IsSpace(s[0])
  }

  lemma TrimOne(post: string)
    requires Bare(post)
    ensures Trim(" " + post) == post
  {
    assert (" " + post)[1..] == post;
    assert Trim(post) == post;
  }

  lemma ReadWord(w: string, post: string)
    requires LegalWord(w) && Bare(post)
    ensures NextToken(w + " " + post) == (Word(w), post) && !PeekIn(w + " " + post, "|)&;")
            && !PeekIn(w + " " + post, "<>(")
  {
    var s := w + " " + post;
    WordLengthOf(w, post);
    assert s[..|w|] == w && s[|w|..] == " " + post;
    assert s[0] == w[0] && IsWordChar(w[0]);
    TrimOne(post);
  }

  lemma ReadSymbol(c: char, post: string)
    requires IsSymbol(c) && Bare(post)
    ensures NextToken([c] + " " + post) == (Symbol(c), post)
  {
    var s := [c] + " " + post;
    assert s[1] == ' ' && s[1..] == " " + post;
    TrimOne(post);
  }

  lemma RedirStep(s: string, s1: string, s2: string, f: string, kind: Kind, rs: seq<Redirection>, rest: string)
    requires PeekIn(s, "<>") && NextToken(s) == (Symbol(if kind == Input then '<' else '>'), s1)
             && NextToken(s1) == (Word(f), s2)
    requires ParseRedirs(s2) == Ok(rs, rest)
    ensures ParseRedirs(s) == Ok([Redirection(f, kind)] + rs, rest)
  {
  }

  /* What is printed never starts with white space. */
  lemma RedirsBare(rs: seq<Redirection>, post: string)
    requires Follows(post, "|)&;")
    ensures Bare(PrintRedirs(rs) + post)
  {
    if rs != [] {
      assert (PrintRedirs(rs) + post)[0] == PrintRedir(rs[0])[0];
    } else {
      assert PrintRedirs(rs) + post == post;
    }
  }

  predicate LegalFiles(rs: seq<Redirection>) {
    forall i :: 0 <= i < |rs| ==> LegalWord(rs[i].file)
  }

  lemma RedirsNone(post: string)
    ensures PrintRedirs([]) + post == post
  {
  }

  lemma RedirsCons(rs: seq<Redirection>, post: string)
    requires rs != []
    ensures PrintRedirs(rs) + post ==
            [if rs[0].kind == Input then '<' else '>'] + " " + (rs[0].file + " " + (PrintRedirs(rs[1..]) + post))
  {
    var sym, f, rest := if rs[0].kind == Input then '<' else '>', rs[0].file, PrintRedirs(rs[1..]);
    var head := if rs[0].kind == Input then "< " else "> ";
    assert head == [sym] + " ";
    assert PrintRedirs(rs) + post == head + f + " " + rest + post;
    Regroup(head, f, " ", rest, post);
  }

  lemma Regroup(a: string, b: string, c: string, d: string, e: string)
    ensures a + b + c + d + e == a + (b + c + (d + e))
  {
  }

  lemma {:induction false} ReadRedirs(rs: seq<Redirection>, post: string)
    requires LegalFiles(rs) && Follows(post, "|)&;")
    ensures ParseRedirs(PrintRedirs(rs) + post) == Ok(rs, post)
    decreases |rs|
  {
    hide NextToken;
    hide ParseRedirs;
    hide PrintRedirs;
    if rs == [] {
      RedirsNone(post);
      NoRedirs(post);
    } else {
      var r, rest := rs[0], PrintRedirs(rs[1..]) + post;
      var sym := if r.kind == Input then '<' else '>';
      var s := PrintRedirs(rs) + post;
      RedirsBare(rs[1..], post);
      RedirsCons(rs, post);
      assert (r.file + " " + rest)[0] == r.file[0] && IsWordChar(r.file[0]);
      ReadSymbol(sym, r.file + " " + rest);
      ReadWord(r.file, rest);
      ReadRedirs(rs[1..], post);
      RedirStep(s, r.file + " " + rest, rest, r.file, r.kind, rs[1..], post);
      assert rs == [r] + rs[1..];
    }
  }

  lemma NoRedirs(s: string)
    requires !PeekIn(s, "<>")
    ensures ParseRedirs(s) == Ok([], s)
  {
  }

  lemma ArgsStep(argc: nat, s: string, w: string, s1: string, rs: seq<Redirection>, s2: string, args: seq<string>,
                 rs2: seq<Redirection>, rest: string)
    requires !PeekIn(s, "|)&;") && NextToken(s) == (Word(w), s1) && argc + 1 < MAXARGS
    requires ParseRedirs(s1) == Ok(rs, s2) && ParseArgs(argc + 1, s2) == Ok((args, rs2), rest)
    ensures ParseArgs(argc, s) == Ok(([w] + args, rs + rs2), rest)
  {
  }

  lemma NoArgs(argc: nat, post: string)
    requires Follows(post, "|)&;")
    ensures ParseArgs(argc, post) == Ok(([], []), post)
  {
  }

  /* Words and then redirections. */
  lemma {:induction false} ReadArgs(argc: nat, args: seq<string>, rs: seq<Redirection>, post: string)
    requires 0 < |args| && argc + |args| < MAXARGS && LegalWords(args) && LegalFiles(rs) && Follows(post, "|)&;")
    ensures var s := PrintWords(args) + (PrintRedirs(rs) + post);
            ParseArgs(argc, s) == Ok((args, rs), post) && Bare(s) && !PeekIn(s, "<>(")
    decreases |args|
  {
    hide NextToken;
    hide ParseRedirs;
    hide ParseArgs;
    hide PrintRedirs;
    var tail := PrintRedirs(rs) + post;
    var s, rest := PrintWords(args) + tail, PrintWords(args[1..]) + tail;
    assert s == args[0] + " " + rest;
    assert s[0] == args[0][0] && IsWordChar(args[0][0]);
    if |args| == 1 {
      assert rest == tail;
      RedirsBare(rs, post);
      ReadWord(args[0], rest);
      ReadRedirs(rs, post);
      NoArgs(argc + 1, post);
      ArgsStep(argc, s, args[0], rest, rs, post, [], [], post);
      assert args == [args[0]] + [] && rs + [] == rs;
    } else {
      ReadArgs(argc + 1, args[1..], rs, post);
      ReadWord(args[0], rest);
      NoRedirs(rest);
      ArgsStep(argc, s, args[0], rest, [], rest, args[1..], rs, post);
      assert args == [args[0]] + args[1..] && [] + rs == rs;
    }
  }

  // ----- a command under its redirections

  function Base(c: Cmd): Cmd {
    if c.Redir? then Base(c.cmd) else c
  }

  function RedirList(c: Cmd): seq<Redirection> {
    if c.Redir? then RedirList(c.cmd) + [c.r] else []
  }

  function Size(c: Cmd): (n: nat)
    ensures n > 0
  {
    match c
    case Exec(args) => 1
    case Redir(d, r) => 1 + Size(d)
    case Pipe(l, r) => 1 + Size(l) + Size(r)
    case List(l, r) => 1 + Size(l) + Size(r)
    case Back(d) => 1 + Size(d)
  }

  lemma {:induction false} PrintRedirsSnoc(rs: seq<Redirection>, r: Redirection)
    ensures PrintRedirs(rs + [r]) == PrintRedirs(rs) + PrintRedir(r)
    decreases |rs|
  {
    hide PrintRedir;
    if rs == [] {
      assert ([] + [r])[1..] == [];
    } else {
      PrintRedirsSnoc(rs[1..], r);
      assert (rs + [r])[1..] == rs[1..] + [r];
    }
  }

  lemma {:induction false} Unwrap(c: Cmd)
    ensures Wrap(Base(c), RedirList(c)) == c && !Base(c).Redir?
    ensures PrintAtom(c) == PrintAtom(Base(c)) + PrintRedirs(RedirList(c))
    ensures Legal(c) ==> Legal(Base(c)) && LegalFiles(RedirList(c))
    ensures Size(Base(c)) <= Size(c) && (c.Redir? ==> Size(Base(c)) < Size(c))
  {
    hide PrintRedir;
    if c.Redir? {
      Unwrap(c.cmd);
      PrintRedirsSnoc(RedirList(c.cmd), c.r);
      var rs := RedirList(c);
      assert rs[..|rs| - 1] == RedirList(c.cmd);
    }
  }

  // ----- round trip, level by level

  predicate Compound(c: Cmd) {
    c.Pipe? || c.List? || c.Back?
  }

  lemma ExecOk(c: Cmd, args: seq<string>, rs: seq<Redirection>, post: string)
    requires |args| < MAXARGS && LegalWords(args) && LegalFiles(rs) && Follows(post, "|)&;")
             && c == Wrap(Exec(args), rs)
    ensures var s := PrintWords(args) + (PrintRedirs(rs) + post); ParseExec(s) == Ok(c, post) && Bare(s)
  {
    hide NextToken;
    hide ParseRedirs;
    hide ParseArgs;
    var tail := PrintRedirs(rs) + post;
    var s := PrintWords(args) + tail;
    if args == [] {
      assert s == tail;
      RedirsBare(rs, post);
      ReadRedirs(rs, post);
      NoArgs(0, post);
      RedirsFirst(rs, post);
      assert rs + [] == rs;
    } else {
      ReadArgs(0, args, rs, post);
      NoRedirs(s);
      assert [] + rs == rs;
    }
  }

  lemma RedirsFirst(rs: seq<Redirection>, post: string)
    requires Follows(post, "|)&;")
    ensures !PeekIn(PrintRedirs(rs) + post, "(")
  {
    hide ParseRedirs;
    if rs != [] {
      RedirsCons(rs, post);
    } else {
      RedirsNone(post);
    }
  }

  lemma BlockStep(s: string, s1: string, c: Cmd, s2: string, s3: string, rs: seq<Redirection>, post: string)
    requires PeekIn(s, "(") && NextToken(s) == (Symbol('('), s1) && ParseLine(s1) == Ok(c, s2)
    requires PeekIn(s2, ")") && NextToken(s2) == (Symbol(')'), s3) && ParseRedirs(s3) == Ok(rs, post)
    ensures ParseExec(s) == Ok(Wrap(c, rs), post)
  {
    hide ParseLine;
    hide ParseRedirs;
    hide NextToken;
  }

  lemma BlockShape(inside: string, tail: string)
    ensures "( " + inside + ") " + tail == ['('] + " " + (inside + (")" + " " + tail))
  {
  }

  lemma AtomOk(c: Cmd, post: string)
    requires Legal(c) && Follows(post, "|)&;")
    ensures var s := PrintAtom(c) + post; ParseExec(s) == Ok(c, post) && Bare(s)
    decreases Size(c), if Compound(c) then 5 else 0
  {
    hide ParseExec;
    hide ParseLine;
    hide NextToken;
    hide PrintRedirs;
    hide PrintInside;
    var base, rs := Base(c), RedirList(c);
    Unwrap(c);
    var tail := PrintRedirs(rs) + post;
    assert PrintAtom(c) + post == PrintAtom(base) + tail;
    if base.Exec? {
      ExecOk(c, base.args, rs, post);
    } else {
      var inside, s2 := PrintInside(base), ")" + " " + tail;
      assert PrintAtom(base) + tail == "( " + inside + ") " + tail;
      BlockShape(inside, tail);
      RedirsBare(rs, post);
      LineOk(base, s2);
      InsideIsLine(base);
      ReadSymbol('(', inside + s2);
      ReadSymbol(')', tail);
      ReadRedirs(rs, post);
      BlockStep(PrintAtom(c) + post, inside + s2, base, s2, tail, rs, post);
    }
  }

  lemma InsideIsLine(c: Cmd)
    requires Compound(c)
    ensures PrintLine(c) == PrintInside(c)
  {
    if c.Pipe? {
      assert PrintPipe(c) == PrintInside(c);
      assert PrintBack(c) == PrintPipe(c);
    } else if c.Back? {
      assert PrintBack(c) == PrintInside(c);
    }
  }

  lemma PipeStep(s: string, l: Cmd, s1: string, s2: string, r: Cmd, post: string)
    requires ParseExec(s) == Ok(l, s1) && PeekIn(s1, "|") && NextToken(s1) == (Symbol('|'), s2)
             && ParsePipe(s2) == Ok(r, post)
    ensures ParsePipe(s) == Ok(Pipe(l, r), post)
  {
    hide ParseExec;
    hide NextToken;
  }

  lemma PipeOk(c: Cmd, post: string)
    requires Legal(c) && Follows(post, ")&;")
    ensures var s := PrintPipe(c) + post; ParsePipe(s) == Ok(c, post) && Bare(s)
    decreases Size(c), if c.Pipe? || !Compound(c) then 1 else 6
  {
    hide ParseExec;
    hide NextToken;
    hide PrintAtom;
    if c.Pipe? {
      var rest := PrintPipe(c.right) + post;
      PipeOk(c.right, post);
      var s1 := ['|'] + " " + rest;
      assert PrintPipe(c) + post == PrintAtom(c.left) + s1 by { PipeShape(PrintAtom(c.left), PrintPipe(c.right),
                                                                          post); }
      AtomOk(c.left, s1);
      ReadSymbol('|', rest);
      PipeStep(PrintPipe(c) + post, c.left, s1, rest, c.right, post);
    } else {
      AtomOk(c, post);
    }
  }

  lemma PipeShape(l: string, r: string, post: string)
    ensures l + "| " + r + post == l + (['|'] + " " + (r + post))
  {
  }

  /* After the pipeline of c come its '&'s. */
  lemma BackOk(c: Cmd, post: string)
    requires Legal(c) && Follows(post, ")&;")
    ensures var s := PrintBack(c) + post;
            var p := ParsePipe(s); p.Ok? && ParseBacks(p.v, p.rest) == ParseBacks(c, post) && Bare(s)
    decreases Size(c), if c.List? then 7 else 2
  {
    hide ParsePipe;
    hide NextToken;
    hide PrintAtom;
    hide PrintPipe;
    if c.Back? {
      var post1 := ['&'] + " " + post;
      assert PrintBack(c) + post == PrintBack(c.cmd) + post1 by { BackShape(PrintBack(c.cmd), post); }
      BackOk(c.cmd, post1);
      FollowsBare(post, ")&;");
      ReadSymbol('&', post);
    } else {
      PipeOk(c, post);
    }
  }

  lemma BackShape(l: string, post: string)
    ensures l + "& " + post == l + (['&'] + " " + post)
  {
  }

  lemma FollowsBare(post: string, stops: string)
    requires Follows(post, stops) && stops == ")&;"
    ensures Bare(post)
  {
  }

  lemma LineStep(s: string, c: Cmd, s1: string, d: Cmd, post: string)
    requires ParsePipe(s).Ok? && ParseBacks(ParsePipe(s).v, ParsePipe(s).rest) == (c, s1)
    requires if PeekIn(s1, ";") then ParseLine(NextToken(s1).1) == Ok(d, post) else c == d && s1 == post
    ensures ParseLine(s) == Ok(if PeekIn(s1, ";") then List(c, d) else d, post)
  {
    hide ParsePipe;
    hide NextToken;
  }

  lemma LineOk(c: Cmd, post: string)
    requires Legal(c) && Follows(post, ")")
    ensures var s := PrintLine(c) + post; ParseLine(s) == Ok(c, post) && Bare(s)
    decreases Size(c), 3
  {
    hide ParsePipe;
    hide ParseLine;
    hide NextToken;
    hide PrintAtom;
    hide PrintPipe;
    if c.List? {
      var rest := PrintLine(c.right) + post;
      LineOk(c.right, post);
      var s1 := [';'] + " " + rest;
      assert PrintLine(c) + post == PrintBack(c.left) + s1 by { ListShape(PrintBack(c.left), PrintLine(c.right),
                                                                          post); }
      BackOk(c.left, s1);
      ReadSymbol(';', rest);
      LineStep(PrintLine(c) + post, c.left, s1, c.right, post);
    } else {
      BackOk(c, post);
      LineStep(PrintLine(c) + post, c, post, c, post);
    }
  }

  lemma ListShape(l: string, r: string, post: string)
    ensures l + "; " + r + post == l + ([';'] + " " + (r + post))
  {
  }

  /* Parsing is the inverse of printing, for every command of legal words with at most
     MAXARGS - 1 arguments. */
  lemma RoundTrip(c: Cmd)
    requires Legal(c)
    ensures ParseCmd(PrintLine(c)) == Ok(c, "")
  {
    hide ParseLine;
    LineOk(c, "");
    assert PrintLine(c) + "" == PrintLine(c);
  }
}
