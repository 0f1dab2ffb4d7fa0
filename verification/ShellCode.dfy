/**
The parser of sh.c as it runs: a cursor into the line, words as pairs of positions, loops
over tokens; and nulterminate, which writes into the line.  The parser agrees with the
language of the module Shell on every input, and nulterminate damages no word.
*/
module ShellCode {
  import opened Shell

  /* A word: the positions of its first character and of the one after its last. */
  datatype Span = Span(q: nat, eq: nat)

  datatype Node =
    | ExecNode(argv: seq<Span>)
    | RedirNode(cmd: Node, file: Span, kind: Kind)
    | PipeNode(left: Node, right: Node)
    | ListNode(left: Node, right: Node)
    | BackNode(cmd: Node)

  datatype File = File(span: Span, kind: Kind)

  datatype Outcome<T> = Good(v: T, at: nat) | Bad(e: Error)

  // ----- what positions mean

  function Text(buf: string, sp: Span): string {
    if sp.q <= sp.eq <= |buf| then buf[sp.q..sp.eq] else ""
  }

  function Texts(buf: string, sps: seq<Span>): seq<string> {
    if sps == [] then [] else Texts(buf, sps[..|sps| - 1]) + [Text(buf, sps[|sps| - 1])]
  }

  function Files(buf: string, fs: seq<File>): seq<Redirection> {
    if fs == [] then []
    else Files(buf, fs[..|fs| - 1]) + [Redirection(Text(buf, fs[|fs| - 1].span), fs[|fs| - 1].kind)]
  }

  /* The command a tree of positions stands for. */
  function Reads(buf: string, n: Node): Cmd {
    match n
    case ExecNode(argv) => Exec(Texts(buf, argv))
    case RedirNode(m, f, k) => Redir(Reads(buf, m), Redirection(Text(buf, f), k))
    case PipeNode(l, r) => Pipe(Reads(buf, l), Reads(buf, r))
    case ListNode(l, r) => List(Reads(buf, l), Reads(buf, r))
    case BackNode(m) => Back(Reads(buf, m))
  }

  /* A word runs from a word character up to the first that is none. */
  predicate SpanOk(buf: string, sp: Span) {
    && sp.q < sp.eq <= |buf| && (sp.eq < |buf| ==> !IsWordChar(buf[sp.eq]))
    && forall i :: sp.q <= i < sp.eq ==> IsWordChar(buf[i])
  }

  predicate SpansOk(buf: string, sps: seq<Span>) {
    forall i :: 0 <= i < |sps| ==> SpanOk(buf, sps[i])
  }

  predicate FilesOk(buf: string, fs: seq<File>) {
    forall i :: 0 <= i < |fs| ==> SpanOk(buf, fs[i].span)
  }

  predicate NodeOk(buf: string, n: Node) {
    match n
    case ExecNode(argv) => SpansOk(buf, argv)
    case RedirNode(m, f, k) => NodeOk(buf, m) && SpanOk(buf, f)
    case PipeNode(l, r) => NodeOk(buf, l) && NodeOk(buf, r)
    case ListNode(l, r) => NodeOk(buf, l) && NodeOk(buf, r)
    case BackNode(m) => NodeOk(buf, m)
  }

  /* The outcome at a cursor is the outcome on the text from there on. */
  ghost predicate Agrees(buf: string, i: nat, o: Outcome<Node>, p: Parsed<Cmd>) {
    match p
    case Err(e) => o == Bad(e)
    case Ok(c, rest) =>
      o.Good? && i <= o.at <= |buf| && buf[o.at..] == Ahead(buf, o.at) == rest && Reads(buf, o.v) == c
      && NodeOk(buf, o.v)
  }

  // ----- tokens

  lemma TrimStep(buf: string, i: nat)
    requires i < |buf| && IsSpace(buf[i])
    ensures Trim(buf[i..]) == Trim(buf[i + 1..])
  {
    assert buf[i..][1..] == buf[i + 1..];
  }

  method SkipSpace(buf: string, i: nat) returns (j: nat)
    requires i <= |buf|
    ensures i <= j <= |buf| && buf[j..] == Trim(buf[i..]) && (j < |buf| ==> !IsSpace(buf[j]))
  {
    j := i;
    while j < |buf| && IsSpace(buf[j])
      invariant i <= j <= |buf| && Trim(buf[j..]) == Trim(buf[i..])
    {
      TrimStep(buf, j);
      j := j + 1;
    }
  }

  /* What is ahead of a cursor. */
  function Ahead(buf: string, i: nat): string
    requires i <= |buf|
  {
    Trim(buf[i..])
  }

  lemma TrimTwice(s: string)
    ensures Trim(Trim(s)) == Trim(s)
  {
  }

  method Peek(buf: string, i: nat, toks: string) returns (j: nat, b: bool)
    requires i <= |buf|
    ensures i <= j <= |buf| && buf[j..] == Ahead(buf, j) == Ahead(buf, i) && (b <==> PeekIn(Ahead(buf, i), toks))
  {
    j := SkipSpace(buf, i);
    TrimTwice(buf[i..]);
    b := j < |buf| && buf[j] in toks;
  }

  /* What gettoken returns for a token. */
  function Code(t: Token): char {
    match t
    case End => '\0'
    case Symbol(c) => c
    case Append => '+'
    case Word(w) => 'a'
  }

  lemma {:induction false} WordLengthAt(buf: string, q: nat, eq: nat)
    requires q <= eq <= |buf| && (forall i :: q <= i < eq ==> IsWordChar(buf[i]))
             && (eq < |buf| ==> !IsWordChar(buf[eq]))
    ensures WordLength(buf[q..]) == eq - q
    decreases eq - q
  {
    if q < eq {
      WordLengthAt(buf, q + 1, eq);
      assert buf[q..][1..] == buf[q + 1..] && buf[q..][0] == buf[q];
    }
  }

  lemma WordAt(buf: string, sp: Span)
    requires SpanOk(buf, sp)
    ensures NextToken(buf[sp.q..]) == (Word(Text(buf, sp)), Trim(buf[sp.eq..]))
  {
    var s, n := buf[sp.q..], sp.eq - sp.q;
    WordLengthAt(buf, sp.q, sp.eq);
    assert s[0] == buf[sp.q] && IsWordChar(buf[sp.q]);
    assert s[..n] == buf[sp.q..sp.eq] && s[n..] == buf[sp.eq..];
  }

  /* The token at position q, which is not white space, when it is no word. */
  lemma SymbolAt(buf: string, q: nat)
    requires q <= |buf|
    ensures q == |buf| ==> NextToken(buf[q..]) == (End, "")
    ensures q < |buf| && IsSymbol(buf[q]) ==>
              NextToken(buf[q..]) == if buf[q] == '>' && q + 1 < |buf|
              && buf[q + 1] == '>' then (Append, Trim(buf[q + 2..]))
                                     else (Symbol(buf[q]), Trim(buf[q + 1..]))
  {
    var s := buf[q..];
    if q < |buf| {
      assert s[1..] == buf[q + 1..];
      if q + 1 < |buf| {
        assert s[2..] == buf[q + 2..] && s[1] == buf[q + 1];
      }
    }
  }

  method Gettoken(buf: string, i: nat) returns (ret: char, sp: Span, j: nat)
    requires i <= |buf|
    ensures var (t, rest) := NextToken(Ahead(buf, i));
            && ret == Code(t) && (ret == 'a' <==> t.Word?) && (ret == '\0' <==> t.End?)
            && i <= j <= |buf| && buf[j..] == Ahead(buf, j) == rest
            && (t.Word? ==> SpanOk(buf, sp) && Text(buf, sp) == t.w)
            && (!t.End? ==> i < j)
  {
    hide NextToken;
    hide Trim;
    var s := SkipSpace(buf, i);
    var q := s;
    SymbolAt(buf, q);
    if s == |buf| {
      ret := '\0';
    } else if buf[s] == '>' {
      ret := '>';
      s := s + 1;
      if s < |buf| && buf[s] == '>' {
        ret := '+';
        s := s + 1;
      }
    } else if IsSymbol(buf[s]) {
      ret := buf[s];
      s := s + 1;
    } else {
      ret := 'a';
      while s < |buf| && !IsSpace(buf[s]) && !IsSymbol(buf[s])
        invariant q <= s <= |buf| && (forall k :: q <= k < s ==> IsWordChar(buf[k]))
        invariant s == q ==> q < |buf| && IsWordChar(buf[q])
      {
        s := s + 1;
      }
      WordAt(buf, Span(q, s));
    }
    sp := Span(q, s);
    j := SkipSpace(buf, s);
    TrimTwice(buf[s..]);
    TrimEnd(buf);
  }

  lemma TrimEnd(buf: string)
    ensures Trim(buf[|buf|..]) == ""
  {
  }

  // ----- redirections

  function Prepend(rs: seq<Redirection>, p: Parsed<seq<Redirection>>): Parsed<seq<Redirection>> {
    if p.Err? then p else Ok(rs + p.v, p.rest)
  }

  ghost predicate AgreesFiles(buf: string, i: nat, o: Outcome<seq<File>>, p: Parsed<seq<Redirection>>) {
    match p
    case Err(e) => o == Bad(e)
    case Ok(rs, rest) =>
      && o.Good? && i <= o.at <= |buf| && buf[o.at..] == Ahead(buf, o.at) == rest
      && Files(buf, o.v) == rs && FilesOk(buf, o.v)
  }

  /* One round of the loop of parseredirs. */
  lemma RedirsRound(s: string, rs: seq<Redirection>, f: string, s1: string, s2: string, t: Token)
    requires PeekIn(s, "<>") && NextToken(s) == (t, s1) && NextToken(s1) == (Word(f), s2)
    ensures Prepend(rs, ParseRedirs(s)) == Prepend(rs + [Redirection(f, KindOf(t))], ParseRedirs(s2))
  {
    var more := ParseRedirs(s2);
    if more.Ok? {
      assert rs + ([Redirection(f, KindOf(t))] + more.v) == rs + [Redirection(f, KindOf(t))] + more.v;
    }
  }

  method Parseredirs(buf: string, i: nat) returns (o: Outcome<seq<File>>)
    requires i <= |buf|
    ensures AgreesFiles(buf, i, o, ParseRedirs(Ahead(buf, i)))
  {
    hide NextToken;
    hide Ahead;
    hide SpanOk;
    var fs: seq<File>, j := [], i;
    assert Prepend([],
                   ParseRedirs(Ahead(buf, i))) == ParseRedirs(Ahead(buf,
                                                                    i)) by { PrependNone(ParseRedirs(Ahead(buf, i))); }
    while true
      invariant i <= j <= |buf| && FilesOk(buf, fs)
      invariant ParseRedirs(Ahead(buf, i)) == Prepend(Files(buf, fs), ParseRedirs(Ahead(buf, j)))
      decreases |buf| - j
    {
      var b, tok, ret, sp;
      j, b := Peek(buf, j, "<>");
      if !b {
        NoRedirs(Ahead(buf, j));
        assert Files(buf, fs) + [] == Files(buf, fs);
        return Good(fs, j);
      }
      ghost var s0 := Ahead(buf, j);
      TokenThere(s0);
      tok, sp, j := Gettoken(buf, j);
      ghost var s1 := Ahead(buf, j);
      ret, sp, j := Gettoken(buf, j);
      if ret != 'a' {
        MissingFileThere(s0, s1);
        return Bad(MissingFile);
      }
      var kind := if tok == '<' then Input else Output;
      RedirsRound(s0, Files(buf, fs), Text(buf, sp), s1, Ahead(buf, j), NextToken(s0).0);
      CodeKind(s0);
      ghost var fs0 := fs;
      fs := fs + [File(sp, kind)];
      assert fs[..|fs| - 1] == fs0;
    }
  }

  lemma PrependNone(p: Parsed<seq<Redirection>>)
    ensures Prepend([], p) == p
  {
    if p.Ok? {
      assert [] + p.v == p.v;
    }
  }

  lemma TokenThere(s: string)
    requires s != ""
    ensures !NextToken(s).0.End?
  {
  }

  lemma MissingFileThere(s: string, s1: string)
    requires PeekIn(s, "<>") && NextToken(s).1 == s1 && !NextToken(s1).0.Word?
    ensures ParseRedirs(s) == Err(MissingFile)
  {
  }

  lemma CodeKind(s: string)
    requires PeekIn(s, "<>")
    ensures KindOf(NextToken(s).0) == if Code(NextToken(s).0) == '<' then Input else Output
  {
  }

  // ----- words

  function WrapNode(n: Node, fs: seq<File>): Node {
    if fs == [] then n else RedirNode(WrapNode(n, fs[..|fs| - 1]), fs[|fs| - 1].span, fs[|fs| - 1].kind)
  }

  lemma {:induction false} WrapReads(buf: string, n: Node, fs: seq<File>)
    requires NodeOk(buf, n) && FilesOk(buf, fs)
    ensures Reads(buf, WrapNode(n, fs)) == Wrap(Reads(buf, n), Files(buf, fs)) && NodeOk(buf, WrapNode(n, fs))
    decreases |fs|
  {
    hide SpanOk;
    if fs != [] {
      WrapReads(buf, n, fs[..|fs| - 1]);
      var rs := Files(buf, fs);
      assert rs[..|rs| - 1] == Files(buf, fs[..|fs| - 1]);
    }
  }

  lemma {:induction false} FilesConcat(buf: string, fs: seq<File>, gs: seq<File>)
    ensures Files(buf, fs + gs) == Files(buf, fs) + Files(buf, gs)
    decreases |gs|
  {
    if gs == [] {
      assert fs + gs == fs;
    } else {
      FilesConcat(buf, fs, gs[..|gs| - 1]);
      assert (fs + gs)[..|fs + gs| - 1] == fs + gs[..|gs| - 1];
    }
  }

  function PrependArgs(args: seq<string>, rs: seq<Redirection>, p: Parsed<(seq<string>, seq<Redirection>)>):
    Parsed<(seq<string>, seq<Redirection>)>
  {
    if p.Err? then p else Ok((args + p.v.0, rs + p.v.1), p.rest)
  }

  lemma PrependArgsNone(p: Parsed<(seq<string>, seq<Redirection>)>)
    ensures PrependArgs([], [], p) == p
  {
    if p.Ok? {
      assert [] + p.v.0 == p.v.0 && [] + p.v.1 == p.v.1;
    }
  }

  /* One round of the loop of parseexec. */
  lemma ArgsRound(argc: nat, s: string, args: seq<string>, rs: seq<Redirection>, w: string, s1: string,
                  rs1: seq<Redirection>, s2: string)
    requires !PeekIn(s, "|)&;") && NextToken(s) == (Word(w), s1) && argc + 1 < MAXARGS && ParseRedirs(s1) == Ok(rs1, s2)
    ensures PrependArgs(args, rs, ParseArgs(argc, s)) == PrependArgs(args + [w], rs + rs1, ParseArgs(argc + 1, s2))
  {
    hide NextToken;
    hide ParseRedirs;
    var more := ParseArgs(argc + 1, s2);
    if more.Ok? {
      assert args + ([w] + more.v.0) == args + [w] + more.v.0 && rs + (rs1 + more.v.1) == rs + rs1 + more.v.1;
    }
  }

  /* How the loop of parseexec ends. */
  lemma ArgsEnd(argc: nat, s: string)
    ensures PeekIn(s, "|)&;") ==> ParseArgs(argc, s) == Ok(([], []), s)
    ensures !PeekIn(s, "|)&;") && NextToken(s).0.End? ==> ParseArgs(argc, s) == Ok(([], []), NextToken(s).1)
    ensures !PeekIn(s, "|)&;") && !NextToken(s).0.End? && !NextToken(s).0.Word? ==> ParseArgs(argc, s) == Err(Syntax)
    ensures !PeekIn(s, "|)&;") && NextToken(s).0.Word? && argc + 1 >= MAXARGS ==> ParseArgs(argc, s) == Err(TooManyArgs)
    ensures !PeekIn(s, "|)&;") && NextToken(s).0.Word? && argc + 1 < MAXARGS && ParseRedirs(NextToken(s).1).Err? ==>
              ParseArgs(argc, s) == Err(ParseRedirs(NextToken(s).1).e)
  {
    hide NextToken;
    hide ParseRedirs;
  }

  datatype Words = Words(argv: seq<Span>, files: seq<File>)

  ghost predicate AgreesArgs(buf: string, i: nat, o: Outcome<Words>, p: Parsed<(seq<string>, seq<Redirection>)>) {
    match p
    case Err(e) => o == Bad(e)
    case Ok(v, rest) =>
      && o.Good? && i <= o.at <= |buf| && buf[o.at..] == Ahead(buf, o.at) == rest && Texts(buf, o.v.argv) == v.0
         && Files(buf, o.v.files) == v.1
      && SpansOk(buf, o.v.argv) && FilesOk(buf, o.v.files)
  }

  /* The loop of parseexec. */
  method Parseargs(buf: string, i: nat) returns (o: Outcome<Words>)
    requires i <= |buf|
    ensures AgreesArgs(buf, i, o, ParseArgs(0, Ahead(buf, i)))
  {
    hide NextToken;
    hide ParseRedirs;
    hide ParseArgs;
    hide Ahead;
    hide SpanOk;
    var argv: seq<Span>, fs: seq<File>, argc, j := [], [], 0, i;
    PrependArgsNone(ParseArgs(0, Ahead(buf, i)));
    while true
      invariant i <= j <= |buf| && SpansOk(buf, argv) && FilesOk(buf, fs) && argc == |argv| < MAXARGS
      invariant ParseArgs(0, Ahead(buf, i)) == PrependArgs(Texts(buf, argv), Files(buf, fs),
                                                           ParseArgs(argc, Ahead(buf, j)))
      decreases |buf| - j
    {
      var b, tok, sp;
      j, b := Peek(buf, j, "|)&;");
      ghost var s := Ahead(buf, j);
      ArgsEnd(argc, s);
      if b {
        assert Texts(buf, argv) + [] == Texts(buf, argv) && Files(buf, fs) + [] == Files(buf, fs);
        return Good(Words(argv, fs), j);
      }
      tok, sp, j := Gettoken(buf, j);
      if tok == '\0' {
        assert Texts(buf, argv) + [] == Texts(buf, argv) && Files(buf, fs) + [] == Files(buf, fs);
        return Good(Words(argv, fs), j);
      }
      if tok != 'a' {
        return Bad(Syntax);
      }
      ghost var argv0 := argv;
      argv := argv + [sp];
      assert argv[..|argv| - 1] == argv0;
      argc := argc + 1;
      if argc >= MAXARGS {
        return Bad(TooManyArgs);
      }
      var r := Parseredirs(buf, j);
      if r.Bad? {
        return Bad(r.e);
      }
      ArgsRound(argc - 1, s, Texts(buf, argv0), Files(buf, fs), Text(buf, sp), Ahead(buf, j), Files(buf, r.v),
                Ahead(buf, r.at));
      FilesConcat(buf, fs, r.v);
      fs, j := fs + r.v, r.at;
    }
  }

  // ----- commands

  method Parseexec(buf: string, i: nat) returns (o: Outcome<Node>)
    requires i <= |buf|
    ensures Agrees(buf, i, o, ParseExec(Ahead(buf, i)))
    decreases |buf| - i, 1
  {
    hide NextToken;
    hide ParseRedirs;
    hide ParseArgs;
    hide ParseBlock;
    hide Ahead;
    hide SpanOk;
    hide Texts;
    var j, b := Peek(buf, i, "(");
    if b {
      o := Parseblock(buf, j);
      return;
    }
    var r := Parseredirs(buf, j);
    if r.Bad? {
      return Bad(r.e);
    }
    var w := Parseargs(buf, r.at);
    if w.Bad? {
      return Bad(w.e);
    }
    FilesConcat(buf, r.v, w.v.files);
    WrapReads(buf, ExecNode(w.v.argv), r.v + w.v.files);
    return Good(WrapNode(ExecNode(w.v.argv), r.v + w.v.files), w.at);
  }

  method Parseblock(buf: string, i: nat) returns (o: Outcome<Node>)
    requires i <= |buf|
    ensures Agrees(buf, i, o, ParseBlock(Ahead(buf, i)))
    decreases |buf| - i, 0
  {
    hide NextToken;
    hide ParseRedirs;
    hide ParseLine;
    hide Ahead;
    hide NodeOk;
    hide Reads;
    var j, b := Peek(buf, i, "(");
    if !b {
      return Bad(NotBlock);
    }
    TokenThere(Ahead(buf, j));
    var tok, sp;
    tok, sp, j := Gettoken(buf, j);
    var c := Parseline(buf, j);
    if c.Bad? {
      return c;
    }
    j, b := Peek(buf, c.at, ")");
    if !b {
      return Bad(MissingParen);
    }
    TokenThere(Ahead(buf, j));
    tok, sp, j := Gettoken(buf, j);
    var r := Parseredirs(buf, j);
    if r.Bad? {
      return Bad(r.e);
    }
    WrapReads(buf, c.v, r.v);
    return Good(WrapNode(c.v, r.v), r.at);
  }

  method Parsepipe(buf: string, i: nat) returns (o: Outcome<Node>)
    requires i <= |buf|
    ensures Agrees(buf, i, o, ParsePipe(Ahead(buf, i)))
    decreases |buf| - i, 2
  {
    hide NextToken;
    hide ParseExec;
    hide Ahead;
    var c := Parseexec(buf, i);
    if c.Bad? {
      return c;
    }
    var j, b := Peek(buf, c.at, "|");
    if !b {
      return Good(c.v, j);
    }
    TokenThere(Ahead(buf, j));
    var tok, sp;
    tok, sp, j := Gettoken(buf, j);
    var d := Parsepipe(buf, j);
    if d.Bad? {
      return d;
    }
    return Good(PipeNode(c.v, d.v), d.at);
  }

  lemma BacksRound(c: Cmd, s: string)
    requires PeekIn(s, "&")
    ensures ParseBacks(c, s) == ParseBacks(Back(c), NextToken(s).1)
  {
  }

  lemma BacksEnd(c: Cmd, s: string)
    requires !PeekIn(s, "&")
    ensures ParseBacks(c, s) == (c, s)
  {
  }

  lemma LineIs(s: string, c: Cmd, s1: string, d: Cmd, s2: string)
    requires ParsePipe(s) == Ok(c, s1) && ParseBacks(c, s1) == (d, s2)
    ensures ParseLine(s) ==
            if !PeekIn(s2, ";") then Ok(d, s2)
            else if ParseLine(NextToken(s2).1).Err? then ParseLine(NextToken(s2).1)
            else Ok(List(d, ParseLine(NextToken(s2).1).v), ParseLine(NextToken(s2).1).rest)
  {
    hide NextToken;
    hide ParsePipe;
    hide ParseBacks;
  }

  lemma LineFails(s: string)
    requires ParsePipe(s).Err?
    ensures ParseLine(s) == ParsePipe(s)
  {
  }

  method Parseline(buf: string, i: nat) returns (o: Outcome<Node>)
    requires i <= |buf|
    ensures Agrees(buf, i, o, ParseLine(Ahead(buf, i)))
    decreases |buf| - i, 3
  {
    hide NextToken;
    hide ParsePipe;
    hide ParseLine;
    hide ParseBacks;
    hide Ahead;
    var c := Parsepipe(buf, i);
    ghost var s, p := Ahead(buf, i), ParsePipe(Ahead(buf, i));
    if c.Bad? {
      LineFails(s);
      return c;
    }
    var cmd, j, b, tok, sp := c.v, c.at, true, '&', Span(0, 0);
    j, b := Peek(buf, j, "&");
    while b
      invariant i <= j <= |buf| && NodeOk(buf, cmd) && (b <==> PeekIn(Ahead(buf, j), "&")) && buf[j..] == Ahead(buf, j)
      invariant ParseBacks(p.v, p.rest) == ParseBacks(Reads(buf, cmd), Ahead(buf, j))
      decreases |buf| - j
    {
      BacksRound(Reads(buf, cmd), Ahead(buf, j));
      TokenThere(Ahead(buf, j));
      tok, sp, j := Gettoken(buf, j);
      cmd := BackNode(cmd);
      j, b := Peek(buf, j, "&");
    }
    BacksEnd(Reads(buf, cmd), Ahead(buf, j));
    LineIs(s, p.v, p.rest, Reads(buf, cmd), Ahead(buf, j));
    j, b := Peek(buf, j, ";");
    if !b {
      return Good(cmd, j);
    }
    TokenThere(Ahead(buf, j));
    tok, sp, j := Gettoken(buf, j);
    var d := Parseline(buf, j);
    if d.Bad? {
      return d;
    }
    return Good(ListNode(cmd, d.v), d.at);
  }

  /* parsecmd without nulterminate: on every line it stops with the command the language
     gives it, or with its error, and all the words it has found are whole words. */
  method Parsecmd(buf: string) returns (o: Outcome<Node>)
    ensures match ParseCmd(buf)
            case Err(e) => o == Bad(e)
            case Ok(c, rest) => o.Good? && Reads(buf, o.v) == c && NodeOk(buf, o.v)
  {
    hide ParseLine;
    hide Reads;
    hide NodeOk;
    assert buf[0..] == buf;
    o := Parseline(buf, 0);
    if o.Good? {
      var j, b := Peek(buf, o.at, "");
      if j != |buf| {
        return Bad(Leftovers);
      }
    }
  }

  // ----- nulterminate

  /* Where nulterminate writes. */
  function Ends(n: Node): set<nat> {
    match n
    case ExecNode(argv) => set i | 0 <= i < |argv| :: argv[i].eq
    case RedirNode(m, f, k) => Ends(m) + {f.eq}
    case PipeNode(l, r) => Ends(l) + Ends(r)
    case ListNode(l, r) => Ends(l) + Ends(r)
    case BackNode(m) => Ends(m)
  }

  /* All words of a command tree. */
  predicate HasSpan(n: Node, sp: Span) {
    match n
    case ExecNode(argv) => sp in argv
    case RedirNode(m, f, k) => HasSpan(m, sp) || sp == f
    case PipeNode(l, r) => HasSpan(l, sp) || HasSpan(r, sp)
    case ListNode(l, r) => HasSpan(l, sp) || HasSpan(r, sp)
    case BackNode(m) => HasSpan(m, sp)
  }

  method Nulterminate(a: array<char>, n: Node, ghost buf: string)
    requires NodeOk(buf, n) && a.Length == |buf| + 1
    modifies a
    ensures forall k :: 0 <= k < a.Length ==> a[k] == if k in Ends(n) then '\0' else old(a[k])
  {
    match n
    case ExecNode(argv) =>
      var i := 0;
      while i < |argv|
        invariant 0 <= i <= |argv|
        invariant forall k :: 0 <= k < a.Length ==>
                    a[k] == if exists j :: 0 <= j < i && argv[j].eq == k then '\0' else old(a[k])
      {
        a[argv[i].eq] := '\0';
        i := i + 1;
      }
    case RedirNode(m, f, k) =>
      Nulterminate(a, m, buf);
      a[f.eq] := '\0';
    case PipeNode(l, r) =>
      Nulterminate(a, l, buf);
      Nulterminate(a, r, buf);
    case ListNode(l, r) =>
      Nulterminate(a, l, buf);
      Nulterminate(a, r, buf);
    case BackNode(m) =>
      Nulterminate(a, m, buf);
  }

  /* The string that starts at q in memory. */
  function CString(mem: string, q: nat): string
    requires q <= |mem|
    decreases |mem| - q
  {
    if q == |mem| || mem[q] == '\0' then "" else [mem[q]] + CString(mem, q + 1)
  }

  predicate NoNul(s: string) {
    forall i :: 0 <= i < |s| ==> s[i] != '\0'
  }

  lemma {:induction false} CStringIs(mem: string, q: nat, eq: nat)
    requires q <= eq < |mem| && mem[eq] == '\0' && forall i :: q <= i < eq ==> mem[i] != '\0'
    ensures CString(mem, q) == mem[q..eq]
    decreases eq - q
  {
    if q < eq {
      CStringIs(mem, q + 1, eq);
      assert mem[q..eq] == [mem[q]] + mem[q + 1..eq];
    }
  }

  /* A place where nulterminate writes is the end of the line or holds no word character. */
  lemma EndsOutside(buf: string, n: Node, k: nat)
    requires NodeOk(buf, n) && k in Ends(n)
    ensures k <= |buf| && (k < |buf| ==> !IsWordChar(buf[k]))
  {
  }

  lemma SpanIn(buf: string, n: Node, sp: Span)
    requires NodeOk(buf, n) && HasSpan(n, sp)
    ensures SpanOk(buf, sp) && sp.eq in Ends(n)
  {
    hide SpanOk;
  }

  /* After nulterminate every word of the tree reads as exactly the token that was parsed. */
  lemma WordsIntact(buf: string, mem: string, n: Node, sp: Span)
    requires NodeOk(buf, n) && HasSpan(n, sp) && NoNul(buf) && |mem| == |buf| + 1
    requires forall k :: 0 <= k < |mem| ==> mem[k] == if k in Ends(n) then '\0' else (buf + ['\0'])[k]
    ensures sp.q <= |mem| && CString(mem, sp.q) == Text(buf, sp)
  {
    SpanIn(buf, n, sp);
    forall i | sp.q <= i < sp.eq ensures mem[i] == buf[i] && mem[i] != '\0' {
      if i in Ends(n) {
        EndsOutside(buf, n, i);
      }
    }
    CStringIs(mem, sp.q, sp.eq);
    assert mem[sp.q..sp.eq] == buf[sp.q..sp.eq];
  }

  /* The command as runcmd sees it: every word is the string at its first character. */
  function CTexts(mem: string, sps: seq<Span>): seq<string> {
    if sps == [] then [] else CTexts(mem, sps[..|sps| - 1]) + [CText(mem, sps[|sps| - 1])]
  }

  function CText(mem: string, sp: Span): string {
    if sp.q <= |mem| then CString(mem, sp.q) else ""
  }

  function CReads(mem: string, n: Node): Cmd {
    match n
    case ExecNode(argv) => Exec(CTexts(mem, argv))
    case RedirNode(m, f, k) => Redir(CReads(mem, m), Redirection(CText(mem, f), k))
    case PipeNode(l, r) => Pipe(CReads(mem, l), CReads(mem, r))
    case ListNode(l, r) => List(CReads(mem, l), CReads(mem, r))
    case BackNode(m) => Back(CReads(mem, m))
  }

  lemma {:induction false} TextsIntact(buf: string, mem: string, sps: seq<Span>)
    requires forall i :: 0 <= i < |sps| ==> CText(mem, sps[i]) == Text(buf, sps[i])
    ensures CTexts(mem, sps) == Texts(buf, sps)
    decreases |sps|
  {
    if sps != [] {
      TextsIntact(buf, mem, sps[..|sps| - 1]);
    }
  }

  lemma {:induction false} TreeIntact(buf: string, mem: string, n: Node)
    requires forall sp :: HasSpan(n, sp) ==> CText(mem, sp) == Text(buf, sp)
    ensures CReads(mem, n) == Reads(buf, n)
  {
    match n
    case ExecNode(argv) =>
      forall i | 0 <= i < |argv| ensures CText(mem, argv[i]) == Text(buf, argv[i]) { assert HasSpan(n, argv[i]); }
      TextsIntact(buf, mem, argv);
    case RedirNode(m, f, k) =>
      assert HasSpan(n, f);
      forall sp | HasSpan(m, sp) ensures CText(mem, sp) == Text(buf, sp) { assert HasSpan(n, sp); }
      TreeIntact(buf, mem, m);
    case PipeNode(l, r) =>
      forall sp | HasSpan(l, sp) || HasSpan(r, sp) ensures CText(mem, sp) == Text(buf, sp) { assert HasSpan(n, sp); }
      TreeIntact(buf, mem, l);
      TreeIntact(buf, mem, r);
    case ListNode(l, r) =>
      forall sp | HasSpan(l, sp) || HasSpan(r, sp) ensures CText(mem, sp) == Text(buf, sp) { assert HasSpan(n, sp); }
      TreeIntact(buf, mem, l);
      TreeIntact(buf, mem, r);
    case BackNode(m) =>
      forall sp | HasSpan(m, sp) ensures CText(mem, sp) == Text(buf, sp) { assert HasSpan(n, sp); }
      TreeIntact(buf, mem, m);
  }

  /* parsecmd on a line in memory: the tree it returns, read through the line it has
     written NULs into, is the command that the language gives the line. */
  method ParsecmdInPlace(a: array<char>) returns (o: Outcome<Node>)
    requires 0 < a.Length && a[a.Length - 1] == '\0' && NoNul(a[..a.Length - 1])
    modifies a
    ensures match ParseCmd(old(a[..a.Length - 1]))
            case Err(e) => o == Bad(e)
            case Ok(c, rest) => o.Good? && CReads(a[..], o.v) == c
  {
    hide ParseCmd;
    var buf := a[..a.Length - 1];
    o := Parsecmd(buf);
    if o.Good? {
      Nulterminate(a, o.v, buf);
      ghost var mem := a[..];
      forall sp | HasSpan(o.v, sp) ensures CText(mem, sp) == Text(buf, sp) { WordsIntact(buf, mem, o.v, sp); }
      TreeIntact(buf, mem, o.v);
    }
  }
}
