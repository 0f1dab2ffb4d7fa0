/**
The grammar of the shell's command language, as concrete syntax trees over tokens.  The
parser accepts a line exactly if its tokens are those of some tree, and then returns the
command that the tree means; every other line is an error.
*/
module ShellGrammar {
  import opened Shell

  // ----- tokens

  lemma Shorter(s: string)
    requires Bare(s) && s != ""
    ensures !NextToken(s).0.End? && |NextToken(s).1| < |s| && Bare(NextToken(s).1)
  {
    if !IsSymbol(s[0]) {
      assert WordLength(s) > 0;
    }
  }

  /* The tokens of a text without leading white space. */
  function Tokens(s: string): seq<Token>
    requires Bare(s)
    decreases |s|
  {
    if s == "" then [] else
      Shorter(s);
      [NextToken(s).0] + Tokens(NextToken(s).1)
  }

  lemma Head(s: string)
    requires Bare(s)
    ensures s == "" <==> Tokens(s) == []
    ensures s != "" ==>
              var (t, rest) := NextToken(s);
              !t.End? && t == Tokens(s)[0] && Bare(rest) && |rest| < |s| && Tokens(rest) == Tokens(s)[1..]
  {
    if s != "" {
      Shorter(s);
      assert Tokens(s)[1..] == Tokens(NextToken(s).1);
    }
  }

  lemma Cons(s: string)
    requires Bare(s) && s != ""
    ensures var (t, rest) := NextToken(s);
            !t.End? && Bare(rest) && |rest| < |s| && Tokens(s) == [t] + Tokens(rest)
  {
    Shorter(s);
  }

  lemma Uncons(s: string, t: Token, ts: seq<Token>)
    requires Bare(s) && Tokens(s) == [t] + ts
    ensures s != "" && NextToken(s).0 == t && Bare(NextToken(s).1) && Tokens(NextToken(s).1) == ts
    ensures |NextToken(s).1| < |s|
  {
    Head(s);
    assert ([t] + ts)[1..] == ts;
  }

  predicate Begins(ts: seq<Token>, set0: set<Token>) {
    ts != [] && ts[0] in set0
  }

  const REDIRS: set<Token> := {Symbol('<'), Symbol('>'), Append}
  const STOPS: set<Token> := {Symbol('|'), Symbol(')'), Symbol('&'), Symbol(';')}

  /* peek looks at a character; that tells the token. */
  lemma Peeked(s: string)
    requires Bare(s)
    ensures PeekIn(s, "<>") <==> Begins(Tokens(s), REDIRS)
    ensures PeekIn(s, "|)&;") <==> Begins(Tokens(s), STOPS)
    ensures PeekIn(s, "(") <==> Begins(Tokens(s), {Symbol('(')})
    ensures PeekIn(s, ")") <==> Begins(Tokens(s), {Symbol(')')})
    ensures PeekIn(s, "|") <==> Begins(Tokens(s), {Symbol('|')})
    ensures PeekIn(s, "&") <==> Begins(Tokens(s), {Symbol('&')})
    ensures PeekIn(s, ";") <==> Begins(Tokens(s), {Symbol(';')})
  {
    hide Tokens;
    Head(s);
  }

  // ----- syntax trees

  datatype Redirect = Redirect(op: Token, file: string)

  datatype Arg = Arg(word: string, after: seq<Redirect>)

  datatype ExecTree = Plain(lead: seq<Redirect>, args: seq<Arg>) | Block(line: LineTree, tail: seq<Redirect>)

  datatype PipeTree = Single(e: ExecTree) | Piped(e: ExecTree, more: PipeTree)

  datatype LineTree = Last(p: PipeTree, amps: nat) | Listed(p: PipeTree, amps: nat, more: LineTree)

  predicate RedirectsOk(rs: seq<Redirect>) {
    forall i :: 0 <= i < |rs| ==> rs[i].op in REDIRS
  }

  predicate ArgsOk(args: seq<Arg>) {
    forall i :: 0 <= i < |args| ==> RedirectsOk(args[i].after)
  }

  predicate ExecTreeOk(t: ExecTree) {
    match t
    case Plain(lead, args) => RedirectsOk(lead) && ArgsOk(args) && |args| < MAXARGS
    case Block(line, tail) => LineTreeOk(line) && RedirectsOk(tail)
  }

  predicate PipeTreeOk(t: PipeTree) {
    match t
    case Single(e) => ExecTreeOk(e)
    case Piped(e, more) => ExecTreeOk(e) && PipeTreeOk(more)
  }

  predicate LineTreeOk(t: LineTree) {
    match t
    case Last(p, n) => PipeTreeOk(p)
    case Listed(p, n, more) => PipeTreeOk(p) && LineTreeOk(more)
  }

  // ----- the tokens of a tree

  function RedirectTokens(rs: seq<Redirect>): seq<Token> {
    if rs == [] then [] else [rs[0].op, Word(rs[0].file)] + RedirectTokens(rs[1..])
  }

  function ArgTokens(args: seq<Arg>): seq<Token> {
    if args == [] then [] else [Word(args[0].word)] + RedirectTokens(args[0].after) + ArgTokens(args[1..])
  }

  function Amps(n: nat): seq<Token> {
    if n == 0 then [] else [Symbol('&')] + Amps(n - 1)
  }

  function ExecTokens(t: ExecTree): seq<Token> {
    match t
    case Plain(lead, args) => RedirectTokens(lead) + ArgTokens(args)
    case Block(line, tail) => [Symbol('(')] + LineTokens(line) + [Symbol(')')] + RedirectTokens(tail)
  }

  function PipeTokens(t: PipeTree): seq<Token> {
    match t
    case Single(e) => ExecTokens(e)
    case Piped(e, more) => ExecTokens(e) + [Symbol('|')] + PipeTokens(more)
  }

  function LineTokens(t: LineTree): seq<Token> {
    match t
    case Last(p, n) => PipeTokens(p) + Amps(n)
    case Listed(p, n, more) => PipeTokens(p) + Amps(n) + [Symbol(';')] + LineTokens(more)
  }

  // ----- the command a tree means

  /* '<' reads from the file; '>' and '>>' both write to it from the beginning. */
  function RedirectMeaning(rs: seq<Redirect>): seq<Redirection> {
    if rs == [] then []
    else [Redirection(rs[0].file, if rs[0].op == Symbol('<') then Input else Output)] + RedirectMeaning(rs[1..])
  }

  function ArgWords(args: seq<Arg>): seq<string> {
    if args == [] then [] else [args[0].word] + ArgWords(args[1..])
  }

  function ArgRedirects(args: seq<Arg>): seq<Redirection> {
    if args == [] then [] else RedirectMeaning(args[0].after) + ArgRedirects(args[1..])
  }

  function Behind(c: Cmd, n: nat): Cmd
    decreases n
  {
    if n == 0 then c else Behind(Back(c), n - 1)
  }

  function ExecMeaning(t: ExecTree): Cmd {
    match t
    case Plain(lead, args) => Wrap(Exec(ArgWords(args)), RedirectMeaning(lead) + ArgRedirects(args))
    case Block(line, tail) => Wrap(LineMeaning(line), RedirectMeaning(tail))
  }

  function PipeMeaning(t: PipeTree): Cmd {
    match t
    case Single(e) => ExecMeaning(e)
    case Piped(e, more) => Pipe(ExecMeaning(e), PipeMeaning(more))
  }

  function LineMeaning(t: LineTree): Cmd {
    match t
    case Last(p, n) => Behind(PipeMeaning(p), n)
    case Listed(p, n, more) => List(Behind(PipeMeaning(p), n), LineMeaning(more))
  }

  // ----- every tree is accepted

  /* p is a success with value v, and leaves the tokens us. */
  ghost predicate Leaves<T>(p: Parsed<T>, v: T, us: seq<Token>) {
    p.Ok? && p.v == v && Bare(p.rest) && Tokens(p.rest) == us
  }

  lemma {:induction false} RedirectsAccepted(s: string, rs: seq<Redirect>, us: seq<Token>)
    requires Bare(s) && RedirectsOk(rs) && Tokens(s) == RedirectTokens(rs) + us && !Begins(us, REDIRS)
    ensures Leaves(ParseRedirs(s), RedirectMeaning(rs), us)
    decreases |rs|
  {
    hide Tokens;
    hide NextToken;
    Peeked(s);
    if rs == [] {
      assert RedirectTokens(rs) + us == us;
    } else {
      var more := RedirectTokens(rs[1..]) + us;
      Join([rs[0].op, Word(rs[0].file)], RedirectTokens(rs[1..]), us);
      Join([rs[0].op], [Word(rs[0].file)], more);
      Uncons(s, rs[0].op, [Word(rs[0].file)] + more);
      var s1 := NextToken(s).1;
      Uncons(s1, Word(rs[0].file), more);
      var s2 := NextToken(s1).1;
      RedirectsAccepted(s2, rs[1..], us);
    }
  }

  lemma {:induction false} ArgsAccepted(argc: nat, s: string, args: seq<Arg>, us: seq<Token>)
    requires Bare(s) && ArgsOk(args) && Tokens(s) == ArgTokens(args) + us && argc + |args| < MAXARGS
    requires us == [] || Begins(us, STOPS)
    ensures Leaves(ParseArgs(argc, s), (ArgWords(args), ArgRedirects(args)), us)
    decreases |args|
  {
    hide Tokens;
    hide NextToken;
    hide ParseRedirs;
    hide ParseArgs;
    hide RedirectTokens;
    hide RedirectMeaning;
    hide ArgTokens;
    if args == [] {
      NoArgsAccepted(argc, s, us);
    } else {
      var s1, w, rs, more := NextToken(s).1, args[0].word, args[0].after, ArgTokens(args[1..]) + us;
      ArgSplit(args, us);
      Uncons(s, Word(w), RedirectTokens(rs) + more);
      WordNext(s, w);
      RedirectsAccepted(s1, rs, more);
      var s2 := ParseRedirs(s1).rest;
      ArgsAccepted(argc + 1, s2, args[1..], us);
      ArgsStep(argc, s, w, s1, RedirectMeaning(rs), s2, ArgWords(args[1..]), ArgRedirects(args[1..]),
               ParseArgs(argc + 1, s2).rest);
    }
  }

  lemma NoArgsAccepted(argc: nat, s: string, us: seq<Token>)
    requires Bare(s) && Tokens(s) == ArgTokens([]) + us && (us == [] || Begins(us, STOPS))
    ensures Leaves(ParseArgs(argc, s), ([], []), us)
  {
    hide Tokens;
    hide NextToken;
    assert [] + us == us;
    Peeked(s);
    Head(s);
    EmptyEnd(s);
  }

  lemma WordNext(s: string, w: string)
    requires Bare(s) && s != "" && NextToken(s).0 == Word(w)
    ensures !PeekIn(s, "|)&;")
  {
  }

  lemma Assoc(a: seq<Token>, b: seq<Token>, c: seq<Token>, d: seq<Token>)
    ensures a + b + c + d == a + (b + (c + d))
  {
  }

  lemma ArgSplit(args: seq<Arg>, us: seq<Token>)
    requires args != [] && (us == [] || Begins(us, STOPS))
    ensures var more := ArgTokens(args[1..]) + us;
            && ArgTokens(args) + us == [Word(args[0].word)] + (RedirectTokens(args[0].after) + more)
            && !Begins(more, REDIRS)
  {
    hide RedirectTokens;
    Assoc([Word(args[0].word)], RedirectTokens(args[0].after), ArgTokens(args[1..]), us);
    ArgsBegin(args[1..]);
  }

  lemma ArgsBegin(args: seq<Arg>)
    ensures if args == [] then ArgTokens(args) == [] else ArgTokens(args) != [] && ArgTokens(args)[0].Word?
  {
    hide RedirectTokens;
  }

  lemma EmptyEnd(s: string)
    ensures s == "" ==> NextToken(s) == (End, "")
  {
  }

  lemma PlainAccepted(s: string, t: ExecTree, us: seq<Token>)
    requires Bare(s) && t.Plain? && ExecTreeOk(t) && Tokens(s) == ExecTokens(t) + us
    requires us == [] || Begins(us, STOPS)
    ensures Leaves(ParseExec(s), ExecMeaning(t), us)
  {
    hide Tokens;
    hide NextToken;
    hide ParseRedirs;
    hide ParseArgs;
    hide RedirectTokens;
    hide RedirectMeaning;
    var more := ArgTokens(t.args) + us;
    Join(RedirectTokens(t.lead), ArgTokens(t.args), us);
    ArgsBegin(t.args);
    NotParen(t, us);
    Peeked(s);
    RedirectsAccepted(s, t.lead, more);
    ArgsAccepted(0, ParseRedirs(s).rest, t.args, us);
  }

  lemma NotParen(t: ExecTree, us: seq<Token>)
    requires t.Plain? && RedirectsOk(t.lead) && (us == [] || Begins(us, STOPS))
    ensures !Begins(ExecTokens(t) + us, {Symbol('(')})
  {
    ArgsBegin(t.args);
  }

  lemma {:induction false} AmpsAccepted(c: Cmd, s: string, n: nat, us: seq<Token>)
    requires Bare(s) && Tokens(s) == Amps(n) + us && !Begins(us, {Symbol('&')})
    ensures var (d, rest) := ParseBacks(c, s); d == Behind(c, n) && Bare(rest) && Tokens(rest) == us
    decreases n
  {
    hide Tokens;
    hide NextToken;
    Peeked(s);
    if n == 0 {
      assert Amps(0) + us == us;
    } else {
      Join([Symbol('&')], Amps(n - 1), us);
      Uncons(s, Symbol('&'), Amps(n - 1) + us);
      AmpsAccepted(Back(c), NextToken(s).1, n - 1, us);
    }
  }

  lemma ExecAccepted(s: string, t: ExecTree, us: seq<Token>)
    requires Bare(s) && ExecTreeOk(t) && Tokens(s) == ExecTokens(t) + us && (us == [] || Begins(us, STOPS))
    ensures Leaves(ParseExec(s), ExecMeaning(t), us)
    decreases t
  {
    hide Tokens;
    hide NextToken;
    hide ParseExec;
    hide ParseLine;
    hide ParseRedirs;
    hide RedirectTokens;
    hide RedirectMeaning;
    if t.Plain? {
      PlainAccepted(s, t, us);
    } else {
      var more := [Symbol(')')] + (RedirectTokens(t.tail) + us);
      JoinFive([Symbol('(')], LineTokens(t.line), [Symbol(')')], RedirectTokens(t.tail), us);
      hide LineTokens;
      Peeked(s);
      Uncons(s, Symbol('('), LineTokens(t.line) + more);
      var s1 := NextToken(s).1;
      LineAccepted(s1, t.line, more);
      var s2 := ParseLine(s1).rest;
      Peeked(s2);
      Uncons(s2, Symbol(')'), RedirectTokens(t.tail) + us);
      var s3 := NextToken(s2).1;
      RedirectsAccepted(s3, t.tail, us);
      BlockStep(s, s1, LineMeaning(t.line), s2, s3, RedirectMeaning(t.tail), ParseRedirs(s3).rest);
    }
  }

  lemma PipeAccepted(s: string, t: PipeTree, us: seq<Token>)
    requires Bare(s) && PipeTreeOk(t) && Tokens(s) == PipeTokens(t) + us
    requires us == [] || Begins(us, {Symbol(')'), Symbol('&'), Symbol(';')})
    ensures Leaves(ParsePipe(s), PipeMeaning(t), us)
    decreases t
  {
    hide Tokens;
    hide NextToken;
    hide ParseExec;
    hide ExecTokens;
    if t.Single? {
      ExecAccepted(s, t.e, us);
      Peeked(ParseExec(s).rest);
    } else {
      hide ParsePipe;
      var more := [Symbol('|')] + (PipeTokens(t.more) + us);
      Assoc(ExecTokens(t.e), [Symbol('|')], PipeTokens(t.more), us);
      ExecAccepted(s, t.e, more);
      var s1 := ParseExec(s).rest;
      Peeked(s1);
      Uncons(s1, Symbol('|'), PipeTokens(t.more) + us);
      PipeAccepted(NextToken(s1).1, t.more, us);
      PipeStep(s, ExecMeaning(t.e), s1, NextToken(s1).1, PipeMeaning(t.more), ParsePipe(NextToken(s1).1).rest);
    }
  }

  lemma AmpsBegin(n: nat, us: seq<Token>)
    requires us == [] || Begins(us, {Symbol(')'), Symbol(';')})
    ensures Amps(n) + us == [] || Begins(Amps(n) + us, {Symbol(')'), Symbol('&'), Symbol(';')})
  {
  }

  lemma LineAccepted(s: string, t: LineTree, us: seq<Token>)
    requires Bare(s) && LineTreeOk(t) && Tokens(s) == LineTokens(t) + us && (us == [] || Begins(us, {Symbol(')')}))
    ensures Leaves(ParseLine(s), LineMeaning(t), us)
    decreases t
  {
    hide Tokens;
    hide NextToken;
    hide ParsePipe;
    hide ParseLine;
    hide PipeTokens;
    var more := if t.Last? then us else [Symbol(';')] + (LineTokens(t.more) + us);
    if t.Last? {
      Join(PipeTokens(t.p), Amps(t.amps), us);
    } else {
      JoinFive(PipeTokens(t.p), Amps(t.amps), [Symbol(';')], LineTokens(t.more), us);
    }
    AmpsBegin(t.amps, more);
    PipeAccepted(s, t.p, Amps(t.amps) + more);
    var c := ParsePipe(s);
    AmpsAccepted(c.v, c.rest, t.amps, more);
    var (d, s1) := ParseBacks(c.v, c.rest);
    Peeked(s1);
    if t.Last? {
      LineStep(s, d, s1, d, s1);
    } else {
      Uncons(s1, Symbol(';'), LineTokens(t.more) + us);
      LineAccepted(NextToken(s1).1, t.more, us);
      LineStep(s, d, s1, LineMeaning(t.more), ParseLine(NextToken(s1).1).rest);
    }
  }

  // ----- whatever is accepted has a tree

  lemma {:induction false} RedirectsRead(s: string) returns (rs: seq<Redirect>)
    requires Bare(s) && ParseRedirs(s).Ok?
    ensures RedirectsOk(rs) && ParseRedirs(s).v == RedirectMeaning(rs) && Bare(ParseRedirs(s).rest)
    ensures Tokens(s) == RedirectTokens(rs) + Tokens(ParseRedirs(s).rest)
    decreases |s|
  {
    hide Tokens;
    hide NextToken;
    Peeked(s);
    if !PeekIn(s, "<>") {
      rs := [];
      assert [] + Tokens(s) == Tokens(s);
    } else {
      Cons(s);
      var t, s1 := NextToken(s).0, NextToken(s).1;
      EmptyEnd(s1);
      Cons(s1);
      var f, s2 := NextToken(s1).0, NextToken(s1).1;
      var more := RedirectsRead(s2);
      rs := [Redirect(t, f.w)] + more;
      assert rs[1..] == more;
      Join([t], [f], Tokens(s2));
      Join([t, f], RedirectTokens(more), Tokens(ParseRedirs(s2).rest));
    }
  }

  lemma {:induction false} ArgsRead(argc: nat, s: string) returns (args: seq<Arg>)
    requires Bare(s) && ParseArgs(argc, s).Ok? && argc < MAXARGS
    ensures ArgsOk(args) && ParseArgs(argc, s).v == (ArgWords(args), ArgRedirects(args)) && argc + |args| < MAXARGS
    ensures Bare(ParseArgs(argc, s).rest) && Tokens(s) == ArgTokens(args) + Tokens(ParseArgs(argc, s).rest)
    decreases |s|
  {
    hide Tokens;
    hide NextToken;
    hide ParseRedirs;
    Peeked(s);
    Head(s);
    EmptyEnd(s);
    if PeekIn(s, "|)&;") || s == "" {
      args := [];
      assert [] + Tokens(s) == Tokens(s);
    } else {
      hide RedirectTokens;
      hide RedirectMeaning;
      var t, s1 := NextToken(s).0, NextToken(s).1;
      var rs := RedirectsRead(s1);
      var s2 := ParseRedirs(s1).rest;
      ArgsShape(argc, s);
      var more := ArgsRead(argc + 1, s2);
      args := [Arg(t.w, rs)] + more;
      assert args[1..] == more;
      Assoc([t], RedirectTokens(rs), ArgTokens(more), Tokens(ParseArgs(argc, s).rest));
      Cons(s);
    }
  }

  /* A word was read, and the rest parsed. */
  lemma ArgsShape(argc: nat, s: string)
    requires ParseArgs(argc, s).Ok? && !PeekIn(s, "|)&;") && !NextToken(s).0.End?
    ensures NextToken(s).0.Word? && argc + 1 < MAXARGS && ParseRedirs(NextToken(s).1).Ok?
    ensures var rs := ParseRedirs(NextToken(s).1);
            var more := ParseArgs(argc + 1, rs.rest);
            && more.Ok? && |rs.rest| <= |NextToken(s).1|
            && ParseArgs(argc, s) == Ok(([NextToken(s).0.w] + more.v.0, rs.v + more.v.1), more.rest)
  {
    hide NextToken;
    hide ParseRedirs;
  }

  lemma ExecRead(s: string) returns (t: ExecTree)
    requires Bare(s) && ParseExec(s).Ok?
    ensures ExecTreeOk(t) && ParseExec(s).v == ExecMeaning(t) && Bare(ParseExec(s).rest)
    ensures Tokens(s) == ExecTokens(t) + Tokens(ParseExec(s).rest)
    decreases |s|, 1
  {
    hide Tokens;
    hide NextToken;
    hide ParseRedirs;
    hide ParseArgs;
    hide ParseLine;
    hide RedirectTokens;
    hide RedirectMeaning;
    hide ArgTokens;
    hide LineTokens;
    Peeked(s);
    if !PeekIn(s, "(") {
      var lead := RedirectsRead(s);
      var s1 := ParseRedirs(s).rest;
      var args := ArgsRead(0, s1);
      t := Plain(lead, args);
      Join(RedirectTokens(lead), ArgTokens(args), Tokens(ParseExec(s).rest));
    } else {
      Cons(s);
      var s1 := NextToken(s).1;
      var line := LineRead(s1);
      var s2 := ParseLine(s1).rest;
      Peeked(s2);
      Cons(s2);
      var s3 := NextToken(s2).1;
      var tail := RedirectsRead(s3);
      t := Block(line, tail);
      JoinFive([Symbol('(')], LineTokens(line), [Symbol(')')], RedirectTokens(tail), Tokens(ParseRedirs(s3).rest));
    }
  }

  lemma PipeRead(s: string) returns (t: PipeTree)
    requires Bare(s) && ParsePipe(s).Ok?
    ensures PipeTreeOk(t) && ParsePipe(s).v == PipeMeaning(t) && Bare(ParsePipe(s).rest)
    ensures Tokens(s) == PipeTokens(t) + Tokens(ParsePipe(s).rest)
    decreases |s|, 2
  {
    hide Tokens;
    hide NextToken;
    hide ParseExec;
    hide ExecTokens;
    var e := ExecRead(s);
    var s1 := ParseExec(s).rest;
    Peeked(s1);
    if !PeekIn(s1, "|") {
      t := Single(e);
    } else {
      Cons(s1);
      var s2 := NextToken(s1).1;
      var more := PipeRead(s2);
      t := Piped(e, more);
      Assoc(ExecTokens(e), [Symbol('|')], PipeTokens(more), Tokens(ParsePipe(s2).rest));
    }
  }

  lemma {:induction false} AmpsRead(c: Cmd, s: string) returns (n: nat)
    requires Bare(s)
    ensures ParseBacks(c, s).0 == Behind(c, n) && Bare(ParseBacks(c, s).1)
    ensures Tokens(s) == Amps(n) + Tokens(ParseBacks(c, s).1)
    decreases |s|
  {
    hide Tokens;
    hide NextToken;
    Peeked(s);
    if !PeekIn(s, "&") {
      n := 0;
      assert [] + Tokens(s) == Tokens(s);
    } else {
      Cons(s);
      var s1 := NextToken(s).1;
      var m := AmpsRead(Back(c), s1);
      n := m + 1;
      Join([Symbol('&')], Amps(m), Tokens(ParseBacks(Back(c), s1).1));
    }
  }

  lemma LineShape(s: string)
    requires ParseLine(s).Ok?
    ensures ParsePipe(s).Ok?
    ensures var (d, s1) := ParseBacks(ParsePipe(s).v, ParsePipe(s).rest);
            && |s1| <= |s|
            && if PeekIn(s1, ";") then
                 var more := ParseLine(NextToken(s1).1); more.Ok? && ParseLine(s) == Ok(List(d, more.v), more.rest)
               else ParseLine(s) == Ok(d, s1)
  {
    hide NextToken;
    hide ParsePipe;
  }

  lemma LineRead(s: string) returns (t: LineTree)
    requires Bare(s) && ParseLine(s).Ok?
    ensures LineTreeOk(t) && ParseLine(s).v == LineMeaning(t) && Bare(ParseLine(s).rest)
    ensures Tokens(s) == LineTokens(t) + Tokens(ParseLine(s).rest)
    decreases |s|, 3
  {
    hide Tokens;
    hide NextToken;
    hide ParsePipe;
    hide ParseLine;
    hide ParseBacks;
    hide Behind;
    hide Amps;
    hide PipeTokens;
    hide PipeTreeOk;
    LineShape(s);
    var p := PipeRead(s);
    var c := ParsePipe(s);
    var n := AmpsRead(c.v, c.rest);
    var (d, s1) := ParseBacks(c.v, c.rest);
    Peeked(s1);
    if !PeekIn(s1, ";") {
      t := Last(p, n);
      Join(PipeTokens(p), Amps(n), Tokens(s1));
    } else {
      Cons(s1);
      var s2 := NextToken(s1).1;
      var more := LineRead(s2);
      t := Listed(p, n, more);
      JoinFive(PipeTokens(p), Amps(n), [Symbol(';')], LineTokens(more), Tokens(ParseLine(s2).rest));
    }
  }

  lemma Join(a: seq<Token>, b: seq<Token>, c: seq<Token>)
    ensures a + (b + c) == a + b + c
  {
  }

  lemma JoinFive(a: seq<Token>, b: seq<Token>, c: seq<Token>, d: seq<Token>, e: seq<Token>)
    ensures a + (b + (c + (d + e))) == a + b + c + d + e
  {
    Join(a, b, c + (d + e));
    Assoc(a + b, c, d, e);
  }

  // ----- the theorem

  /* t is a syntax tree of the line s. */
  predicate TreeOf(t: LineTree, s: string) {
    LineTreeOk(t) && LineTokens(t) == Tokens(Trim(s))
  }

  /* A line with a syntax tree is parsed, to what the tree means; so two trees of one line
     mean the same. */
  lemma TreeMeans(s: string, t: LineTree)
    requires TreeOf(t, s)
    ensures ParseCmd(s) == Ok(LineMeaning(t), "")
  {
    hide Tokens;
    hide ParseLine;
    assert LineTokens(t) + [] == LineTokens(t);
    LineAccepted(Trim(s), t, []);
    Head(ParseLine(Trim(s)).rest);
  }

  /* The parser accepts exactly the lines that have a syntax tree. */
  lemma AcceptedExactly(s: string)
    ensures ParseCmd(s).Ok? <==> exists t :: TreeOf(t, s)
  {
    hide Tokens;
    hide ParseLine;
    hide LineTokens;
    hide LineTreeOk;
    if ParseCmd(s).Ok? {
      var t := LineRead(Trim(s));
      Head("");
      assert LineTokens(t) + [] == LineTokens(t);
      assert TreeOf(t, s);
    }
    if t :| TreeOf(t, s) {
      TreeMeans(s, t);
    }
  }
}
