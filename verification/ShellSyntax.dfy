/** What the parser of the shell (user/sh.c) computes, as functions of the command line; and the grammar that it
    recognises. A pointer into the line is a position, and a word is the span of positions between its q and eq
    pointers. The line has no NUL in it, as the string that parsecmd gets ends at the first one. */
module ShellSyntax {
  const MAXARGS: nat := 10

  datatype Span = Span(start: nat, end: nat)

  /** <, > and >> */
  datatype RedirKind = Input | Output | Append

  datatype Cmd<W> =
    | Exec(args: seq<W>)
    | Redir(sub: Cmd<W>, file: W, kind: RedirKind)
    | Pipe(left: Cmd<W>, right: Cmd<W>)
    | List(left: Cmd<W>, right: Cmd<W>)
    | Back(sub: Cmd<W>)

  datatype Error = MissingFile | NoBlock | MissingParen | Syntax | TooManyArgs | Leftovers

  datatype Parsed = Ok(cmd: Cmd<Span>, pos: nat) | Panic(error: Error)

  predicate IsSpace(c: char) {
    c == ' ' || c == '\t' || c == '\r' || c == '\n' || c == '\U{0B}'
  }

  predicate IsSymbol(c: char) {
    c == '<' || c == '|' || c == '>' || c == '&' || c == ';' || c == '(' || c == ')'
  }

  predicate IsDelimiter(c: char) {
    IsSpace(c) || IsSymbol(c)
  }

  predicate IsPlain(c: char) {
    !IsDelimiter(c) && c != '\0'
  }

  // Tokens.

  function Skip(text: string, pos: nat): (p: nat)
    requires pos <= |text|
    ensures pos <= p <= |text| && (p < |text| ==> !IsSpace(text[p])) && forall i | pos <= i < p :: IsSpace(text[i])
    decreases |text| - pos
  {
    if pos < |text| && IsSpace(text[pos]) then Skip(text, pos + 1) else pos
  }

  function WordEnd(text: string, pos: nat): (p: nat)
    requires pos <= |text|
    ensures pos <= p <= |text| && (p < |text| ==> IsDelimiter(text[p]))
    ensures forall i | pos <= i < p :: !IsDelimiter(text[i])
    decreases |text| - pos
  {
    if pos < |text| && !IsDelimiter(text[pos]) then WordEnd(text, pos + 1) else pos
  }

  /** kind is what gettoken returns: 'a' for a word, '+' for >>, '\0' at the end, or the symbol itself. */
  datatype Token = Token(kind: char, span: Span, next: nat)

  function TokenAt(text: string, pos: nat): (t: Token)
    requires pos <= |text|
    ensures pos <= t.span.start <= t.span.end <= t.next <= |text|
    ensures t.kind == '\0' || t.span.start < t.span.end
  {
    var q := Skip(text, pos);
    if q == |text| then Token('\0', Span(q, q), q)
    else if !IsSymbol(text[q]) then var e := WordEnd(text, q); Token('a', Span(q, e), Skip(text, e))
    else if text[q] == '>' && q + 1 < |text| && text[q + 1] == '>' then Token('+', Span(q, q + 2), Skip(text, q + 2))
    else Token(text[q], Span(q, q + 1), Skip(text, q + 1))
  }

  // What the parser does, as functions of the line and a position.

  predicate Sees(text: string, p: nat, toks: set<char>)
    requires p <= |text|
  {
    p < |text| && text[p] in toks
  }

  function KindOf(tok: char): RedirKind {
    if tok == '<' then Input else if tok == '+' then Append else Output
  }

  /** parseredirs */
  function Redirs(text: string, pos: nat, cmd: Cmd<Span>): (r: Parsed)
    requires pos <= |text|
    ensures r.Ok? ==> pos <= r.pos <= |text|
    decreases |text| - pos
  {
    var p := Skip(text, pos);
    if Sees(text, p, {'<', '>'}) then
      var t := TokenAt(text, p);
      var f := TokenAt(text, t.next);
      if f.kind != 'a' then Panic(MissingFile) else Redirs(text, f.next, Redir(cmd, f.span, KindOf(t.kind)))
    else Ok(cmd, p)
  }

  /** The arguments of the command that the redirections are wrapped around. */
  function Fill(cmd: Cmd<Span>, args: seq<Span>): (c: Cmd<Span>) {
    match cmd
    case Exec(_) => Exec(args)
    case Redir(sub, file, kind) => Redir(Fill(sub, args), file, kind)
    case _ => cmd
  }

  /** The loop of parseexec. */
  function Args(text: string, pos: nat, ret: Cmd<Span>, argv: seq<Span>): (r: Parsed)
    requires pos <= |text|
    ensures r.Ok? ==> pos <= r.pos <= |text|
    decreases |text| - pos
  {
    var p := Skip(text, pos);
    if Sees(text, p, {'|', ')', '&', ';'}) then Ok(ret, p)
    else
      var t := TokenAt(text, p);
      if t.kind == '\0' then Ok(ret, t.next)
      else if t.kind != 'a' then Panic(Syntax)
      else
        var argv' := argv + [t.span];
        if |argv'| >= MAXARGS then Panic(TooManyArgs)
        else
          var r := Redirs(text, t.next, Fill(ret, argv'));
          if r.Panic? then r else Args(text, r.pos, r.cmd, argv')
  }

  /** parseexec */
  function ExecAt(text: string, pos: nat): (r: Parsed)
    requires pos <= |text|
    ensures r.Ok? ==> pos <= r.pos <= |text|
    decreases |text| - pos, 2
  {
    var p := Skip(text, pos);
    if Sees(text, p, {'('}) then BlockAt(text, p)
    else
      var r := Redirs(text, p, Exec([]));
      if r.Panic? then r else Args(text, r.pos, r.cmd, [])
  }

  /** parseblock */
  function BlockAt(text: string, pos: nat): (r: Parsed)
    requires pos <= |text|
    ensures r.Ok? ==> pos <= r.pos <= |text|
    decreases |text| - pos, 1
  {
    var p := Skip(text, pos);
    if !Sees(text, p, {'('}) then Panic(NoBlock)
    else
      var r := LineAt(text, TokenAt(text, p).next);
      if r.Panic? then r
      else
        var q := Skip(text, r.pos);
        if !Sees(text, q, {')'}) then Panic(MissingParen) else Redirs(text, TokenAt(text, q).next, r.cmd)
  }

  /** parsepipe */
  function PipeAt(text: string, pos: nat): (r: Parsed)
    requires pos <= |text|
    ensures r.Ok? ==> pos <= r.pos <= |text|
    decreases |text| - pos, 3
  {
    var r := ExecAt(text, pos);
    if r.Panic? then r
    else
      var p := Skip(text, r.pos);
      if Sees(text, p, {'|'}) then
        var right := PipeAt(text, TokenAt(text, p).next);
        if right.Panic? then right else Ok(Pipe(r.cmd, right.cmd), right.pos)
      else Ok(r.cmd, p)
  }

  /** The loop of parseline. */
  function Backs(text: string, pos: nat, cmd: Cmd<Span>): (r: Parsed)
    requires pos <= |text|
    ensures r.Ok? && pos <= r.pos <= |text|
    decreases |text| - pos
  {
    var p := Skip(text, pos);
    if Sees(text, p, {'&'}) then Backs(text, TokenAt(text, p).next, Back(cmd)) else Ok(cmd, p)
  }

  /** parseline */
  function LineAt(text: string, pos: nat): (r: Parsed)
    requires pos <= |text|
    ensures r.Ok? ==> pos <= r.pos <= |text|
    decreases |text| - pos, 4
  {
    var r := PipeAt(text, pos);
    if r.Panic? then r
    else
      var b := Backs(text, r.pos, r.cmd);
      var p := Skip(text, b.pos);
      if Sees(text, p, {';'}) then
        var right := LineAt(text, TokenAt(text, p).next);
        if right.Panic? then right else Ok(List(b.cmd, right.cmd), right.pos)
      else Ok(b.cmd, p)
  }

  /** parsecmd, before nulterminate. */
  function ParseCmd(text: string): (r: Parsed) {
    var r := LineAt(text, 0);
    if r.Panic? then r else if Skip(text, r.pos) != |text| then Panic(Leftovers) else r
  }

  // The grammar.

  /** A token as the grammar sees it: a word, or a symbol, where + stands for >>. */
  datatype Lexeme = Word(span: Span) | Symbol(c: char)

  function LexemeOf(t: Token): Lexeme {
    if t.kind == 'a' then Word(t.span) else Symbol(t.kind)
  }

  /** All tokens from a position on. */
  function Lex(text: string, pos: nat): (ls: seq<Lexeme>)
    requires pos <= |text|
    decreases |text| - pos
  {
    var t := TokenAt(text, pos);
    if t.kind == '\0' then [] else [LexemeOf(t)] + Lex(text, t.next)
  }

  /** An argument of a simple command, or a redirection. */
  datatype Item = Arg(word: Span) | File(kind: RedirKind, file: Span)

  // Derivations:
  //   line     = pipeline { "&" } [ ";" line ]
  //   pipeline = simple [ "|" pipeline ]
  //   simple   = { word | redirection } | "(" line ")" { redirection }
  //   redirection = ( "<" | ">" | ">>" ) word

  datatype Simple = Plain(items: seq<Item>) | Block(body: Line, files: seq<Item>)
  datatype Pipeline = One(first: Simple) | More(first: Simple, rest: Pipeline)
  datatype Line = Last(first: Pipeline, backs: nat) | Semi(first: Pipeline, backs: nat, rest: Line)

  // What a derivation derives.

  function OpChar(kind: RedirKind): char {
    match kind
    case Input => '<'
    case Output => '>'
    case Append => '+'
  }

  function ItemYield(item: Item): seq<Lexeme> {
    match item
    case Arg(w) => [Word(w)]
    case File(kind, f) => [Symbol(OpChar(kind)), Word(f)]
  }

  function ItemsYield(items: seq<Item>): seq<Lexeme> {
    if items == [] then [] else ItemYield(items[0]) + ItemsYield(items[1..])
  }

  function BacksYield(n: nat): seq<Lexeme> {
    if n == 0 then [] else [Symbol('&')] + BacksYield(n - 1)
  }

  function SimpleYield(s: Simple): seq<Lexeme> {
    match s
    case Plain(items) => ItemsYield(items)
    case Block(body, files) => [Symbol('(')] + (LineYield(body) + ([Symbol(')')] + ItemsYield(files)))
  }

  function PipelineYield(p: Pipeline): seq<Lexeme> {
    match p
    case One(s) => SimpleYield(s)
    case More(s, rest) => SimpleYield(s) + ([Symbol('|')] + PipelineYield(rest))
  }

  function LineYield(l: Line): seq<Lexeme> {
    match l
    case Last(p, n) => PipelineYield(p) + BacksYield(n)
    case Semi(p, n, rest) => PipelineYield(p) + (BacksYield(n) + ([Symbol(';')] + LineYield(rest)))
  }

  // What a derivation means.

  function ArgsOf(items: seq<Item>): seq<Span> {
    if items == [] then [] else (if items[0].Arg? then [items[0].word] else []) + ArgsOf(items[1..])
  }

  /** The redirections of the items around a command, the first one innermost. */
  function Wrapped(cmd: Cmd<Span>, items: seq<Item>): Cmd<Span>
    decreases |items|
  {
    if items == [] then cmd
    else Wrapped(if items[0].File? then Redir(cmd, items[0].file, items[0].kind) else cmd, items[1..])
  }

  function Backed(cmd: Cmd<Span>, n: nat): Cmd<Span>
    decreases n
  {
    if n == 0 then cmd else Backed(Back(cmd), n - 1)
  }

  function SimpleTree(s: Simple): Cmd<Span> {
    match s
    case Plain(items) => Wrapped(Exec(ArgsOf(items)), items)
    case Block(body, files) => Wrapped(LineTree(body), files)
  }

  function PipelineTree(p: Pipeline): Cmd<Span> {
    match p
    case One(s) => SimpleTree(s)
    case More(s, rest) => Pipe(SimpleTree(s), PipelineTree(rest))
  }

  function LineTree(l: Line): Cmd<Span> {
    match l
    case Last(p, n) => Backed(PipelineTree(p), n)
    case Semi(p, n, rest) => List(Backed(PipelineTree(p), n), LineTree(rest))
  }

  // Which derivations there are.

  predicate FilesOnly(items: seq<Item>) {
    forall i | 0 <= i < |items| :: items[i].File?
  }

  predicate GoodSimple(s: Simple) {
    match s
    case Plain(items) => |ArgsOf(items)| < MAXARGS
    case Block(body, files) => GoodLine(body) && FilesOnly(files)
  }

  predicate GoodPipeline(p: Pipeline) {
    GoodSimple(p.first) && (p.More? ==> GoodPipeline(p.rest))
  }

  predicate GoodLine(l: Line) {
    GoodPipeline(l.first) && (l.Semi? ==> GoodLine(l.rest))
  }

  // Tokens and characters.

  lemma SkipTwice(text: string, pos: nat)
    requires pos <= |text|
    ensures Skip(text, Skip(text, pos)) == Skip(text, pos)
    ensures TokenAt(text, Skip(text, pos)) == TokenAt(text, pos) && Lex(text, Skip(text, pos)) == Lex(text, pos)
  {
    assert Skip(text, Skip(text, pos)) == Skip(text, pos);
  }

  predicate StartsWith(ls: seq<Lexeme>, cs: set<char>) {
    ls != [] && ls[0].Symbol? && ls[0].c in cs
  }

  const REDIRS: set<char> := {'<', '>', '+'}

  /** Looking at one character tells which symbol comes next. */
  lemma SeesSymbol(text: string, pos: nat, cs: set<char>)
    requires pos <= |text| && forall c | c in cs :: IsSymbol(c) && c != '>'
    ensures Sees(text, Skip(text, pos), cs) <==> StartsWith(Lex(text, pos), cs)
    ensures Lex(text, pos) != [] ==> Lex(text, pos)[1..] == Lex(text, TokenAt(text, Skip(text, pos)).next)
    ensures Lex(text, pos) == [] <==> Skip(text, pos) == |text|
  {
    hide Lex;
    SkipTwice(text, pos);
    LexHead(text, pos);
  }

  lemma SeesRedir(text: string, pos: nat)
    requires pos <= |text|
    ensures Sees(text, Skip(text, pos), {'<', '>'}) <==> StartsWith(Lex(text, pos), REDIRS)
    ensures var t := TokenAt(text, Skip(text, pos));
            StartsWith(Lex(text, pos), REDIRS) ==>
              Lex(text, pos) == [Symbol(t.kind)] + Lex(text, t.next) && t.kind in REDIRS
              && OpChar(KindOf(t.kind)) == t.kind
  {
    hide Lex;
    SkipTwice(text, pos);
    LexHead(text, pos);
  }

  lemma SymbolFirst(text: string, pos: nat, c: char)
    requires pos <= |text| && StartsWith(Lex(text, pos), {c}) && IsSymbol(c) && c != '>'
    ensures Lex(text, pos) == [Symbol(c)] + Lex(text, TokenAt(text, Skip(text, pos)).next)
  {
    hide Lex, Skip, TokenAt;
    SeesSymbol(text, pos, {c});
  }

  lemma LexHead(text: string, pos: nat)
    requires pos <= |text|
    ensures var t := TokenAt(text, pos);
            Lex(text, pos) == if t.kind == '\0' then [] else [LexemeOf(t)] + Lex(text, t.next)
  {
  }

  // Items.

  lemma Assoc(a: seq<Lexeme>, b: seq<Lexeme>, c: seq<Lexeme>)
    ensures (a + b) + c == a + (b + c)
  {
  }

  lemma AppendTail(a: seq<Item>, b: seq<Item>)
    ensures if a == [] then a + b == b else (a + b)[0] == a[0] && (a + b)[1..] == a[1..] + b
  {
  }

  lemma {:induction false} YieldAppend(a: seq<Item>, b: seq<Item>)
    ensures ItemsYield(a + b) == ItemsYield(a) + ItemsYield(b)
  {
    AppendTail(a, b);
    if a != [] {
      YieldAppend(a[1..], b);
      Assoc(ItemYield(a[0]), ItemsYield(a[1..]), ItemsYield(b));
    }
  }

  lemma {:induction false} ArgsAppend(a: seq<Item>, b: seq<Item>)
    ensures ArgsOf(a + b) == ArgsOf(a) + ArgsOf(b)
  {
    AppendTail(a, b);
    if a != [] {
      ArgsAppend(a[1..], b);
    }
  }

  lemma {:induction false} WrappedAppend(cmd: Cmd<Span>, a: seq<Item>, b: seq<Item>)
    ensures Wrapped(cmd, a + b) == Wrapped(Wrapped(cmd, a), b)
    decreases |a|
  {
    AppendTail(a, b);
    if a != [] {
      WrappedAppend(if a[0].File? then Redir(cmd, a[0].file, a[0].kind) else cmd, a[1..], b);
    }
  }

  lemma ItemsAppend(a: seq<Item>, b: seq<Item>, cmd: Cmd<Span>)
    ensures ItemsYield(a + b) == ItemsYield(a) + ItemsYield(b) && ArgsOf(a + b) == ArgsOf(a) + ArgsOf(b)
    ensures Wrapped(cmd, a + b) == Wrapped(Wrapped(cmd, a), b)
  {
    hide ItemsYield, ArgsOf, Wrapped;
    YieldAppend(a, b);
    ArgsAppend(a, b);
    WrappedAppend(cmd, a, b);
  }

  // What a derivation derives, followed by something else.

  lemma FileYields(files: seq<Item>, rest: seq<Lexeme>)
    requires files != [] && files[0].File?
    ensures ItemsYield(files) + rest
         == [Symbol(OpChar(files[0].kind))] + ([Word(files[0].file)] + (ItemsYield(files[1..]) + rest))
  {
    var op, word, tail := [Symbol(OpChar(files[0].kind))], [Word(files[0].file)], ItemsYield(files[1..]);
    assert ItemYield(files[0]) == op + word;
    hide ItemsYield;
    Assoc(op + word, tail, rest);
    Assoc(op, word, tail + rest);
  }

  lemma NoItems(done: seq<Item>, rest: seq<Lexeme>)
    ensures done + [] == done && ItemsYield([]) + rest == rest
  {
  }

  lemma BlockYields(body: Line, files: seq<Item>, rest: seq<Lexeme>)
    ensures SimpleYield(Block(body, files)) + rest
         == [Symbol('(')] + (LineYield(body) + ([Symbol(')')] + (ItemsYield(files) + rest)))
  {
    hide LineYield, ItemsYield;
    var y, open, close := LineYield(body), [Symbol('(')], [Symbol(')')];
    Assoc(close, ItemsYield(files), rest);
    Assoc(y, close + ItemsYield(files), rest);
    Assoc(open, y + (close + ItemsYield(files)), rest);
  }

  lemma PipelineYields(p: Pipeline, rest: seq<Lexeme>)
    ensures var after := if p.One? then rest else [Symbol('|')] + (PipelineYield(p.rest) + rest);
            PipelineYield(p) + rest == SimpleYield(p.first) + after
  {
    hide SimpleYield;
    if p.More? {
      Assoc([Symbol('|')], PipelineYield(p.rest), rest);
      Assoc(SimpleYield(p.first), [Symbol('|')] + PipelineYield(p.rest), rest);
    }
  }

  lemma LineYields(l: Line, rest: seq<Lexeme>)
    ensures var after := if l.Last? then rest else [Symbol(';')] + (LineYield(l.rest) + rest);
            LineYield(l) + rest == PipelineYield(l.first) + (BacksYield(l.backs) + after)
  {
    hide PipelineYield, BacksYield;
    var y, b := PipelineYield(l.first), BacksYield(l.backs);
    if l.Last? {
      Assoc(y, b, rest);
    } else {
      var tail := [Symbol(';')] + LineYield(l.rest);
      Assoc([Symbol(';')], LineYield(l.rest), rest);
      Assoc(b, tail, rest);
      Assoc(y, b + tail, rest);
    }
  }

  lemma {:induction false} FilesHaveNoArgs(files: seq<Item>)
    requires FilesOnly(files)
    ensures ArgsOf(files) == []
  {
    if files != [] {
      FilesHaveNoArgs(files[1..]);
    }
  }

  lemma {:induction false} FillWrapped(cmd: Cmd<Span>, items: seq<Item>, args: seq<Span>)
    ensures Fill(Wrapped(cmd, items), args) == Wrapped(Fill(cmd, args), items)
    decreases |items|
  {
    if items != [] {
      FillWrapped(if items[0].File? then Redir(cmd, items[0].file, items[0].kind) else cmd, items[1..], args);
    }
  }

  /** The tree of a simple command, while parseexec is at work on it. */
  function PlainTree(items: seq<Item>): Cmd<Span> {
    Wrapped(Exec(ArgsOf(items)), items)
  }

  lemma PlainTreeGrows(items: seq<Item>, w: Span, files: seq<Item>)
    requires FilesOnly(files)
    ensures var args := ArgsOf(items) + [w];
            && ArgsOf(items + [Arg(w)]) == ArgsOf(items + [Arg(w)] + files) == args
            && Fill(PlainTree(items), args) == PlainTree(items + [Arg(w)])
            && Wrapped(PlainTree(items + [Arg(w)]), files) == PlainTree(items + [Arg(w)] + files)
  {
    var more, args := items + [Arg(w)], ArgsOf(items) + [w];
    ItemsAppend(items, [Arg(w)], Exec(args));
    assert ArgsOf([Arg(w)]) == [w] && Wrapped(Wrapped(Exec(args), items), [Arg(w)]) == Wrapped(Exec(args), items);
    FilesHaveNoArgs(files);
    ItemsAppend(more, files, Exec(args));
    FillWrapped(Exec(ArgsOf(items)), items, args);
  }

  // Whatever the parser accepts has a derivation.

  lemma {:induction false} RedirsDerive(text: string, pos: nat, cmd: Cmd<Span>) returns (files: seq<Item>)
    requires pos <= |text| && Redirs(text, pos, cmd).Ok?
    ensures FilesOnly(files) && Redirs(text, pos, cmd).cmd == Wrapped(cmd, files)
    ensures Lex(text, pos) == ItemsYield(files) + Lex(text, Redirs(text, pos, cmd).pos)
    ensures !StartsWith(Lex(text, Redirs(text, pos, cmd).pos), REDIRS)
    decreases |text| - pos
  {
    hide Lex, Skip, TokenAt;
    SeesRedir(text, pos);
    SkipTwice(text, pos);
    var p := Skip(text, pos);
    if Sees(text, p, {'<', '>'}) {
      var t := TokenAt(text, p);
      var f := TokenAt(text, t.next);
      LexHead(text, t.next);
      var rest := RedirsDerive(text, f.next, Redir(cmd, f.span, KindOf(t.kind)));
      files := [File(KindOf(t.kind), f.span)] + rest;
      assert files[1..] == rest;
    } else {
      files := [];
    }
  }

  lemma {:induction false} BacksDerive(text: string, pos: nat, cmd: Cmd<Span>) returns (n: nat)
    requires pos <= |text|
    ensures Backs(text, pos, cmd).cmd == Backed(cmd, n)
    ensures Lex(text, pos) == BacksYield(n) + Lex(text, Backs(text, pos, cmd).pos)
    decreases |text| - pos
  {
    hide Lex, Skip, TokenAt;
    SeesSymbol(text, pos, {'&'});
    SkipTwice(text, pos);
    var p := Skip(text, pos);
    if Sees(text, p, {'&'}) {
      n := BacksDerive(text, TokenAt(text, p).next, Back(cmd));
      n := n + 1;
      assert Lex(text, pos) == [Symbol('&')] + Lex(text, pos)[1..];
    } else {
      n := 0;
    }
  }

  lemma {:induction false} ArgsDerive(text: string, pos: nat, done: seq<Item>) returns (items: seq<Item>)
    requires pos <= |text| && |ArgsOf(done)| < MAXARGS && Args(text, pos, PlainTree(done), ArgsOf(done)).Ok?
    ensures |ArgsOf(done + items)| < MAXARGS
            && Args(text, pos, PlainTree(done), ArgsOf(done)).cmd == PlainTree(done + items)
    ensures Lex(text, pos) == ItemsYield(items) + Lex(text, Args(text, pos, PlainTree(done), ArgsOf(done)).pos)
    decreases |text| - pos
  {
    hide Lex, Skip, TokenAt, ArgsOf, Wrapped, Fill, Redirs;
    SeesSymbol(text, pos, {'|', ')', '&', ';'});
    SkipTwice(text, pos);
    LexHead(text, pos);
    var t := TokenAt(text, pos);
    if Sees(text, Skip(text, pos), {'|', ')', '&', ';'}) || t.kind == '\0' {
      items := [];
      assert done + items == done;
    } else {
      var more := done + [Arg(t.span)];
      PlainTreeGrows(done, t.span, []);
      var r := Redirs(text, t.next, PlainTree(more));
      var files := RedirsDerive(text, t.next, PlainTree(more));
      PlainTreeGrows(done, t.span, files);
      var rest := ArgsDerive(text, r.pos, more + files);
      items := [Arg(t.span)] + files + rest;
      assert done + items == more + files + rest;
      ItemsYields(t.span, files, rest);
    }
  }

  lemma ItemsYields(w: Span, files: seq<Item>, rest: seq<Item>)
    ensures ItemsYield([Arg(w)] + files + rest) == [Word(w)] + (ItemsYield(files) + ItemsYield(rest))
  {
    assert ([Arg(w)] + files + rest)[1..] == files + rest;
    ItemsAppend(files, rest, Exec([]));
  }

  /** s derives the tokens between two positions, and means cmd. */
  predicate SimpleFits(text: string, s: Simple, from: nat, to: nat, cmd: Cmd<Span>) {
    && from <= |text| && to <= |text| && GoodSimple(s) && SimpleTree(s) == cmd
    && Lex(text, from) == SimpleYield(s) + Lex(text, to)
  }

  predicate PipelineFits(text: string, p: Pipeline, from: nat, to: nat, cmd: Cmd<Span>) {
    && from <= |text| && to <= |text| && GoodPipeline(p) && PipelineTree(p) == cmd
    && Lex(text, from) == PipelineYield(p) + Lex(text, to)
  }

  predicate LineFits(text: string, l: Line, from: nat, to: nat, cmd: Cmd<Span>) {
    && from <= |text| && to <= |text| && GoodLine(l) && LineTree(l) == cmd
    && Lex(text, from) == LineYield(l) + Lex(text, to)
  }

  lemma {:induction false} ExecDerives(text: string, pos: nat) returns (s: Simple)
    requires pos <= |text| && ExecAt(text, pos).Ok?
    ensures SimpleFits(text, s, pos, ExecAt(text, pos).pos, ExecAt(text, pos).cmd)
    decreases |text| - pos, 2
  {
    hide Lex, Skip, TokenAt, Redirs, Args, BlockAt, LineAt;
    SeesSymbol(text, pos, {'('});
    SkipTwice(text, pos);
    var p := Skip(text, pos);
    if Sees(text, p, {'('}) {
      s := BlockDerives(text, p);
    } else {
      var r := Redirs(text, p, Exec([]));
      var files := RedirsDerive(text, p, Exec([]));
      FilesHaveNoArgs(files);
      var items := ArgsDerive(text, r.pos, files);
      ItemsAppend(files, items, Exec([]));
      s := Plain(files + items);
    }
  }

  lemma {:induction false} BlockDerives(text: string, pos: nat) returns (s: Simple)
    requires pos <= |text| && BlockAt(text, pos).Ok?
    ensures s.Block? && SimpleFits(text, s, pos, BlockAt(text, pos).pos, BlockAt(text, pos).cmd)
    decreases |text| - pos, 1
  {
    hide Lex, Skip, TokenAt, Redirs, Args, LineAt, StartsWith, SimpleYield, LineYield, ItemsYield;
    SeesSymbol(text, pos, {'('});
    SkipTwice(text, pos);
    var open := TokenAt(text, Skip(text, pos)).next;
    var r := LineAt(text, open);
    var body := LineDerives(text, open);
    SeesSymbol(text, r.pos, {')'});
    var close := TokenAt(text, Skip(text, r.pos)).next;
    var files := RedirsDerive(text, close, r.cmd);
    s := Block(body, files);
    SymbolFirst(text, pos, '(');
    SymbolFirst(text, r.pos, ')');
    BlockYields(body, files, Lex(text, Redirs(text, close, r.cmd).pos));
  }

  lemma {:induction false} PipeDerives(text: string, pos: nat) returns (p: Pipeline)
    requires pos <= |text| && PipeAt(text, pos).Ok?
    ensures PipelineFits(text, p, pos, PipeAt(text, pos).pos, PipeAt(text, pos).cmd)
    decreases |text| - pos, 3
  {
    hide Lex, Skip, TokenAt, ExecAt, StartsWith, SimpleYield, PipelineYield;
    var s := ExecDerives(text, pos);
    var r := ExecAt(text, pos);
    SeesSymbol(text, r.pos, {'|'});
    SkipTwice(text, r.pos);
    var q := Skip(text, r.pos);
    if Sees(text, q, {'|'}) {
      var next := TokenAt(text, q).next;
      var rest := PipeDerives(text, next);
      SymbolFirst(text, r.pos, '|');
      p := More(s, rest);
    } else {
      p := One(s);
    }
    PipelineYields(p, Lex(text, PipeAt(text, pos).pos));
  }

  lemma {:induction false} LineDerives(text: string, pos: nat) returns (l: Line)
    requires pos <= |text| && LineAt(text, pos).Ok?
    ensures LineFits(text, l, pos, LineAt(text, pos).pos, LineAt(text, pos).cmd)
    decreases |text| - pos, 4
  {
    hide Lex, Skip, TokenAt, PipeAt, Backs, StartsWith, PipelineYield, BacksYield, LineYield;
    var p := PipeDerives(text, pos);
    var r := PipeAt(text, pos);
    var n := BacksDerive(text, r.pos, r.cmd);
    var b := Backs(text, r.pos, r.cmd);
    SeesSymbol(text, b.pos, {';'});
    SkipTwice(text, b.pos);
    var q := Skip(text, b.pos);
    if Sees(text, q, {';'}) {
      var next := TokenAt(text, q).next;
      var rest := LineDerives(text, next);
      SymbolFirst(text, b.pos, ';');
      l := Semi(p, n, rest);
    } else {
      l := Last(p, n);
    }
    LineYields(l, Lex(text, LineAt(text, pos).pos));
  }

  // Whatever has a derivation is accepted, with the meaning of that derivation.

  lemma {:induction false} RedirsAccept(text: string, pos: nat, cmd: Cmd<Span>, files: seq<Item>, rest: seq<Lexeme>)
    requires pos <= |text| && FilesOnly(files) && Lex(text, pos) == ItemsYield(files) + rest
             && !StartsWith(rest, REDIRS)
    ensures var r := Redirs(text, pos, cmd); r.Ok? && r.cmd == Wrapped(cmd, files) && Lex(text, r.pos) == rest
    decreases |files|
  {
    hide Lex, Skip, TokenAt, ItemsYield;
    SeesRedir(text, pos);
    SkipTwice(text, pos);
    if files == [] {
      NoItems([], rest);
    } else {
      var f := files[0];
      var t := TokenAt(text, Skip(text, pos));
      var tail := ItemsYield(files[1..]) + rest;
      FileYields(files, rest);
      assert Lex(text, t.next) == Lex(text, pos)[1..];
      LexHead(text, t.next);
      var g := TokenAt(text, t.next);
      assert LexemeOf(g) == Lex(text, t.next)[0] == Word(f.file);
      assert Lex(text, g.next) == Lex(text, t.next)[1..] == tail;
      RedirsAccept(text, g.next, Redir(cmd, f.file, f.kind), files[1..], rest);
    }
  }

  lemma {:induction false} BacksAccept(text: string, pos: nat, cmd: Cmd<Span>, n: nat, rest: seq<Lexeme>)
    requires pos <= |text| && Lex(text, pos) == BacksYield(n) + rest && !StartsWith(rest, {'&'})
    ensures var r := Backs(text, pos, cmd); r.cmd == Backed(cmd, n) && Lex(text, r.pos) == rest
    decreases n
  {
    hide Lex, Skip, TokenAt;
    SeesSymbol(text, pos, {'&'});
    SkipTwice(text, pos);
    if n == 0 {
      assert BacksYield(n) + rest == rest;
    } else {
      assert Lex(text, pos) == [Symbol('&')] + (BacksYield(n - 1) + rest);
      BacksAccept(text, TokenAt(text, Skip(text, pos)).next, Back(cmd), n - 1, rest);
    }
  }

  /** How many redirections come before the first argument. */
  function Leading(items: seq<Item>): (n: nat)
    ensures n <= |items| && FilesOnly(items[..n]) && (n < |items| ==> items[n].Arg?)
  {
    if items == [] || items[0].Arg? then 0
    else
      var n := Leading(items[1..]);
      assert items[..n + 1] == [items[0]] + items[1..][..n];
      n + 1
  }

  /** These tokens are at an end, or begin with one of the symbols. */
  predicate Ends(ls: seq<Lexeme>, cs: set<char>) {
    ls == [] || StartsWith(ls, cs)
  }

  const EXEC_ENDS: set<char> := {'|', ')', '&', ';'}
  const PIPE_ENDS: set<char> := {')', '&', ';'}
  const LINE_ENDS: set<char> := {')'}

  lemma NotARedir(tail: seq<Item>, rest: seq<Lexeme>)
    requires (tail == [] || tail[0].Arg?) && Ends(rest, EXEC_ENDS)
    ensures !StartsWith(ItemsYield(tail) + rest, REDIRS)
  {
    assert tail == [] ==> ItemsYield(tail) + rest == rest;
  }

  /** An argument, the redirections after it, and what is left. */
  lemma SplitItems(done: seq<Item>, items: seq<Item>, rest: seq<Lexeme>)
    requires items != [] && items[0].Arg?
    ensures var n, w := Leading(items[1..]), items[0].word;
            && n < |items|
            && var files, tail := items[1..n + 1], items[n + 1..];
            && FilesOnly(files) && (tail == [] || tail[0].Arg?)
            && done + items == done + [Arg(w)] + files + tail
            && ItemsYield(items) + rest == [Word(w)] + (ItemsYield(files) + (ItemsYield(tail) + rest))
            && |ArgsOf(done)| + 1 <= |ArgsOf(done + items)|
  {
    hide Leading, FilesOnly, ItemsYield, ArgsOf;
    var n, w := Leading(items[1..]), items[0].word;
    var files, tail := items[1..n + 1], items[n + 1..];
    assert files == items[1..][..n];
    assert items == [Arg(w)] + files + tail;
    assert done + items == done + [Arg(w)] + files + tail;
    ItemsYields(w, files, tail);
    Assoc(ItemsYield(files), ItemsYield(tail), rest);
    Assoc([Word(w)], ItemsYield(files) + ItemsYield(tail), rest);
    ArgsAppend(done, items);
    SomeArgs(items);
  }

  lemma SomeArgs(items: seq<Item>)
    requires items != [] && items[0].Arg?
    ensures 1 <= |ArgsOf(items)|
  {
  }

  lemma {:induction false} ArgsAccept(text: string, pos: nat, done: seq<Item>, items: seq<Item>, rest: seq<Lexeme>)
    requires pos <= |text| && (items == [] || items[0].Arg?) && |ArgsOf(done + items)| < MAXARGS
    requires Lex(text, pos) == ItemsYield(items) + rest && Ends(rest, EXEC_ENDS)
    ensures var r := Args(text, pos, PlainTree(done), ArgsOf(done));
            r.Ok? && r.cmd == PlainTree(done + items) && Lex(text, r.pos) == rest
    decreases |items|
  {
    hide Lex, Skip, TokenAt, ArgsOf, PlainTree, Fill, Redirs, ItemsYield, Leading, FilesOnly;
    SeesSymbol(text, pos, {'|', ')', '&', ';'});
    SkipTwice(text, pos);
    LexHead(text, pos);
    if items == [] {
      NoItems(done, rest);
    } else {
      SplitItems(done, items, rest);
      var n, w, t := Leading(items[1..]), items[0].word, TokenAt(text, pos);
      var files, tail := items[1..n + 1], items[n + 1..];
      var after := ItemsYield(files) + (ItemsYield(tail) + rest);
      assert LexemeOf(t) == Lex(text, pos)[0] == Word(w);
      assert Lex(text, t.next) == Lex(text, pos)[1..] == after;
      var more := done + [Arg(w)];
      PlainTreeGrows(done, w, files);
      NotARedir(tail, rest);
      RedirsAccept(text, t.next, PlainTree(more), files, ItemsYield(tail) + rest);
      ArgsAccept(text, Redirs(text, t.next, PlainTree(more)).pos, more + files, tail, rest);
    }
  }

  lemma {:induction false} ExecAccepts(text: string, pos: nat, s: Simple, rest: seq<Lexeme>)
    requires pos <= |text| && GoodSimple(s) && Lex(text, pos) == SimpleYield(s) + rest && Ends(rest, EXEC_ENDS)
    ensures var r := ExecAt(text, pos); r.Ok? && r.cmd == SimpleTree(s) && Lex(text, r.pos) == rest
    decreases s, 0
  {
    if s.Plain? {
      PlainAccepted(text, pos, s.items, rest);
    } else {
      BlockAccepted(text, pos, s.body, s.files, rest);
    }
  }

  lemma PlainAccepted(text: string, pos: nat, items: seq<Item>, rest: seq<Lexeme>)
    requires pos <= |text| && |ArgsOf(items)| < MAXARGS && Lex(text, pos) == ItemsYield(items) + rest
             && Ends(rest, EXEC_ENDS)
    ensures var r := ExecAt(text, pos); r.Ok? && r.cmd == PlainTree(items) && Lex(text, r.pos) == rest
  {
    hide Lex, Skip, TokenAt, Redirs, Args, Fill, BlockAt, Leading, FilesOnly, ArgsOf, ItemsYield, Wrapped;
    SeesSymbol(text, pos, {'('});
    SkipTwice(text, pos);
    SplitLeading(items, rest);
    var p, n := Skip(text, pos), Leading(items);
    var files, tail := items[..n], items[n..];
    NotARedir(tail, rest);
    RedirsAccept(text, p, Exec([]), files, ItemsYield(tail) + rest);
    ArgsAccept(text, Redirs(text, p, Exec([])).pos, files, tail, rest);
  }

  lemma NotABlock(items: seq<Item>, rest: seq<Lexeme>)
    requires Ends(rest, EXEC_ENDS)
    ensures !StartsWith(ItemsYield(items) + rest, {'('})
  {
    assert items == [] ==> ItemsYield(items) + rest == rest;
  }

  lemma SplitLeading(items: seq<Item>, rest: seq<Lexeme>)
    requires Ends(rest, EXEC_ENDS)
    ensures var n := Leading(items);
            && var files, tail := items[..n], items[n..];
            && items == files + tail && ArgsOf(files) == [] && FilesOnly(files) && (tail == [] || tail[0].Arg?)
            && ItemsYield(items) + rest == ItemsYield(files) + (ItemsYield(tail) + rest)
    ensures !StartsWith(ItemsYield(items) + rest, {'('})
  {
    hide Leading, FilesOnly, ArgsOf, ItemsYield;
    var n := Leading(items);
    var files, tail := items[..n], items[n..];
    assert items == files + tail;
    YieldAppend(files, tail);
    Assoc(ItemsYield(files), ItemsYield(tail), rest);
    FilesHaveNoArgs(files);
    NotABlock(items, rest);
  }

  lemma BlockAccepted(text: string, pos: nat, body: Line, files: seq<Item>, rest: seq<Lexeme>)
    requires pos <= |text| && GoodSimple(Block(body, files)) && Ends(rest, EXEC_ENDS)
    requires Lex(text, pos) == SimpleYield(Block(body, files)) + rest
    ensures var r := ExecAt(text, pos); r.Ok? && r.cmd == SimpleTree(Block(body, files)) && Lex(text, r.pos) == rest
    decreases body, 1
  {
    hide Lex, Skip, TokenAt, Redirs, Args, LineAt, SimpleYield, LineYield, ItemsYield;
    SeesSymbol(text, pos, {'('});
    SkipTwice(text, pos);
    var open := TokenAt(text, Skip(text, pos)).next;
    var after := [Symbol(')')] + (ItemsYield(files) + rest);
    BlockYields(body, files, rest);
    assert Lex(text, open) == Lex(text, pos)[1..] == LineYield(body) + after;
    LineAccepts(text, open, body, after);
    var r := LineAt(text, open);
    SeesSymbol(text, r.pos, {')'});
    var close := TokenAt(text, Skip(text, r.pos)).next;
    assert Lex(text, close) == after[1..] == ItemsYield(files) + rest;
    RedirsAccept(text, close, r.cmd, files, rest);
  }

  lemma {:induction false} PipeAccepts(text: string, pos: nat, p: Pipeline, rest: seq<Lexeme>)
    requires pos <= |text| && GoodPipeline(p) && Lex(text, pos) == PipelineYield(p) + rest && Ends(rest, PIPE_ENDS)
    ensures var r := PipeAt(text, pos); r.Ok? && r.cmd == PipelineTree(p) && Lex(text, r.pos) == rest
    decreases p, 0
  {
    hide Lex, Skip, TokenAt, ExecAt, SimpleYield, PipelineYield;
    var after := if p.One? then rest else [Symbol('|')] + (PipelineYield(p.rest) + rest);
    PipelineYields(p, rest);
    ExecAccepts(text, pos, p.first, after);
    var r := ExecAt(text, pos);
    SeesSymbol(text, r.pos, {'|'});
    SkipTwice(text, r.pos);
    if p.More? {
      var next := TokenAt(text, Skip(text, r.pos)).next;
      assert Lex(text, next) == after[1..] == PipelineYield(p.rest) + rest;
      PipeAccepts(text, next, p.rest, rest);
    }
  }

  lemma {:induction false} LineAccepts(text: string, pos: nat, l: Line, rest: seq<Lexeme>)
    requires pos <= |text| && GoodLine(l) && Lex(text, pos) == LineYield(l) + rest && Ends(rest, LINE_ENDS)
    ensures var r := LineAt(text, pos); r.Ok? && r.cmd == LineTree(l) && Lex(text, r.pos) == rest
    decreases l, 0
  {
    hide Lex, Skip, TokenAt, PipeAt, Backs, PipelineYield, LineYield;
    var after := if l.Last? then rest else [Symbol(';')] + (LineYield(l.rest) + rest);
    LineYields(l, rest);
    assert Ends(BacksYield(l.backs) + after, PIPE_ENDS) by {
      assert l.backs == 0 ==> BacksYield(l.backs) + after == after;
    }
    PipeAccepts(text, pos, l.first, BacksYield(l.backs) + after);
    var r := PipeAt(text, pos);
    BacksAccept(text, r.pos, r.cmd, l.backs, after);
    var b := Backs(text, r.pos, r.cmd);
    SeesSymbol(text, b.pos, {';'});
    SkipTwice(text, b.pos);
    if l.Semi? {
      var next := TokenAt(text, Skip(text, b.pos)).next;
      assert Lex(text, next) == after[1..] == LineYield(l.rest) + rest;
      LineAccepts(text, next, l.rest, rest);
    }
  }

  /** The line as a whole has a derivation that means cmd. */
  ghost predicate Means(text: string, cmd: Cmd<Span>) {
    exists l :: GoodLine(l) && LineYield(l) == Lex(text, 0) && LineTree(l) == cmd
  }

  /** parsecmd decides the grammar: it returns a tree if and only if the line derives that tree. So it panics exactly on
      lines outside the grammar, and no line has two meanings. */
  lemma ParsesExactly(text: string, cmd: Cmd<Span>)
    ensures ParseCmd(text).Ok? && ParseCmd(text).cmd == cmd <==> Means(text, cmd)
  {
    hide Lex, Skip, LineAt;
    var r := LineAt(text, 0);
    if r.Ok? {
      SeesSymbol(text, r.pos, {});
    }
    if ParseCmd(text).Ok? {
      var l := LineDerives(text, 0);
      assert LineYield(l) + [] == LineYield(l);
    }
    if Means(text, cmd) {
      var l :| GoodLine(l) && LineYield(l) == Lex(text, 0) && LineTree(l) == cmd;
      assert LineYield(l) + [] == LineYield(l);
      LineAccepts(text, 0, l, []);
      SeesSymbol(text, LineAt(text, 0).pos, {});
    }
  }

  // Words.

  /** A word is a longest run of plain characters. */
  predicate WordOk(text: string, w: Span) {
    && w.start < w.end <= |text| && (forall i | w.start <= i < w.end :: !IsDelimiter(text[i]))
    && (w.end < |text| ==> IsDelimiter(text[w.end]))
  }

  /** A word that begins at pos or later, and is longest to the left too. */
  predicate WordFrom(text: string, pos: nat, w: Span) {
    pos <= w.start && WordOk(text, w) && (w.start == pos || IsDelimiter(text[w.start - 1]))
  }

  lemma SameEnd(text: string, v: Span, w: Span)
    requires WordOk(text, v) && WordOk(text, w) && v.start == w.start
    ensures v == w
  {
  }

  /** The words among the tokens are the first one and those from the next token on. */
  lemma WordsStep(text: string, pos: nat, w: Span)
    requires pos <= |text|
    ensures var t := TokenAt(text, pos);
            WordFrom(text, pos, w) <==> t.kind != '\0' && ((t.kind == 'a' && w == t.span) || WordFrom(text, t.next, w))
  {
    var t := TokenAt(text, pos);
    var q := Skip(text, pos);
    if t.kind == 'a' {
      assert WordOk(text, t.span) && WordFrom(text, pos, t.span);
    }
    if WordFrom(text, pos, w) {
      assert text[w.start] == text[w.start..w.end][0];
      assert q <= w.start;
      if w.start == q {
        SameEnd(text, w, t.span);
      } else {
        assert IsDelimiter(text[w.start - 1]);
        assert t.next <= w.start;
      }
    }
    if t.kind != '\0' && WordFrom(text, t.next, w) {
      assert IsDelimiter(text[t.next - 1]) || IsDelimiter(text[t.next]);
    }
  }

  /** The words among the tokens are all words of the line. */
  lemma {:induction false} LexWords(text: string, pos: nat, w: Span)
    requires pos <= |text|
    ensures Word(w) in Lex(text, pos) <==> WordFrom(text, pos, w)
    decreases |text| - pos
  {
    hide TokenAt, WordFrom;
    WordsStep(text, pos, w);
    var t := TokenAt(text, pos);
    if t.kind != '\0' {
      LexWords(text, t.next, w);
    }
  }

  function Words(cmd: Cmd<Span>): (ws: set<Span>) {
    match cmd
    case Exec(args) => set i | 0 <= i < |args| :: args[i]
    case Redir(sub, file, _) => Words(sub) + {file}
    case Pipe(l, r) => Words(l) + Words(r)
    case List(l, r) => Words(l) + Words(r)
    case Back(sub) => Words(sub)
  }

  lemma {:induction false} ItemsWords(items: seq<Item>, cmd: Cmd<Span>, w: Span)
    ensures Word(w) in ItemsYield(items) <==> w in ArgsOf(items) || File(Input, w) in items || File(Output, w) in items
                                              || File(Append, w) in items
    ensures w in Words(Wrapped(cmd, items))
       <==> w in Words(cmd) || File(Input, w) in items || File(Output, w) in items || File(Append, w) in items
    decreases |items|
  {
    if items != [] {
      assert items == [items[0]] + items[1..];
      ItemsWords(items[1..], if items[0].File? then Redir(cmd, items[0].file, items[0].kind) else cmd, w);
    }
  }

  lemma {:induction false} BacksWords(cmd: Cmd<Span>, n: nat, w: Span)
    ensures w in Words(Backed(cmd, n)) <==> w in Words(cmd)
    ensures Word(w) !in BacksYield(n)
    decreases n
  {
    if n > 0 {
      BacksWords(Back(cmd), n - 1, w);
    }
  }

  lemma {:induction false} SimpleWords(s: Simple, w: Span)
    requires GoodSimple(s)
    ensures w in Words(SimpleTree(s)) <==> Word(w) in SimpleYield(s)
    decreases s
  {
    match s
    case Plain(items) =>
      ItemsWords(items, Exec(ArgsOf(items)), w);
    case Block(body, files) =>
      LineWords(body, w);
      ItemsWords(files, LineTree(body), w);
      FilesHaveNoArgs(files);
  }

  lemma {:induction false} PipelineWords(p: Pipeline, w: Span)
    requires GoodPipeline(p)
    ensures w in Words(PipelineTree(p)) <==> Word(w) in PipelineYield(p)
    decreases p
  {
    SimpleWords(p.first, w);
    if p.More? {
      PipelineWords(p.rest, w);
    }
  }

  lemma {:induction false} LineWords(l: Line, w: Span)
    requires GoodLine(l)
    ensures w in Words(LineTree(l)) <==> Word(w) in LineYield(l)
    decreases l
  {
    PipelineWords(l.first, w);
    BacksWords(PipelineTree(l.first), l.backs, w);
    if l.Semi? {
      LineWords(l.rest, w);
    }
  }

  /** The words of the tree are all words of the line: none is made up, and none is lost. */
  lemma AllWords(text: string, w: Span)
    requires ParseCmd(text).Ok?
    ensures w in Words(ParseCmd(text).cmd) <==> WordFrom(text, 0, w)
  {
    hide Lex, WordFrom, ParseCmd;
    ParsesExactly(text, ParseCmd(text).cmd);
    var l :| GoodLine(l) && LineYield(l) == Lex(text, 0) && LineTree(l) == ParseCmd(text).cmd;
    LineWords(l, w);
    LexWords(text, 0, w);
  }

  // What each level of the parser promises its caller.

  ghost predicate IsSimple(text: string, from: nat, to: nat, cmd: Cmd<Span>) {
    exists e :: SimpleFits(text, e, from, to, cmd)
  }

  ghost predicate IsBlock(text: string, from: nat, to: nat, cmd: Cmd<Span>) {
    exists e :: SimpleFits(text, e, from, to, cmd) && e.Block?
  }

  ghost predicate IsPipeline(text: string, from: nat, to: nat, cmd: Cmd<Span>) {
    exists p :: PipelineFits(text, p, from, to, cmd)
  }

  ghost predicate IsLine(text: string, from: nat, to: nat, cmd: Cmd<Span>) {
    exists l :: LineFits(text, l, from, to, cmd)
  }

  /** What comes next could be read as a simple command, up to where one may end. */
  ghost predicate SimpleAhead(text: string, pos: nat)
    requires pos <= |text|
  {
    exists e, rest :: GoodSimple(e) && Lex(text, pos) == SimpleYield(e) + rest && Ends(rest, EXEC_ENDS)
  }

  ghost predicate PipelineAhead(text: string, pos: nat)
    requires pos <= |text|
  {
    exists p, rest :: GoodPipeline(p) && Lex(text, pos) == PipelineYield(p) + rest && Ends(rest, PIPE_ENDS)
  }

  ghost predicate LineAhead(text: string, pos: nat)
    requires pos <= |text|
  {
    exists l, rest :: GoodLine(l) && Lex(text, pos) == LineYield(l) + rest && Ends(rest, LINE_ENDS)
  }

  /** The tokens between two positions are redirections, which wrapped around inner give cmd. */
  predicate RedirsFit(text: string, files: seq<Item>, from: nat, to: nat, inner: Cmd<Span>, cmd: Cmd<Span>) {
    && from <= |text| && to <= |text| && FilesOnly(files) && Wrapped(inner, files) == cmd
    && Lex(text, from) == ItemsYield(files) + Lex(text, to)
  }

  /** And no redirection comes after them. */
  ghost predicate AreRedirs(text: string, from: nat, to: nat, inner: Cmd<Span>, cmd: Cmd<Span>) {
    (exists files :: RedirsFit(text, files, from, to, inner, cmd)) && !StartsWith(Lex(text, to), REDIRS)
  }

  ghost predicate RedirsAhead(text: string, pos: nat)
    requires pos <= |text|
  {
    exists files, rest ::
      FilesOnly(files) && Lex(text, pos) == ItemsYield(files) + rest && !StartsWith(rest, REDIRS)
  }

  lemma RedirsMeaning(text: string, pos: nat, cmd: Cmd<Span>)
    requires pos <= |text|
    ensures var r := Redirs(text, pos, cmd);
            if r.Ok? then AreRedirs(text, pos, r.pos, cmd, r.cmd) else !RedirsAhead(text, pos)
  {
    hide Lex, Redirs;
    if Redirs(text, pos, cmd).Ok? {
      var files := RedirsDerive(text, pos, cmd);
      assert RedirsFit(text, files, pos, Redirs(text, pos, cmd).pos, cmd, Redirs(text, pos, cmd).cmd);
    } else if RedirsAhead(text, pos) {
      var files, rest :|
        FilesOnly(files) && Lex(text, pos) == ItemsYield(files) + rest && !StartsWith(rest, REDIRS);
      RedirsAccept(text, pos, cmd, files, rest);
      assert false;
    }
  }

  lemma ExecMeaning(text: string, pos: nat)
    requires pos <= |text|
    ensures var r := ExecAt(text, pos); if r.Ok? then IsSimple(text, pos, r.pos, r.cmd) else !SimpleAhead(text, pos)
  {
    hide Lex, ExecAt;
    if ExecAt(text, pos).Ok? {
      var e := ExecDerives(text, pos);
    } else if SimpleAhead(text, pos) {
      var e, rest :| GoodSimple(e) && Lex(text, pos) == SimpleYield(e) + rest && Ends(rest, EXEC_ENDS);
      ExecAccepts(text, pos, e, rest);
      assert false;
    }
  }

  /** A block at the cursor is what parseexec would read there. */
  lemma BlockMeaning(text: string, pos: nat)
    requires pos <= |text|
    ensures var r := BlockAt(text, pos);
            if r.Ok? then IsBlock(text, pos, r.pos, r.cmd) else !StartsWith(Lex(text, pos), {'('})
                                                                || !SimpleAhead(text, pos)
  {
    hide Lex, BlockAt, Skip;
    if BlockAt(text, pos).Ok? {
      var e := BlockDerives(text, pos);
    } else {
      SeesSymbol(text, pos, {'('});
      SkipTwice(text, pos);
      ExecMeaning(text, pos);
      BlockSkips(text, pos);
    }
  }

  lemma BlockSkips(text: string, pos: nat)
    requires pos <= |text|
    ensures BlockAt(text, Skip(text, pos)) == BlockAt(text, pos)
  {
    hide LineAt, Redirs, TokenAt;
    SkipTwice(text, pos);
  }

  lemma PipeMeaning(text: string, pos: nat)
    requires pos <= |text|
    ensures var r := PipeAt(text, pos); if r.Ok? then IsPipeline(text, pos, r.pos, r.cmd) else !PipelineAhead(text, pos)
  {
    hide Lex, PipeAt;
    if PipeAt(text, pos).Ok? {
      var p := PipeDerives(text, pos);
    } else if PipelineAhead(text, pos) {
      var p, rest :| GoodPipeline(p) && Lex(text, pos) == PipelineYield(p) + rest && Ends(rest, PIPE_ENDS);
      PipeAccepts(text, pos, p, rest);
      assert false;
    }
  }

  lemma LineMeaning(text: string, pos: nat)
    requires pos <= |text|
    ensures var r := LineAt(text, pos); if r.Ok? then IsLine(text, pos, r.pos, r.cmd) else !LineAhead(text, pos)
  {
    hide Lex, LineAt;
    if LineAt(text, pos).Ok? {
      var l := LineDerives(text, pos);
    } else if LineAhead(text, pos) {
      var l, rest :| GoodLine(l) && Lex(text, pos) == LineYield(l) + rest && Ends(rest, LINE_ENDS);
      LineAccepts(text, pos, l, rest);
      assert false;
    }
  }
}
