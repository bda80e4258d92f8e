/** The parser of the shell (user/sh.c): its methods, the printing of command trees, and the NULs that end the words. */
module Shell {
  import opened ShellSyntax

  // Words.

  predicate WordsOk(text: string, cmd: Cmd<Span>) {
    match cmd
    case Exec(args) => |args| < MAXARGS && forall i | 0 <= i < |args| :: WordOk(text, args[i])
    case Redir(sub, file, _) => WordsOk(text, sub) && WordOk(text, file)
    case Pipe(l, r) => WordsOk(text, l) && WordsOk(text, r)
    case List(l, r) => WordsOk(text, l) && WordsOk(text, r)
    case Back(sub) => WordsOk(text, sub)
  }

  lemma {:induction false} FillOk(text: string, cmd: Cmd<Span>, args: seq<Span>)
    requires WordsOk(text, cmd) && |args| < MAXARGS && forall i | 0 <= i < |args| :: WordOk(text, args[i])
    ensures WordsOk(text, Fill(cmd, args))
  {
    if cmd.Redir? {
      FillOk(text, cmd.sub, args);
    }
  }

  lemma {:induction false} RedirsOk(text: string, pos: nat, cmd: Cmd<Span>)
    requires pos <= |text| && WordsOk(text, cmd)
    ensures Redirs(text, pos, cmd).Ok? ==> WordsOk(text, Redirs(text, pos, cmd).cmd)
    decreases |text| - pos
  {
    var p := Skip(text, pos);
    if Sees(text, p, {'<', '>'}) {
      var t := TokenAt(text, p);
      var f := TokenAt(text, t.next);
      if f.kind == 'a' {
        RedirsOk(text, f.next, Redir(cmd, f.span, KindOf(t.kind)));
      }
    }
  }

  lemma {:induction false} ArgsOk(text: string, pos: nat, ret: Cmd<Span>, argv: seq<Span>)
    requires pos <= |text| && WordsOk(text, ret) && |argv| < MAXARGS && forall i | 0 <= i < |argv| ::
               WordOk(text, argv[i])
    ensures Args(text, pos, ret, argv).Ok? ==> WordsOk(text, Args(text, pos, ret, argv).cmd)
    decreases |text| - pos
  {
    var p := Skip(text, pos);
    var t := TokenAt(text, p);
    var argv' := argv + [t.span];
    if !Sees(text, p, {'|', ')', '&', ';'}) && t.kind == 'a' && |argv'| < MAXARGS {
      FillOk(text, ret, argv');
      RedirsOk(text, t.next, Fill(ret, argv'));
      var r := Redirs(text, t.next, Fill(ret, argv'));
      if r.Ok? {
        ArgsOk(text, r.pos, r.cmd, argv');
      }
    }
  }

  lemma {:induction false} BacksOk(text: string, pos: nat, cmd: Cmd<Span>)
    requires pos <= |text| && WordsOk(text, cmd)
    ensures WordsOk(text, Backs(text, pos, cmd).cmd)
    decreases |text| - pos
  {
    var p := Skip(text, pos);
    if Sees(text, p, {'&'}) {
      BacksOk(text, TokenAt(text, p).next, Back(cmd));
    }
  }

  /** Every word of a parsed command is a token of the line. */
  lemma {:induction false} LineOk(text: string, pos: nat)
    requires pos <= |text|
    ensures LineAt(text, pos).Ok? ==> WordsOk(text, LineAt(text, pos).cmd)
    decreases |text| - pos, 4
  {
    PipeOk(text, pos);
    var r := PipeAt(text, pos);
    if r.Ok? {
      BacksOk(text, r.pos, r.cmd);
      var p := Skip(text, Backs(text, r.pos, r.cmd).pos);
      if Sees(text, p, {';'}) {
        LineOk(text, TokenAt(text, p).next);
      }
    }
  }

  lemma {:induction false} PipeOk(text: string, pos: nat)
    requires pos <= |text|
    ensures PipeAt(text, pos).Ok? ==> WordsOk(text, PipeAt(text, pos).cmd)
    decreases |text| - pos, 3
  {
    ExecOk(text, pos);
    var r := ExecAt(text, pos);
    if r.Ok? {
      var p := Skip(text, r.pos);
      if Sees(text, p, {'|'}) {
        PipeOk(text, TokenAt(text, p).next);
      }
    }
  }

  lemma {:induction false} ExecOk(text: string, pos: nat)
    requires pos <= |text|
    ensures ExecAt(text, pos).Ok? ==> WordsOk(text, ExecAt(text, pos).cmd)
    decreases |text| - pos, 2
  {
    var p := Skip(text, pos);
    if Sees(text, p, {'('}) {
      LineOk(text, TokenAt(text, p).next);
      var r := LineAt(text, TokenAt(text, p).next);
      if r.Ok? && Sees(text, Skip(text, r.pos), {')'}) {
        RedirsOk(text, TokenAt(text, Skip(text, r.pos)).next, r.cmd);
      }
    } else {
      RedirsOk(text, p, Exec([]));
      var r := Redirs(text, p, Exec([]));
      if r.Ok? {
        ArgsOk(text, r.pos, r.cmd, []);
      }
    }
  }

  // Printing.

  /** What the words of a command say. */
  function Contents(text: string, cmd: Cmd<Span>): (c: Cmd<string>) {
    match cmd
    case Exec(args) => Exec(Texts(text, args))
    case Redir(sub, file, kind) => Redir(Contents(text, sub), TextOf(text, file), kind)
    case Pipe(l, r) => Pipe(Contents(text, l), Contents(text, r))
    case List(l, r) => List(Contents(text, l), Contents(text, r))
    case Back(sub) => Back(Contents(text, sub))
  }

  function TextOf(text: string, w: Span): string {
    if w.start <= w.end <= |text| then text[w.start..w.end] else ""
  }

  function Texts(text: string, args: seq<Span>): (ws: seq<string>)
    ensures |ws| == |args| && forall i | 0 <= i < |args| :: ws[i] == TextOf(text, args[i])
  {
    if args == [] then [] else Texts(text, args[..|args| - 1]) + [TextOf(text, args[|args| - 1])]
  }

  predicate PlainWord(w: string) {
    w != [] && forall i | 0 <= i < |w| :: IsPlain(w[i])
  }

  /** A tree whose words are plain, with at most MAXARGS - 1 of them in each exec. */
  predicate Printable(c: Cmd<string>) {
    match c
    case Exec(args) => |args| < MAXARGS && forall i | 0 <= i < |args| :: PlainWord(args[i])
    case Redir(sub, file, _) => Printable(sub) && PlainWord(file)
    case Pipe(l, r) => Printable(l) && Printable(r)
    case List(l, r) => Printable(l) && Printable(r)
    case Back(sub) => Printable(sub)
  }

  function Operator(kind: RedirKind): string {
    match kind
    case Input => "<"
    case Output => ">"
    case Append => ">>"
  }

  function Join(ws: seq<string>): string {
    if ws == [] then "" else ws[0] + (" " + Join(ws[1..]))
  }

  function Atom(c: Cmd<string>): string
    decreases c, 1
  {
    "(" + (Print(c) + ")")
  }

  /** The fully parenthesised printing. */
  function Print(c: Cmd<string>): string
    decreases c, 0
  {
    match c
    case Exec(args) => Join(args)
    case Redir(sub, file, kind) => Atom(sub) + (Operator(kind) + file)
    case Pipe(l, r) => Atom(l) + ("|" + Atom(r))
    case List(l, r) => Atom(l) + (";" + Atom(r))
    case Back(sub) => Atom(sub) + "&"
  }

  // Parsing what was printed.

  /** At pos the line goes on with s. */
  predicate Has(text: string, pos: nat, s: string) {
    pos + |s| <= |text| && text[pos..pos + |s|] == s
  }

  lemma HasSplit(text: string, pos: nat, a: string, b: string)
    requires Has(text, pos, a + b)
    ensures Has(text, pos, a) && Has(text, pos + |a|, b)
  {
    var whole := text[pos..pos + |a + b|];
    assert whole[..|a|] == a && whole[|a|..] == b;
    assert text[pos..pos + |a|] == whole[..|a|];
    assert text[pos + |a|..pos + |a| + |b|] == whole[|a|..];
  }

  /** Position e is where a printed command may end: at the end of the line, or before a closing parenthesis. */
  predicate Stop(text: string, e: nat) {
    e == |text| || (e < |text| && text[e] == ')')
  }

  /** A plain word up to something that is not plain is one token. */
  lemma {:induction false} WordEndIs(text: string, p: nat, e: nat)
    requires p <= e <= |text| && (forall i | p <= i < e :: !IsDelimiter(text[i]))
    requires e < |text| ==> IsDelimiter(text[e])
    ensures WordEnd(text, p) == e
    decreases e - p
  {
    if p < e {
      WordEndIs(text, p + 1, e);
    }
  }

  lemma WordToken(text: string, p: nat, w: string)
    requires Has(text, p, w) && PlainWord(w) && (p + |w| < |text| ==> IsDelimiter(text[p + |w|]))
    ensures Skip(text, p) == p && TokenAt(text, p) == Token('a', Span(p, p + |w|), Skip(text, p + |w|))
    ensures TextOf(text, Span(p, p + |w|)) == w && !IsSymbol(text[p])
  {
    forall i | p <= i < p + |w|
      ensures IsPlain(text[i])
    {
      assert text[i] == text[p..p + |w|][i - p];
    }
    WordEndIs(text, p, p + |w|);
  }

  /** What follows a word and its space is a word, or the end. */
  lemma JoinStarts(text: string, p: nat, ws: seq<string>)
    requires Has(text, p, Join(ws)) && (forall i | 0 <= i < |ws| :: PlainWord(ws[i])) && Stop(text, p + |Join(ws)|)
    ensures p <= |text| && Skip(text, p) == p && !Sees(text, p, {'<', '>'}) && !Sees(text, p, {'('})
  {
    if ws != [] {
      var w, rest := ws[0], ws[1..];
      HasSplit(text, p, w, " " + Join(rest));
      assert text[p] == text[p..p + |w|][0] == w[0];
    }
  }

  /** One turn of parseexec's loop, on a word and the space after it. */
  lemma ArgsStep(text: string, pos: nat, w: string, argv: seq<Span>)
    requires Has(text, pos, w) && PlainWord(w) && pos + |w| < |text| && text[pos + |w|] == ' ' && |argv| + 1 < MAXARGS
    requires Skip(text, pos + |w| + 1) == pos + |w| + 1 && !Sees(text, pos + |w| + 1, {'<', '>'})
    ensures var argv' := argv + [Span(pos, pos + |w|)];
            Args(text, pos, Exec(argv), argv) == Args(text, pos + |w| + 1, Exec(argv'), argv')
  {
    WordToken(text, pos, w);
    hide TokenAt, WordEnd, PlainWord;
    var argv', next := argv + [Span(pos, pos + |w|)], pos + |w| + 1;
    assert Skip(text, pos + |w|) == next;
    assert Redirs(text, next, Exec(argv')) == Ok(Exec(argv'), next);
  }

  lemma JoinSplit(text: string, pos: nat, ws: seq<string>)
    requires ws != [] && Has(text, pos, Join(ws))
    ensures var w := ws[0];
            && Has(text, pos, w) && pos + |w| < |text| && text[pos + |w|] == ' '
            && Has(text, pos + |w| + 1, Join(ws[1..]))
            && |Join(ws)| == |w| + 1 + |Join(ws[1..])|
  {
    hide Has;
    var w, rest := ws[0], ws[1..];
    HasSplit(text, pos, w, " " + Join(rest));
    HasSplit(text, pos + |w|, " ", Join(rest));
    CharAt(text, pos + |w|, ' ');
  }

  lemma ArgsStop(text: string, pos: nat, argv: seq<Span>)
    requires Stop(text, pos)
    ensures Args(text, pos, Exec(argv), argv) == Ok(Exec(argv), pos)
  {
    assert Skip(text, pos) == pos;
  }

  /** The words of an exec. */
  lemma {:induction false} ArgsParse(text: string, pos: nat, ws: seq<string>, argv: seq<Span>)
    requires Has(text, pos, Join(ws)) && |argv| + |ws| < MAXARGS && (forall i | 0 <= i < |ws| :: PlainWord(ws[i]))
    requires Stop(text, pos + |Join(ws)|)
    ensures var r := Args(text, pos, Exec(argv), argv);
            r.Ok? && r.pos == pos + |Join(ws)| && r.cmd.Exec? && Texts(text, r.cmd.args) == Texts(text, argv) + ws
    decreases |ws|
  {
    hide Args, Has, PlainWord, Skip, Stop, Sees, Texts, TextOf;
    if ws == [] {
      ArgsStop(text, pos, argv);
      FrontBack(Texts(text, argv), ws);
    } else {
      var w, rest := ws[0], ws[1..];
      JoinSplit(text, pos, ws);
      var argv', next := argv + [Span(pos, pos + |w|)], pos + |w| + 1;
      JoinStarts(text, next, rest);
      ArgsStep(text, pos, w, argv);
      ArgsParse(text, next, rest, argv');
      TextsMore(text, argv, Span(pos, pos + |w|));
      WordText(text, pos, w);
      FrontBack(Texts(text, argv), ws);
    }
  }

  lemma FrontBack(a: seq<string>, ws: seq<string>)
    ensures if ws == [] then a + ws == a else a + [ws[0]] + ws[1..] == a + ws
  {
  }

  lemma WordText(text: string, pos: nat, w: string)
    requires Has(text, pos, w)
    ensures TextOf(text, Span(pos, pos + |w|)) == w
  {
  }

  lemma TextsMore(text: string, argv: seq<Span>, w: Span)
    ensures Texts(text, argv + [w]) == Texts(text, argv) + [TextOf(text, w)]
  {
    assert (argv + [w])[..|argv|] == argv;
  }

  lemma ExecParses(text: string, pos: nat, ws: seq<string>)
    requires Has(text, pos, Join(ws)) && |ws| < MAXARGS && (forall i | 0 <= i < |ws| :: PlainWord(ws[i]))
             && Stop(text, pos + |Join(ws)|)
    ensures var r := ExecAt(text, pos); r.Ok? && r.pos == pos + |Join(ws)| && Contents(text, r.cmd) == Exec(ws)
  {
    hide Args, Has, PlainWord, Join;
    JoinStarts(text, pos, ws);
    assert Redirs(text, pos, Exec([])) == Ok(Exec([]), pos);
    ArgsParse(text, pos, ws, []);
    assert Texts(text, []) + ws == ws;
  }

  predicate IsAt(text: string, p: nat, c: char) {
    p < |text| && text[p] == c
  }

  /** A symbol, or the end of the line, at p. */
  predicate SymbolAt(text: string, p: nat) {
    p == |text| || (p < |text| && IsSymbol(text[p]))
  }

  lemma StopSkips(text: string, p: nat)
    requires SymbolAt(text, p)
    ensures Skip(text, p) == p
  {
  }

  /** A printed command begins with no white space. */
  lemma PrintStarts(text: string, p: nat, c: Cmd<string>)
    requires Has(text, p, Print(c)) && Printable(c) && Stop(text, p + |Print(c)|)
    ensures Skip(text, p) == p
  {
    if c.Exec? {
      JoinStarts(text, p, c.args);
    } else {
      assert Print(c)[0] == '(';
      assert text[p] == text[p..p + |Print(c)|][0];
    }
  }

  /** parseblock on a parenthesised line. */
  lemma BlockParses(text: string, pos: nat, cmd: Cmd<Span>, e: nat)
    requires IsAt(text, pos, '(') && Skip(text, pos + 1) == pos + 1 && LineAt(text, pos + 1) == Ok(cmd, e)
             && IsAt(text, e, ')') && SymbolAt(text, e + 1)
    ensures ExecAt(text, pos) == Redirs(text, e + 1, cmd)
  {
    hide LineAt, Redirs, IsSymbol;
    assert TokenAt(text, pos).next == pos + 1 by { BracketToken(text, pos); }
    assert TokenAt(text, e).next == e + 1 by { BracketToken(text, e); StopSkips(text, e + 1); }
    assert Skip(text, pos) == pos && Skip(text, e) == e by { BracketToken(text, pos); BracketToken(text, e); }
  }

  lemma BracketToken(text: string, p: nat)
    requires p < |text| && IsSymbol(text[p]) && text[p] != '>'
    ensures Skip(text, p) == p && TokenAt(text, p).next == Skip(text, p + 1) && TokenAt(text, p).kind == text[p]
  {
  }

  lemma NoRedirs(text: string, p: nat, cmd: Cmd<Span>)
    requires SymbolAt(text, p) && !Sees(text, p, {'<', '>'})
    ensures Redirs(text, p, cmd) == Ok(cmd, p)
  {
    StopSkips(text, p);
  }

  /** What follows decides how far each level of the parser goes. */
  lemma PipeEnds(text: string, pos: nat, cmd: Cmd<Span>, e: nat)
    requires pos <= |text| && ExecAt(text, pos) == Ok(cmd, e) && SymbolAt(text, e) && !Sees(text, e, {'|'})
    ensures PipeAt(text, pos) == Ok(cmd, e)
  {
    hide ExecAt, TokenAt;
    StopSkips(text, e);
  }

  lemma LineEnds(text: string, pos: nat, cmd: Cmd<Span>, e: nat)
    requires pos <= |text| && PipeAt(text, pos) == Ok(cmd, e) && Stop(text, e)
    ensures LineAt(text, pos) == Ok(cmd, e)
  {
    hide PipeAt, TokenAt;
    StopSkips(text, e);
    assert Backs(text, e, cmd) == Ok(cmd, e);
  }

  lemma PipeGoesOn(text: string, pos: nat, cmd: Cmd<Span>, e: nat, right: Cmd<Span>, end: nat)
    requires pos <= |text| && ExecAt(text, pos) == Ok(cmd, e) && IsAt(text, e, '|') && Skip(text, e + 1) == e + 1
    requires PipeAt(text, e + 1) == Ok(right, end)
    ensures PipeAt(text, pos) == Ok(Pipe(cmd, right), end)
  {
    hide ExecAt, TokenAt;
    BracketToken(text, e);
  }

  lemma LineGoesOn(text: string, pos: nat, cmd: Cmd<Span>, e: nat, right: Cmd<Span>, end: nat)
    requires pos <= |text| && PipeAt(text, pos) == Ok(cmd, e) && IsAt(text, e, ';') && Skip(text, e + 1) == e + 1
    requires LineAt(text, e + 1) == Ok(right, end)
    ensures LineAt(text, pos) == Ok(List(cmd, right), end)
  {
    hide PipeAt, TokenAt;
    BracketToken(text, e);
    assert Backs(text, e, cmd) == Ok(cmd, e);
  }

  lemma LineInBack(text: string, pos: nat, cmd: Cmd<Span>, e: nat)
    requires pos <= |text| && PipeAt(text, pos) == Ok(cmd, e) && IsAt(text, e, '&') && Stop(text, e + 1)
    ensures LineAt(text, pos) == Ok(Back(cmd), e + 1)
  {
    hide PipeAt, TokenAt;
    BracketToken(text, e);
    StopSkips(text, e + 1);
    assert Backs(text, e + 1, Back(cmd)) == Ok(Back(cmd), e + 1);
    assert Backs(text, e, cmd) == Ok(Back(cmd), e + 1);
  }

  /** A redirection operator and its file. */
  lemma RedirParses(text: string, p: nat, cmd: Cmd<Span>, kind: RedirKind, file: string)
    requires Has(text, p, Operator(kind) + file) && PlainWord(file) && Stop(text, p + |Operator(kind)| + |file|)
    ensures var r := Redirs(text, p, cmd);
            && SymbolAt(text, p) && r.Ok? && r.pos == p + |Operator(kind)| + |file| && r.cmd.Redir? && r.cmd.sub == cmd
            && r.cmd.kind == kind
            && TextOf(text, r.cmd.file) == file
  {
    hide Has, TokenAt, WordEnd, PlainWord, Operator, TextOf;
    var q := p + |Operator(kind)|;
    var e := q + |file|;
    HasSplit(text, p, Operator(kind), file);
    WordToken(text, q, file);
    OperatorToken(text, p, kind);
    StopSkips(text, e);
    NoRedirs(text, e, Redir(cmd, Span(q, e), kind));
  }

  lemma OperatorToken(text: string, p: nat, kind: RedirKind)
    requires Has(text, p, Operator(kind)) && p + |Operator(kind)| < |text|
    requires var q := p + |Operator(kind)|; !IsSymbol(text[q]) && Skip(text, q) == q
    ensures Skip(text, p) == p && Sees(text, p, {'<', '>'}) && IsSymbol(text[p])
    ensures var t := TokenAt(text, p); t.next == p + |Operator(kind)| && KindOf(t.kind) == kind
  {
    var op := Operator(kind);
    assert text[p] == text[p..p + |op|][0] == op[0];
    if kind == Append {
      assert text[p + 1] == text[p..p + |op|][1] == op[1];
    }
  }

  /** A parenthesised printing, with a symbol or the end of the line after it. */
  lemma AtomParses(text: string, pos: nat, c: Cmd<string>) returns (cmd: Cmd<Span>)
    requires Has(text, pos, Atom(c)) && Printable(c) && SymbolAt(text, pos + |Atom(c)|)
    ensures pos <= |text| && ExecAt(text, pos) == Redirs(text, pos + |Atom(c)|, cmd) && Contents(text, cmd) == c
            && IsAt(text, pos, '(')
    decreases c, 6
  {
    hide ExecAt, Redirs, LineAt, Contents, Printable, SymbolAt;
    AtomSplit(text, pos, c);
    var e := pos + 1 + |Print(c)|;
    PrintStarts(text, pos + 1, c);
    cmd := LineParses(text, pos + 1, c);
    BlockParses(text, pos, cmd, e);
  }

  lemma AtomSplit(text: string, pos: nat, c: Cmd<string>)
    requires Has(text, pos, Atom(c))
    ensures var e := pos + 1 + |Print(c)|;
            IsAt(text, pos, '(') && Has(text, pos + 1, Print(c)) && IsAt(text, e, ')') && Stop(text, e)
            && pos + |Atom(c)| == e + 1
  {
    HasSplit(text, pos, "(", Print(c) + ")");
    HasSplit(text, pos + 1, Print(c), ")");
    var e := pos + 1 + |Print(c)|;
    assert text[pos] == text[pos..pos + 1][0] && text[e] == text[e..e + 1][0];
  }

  /** Where the parts of a printing with two of them are. */
  lemma TwoAtoms(text: string, pos: nat, l: Cmd<string>, op: char, r: Cmd<string>)
    requires Has(text, pos, Atom(l) + ([op] + Atom(r)))
    ensures var q := pos + |Atom(l)|;
            && Has(text, pos, Atom(l)) && IsAt(text, q, op) && Has(text, q + 1, Atom(r))
            && q + 1 + |Atom(r)| == pos + |Atom(l) + ([op] + Atom(r))|
  {
    hide Atom, Print, Has;
    HasSplit(text, pos, Atom(l), [op] + Atom(r));
    var q := pos + |Atom(l)|;
    HasSplit(text, q, [op], Atom(r));
    CharAt(text, q, op);
  }

  /** Parsing what was printed gives the tree back. */
  lemma {:induction false} LineParses(text: string, pos: nat, c: Cmd<string>) returns (cmd: Cmd<Span>)
    requires Has(text, pos, Print(c)) && Printable(c) && Stop(text, pos + |Print(c)|)
    ensures pos <= |text| && LineAt(text, pos) == Ok(cmd, pos + |Print(c)|) && Contents(text, cmd) == c
    decreases c, 5
  {
    var e := pos + |Print(c)|;
    match c
    case Exec(args) =>
      ExecParses(text, pos, args);
      cmd := ExecAt(text, pos).cmd;
      PipeEnds(text, pos, cmd, e);
      LineEnds(text, pos, cmd, e);
    case Redir(sub, file, kind) =>
      cmd := RedirLine(text, pos, sub, file, kind);
    case Pipe(l, r) =>
      cmd := PipeLine(text, pos, l, r);
    case List(l, r) =>
      cmd := ListLine(text, pos, l, r);
    case Back(sub) =>
      cmd := BackLine(text, pos, sub);
  }

  lemma RedirLine(text: string, pos: nat, sub: Cmd<string>, file: string, kind: RedirKind) returns (cmd: Cmd<Span>)
    requires var c := Redir(sub, file, kind); Has(text, pos, Print(c)) && Printable(c) && Stop(text, pos + |Print(c)|)
    ensures var c := Redir(sub, file, kind); pos <= |text| && LineAt(text, pos) == Ok(cmd, pos + |Print(c)|)
                                             && Contents(text, cmd) == c
    decreases Redir(sub, file, kind), 4
  {
    hide ExecAt, PipeAt, LineAt, Redirs, TextOf, Has, Atom;
    var c := Redir(sub, file, kind);
    var q := pos + |Atom(sub)|;
    HasSplit(text, pos, Atom(sub), Operator(kind) + file);
    RedirParses(text, q, Exec([]), kind, file);
    var inner := AtomParses(text, pos, sub);
    RedirParses(text, q, inner, kind, file);
    cmd := Redirs(text, q, inner).cmd;
    PipeEnds(text, pos, cmd, pos + |Print(c)|);
    LineEnds(text, pos, cmd, pos + |Print(c)|);
  }

  lemma PipeLine(text: string, pos: nat, l: Cmd<string>, r: Cmd<string>) returns (cmd: Cmd<Span>)
    requires var c := Pipe(l, r); Has(text, pos, Print(c)) && Printable(c) && Stop(text, pos + |Print(c)|)
    ensures var c := Pipe(l, r); pos <= |text| && LineAt(text, pos) == Ok(cmd, pos + |Print(c)|)
                                 && Contents(text, cmd) == c
    decreases Pipe(l, r), 4
  {
    hide ExecAt, PipeAt, LineAt, Redirs, Has, Skip, Atom;
    var q, e := pos + |Atom(l)|, pos + |Print(Pipe(l, r))|;
    TwoAtoms(text, pos, l, '|', r);
    var left := AtomParses(text, pos, l);
    NoRedirs(text, q, left);
    var right := AtomParses(text, q + 1, r);
    NoRedirs(text, e, right);
    PipeEnds(text, q + 1, right, e);
    StopSkips(text, q + 1);
    PipeGoesOn(text, pos, left, q, right, e);
    cmd := Pipe(left, right);
    LineEnds(text, pos, cmd, e);
  }

  lemma ListLine(text: string, pos: nat, l: Cmd<string>, r: Cmd<string>) returns (cmd: Cmd<Span>)
    requires var c := List(l, r); Has(text, pos, Print(c)) && Printable(c) && Stop(text, pos + |Print(c)|)
    ensures var c := List(l, r); pos <= |text| && LineAt(text, pos) == Ok(cmd, pos + |Print(c)|)
                                 && Contents(text, cmd) == c
    decreases List(l, r), 4
  {
    hide ExecAt, PipeAt, LineAt, Redirs, Has, Skip, Atom;
    var q, e := pos + |Atom(l)|, pos + |Print(List(l, r))|;
    TwoAtoms(text, pos, l, ';', r);
    var left := AtomParses(text, pos, l);
    NoRedirs(text, q, left);
    PipeEnds(text, pos, left, q);
    var right := AtomParses(text, q + 1, r);
    NoRedirs(text, e, right);
    PipeEnds(text, q + 1, right, e);
    LineEnds(text, q + 1, right, e);
    StopSkips(text, q + 1);
    LineGoesOn(text, pos, left, q, right, e);
    cmd := List(left, right);
  }

  lemma BackLine(text: string, pos: nat, sub: Cmd<string>) returns (cmd: Cmd<Span>)
    requires var c := Back(sub); Has(text, pos, Print(c)) && Printable(c) && Stop(text, pos + |Print(c)|)
    ensures var c := Back(sub); pos <= |text| && LineAt(text, pos) == Ok(cmd, pos + |Print(c)|)
                                && Contents(text, cmd) == c
    decreases Back(sub), 4
  {
    hide ExecAt, PipeAt, LineAt, Redirs, Has, Skip, Atom;
    var q := pos + |Atom(sub)|;
    HasSplit(text, pos, Atom(sub), "&");
    CharAt(text, q, '&');
    var inner := AtomParses(text, pos, sub);
    NoRedirs(text, q, inner);
    PipeEnds(text, pos, inner, q);
    LineInBack(text, pos, inner, q);
    cmd := Back(inner);
  }

  lemma CharAt(text: string, p: nat, c: char)
    requires Has(text, p, [c])
    ensures IsAt(text, p, c)
  {
    assert text[p] == text[p..p + 1][0];
  }

  /** Parsing the fully parenthesised printing of any command tree returns that tree. */
  lemma ParsePrinted(c: Cmd<string>)
    requires Printable(c)
    ensures var r := ParseCmd(Print(c)); r.Ok? && Contents(Print(c), r.cmd) == c
  {
    var text := Print(c);
    assert text[0..0 + |text|] == text;
    var cmd := LineParses(text, 0, c);
  }

  lemma {:induction false} ContentsPrintable(text: string, cmd: Cmd<Span>)
    requires WordsOk(text, cmd) && '\0' !in text
    ensures Printable(Contents(text, cmd))
  {
    match cmd
    case Exec(args) =>
      forall i | 0 <= i < |args|
        ensures PlainWord(TextOf(text, args[i]))
      {
        assert WordOk(text, args[i]);
      }
    case Redir(sub, file, _) => ContentsPrintable(text, sub);
    case Pipe(l, r) =>
      ContentsPrintable(text, l);
      ContentsPrintable(text, r);
    case List(l, r) =>
      ContentsPrintable(text, l);
      ContentsPrintable(text, r);
    case Back(sub) => ContentsPrintable(text, sub);
  }

  /** The tree of any accepted line can be printed, and the printing is accepted with the same tree. */
  lemma PrintParsed(text: string)
    requires '\0' !in text && ParseCmd(text).Ok?
    ensures var c := Contents(text, ParseCmd(text).cmd);
            && Printable(c) && ParseCmd(Print(c)).Ok? && Contents(Print(c), ParseCmd(Print(c)).cmd) == c
  {
    LineOk(text, 0);
    ContentsPrintable(text, ParseCmd(text).cmd);
    ParsePrinted(Contents(text, ParseCmd(text).cmd));
  }

  // NUL-terminating the words.

  /** The buffer with a NUL after each of these words, and otherwise as before. */
  predicate Nulled(before: string, buf: string, ws: set<Span>) {
    && |buf| == |before| && (forall w | w in ws && w.end < |buf| :: buf[w.end] == '\0')
    && (forall i {:trigger buf[i]} | 0 <= i < |buf| ::
          buf[i] == before[i] || (buf[i] == '\0' && exists w :: w in ws && w.end == i))
  }

  lemma NulledMore(a: string, b: string, c: string, ws: set<Span>, more: set<Span>)
    requires Nulled(a, b, ws) && Nulled(b, c, more)
    ensures Nulled(a, c, ws + more)
  {
    forall i {:trigger c[i]} | 0 <= i < |c|
      ensures c[i] == a[i] || (c[i] == '\0' && exists w :: w in ws + more && w.end == i)
    {
      if c[i] == b[i] && b[i] != a[i] {
        var w :| w in ws && w.end == i;
        assert w in ws + more;
      } else if c[i] != b[i] {
        var w :| w in more && w.end == i;
        assert w in ws + more;
      }
    }
    forall w | w in ws + more && w.end < |c|
      ensures c[w.end] == '\0'
    {
      assert c[w.end] == b[w.end] || c[w.end] == '\0';
    }
  }

  lemma {:induction false} WordsAreOk(text: string, cmd: Cmd<Span>)
    requires WordsOk(text, cmd)
    ensures forall w | w in Words(cmd) :: WordOk(text, w)
  {
    match cmd
    case Exec(_) =>
    case Redir(sub, _, _) => WordsAreOk(text, sub);
    case Pipe(l, r) =>
      WordsAreOk(text, l);
      WordsAreOk(text, r);
    case List(l, r) =>
      WordsAreOk(text, l);
      WordsAreOk(text, r);
    case Back(sub) => WordsAreOk(text, sub);
  }

  /** The string that a pointer to position p points to. */
  function CString(buf: string, p: nat): (s: string)
    decreases |buf| - p
  {
    if p < |buf| && buf[p] != '\0' then [buf[p]] + CString(buf, p + 1) else ""
  }

  lemma {:induction false} CStringIs(buf: string, p: nat, e: nat)
    requires p <= e < |buf| && buf[e] == '\0' && forall i | p <= i < e :: buf[i] != '\0'
    ensures CString(buf, p) == buf[p..e]
    decreases e - p
  {
    if p < e {
      CStringIs(buf, p + 1, e);
      assert buf[p..e] == [buf[p]] + buf[p + 1..e];
    }
  }

  /** After nulterminate, every word of the command is exactly its token. */
  lemma TerminatedWords(text: string, buf: string, cmd: Cmd<Span>, w: Span)
    requires WordsOk(text, cmd) && '\0' !in text && Nulled(text + ['\0'], buf, Words(cmd)) && w in Words(cmd)
    ensures WordOk(text, w) && CString(buf, w.start) == text[w.start..w.end]
  {
    WordsAreOk(text, cmd);
    var before := text + ['\0'];
    forall i | w.start <= i < w.end
      ensures buf[i] == text[i]
    {
      forall v | v in Words(cmd)
        ensures v.end != i
      {
        assert WordOk(text, v);
      }
      assert before[i] == text[i];
    }
    CStringIs(buf, w.start, w.end);
    assert buf[w.start..w.end] == text[w.start..w.end];
  }

  lemma WordsOfPrefix(args: seq<Span>, i: nat)
    requires i < |args|
    ensures Words(Exec(args[..i + 1])) == Words(Exec(args[..i])) + {args[i]}
  {
    var a, b := args[..i], args[..i + 1];
    assert b[i] == args[i] && forall j | 0 <= j < i :: b[j] == a[j];
    forall w | w in Words(Exec(b))
      ensures w in Words(Exec(a)) + {args[i]}
    {
      var j :| 0 <= j < |b| && w == b[j];
      assert j < i ==> a[j] == w;
    }
    forall w | w in Words(Exec(a)) + {args[i]}
      ensures w in Words(Exec(b))
    {
      if w in Words(Exec(a)) {
        var j :| 0 <= j < |a| && w == a[j];
        assert b[j] == w;
      }
    }
  }

  lemma ArgsSkip(text: string, pos: nat, ret: Cmd<Span>, argv: seq<Span>)
    requires pos <= |text|
    ensures Skip(text, Skip(text, pos)) == Skip(text, pos)
            && Args(text, pos, ret, argv) == Args(text, Skip(text, pos), ret, argv)
  {
    hide Redirs, TokenAt, Fill;
    var p := Skip(text, pos);
    assert Skip(text, p) == p;
  }

  lemma RedirsSkip(text: string, pos: nat, cmd: Cmd<Span>)
    requires pos <= |text|
    ensures Skip(text, Skip(text, pos)) == Skip(text, pos)
    ensures Redirs(text, pos, cmd) == Redirs(text, Skip(text, pos), cmd)
  {
    hide TokenAt;
    var p := Skip(text, pos);
    assert Skip(text, p) == p;
  }

  /** The line being parsed. s is *ps, and es is the end of the text. */
  class Parser {
    const text: string
    var s: nat
    var buf: string

    ghost predicate Valid()
      reads this
    {
      s <= |text|
    }

    constructor (line: string)
      ensures Valid() && text == line && s == 0 && buf == line + ['\0']
    {
      text, s, buf := line, 0, line + ['\0'];
    }

    method SkipSpace(p: nat) returns (q: nat)
      requires p <= |text|
      ensures q == Skip(text, p)
    {
      q := p;
      while q < |text| && IsSpace(text[q])
        invariant p <= q <= |text| && Skip(text, q) == Skip(text, p)
      {
        q := q + 1;
      }
    }

    /** peek */
    method Peek(toks: set<char>) returns (b: bool)
      requires Valid()
      modifies this`s
      ensures Valid() && s == Skip(text, old(s)) && b == Sees(text, s, toks)
    {
      s := SkipSpace(s);
      b := s < |text| && text[s] in toks;
    }

    /** gettoken */
    method GetToken() returns (ret: char, q: nat, eq: nat)
      requires Valid()
      modifies this`s
      ensures Valid() && Token(ret, Span(q, eq), s) == TokenAt(text, old(s))
    {
      q := SkipSpace(s);
      var p := q;
      if p == |text| {
        ret := '\0';
      } else if !IsSymbol(text[p]) {
        ret := 'a';
        while p < |text| && !IsDelimiter(text[p])
          invariant q <= p <= |text| && WordEnd(text, p) == WordEnd(text, q)
        {
          p := p + 1;
        }
      } else {
        ret := text[p];
        p := p + 1;
        if ret == '>' && p < |text| && text[p] == '>' {
          ret := '+';
          p := p + 1;
        }
      }
      eq := p;
      s := SkipSpace(p);
    }

    /** parseredirs */
    method ParseRedirs(cmd: Cmd<Span>) returns (r: Parsed)
      requires Valid()
      modifies this`s
      ensures r == Redirs(text, old(s), cmd) && (r.Ok? ==> Valid() && s == r.pos)
      ensures if r.Ok? then AreRedirs(text, old(s), s, cmd, r.cmd) else !RedirsAhead(text, old(s))
    {
      hide AreRedirs, RedirsAhead, TokenAt, Skip;
      RedirsMeaning(text, s, cmd);
      RedirsSkip(text, s, cmd);
      var c := cmd;
      var more := Peek({'<', '>'});
      while more
        invariant Valid() && Skip(text, s) == s && more == Sees(text, s, {'<', '>'})
                  && Redirs(text, s, c) == Redirs(text, old(s), cmd)
        decreases |text| - s
      {
        var tok, _, _ := GetToken();
        var kind, q, eq := GetToken();
        if kind != 'a' {
          return Panic(MissingFile);
        }
        c := Redir(c, Span(q, eq), KindOf(tok));
        RedirsSkip(text, s, c);
        more := Peek({'<', '>'});
      }
      r := Ok(c, s);
    }

    /** parseexec. The exec node that the redirections are wrapped around is filled in place. */
    method ParseExec() returns (r: Parsed)
      requires Valid()
      modifies this`s
      ensures r == ExecAt(text, old(s)) && (r.Ok? ==> Valid() && s == r.pos)
      ensures if r.Ok? then IsSimple(text, old(s), s, r.cmd) else !SimpleAhead(text, old(s))
      decreases |text| - s, 2
    {
      hide SimpleAhead, IsSimple, IsBlock;
      ExecMeaning(text, s);
      var block := Peek({'('});
      if block {
        r := ParseBlock();
        return;
      }
      r := ParseRedirs(Exec([]));
      if r.Panic? {
        return;
      }
      r := ParseArgs(r.cmd);
    }

    /** The loop of parseexec. */
    method ParseArgs(cmd: Cmd<Span>) returns (r: Parsed)
      requires Valid()
      modifies this`s
      ensures r == Args(text, old(s), cmd, []) && (r.Ok? ==> Valid() && s == r.pos)
    {
      hide Redirs, TokenAt, Fill, Skip;
      var ret, argv: seq<Span> := cmd, [];
      ArgsSkip(text, s, ret, argv);
      var stop := Peek({'|', ')', '&', ';'});
      while !stop
        invariant Valid() && Skip(text, s) == s && stop == Sees(text, s, {'|', ')', '&', ';'})
        invariant Args(text, s, ret, argv) == Args(text, old(s), cmd, [])
        decreases |text| - s
      {
        var tok, q, eq := GetToken();
        if tok == '\0' {
          return Ok(ret, s);
        }
        if tok != 'a' {
          return Panic(Syntax);
        }
        argv := argv + [Span(q, eq)];
        ret := Fill(ret, argv);
        if |argv| >= MAXARGS {
          return Panic(TooManyArgs);
        }
        r := ParseRedirs(ret);
        if r.Panic? {
          return;
        }
        ret := r.cmd;
        ArgsSkip(text, s, ret, argv);
        stop := Peek({'|', ')', '&', ';'});
      }
      r := Ok(ret, s);
    }

    /** parseblock */
    method ParseBlock() returns (r: Parsed)
      requires Valid()
      modifies this`s
      ensures r == BlockAt(text, old(s)) && (r.Ok? ==> Valid() && s == r.pos)
      ensures if r.Ok? then IsBlock(text, old(s), s, r.cmd)
              else !StartsWith(Lex(text, old(s)), {'('}) || !SimpleAhead(text, old(s))
      decreases |text| - s, 1
    {
      hide SimpleAhead, IsBlock, StartsWith, IsLine, LineAhead;
      BlockMeaning(text, s);
      var open := Peek({'('});
      if !open {
        return Panic(NoBlock);
      }
      var _, _, _ := GetToken();
      r := ParseLine();
      if r.Panic? {
        return;
      }
      var close := Peek({')'});
      if !close {
        return Panic(MissingParen);
      }
      var _, _, _ := GetToken();
      r := ParseRedirs(r.cmd);
    }

    /** parsepipe */
    method ParsePipe() returns (r: Parsed)
      requires Valid()
      modifies this`s
      ensures r == PipeAt(text, old(s)) && (r.Ok? ==> Valid() && s == r.pos)
      ensures if r.Ok? then IsPipeline(text, old(s), s, r.cmd) else !PipelineAhead(text, old(s))
      decreases |text| - s, 3
    {
      hide PipelineAhead, IsPipeline, SimpleAhead, IsSimple;
      PipeMeaning(text, s);
      r := ParseExec();
      if r.Panic? {
        return;
      }
      var cmd := r.cmd;
      var bar := Peek({'|'});
      if bar {
        var _, _, _ := GetToken();
        r := ParsePipe();
        if r.Panic? {
          return;
        }
        cmd := Pipe(cmd, r.cmd);
      }
      r := Ok(cmd, s);
    }

    /** parseline */
    method ParseLine() returns (r: Parsed)
      requires Valid()
      modifies this`s
      ensures r == LineAt(text, old(s)) && (r.Ok? ==> Valid() && s == r.pos)
      ensures if r.Ok? then IsLine(text, old(s), s, r.cmd) else !LineAhead(text, old(s))
      decreases |text| - s, 4
    {
      hide LineAhead, IsLine, PipelineAhead, IsPipeline;
      LineMeaning(text, s);
      r := ParsePipe();
      if r.Panic? {
        return;
      }
      var cmd := r.cmd;
      var back := Peek({'&'});
      while back
        invariant Valid() && Skip(text, s) == s && back == Sees(text, s, {'&'}) && old(s) <= s
                  && Backs(text, s, cmd) == Backs(text, r.pos, r.cmd)
        decreases |text| - s
      {
        var _, _, _ := GetToken();
        cmd := Back(cmd);
        back := Peek({'&'});
      }
      var semi := Peek({';'});
      if semi {
        var _, _, _ := GetToken();
        r := ParseLine();
        if r.Panic? {
          return;
        }
        cmd := List(cmd, r.cmd);
      }
      r := Ok(cmd, s);
    }

    /** nulterminate */
    method NulTerminate(cmd: Cmd<Span>)
      requires |buf| == |text| + 1 && WordsOk(text, cmd)
      modifies this`buf
      ensures Nulled(old(buf), buf, Words(cmd))
      decreases cmd
    {
      match cmd
      case Exec(args) =>
        var i := 0;
        while i < |args|
          invariant 0 <= i <= |args| && Nulled(old(buf), buf, Words(Exec(args[..i])))
        {
          assert WordOk(text, args[i]);
          ghost var before := buf;
          buf := buf[args[i].end := '\0'];
          NulledMore(old(buf), before, buf, Words(Exec(args[..i])), {args[i]});
          assert Words(Exec(args[..i + 1])) == Words(Exec(args[..i])) + {args[i]} by { WordsOfPrefix(args, i); }
          i := i + 1;
        }
        assert args[..|args|] == args;
      case Redir(sub, file, _) =>
        NulTerminate(sub);
        ghost var before := buf;
        buf := buf[file.end := '\0'];
        NulledMore(old(buf), before, buf, Words(sub), {file});
      case Pipe(l, r) =>
        NulTerminate(l);
        ghost var before := buf;
        NulTerminate(r);
        NulledMore(old(buf), before, buf, Words(l), Words(r));
      case List(l, r) =>
        NulTerminate(l);
        ghost var before := buf;
        NulTerminate(r);
        NulledMore(old(buf), before, buf, Words(l), Words(r));
      case Back(sub) =>
        NulTerminate(sub);
    }

    /** parsecmd: the tree that the line means, or a panic if it means none. The words of the tree are all words of the
        line, and in the buffer every one of them is a C string of its own. */
    method Parse() returns (r: Parsed)
      requires s == 0 && buf == text + ['\0'] && '\0' !in text
      modifies this
      ensures r == ParseCmd(text) && forall cmd :: r.Ok? && r.cmd == cmd <==> Means(text, cmd)
      ensures r.Ok? ==> forall w :: w in Words(r.cmd) <==> WordFrom(text, 0, w)
      ensures r.Ok? ==> forall w | w in Words(r.cmd) :: WordOk(text, w) && CString(buf, w.start) == text[w.start..w.end]
    {
      hide Means, WordFrom, IsLine, LineAhead;
      forall cmd {
        ParsesExactly(text, cmd);
      }
      r := ParseLine();
      if r.Panic? {
        return;
      }
      var _ := Peek({});
      if s != |text| {
        return Panic(Leftovers);
      }
      LineOk(text, 0);
      forall w {
        AllWords(text, w);
      }
      NulTerminate(r.cmd);
      forall w | w in Words(r.cmd)
        ensures WordOk(text, w) && CString(buf, w.start) == text[w.start..w.end]
      {
        TerminatedWords(text, buf, r.cmd, w);
      }
    }
  }
}
