/** The grammar of command lines, and that the parser of sh.c decides it.  A line is a sequence of
lexemes; its concrete syntax says which of them belong together, and what tree that stands for. */
module ShellGrammar {
  import opened Types
  import opened Shell

  // ----- lexemes -----

  datatype Lex = LexWord(w: string) | LexSym(c: char) | LexAppend

  function LexOf(s: string, t: Token): Lex
    requires t.kind != EndOfLine
  {
    match t.kind
    case Word => LexWord(Slice(s, t.span))
    case Sym(c) => LexSym(c)
    case Append => LexAppend
  }

  /** The lexemes of the line from position i on. */
  function Lexemes(s: string, i: nat): seq<Lex>
    requires i <= |s|
    decreases |s| - i
  {
    var t := GetToken(s, i);
    if t.kind == EndOfLine then [] else [LexOf(s, t)] + Lexemes(s, t.next)
  }

  // ----- concrete syntax -----

  datatype Arrow = Less | Greater | Double

  datatype Redirect = Redirect(op: Arrow, file: string)

  /** A word of a command with the redirections behind it. */
  datatype Arg = Arg(w: string, redirects: seq<Redirect>)

  datatype Part =
    | Simple(front: seq<Redirect>, args: seq<Arg>)
    | Block(inside: Line, behind: seq<Redirect>)

  datatype Pipeline = Last(part: Part) | Piped(part: Part, rest: Pipeline)

  /** A pipeline with the "&" behind it and what follows a ";". */
  datatype Line = Line(pipeline: Pipeline, backs: nat, more: Option<Line>)

  // What is written down.

  function LexArrow(op: Arrow): Lex {
    match op case Less => LexSym('<') case Greater => LexSym('>') case Double => LexAppend
  }

  function LexRedirects(xs: seq<Redirect>): seq<Lex> {
    if xs == [] then [] else [LexArrow(xs[0].op), LexWord(xs[0].file)] + LexRedirects(xs[1..])
  }

  function LexArgs(args: seq<Arg>): seq<Lex> {
    if args == [] then [] else [LexWord(args[0].w)] + LexRedirects(args[0].redirects) + LexArgs(args[1..])
  }

  function LexPart(g: Part): seq<Lex> {
    match g
    case Simple(front, args) => LexRedirects(front) + LexArgs(args)
    case Block(inside, behind) => [LexSym('(')] + LexLine(inside) + [LexSym(')')] + LexRedirects(behind)
  }

  function LexPipeline(g: Pipeline): seq<Lex> {
    match g
    case Last(part) => LexPart(part)
    case Piped(part, rest) => LexPart(part) + [LexSym('|')] + LexPipeline(rest)
  }

  function LexBacks(n: nat): seq<Lex> {
    if n == 0 then [] else [LexSym('&')] + LexBacks(n - 1)
  }

  function LexLine(g: Line): seq<Lex> {
    match g.more
    case None => LexPipeline(g.pipeline) + LexBacks(g.backs)
    case Some(more) => LexPipeline(g.pipeline) + LexBacks(g.backs) + [LexSym(';')] + LexLine(more)
  }

  // What it stands for.

  /** A command with redirections, the first one innermost. */
  function Around(c: Cmd<string>, xs: seq<Redirect>): Cmd<string>
    decreases |xs|
  {
    if xs == [] then c else Around(Redir(c, xs[0].file, xs[0].op != Less), xs[1..])
  }

  function WordsOf(args: seq<Arg>): (r: seq<string>)
    ensures |r| == |args|
  {
    if args == [] then [] else [args[0].w] + WordsOf(args[1..])
  }

  function RedirectsOf(args: seq<Arg>): seq<Redirect> {
    if args == [] then [] else args[0].redirects + RedirectsOf(args[1..])
  }

  /** A command is its words, inside all its redirections in the order they are written in. */
  function TreePart(g: Part): Cmd<string> {
    match g
    case Simple(front, args) => Around(Exec(WordsOf(args)), front + RedirectsOf(args))
    case Block(inside, behind) => Around(TreeLine(inside), behind)
  }

  function TreePipeline(g: Pipeline): Cmd<string> {
    match g
    case Last(part) => TreePart(part)
    case Piped(part, rest) => Pipe(TreePart(part), TreePipeline(rest))
  }

  function Backs(c: Cmd<string>, n: nat): Cmd<string>
    decreases n
  {
    if n == 0 then c else Backs(Back(c), n - 1)
  }

  function TreeLine(g: Line): Cmd<string> {
    var c := Backs(TreePipeline(g.pipeline), g.backs);
    match g.more case None => c case Some(more) => List(c, TreeLine(more))
  }

  /** No command has MAXARGS words. */
  predicate FitPart(g: Part) {
    match g case Simple(front, args) => |args| < MAXARGS case Block(inside, behind) => FitLine(inside)
  }

  predicate FitPipeline(g: Pipeline) {
    match g case Last(part) => FitPart(part) case Piped(part, rest) => FitPart(part) && FitPipeline(rest)
  }

  predicate FitLine(g: Line) {
    FitPipeline(g.pipeline) && match g.more case None => true case Some(more) => FitLine(more)
  }

  lemma {:induction false} Assoc<T>(a: seq<T>, b: seq<T>, c: seq<T>)
    ensures (a + b) + c == a + (b + c)
  {
  }

  // What stands in front of x, piece by piece.

  lemma {:induction false} ArgsLex(args: seq<Arg>, x: seq<Lex>)
    requires args != []
    ensures LexArgs(args) + x == [LexWord(args[0].w)] + LexRedirects(args[0].redirects) + (LexArgs(args[1..]) + x)
  {
    hide LexRedirects;
    Assoc([LexWord(args[0].w)] + LexRedirects(args[0].redirects), LexArgs(args[1..]), x);
  }

  lemma {:induction false} BlockLex(inside: Line, behind: seq<Redirect>, x: seq<Lex>)
    ensures LexPart(Block(inside, behind)) + x == [LexSym('(')] + (LexLine(inside) + ([LexSym(')')] + (LexRedirects(behind) + x)))
  {
    hide LexLine, LexRedirects;
  }

  lemma {:induction false} PipedLex(part: Part, rest: Pipeline, x: seq<Lex>)
    ensures LexPipeline(Piped(part, rest)) + x == LexPart(part) + ([LexSym('|')] + (LexPipeline(rest) + x))
  {
    var y := LexPipeline(rest);
    assert LexPipeline(Piped(part, rest)) == LexPart(part) + [LexSym('|')] + y;
    hide LexPart, LexPipeline;
  }

  lemma {:induction false} LineLex(g: Line, x: seq<Lex>)
    ensures LexLine(g) + x == LexPipeline(g.pipeline) + (LexBacks(g.backs) +
      match g.more case None => x case Some(more) => [LexSym(';')] + (LexLine(more) + x))
  {
    var a, b := LexPipeline(g.pipeline), LexBacks(g.backs);
    match g.more
    case None =>
      assert LexLine(g) == a + b;
      hide LexLine, LexPipeline, LexBacks;
      Assoc(a, b, x);
    case Some(more) =>
      var c := LexLine(more);
      assert LexLine(g) == a + b + [LexSym(';')] + c;
      hide LexLine, LexPipeline, LexBacks;
      assert a + b + [LexSym(';')] + c + x == a + (b + ([LexSym(';')] + (c + x)));
  }

  // ----- the parser over lexemes -----

  lemma {:induction false} Skipped(s: string, i: nat)
    requires i <= |s|
    ensures SkipSpace(s, SkipSpace(s, i)) == SkipSpace(s, i) && GetToken(s, SkipSpace(s, i)) == GetToken(s, i)
    ensures Lexemes(s, SkipSpace(s, i)) == Lexemes(s, i)
  {
    assert SkipSpace(s, SkipSpace(s, i)) == SkipSpace(s, i);
  }

  predicate Starts(x: seq<Lex>, toks: string) {
    x != [] && match x[0] case LexSym(c) => c in toks case LexAppend => '>' in toks case LexWord(_) => false
  }

  /** peek looks at the first lexeme. */
  lemma {:induction false} PeekIs(s: string, i: nat, toks: string)
    requires i <= |s| && forall c :: c in toks ==> Symbol(c)
    ensures Peek(s, i, toks) <==> Starts(Lexemes(s, i), toks)
  {
  }

  /** The lexemes behind the first one. */
  lemma {:induction false} NextLex(s: string, i: nat)
    requires i <= |s|
    ensures var t := GetToken(s, i);
      (t.kind == EndOfLine <==> Lexemes(s, i) == []) &&
      (t.kind != EndOfLine ==> Lexemes(s, i)[0] == LexOf(s, t) && Lexemes(s, t.next) == Lexemes(s, i)[1..])
  {
  }

  /** x is where a part, a pipeline or a line ends. */
  predicate Ends(x: seq<Lex>, toks: string) {
    x == [] || (x[0].LexSym? && x[0].c in toks)
  }

  /** The redirections that were parsed are those that are written down. */
  ghost predicate Same(s: string, rs: seq<Redirection>, xs: seq<Redirect>) {
    |rs| == |xs| && forall k :: 0 <= k < |xs| ==> Slice(s, rs[k].file) == xs[k].file && rs[k].output == (xs[k].op != Less)
  }

  lemma {:induction false} AroundLast(c: Cmd<string>, xs: seq<Redirect>)
    requires xs != []
    ensures var n := |xs| - 1; Around(c, xs) == Redir(Around(c, xs[..n]), xs[n].file, xs[n].op != Less)
    decreases |xs|
  {
    var n := |xs| - 1;
    if n > 0 {
      AroundLast(Redir(c, xs[0].file, xs[0].op != Less), xs[1..]);
      assert xs[1..][..n - 1] == xs[..n][1..];
    }
  }

  /** Wrapping as the parser does puts the last redirection outermost. */
  lemma {:induction false} WrapIsAround(s: string, c: Cmd<Span>, rs: seq<Redirection>, xs: seq<Redirect>)
    requires Same(s, rs, xs)
    ensures Text(s, Wrap(c, rs)) == Around(Text(s, c), xs)
    decreases |xs|
  {
    if xs != [] {
      var n := |xs| - 1;
      WrapIsAround(s, c, rs[..n], xs[..n]);
      AroundLast(Text(s, c), xs);
    }
  }

  // ----- every line of the grammar is parsed -----

  /** The parse gives tree c and stops in front of the lexemes x. */
  ghost predicate Parses(s: string, r: Parsed<Cmd<Span>>, c: Cmd<string>, x: seq<Lex>) {
    r.Ok? && r.pos <= |s| && Text(s, r.value) == c && Lexemes(s, r.pos) == x
  }

  lemma {:induction false} RedirectStep(s: string, i: nat, op: Arrow, file: string, x: seq<Lex>)
    requires i <= |s| && Lexemes(s, i) == [LexArrow(op), LexWord(file)] + x
    ensures var tok := GetToken(s, SkipSpace(s, i));
      var f := GetToken(s, tok.next);
      && Peek(s, i, "<>") && f.kind == Word && Slice(s, f.span) == file && Lexemes(s, f.next) == x
      && (tok.kind != Sym('<')) == (op != Less)
  {
    PeekIs(s, i, "<>");
    Skipped(s, i);
    NextLex(s, i);
    var tok := GetToken(s, i);
    NextLex(s, tok.next);
    hide Lexemes, Peek, GetToken;
    assert ([LexArrow(op), LexWord(file)] + x)[1..] == [LexWord(file)] + x;
    assert ([LexWord(file)] + x)[1..] == x;
  }

  lemma {:induction false} NoRedirect(s: string, i: nat)
    requires i <= |s| && !Peek(s, i, "<>")
    ensures ParseRedirs(s, i) == Ok([], SkipSpace(s, i))
  {
    hide Peek;
  }

  lemma {:induction false} OneRedirect(s: string, i: nat)
    requires i <= |s| && Peek(s, i, "<>") && GetToken(s, GetToken(s, SkipSpace(s, i)).next).kind == Word
    ensures var tok := GetToken(s, SkipSpace(s, i));
      var f := GetToken(s, tok.next);
      var r := ParseRedirs(s, f.next);
      ParseRedirs(s, i) == if r.Fail? then r else Ok([Redirection(f.span, tok.kind != Sym('<'))] + r.value, r.pos)
  {
    hide Peek, GetToken;
  }

  lemma {:induction false} RedirectsParsed(s: string, i: nat, xs: seq<Redirect>, x: seq<Lex>)
    requires i <= |s| && Lexemes(s, i) == LexRedirects(xs) + x && !Starts(x, "<>")
    ensures var r := ParseRedirs(s, i); r.Ok? && Same(s, r.value, xs) && Lexemes(s, r.pos) == x
    decreases |xs|
  {
    hide Lexemes, GetToken, Peek, ParseRedirs, Slice, SkipSpace;
    if xs == [] {
      assert LexRedirects(xs) + x == x;
      PeekIs(s, i, "<>");
      Skipped(s, i);
      NoRedirect(s, i);
    } else {
      assert LexRedirects(xs) + x == [LexArrow(xs[0].op), LexWord(xs[0].file)] + (LexRedirects(xs[1..]) + x);
      RedirectStep(s, i, xs[0].op, xs[0].file, LexRedirects(xs[1..]) + x);
      OneRedirect(s, i);
      RedirectsParsed(s, GetToken(s, GetToken(s, SkipSpace(s, i)).next).next, xs[1..], x);
    }
  }

  /** A list of words and a list of redirections, as parsed and as written. */
  ghost predicate SoFar(s: string, argv: seq<Span>, rs: seq<Redirection>, ws: seq<string>, xs: seq<Redirect>) {
    && WordsOk(s, Exec(argv)) && (forall k :: 0 <= k < |rs| ==> ProperWord(s, rs[k].file))
    && Text(s, Exec(argv)) == Exec(ws) && Same(s, rs, xs)
  }

  lemma {:induction false} ArgsStop(s: string, i: nat, argv: seq<Span>, rs: seq<Redirection>, ws: seq<string>, xs: seq<Redirect>)
    requires i <= |s| && SoFar(s, argv, rs, ws, xs) && Ends(Lexemes(s, i), "|)&;")
    ensures Parses(s, ParseArgs(s, i, argv, rs), Around(Exec(ws), xs), Lexemes(s, i))
  {
    PeekIs(s, i, "|)&;");
    Skipped(s, i);
    NextLex(s, i);
    WrapIsAround(s, Exec(argv), rs, xs);
    hide Peek, GetToken, Wrap, Around, Text;
  }

  /** One more word and the redirections behind it. */
  lemma {:induction false} ArgNext(s: string, i: nat, a: Arg, x: seq<Lex>, argv: seq<Span>, rs: seq<Redirection>, ws: seq<string>, xs: seq<Redirect>)
    returns (j: nat, argv': seq<Span>, rs': seq<Redirection>)
    requires i <= |s| && SoFar(s, argv, rs, ws, xs) && |argv| + 1 < MAXARGS
    requires Lexemes(s, i) == [LexWord(a.w)] + LexRedirects(a.redirects) + x && !Starts(x, "<>")
    ensures i <= j <= |s| && Lexemes(s, j) == x && SoFar(s, argv', rs', ws + [a.w], xs + a.redirects) && |argv'| == |argv| + 1
    ensures ParseArgs(s, i, argv, rs) == ParseArgs(s, j, argv', rs')
  {
    hide Lexemes, GetToken, Peek, ParseRedirs, ParseArgs, Slice, Text, SkipSpace, ProperWord;
    PeekIs(s, i, "|)&;");
    Skipped(s, i);
    NextLex(s, i);
    var tok := GetToken(s, i);
    assert ([LexWord(a.w)] + LexRedirects(a.redirects) + x)[1..] == LexRedirects(a.redirects) + x;
    RedirectsParsed(s, tok.next, a.redirects, x);
    var r := ParseRedirs(s, tok.next);
    j, argv', rs' := r.pos, argv + [tok.span], rs + r.value;
    TextOf(s, argv, ws, tok.span);
    OneArg(s, i, argv, rs);
  }

  lemma {:induction false} OneArg(s: string, i: nat, argv: seq<Span>, rs: seq<Redirection>)
    requires i <= |s| && WordsOk(s, Exec(argv)) && forall k :: 0 <= k < |rs| ==> ProperWord(s, rs[k].file)
    requires !Peek(s, i, "|)&;") && GetToken(s, SkipSpace(s, i)).kind == Word && |argv| + 1 < MAXARGS
    requires ParseRedirs(s, GetToken(s, SkipSpace(s, i)).next).Ok?
    ensures var tok := GetToken(s, SkipSpace(s, i));
      var r := ParseRedirs(s, tok.next);
      WordsOk(s, Exec(argv + [tok.span])) && ParseArgs(s, i, argv, rs) == ParseArgs(s, r.pos, argv + [tok.span], rs + r.value)
  {
    hide Peek, GetToken, ParseRedirs, ProperWord, Wrap;
  }

  lemma {:induction false} ArgsParsed(s: string, i: nat, args: seq<Arg>, x: seq<Lex>,
                                      argv: seq<Span>, rs: seq<Redirection>, ws: seq<string>, xs: seq<Redirect>)
    requires i <= |s| && SoFar(s, argv, rs, ws, xs) && |argv| + |args| < MAXARGS
    requires Lexemes(s, i) == LexArgs(args) + x && Ends(x, "|)&;")
    ensures Parses(s, ParseArgs(s, i, argv, rs), Around(Exec(ws + WordsOf(args)), xs + RedirectsOf(args)), x)
    decreases |args|
  {
    hide ParseArgs, Lexemes, SoFar, Parses, Around;
    if args == [] {
      assert LexArgs(args) + x == x && ws + WordsOf(args) == ws && xs + RedirectsOf(args) == xs;
      ArgsStop(s, i, argv, rs, ws, xs);
    } else {
      var a, rest := args[0], args[1..];
      ArgsLex(args, x);
      SimpleStarts([], rest, x);
      hide Starts, LexArgs, LexRedirects, Ends;
      var j, argv', rs' := ArgNext(s, i, a, LexArgs(rest) + x, argv, rs, ws, xs);
      ArgsParsed(s, j, rest, x, argv', rs', ws + [a.w], xs + a.redirects);
      Assoc(ws, [a.w], WordsOf(rest));
      Assoc(xs, a.redirects, RedirectsOf(rest));
    }
  }

  /** A word, a redirection or an end is neither of these. */
  lemma {:induction false} SimpleStarts(front: seq<Redirect>, args: seq<Arg>, x: seq<Lex>)
    requires Ends(x, "|)&;")
    ensures !Starts(LexArgs(args) + x, "<>") && !Starts(LexRedirects(front) + (LexArgs(args) + x), "(")
  {
  }

  lemma {:induction false} ExecIs(s: string, i: nat)
    requires i <= |s| && !Peek(s, i, "(")
    ensures var r := ParseRedirs(s, SkipSpace(s, i));
      ParseExec(s, i) == if r.Fail? then Fail(r.why) else ParseArgs(s, r.pos, [], r.value)
  {
    hide Peek, ParseRedirs, ParseArgs, ParseBlock, SkipSpace;
  }

  /** A command without parentheses: its words, with redirections in front of, between and behind them. */
  lemma {:induction false} SimpleParsed(s: string, i: nat, front: seq<Redirect>, args: seq<Arg>, x: seq<Lex>)
    requires i <= |s| && Lexemes(s, i) == LexRedirects(front) + LexArgs(args) + x && Ends(x, "|)&;") && |args| < MAXARGS
    ensures Parses(s, ParseExec(s, i), Around(Exec(WordsOf(args)), front + RedirectsOf(args)), x)
  {
    hide Lexemes, ParseRedirs, ParseArgs, ParseExec, Peek, Around, SkipSpace, Starts, Ends, Parses;
    var y := LexArgs(args) + x;
    assert LexRedirects(front) + LexArgs(args) + x == LexRedirects(front) + y;
    SimpleStarts(front, args, x);
    PeekIs(s, i, "(");
    Skipped(s, i);
    RedirectsParsed(s, SkipSpace(s, i), front, y);
    var r := ParseRedirs(s, SkipSpace(s, i));
    ExecIs(s, i);
    assert Text(s, Exec([])) == Exec([]);
    hide LexArgs, LexRedirects, RedirectsOf;
    assert SoFar(s, [], r.value, [], front);
    ArgsParsed(s, r.pos, args, x, [], r.value, [], front);
    assert [] + WordsOf(args) == WordsOf(args);
  }

  /** A block whose inside is parsed. */
  lemma {:induction false} BlockParsed(s: string, i: nat, c: Cmd<string>, behind: seq<Redirect>, inside: seq<Lex>, x: seq<Lex>)
    requires i <= |s| && Lexemes(s, i) == [LexSym('(')] + inside && !Starts(x, "<>")
    requires var t := GetToken(s, i); Parses(s, ParseLine(s, t.next), c, [LexSym(')')] + LexRedirects(behind) + x)
    ensures Parses(s, ParseExec(s, i), Around(c, behind), x)
  {
    hide Lexemes, ParseLine, GetToken, ParseRedirs, ParseArgs, ParseBlock, SkipSpace, Wrap, Around, Text, Peek;
    OpenParen(s, i, inside);
    var r := ParseLine(s, GetToken(s, i).next);
    PeekIs(s, r.pos, ")");
    Skipped(s, r.pos);
    NextLex(s, r.pos);
    assert ([LexSym(')')] + LexRedirects(behind) + x)[1..] == LexRedirects(behind) + x;
    var close := GetToken(s, SkipSpace(s, r.pos));
    RedirectsParsed(s, close.next, behind, x);
    var rs := ParseRedirs(s, close.next);
    WrapIsAround(s, r.value, rs.value, behind);
    BlockIs(s, SkipSpace(s, i), r, rs);
  }

  lemma {:induction false} OpenParen(s: string, i: nat, inside: seq<Lex>)
    requires i <= |s| && Lexemes(s, i) == [LexSym('(')] + inside
    ensures var p := SkipSpace(s, i);
      p < |s| && s[p] == '(' && GetToken(s, p) == GetToken(s, i) && ParseExec(s, i) == ParseBlock(s, p)
  {
    PeekIs(s, i, "(");
    Skipped(s, i);
    hide Lexemes, GetToken, ParseBlock, ParseRedirs, ParseArgs;
  }

  lemma {:induction false} BlockIs(s: string, i: nat, r: Parsed<Cmd<Span>>, rs: Parsed<seq<Redirection>>)
    requires i < |s| && s[i] == '(' && r == ParseLine(s, GetToken(s, i).next) && r.Ok? && Peek(s, r.pos, ")")
    requires rs == ParseRedirs(s, GetToken(s, SkipSpace(s, r.pos)).next) && rs.Ok?
    ensures ParseBlock(s, i) == Ok(Wrap(r.value, rs.value), rs.pos)
  {
    hide ParseLine, GetToken, ParseRedirs, Peek, Wrap;
  }

  lemma {:induction false} PartParsed(s: string, i: nat, g: Part, x: seq<Lex>)
    requires i <= |s| && FitPart(g) && Lexemes(s, i) == LexPart(g) + x && Ends(x, "|)&;")
    ensures Parses(s, ParseExec(s, i), TreePart(g), x)
    decreases g, 0
  {
    hide Lexemes, ParseExec, Parses, GetToken, Around, LexLine, LexRedirects, LexArgs;
    match g
    case Simple(front, args) => SimpleParsed(s, i, front, args, x);
    case Block(inside, behind) =>
      var after := [LexSym(')')] + (LexRedirects(behind) + x);
      BlockLex(inside, behind, x);
      hide LexPart;
      NextLex(s, i);
      assert ([LexSym('(')] + (LexLine(inside) + after))[1..] == LexLine(inside) + after;
      LineParsed(s, GetToken(s, i).next, inside, after);
      Assoc([LexSym(')')], LexRedirects(behind), x);
      BlockParsed(s, i, TreeLine(inside), behind, LexLine(inside) + after, x);
  }

  /** A part that is the last one of its pipeline, and one with a "|" behind it. */
  lemma {:induction false} PipeEnds(s: string, i: nat, c: Cmd<string>, x: seq<Lex>)
    requires i <= |s| && Parses(s, ParseExec(s, i), c, x) && !Starts(x, "|")
    ensures Parses(s, ParsePipe(s, i), c, x)
  {
    hide ParseExec, Lexemes, Peek;
    PeekIs(s, ParseExec(s, i).pos, "|");
  }

  lemma {:induction false} PipeGoesOn(s: string, i: nat, c: Cmd<string>, y: seq<Lex>) returns (j: nat)
    requires i <= |s| && Parses(s, ParseExec(s, i), c, [LexSym('|')] + y)
    ensures i < j <= |s| && Lexemes(s, j) == y && PipesTo(s, i, j)
  {
    hide ParseExec, Lexemes, GetToken, Peek;
    var r := ParseExec(s, i);
    PeekIs(s, r.pos, "|");
    Skipped(s, r.pos);
    NextLex(s, r.pos);
    assert ([LexSym('|')] + y)[1..] == y;
    j := GetToken(s, SkipSpace(s, r.pos)).next;
  }

  /** Behind the part at i is a "|", and behind that j. */
  predicate PipesTo(s: string, i: nat, j: nat) {
    && i <= |s| && ParseExec(s, i).Ok? && Peek(s, ParseExec(s, i).pos, "|")
    && j == GetToken(s, SkipSpace(s, ParseExec(s, i).pos)).next
  }

  lemma {:induction false} PipeIs(s: string, i: nat, j: nat, c: Cmd<string>, y: seq<Lex>, d: Cmd<string>, x: seq<Lex>)
    requires PipesTo(s, i, j) && Parses(s, ParseExec(s, i), c, y) && Parses(s, ParsePipe(s, j), d, x)
    ensures Parses(s, ParsePipe(s, i), Pipe(c, d), x)
  {
    hide ParseExec, Lexemes, GetToken, Peek;
  }

  lemma {:induction false} PipelineParsed(s: string, i: nat, g: Pipeline, x: seq<Lex>)
    requires i <= |s| && FitPipeline(g) && Lexemes(s, i) == LexPipeline(g) + x && Ends(x, ")&;")
    ensures Parses(s, ParsePipe(s, i), TreePipeline(g), x)
    decreases g, 1
  {
    hide Lexemes, ParsePipe, ParseExec, Parses;
    match g
    case Last(part) =>
      PartParsed(s, i, part, x);
      PipeEnds(s, i, TreePart(part), x);
    case Piped(part, rest) =>
      var y := LexPipeline(rest) + x;
      PipedLex(part, rest, x);
      hide LexPipeline, LexPart;
      PartParsed(s, i, part, [LexSym('|')] + y);
      var j := PipeGoesOn(s, i, TreePart(part), y);
      PipelineParsed(s, j, rest, x);
      PipeIs(s, i, j, TreePart(part), [LexSym('|')] + y, TreePipeline(rest), x);
  }

  lemma {:induction false} BackStep(s: string, i: nat, c: Cmd<Span>)
    requires i <= |s| && WordsOk(s, c)
    ensures ParseBacks(s, i, c) ==
      if Peek(s, i, "&") then ParseBacks(s, GetToken(s, SkipSpace(s, i)).next, Back(c)) else (c, SkipSpace(s, i))
  {
    hide Peek, GetToken;
  }

  lemma {:induction false} BacksParsed(s: string, i: nat, n: nat, c: Cmd<Span>, x: seq<Lex>)
    requires i <= |s| && WordsOk(s, c) && Lexemes(s, i) == LexBacks(n) + x && !Starts(x, "&")
    ensures var (b, p) := ParseBacks(s, i, c); Text(s, b) == Backs(Text(s, c), n) && Lexemes(s, p) == x && SkipSpace(s, p) == p
    decreases n
  {
    hide Lexemes, GetToken, Peek, ParseBacks, SkipSpace;
    PeekIs(s, i, "&");
    Skipped(s, i);
    BackStep(s, i, c);
    if n == 0 {
      assert LexBacks(n) + x == x;
    } else {
      NextLex(s, i);
      assert LexBacks(n) + x == [LexSym('&')] + (LexBacks(n - 1) + x);
      assert ([LexSym('&')] + (LexBacks(n - 1) + x))[1..] == LexBacks(n - 1) + x;
      BacksParsed(s, GetToken(s, SkipSpace(s, i)).next, n - 1, Back(c), x);
    }
  }

  lemma {:induction false} LineEnds(s: string, i: nat, c: Cmd<string>, n: nat, x: seq<Lex>)
    requires i <= |s| && Parses(s, ParsePipe(s, i), c, LexBacks(n) + x) && Ends(x, ")")
    ensures Parses(s, ParseLine(s, i), Backs(c, n), x)
  {
    hide ParsePipe, Lexemes, Peek;
    var r := ParsePipe(s, i);
    BacksParsed(s, r.pos, n, r.value, x);
    hide ParseBacks;
    var (b, p) := ParseBacks(s, r.pos, r.value);
    PeekIs(s, p, ";");
  }

  lemma {:induction false} LineGoesOn(s: string, i: nat, c: Cmd<string>, n: nat, y: seq<Lex>) returns (j: nat)
    requires i <= |s| && Parses(s, ParsePipe(s, i), c, LexBacks(n) + ([LexSym(';')] + y))
    ensures i < j <= |s| && Lexemes(s, j) == y && ListsTo(s, i, Backs(c, n), j)
  {
    hide ParseBacks, ParsePipe, Lexemes, GetToken, Peek;
    var r := ParsePipe(s, i);
    BacksParsed(s, r.pos, n, r.value, [LexSym(';')] + y);
    var (b, p) := ParseBacks(s, r.pos, r.value);
    PeekIs(s, p, ";");
    NextLex(s, p);
    assert ([LexSym(';')] + y)[1..] == y;
    j := GetToken(s, p).next;
  }

  /** Behind the pipeline at i, which with its "&" is c, is a ";", and behind that j. */
  predicate ListsTo(s: string, i: nat, c: Cmd<string>, j: nat) {
    && i <= |s| && ParsePipe(s, i).Ok?
    && var (b, p) := ParseBacks(s, ParsePipe(s, i).pos, ParsePipe(s, i).value);
    Text(s, b) == c && Peek(s, p, ";") && j == GetToken(s, p).next
  }

  lemma {:induction false} ListIs(s: string, i: nat, j: nat, c: Cmd<string>, d: Cmd<string>, x: seq<Lex>)
    requires ListsTo(s, i, c, j) && Parses(s, ParseLine(s, j), d, x)
    ensures Parses(s, ParseLine(s, i), List(c, d), x)
  {
    hide ParseBacks, ParsePipe, Lexemes, GetToken, Peek;
  }

  /** Wherever it stands, a line of the grammar is parsed to its tree. */
  lemma {:induction false} LineParsed(s: string, i: nat, g: Line, x: seq<Lex>)
    requires i <= |s| && FitLine(g) && Lexemes(s, i) == LexLine(g) + x && Ends(x, ")")
    ensures Parses(s, ParseLine(s, i), TreeLine(g), x)
    decreases g, 2
  {
    hide Lexemes, ParsePipe, ParseLine, Parses;
    var ps, n := g.pipeline, g.backs;
    match g.more
    case None =>
      LineLex(g, x);
      assert Ends(LexBacks(n) + x, ")&;");
      hide LexLine, LexPipeline, LexBacks;
      PipelineParsed(s, i, ps, LexBacks(n) + x);
      LineEnds(s, i, TreePipeline(ps), n, x);
    case Some(more) =>
      var y := LexLine(more) + x;
      LineLex(g, x);
      assert Ends(LexBacks(n) + ([LexSym(';')] + y), ")&;");
      hide LexLine, LexPipeline, LexBacks;
      PipelineParsed(s, i, ps, LexBacks(n) + ([LexSym(';')] + y));
      var j := LineGoesOn(s, i, TreePipeline(ps), n, y);
      LineParsed(s, j, more, x);
      ListIs(s, i, j, Backs(TreePipeline(ps), n), TreeLine(more), x);
  }

  /** A line whose lexemes are those of g is parsed to the tree of g. */
  lemma {:induction false} Complete(s: string, g: Line)
    requires FitLine(g) && Lexemes(s, 0) == LexLine(g)
    ensures ParseCmd(s).Ok? && Text(s, ParseCmd(s).value) == TreeLine(g)
  {
    assert LexLine(g) + [] == LexLine(g);
    LineParsed(s, 0, g, []);
    hide ParseLine;
    var p := ParseLine(s, 0).pos;
    Skipped(s, p);
    NextLex(s, SkipSpace(s, p));
  }

  // ----- nothing else is parsed -----

  /** The parse gives the tree of some syntax, whose lexemes x it has used up. */
  ghost predicate Reads(s: string, i: nat, r: Parsed<Cmd<Span>>, c: Cmd<string>, x: seq<Lex>)
    requires i <= |s|
  {
    r.Ok? && r.pos <= |s| && Text(s, r.value) == c && Lexemes(s, i) == x + Lexemes(s, r.pos)
  }

  lemma {:induction false} ArrowRead(s: string, i: nat) returns (op: Arrow)
    requires i <= |s| && Peek(s, i, "<>")
    ensures var tok := GetToken(s, SkipSpace(s, i));
      Lexemes(s, i) == [LexArrow(op)] + Lexemes(s, tok.next) && (tok.kind != Sym('<')) == (op != Less)
  {
    PeekIs(s, i, "<>");
    Skipped(s, i);
    NextLex(s, i);
    var t := GetToken(s, i);
    op := if t.kind == Append then Double else if t.kind == Sym('<') then Less else Greater;
    assert Lexemes(s, i) == [LexOf(s, t)] + Lexemes(s, t.next);
    hide Lexemes, GetToken, Peek, SkipSpace;
  }

  lemma {:induction false} WordRead(s: string, i: nat)
    requires i <= |s| && GetToken(s, i).kind == Word
    ensures var t := GetToken(s, i); Lexemes(s, i) == [LexWord(Slice(s, t.span))] + Lexemes(s, t.next)
  {
    NextLex(s, i);
  }

  /** One redirection in front of others. */
  lemma {:induction false} OneInFront(s: string, x: Redirect, xs: seq<Redirect>, r: Redirection, rs: seq<Redirection>)
    requires Same(s, rs, xs) && Slice(s, r.file) == x.file && r.output == (x.op != Less)
    ensures Same(s, [r] + rs, [x] + xs) && LexRedirects([x] + xs) == [LexArrow(x.op), LexWord(x.file)] + LexRedirects(xs)
  {
    hide Slice;
    assert ([x] + xs)[1..] == xs;
  }

  lemma {:induction false} RedirectsRead(s: string, i: nat) returns (xs: seq<Redirect>)
    requires i <= |s| && ParseRedirs(s, i).Ok?
    ensures var r := ParseRedirs(s, i); Same(s, r.value, xs) && Lexemes(s, i) == LexRedirects(xs) + Lexemes(s, r.pos)
    decreases |s| - i
  {
    hide Lexemes, GetToken, Peek, ParseRedirs, SkipSpace, Slice, LexRedirects, Same;
    if !Peek(s, i, "<>") {
      NoRedirect(s, i);
      Skipped(s, i);
      xs := [];
      Nothing(s);
    } else {
      var tok := GetToken(s, SkipSpace(s, i));
      var f := GetToken(s, tok.next);
      WordBehind(s, i);
      var op := ArrowRead(s, i);
      WordRead(s, tok.next);
      OneRedirect(s, i);
      var rest := RedirectsRead(s, f.next);
      var x, r := Redirect(op, Slice(s, f.span)), ParseRedirs(s, f.next);
      OneInFront(s, x, rest, Redirection(f.span, tok.kind != Sym('<')), r.value);
      xs := [x] + rest;
      Assoc([LexArrow(op)], [LexWord(x.file)], Lexemes(s, f.next));
      Assoc([LexArrow(op), LexWord(x.file)], LexRedirects(rest), Lexemes(s, r.pos));
    }
  }

  lemma {:induction false} Nothing(s: string)
    ensures LexRedirects([]) == [] && Same(s, [], [])
  {
  }

  lemma {:induction false} WordBehind(s: string, i: nat)
    requires i <= |s| && ParseRedirs(s, i).Ok? && Peek(s, i, "<>")
    ensures var f := GetToken(s, GetToken(s, SkipSpace(s, i)).next); f.kind == Word && f.next > i && ParseRedirs(s, f.next).Ok?
  {
    hide Peek;
  }

  lemma {:induction false} ArgsAre(s: string, i: nat, argv: seq<Span>, rs: seq<Redirection>)
    requires i <= |s| && WordsOk(s, Exec(argv)) && (forall k :: 0 <= k < |rs| ==> ProperWord(s, rs[k].file))
    requires ParseArgs(s, i, argv, rs).Ok?
    ensures var tok := GetToken(s, SkipSpace(s, i));
      && (Peek(s, i, "|)&;") ==> ParseArgs(s, i, argv, rs) == Ok(Wrap(Exec(argv), rs), SkipSpace(s, i)))
      && (!Peek(s, i, "|)&;") && tok.kind == EndOfLine ==> ParseArgs(s, i, argv, rs) == Ok(Wrap(Exec(argv), rs), tok.next))
      && (!Peek(s, i, "|)&;") && tok.kind != EndOfLine ==>
            tok.kind == Word && |argv| + 1 < MAXARGS && ParseRedirs(s, tok.next).Ok?)
  {
    hide Peek, GetToken, ParseRedirs, Wrap, ProperWord;
  }

  /** What a successful parse of arguments has met first. */
  lemma {:induction false} ArgsMet(s: string, i: nat, argv: seq<Span>, rs: seq<Redirection>) returns (more: bool)
    requires i <= |s| && WordsOk(s, Exec(argv)) && (forall k :: 0 <= k < |rs| ==> ProperWord(s, rs[k].file))
    requires ParseArgs(s, i, argv, rs).Ok?
    ensures !more ==> ParseArgs(s, i, argv, rs) == Ok(Wrap(Exec(argv), rs), ParseArgs(s, i, argv, rs).pos)
    ensures !more ==> Lexemes(s, ParseArgs(s, i, argv, rs).pos) == Lexemes(s, i)
    ensures more ==> var tok := GetToken(s, i);
      var r := ParseRedirs(s, tok.next);
      && tok.kind == Word && tok.next > i && r.Ok? && |argv| + 1 < MAXARGS && WordsOk(s, Exec(argv + [tok.span]))
      && ParseArgs(s, i, argv, rs) == ParseArgs(s, r.pos, argv + [tok.span], rs + r.value)
  {
    hide Lexemes, Peek, GetToken, ParseRedirs, ParseArgs, Wrap, SkipSpace, ProperWord;
    Skipped(s, i);
    ArgsAre(s, i, argv, rs);
    AtEnd(s, i);
    more := !Peek(s, i, "|)&;") && GetToken(s, i).kind != EndOfLine;
    if more { OneArg(s, i, argv, rs); }
  }

  lemma {:induction false} AtEnd(s: string, i: nat)
    requires i <= |s|
    ensures GetToken(s, i).kind == EndOfLine ==> Lexemes(s, i) == [] && Lexemes(s, GetToken(s, i).next) == []
  {
  }

  lemma {:induction false} ArgsRead(s: string, i: nat, argv: seq<Span>, rs: seq<Redirection>, ws: seq<string>, xs: seq<Redirect>)
    returns (args: seq<Arg>)
    requires i <= |s| && SoFar(s, argv, rs, ws, xs) && |argv| < MAXARGS && ParseArgs(s, i, argv, rs).Ok?
    ensures Reads(s, i, ParseArgs(s, i, argv, rs), Around(Exec(ws + WordsOf(args)), xs + RedirectsOf(args)), LexArgs(args))
    ensures |argv| + |args| < MAXARGS
    decreases |s| - i
  {
    hide Lexemes, GetToken, ParseRedirs, ParseArgs, SkipSpace, Slice, Wrap, Around, Text, ProperWord;
    var more := ArgsMet(s, i, argv, rs);
    if !more {
      args := [];
      WrapIsAround(s, Exec(argv), rs, xs);
      assert ws + WordsOf(args) == ws && xs + RedirectsOf(args) == xs;
    } else {
      var tok := GetToken(s, i);
      var r := ParseRedirs(s, tok.next);
      WordRead(s, i);
      var ys := RedirectsRead(s, tok.next);
      var w := Slice(s, tok.span);
      TextOf(s, argv, ws, tok.span);
      var rest := ArgsRead(s, r.pos, argv + [tok.span], rs + r.value, ws + [w], xs + ys);
      args := [Arg(w, ys)] + rest;
      assert args[1..] == rest && args[0] == Arg(w, ys);
      ArgsLex(args, Lexemes(s, ParseArgs(s, i, argv, rs).pos));
      Assoc([LexWord(w)], LexRedirects(ys), LexArgs(rest) + Lexemes(s, ParseArgs(s, i, argv, rs).pos));
      hide LexArgs, LexRedirects;
      Assoc(ws, [w], WordsOf(rest));
      Assoc(xs, ys, RedirectsOf(rest));
    }
  }

  lemma {:induction false} SimpleRead(s: string, i: nat) returns (g: Part)
    requires i <= |s| && !Peek(s, i, "(") && ParseExec(s, i).Ok?
    ensures FitPart(g) && Reads(s, i, ParseExec(s, i), TreePart(g), LexPart(g))
  {
    hide Lexemes, ParseRedirs, ParseArgs, ParseExec, Peek, SkipSpace, Around, LexRedirects, LexArgs, RedirectsOf;
    ExecIs(s, i);
    Skipped(s, i);
    var r := ParseRedirs(s, SkipSpace(s, i));
    var front := RedirectsRead(s, SkipSpace(s, i));
    assert Text(s, Exec([])) == Exec([]);
    assert SoFar(s, [], r.value, [], front);
    var args := ArgsRead(s, r.pos, [], r.value, [], front);
    assert [] + WordsOf(args) == WordsOf(args);
    g := Simple(front, args);
    Assoc(LexRedirects(front), LexArgs(args), Lexemes(s, ParseExec(s, i).pos));
  }

  /** The parts of a block that was parsed. */
  lemma {:induction false} BlockMet(s: string, i: nat)
    requires i <= |s| && Peek(s, i, "(") && ParseExec(s, i).Ok?
    ensures var t := GetToken(s, i);
      var r := ParseLine(s, t.next);
      && t.next > i && Lexemes(s, i) == [LexSym('(')] + Lexemes(s, t.next) && r.Ok? && Peek(s, r.pos, ")")
      && var rs := ParseRedirs(s, GetToken(s, SkipSpace(s, r.pos)).next);
      rs.Ok? && ParseExec(s, i) == Ok(Wrap(r.value, rs.value), rs.pos)
  {
    PeekIs(s, i, "(");
    Skipped(s, i);
    NextLex(s, i);
    assert Lexemes(s, i) == [Lexemes(s, i)[0]] + Lexemes(s, i)[1..];
    hide Lexemes, GetToken, ParseLine, ParseRedirs, ParseArgs, Wrap;
  }

  lemma {:induction false} CloseRead(s: string, i: nat, c: char)
    requires i <= |s| && c in "|)&;" && Peek(s, i, [c])
    ensures Lexemes(s, i) == [LexSym(c)] + Lexemes(s, GetToken(s, SkipSpace(s, i)).next)
    ensures GetToken(s, SkipSpace(s, i)).next > i
  {
    PeekIs(s, i, [c]);
    Skipped(s, i);
    NextLex(s, i);
    assert Lexemes(s, i) == [Lexemes(s, i)[0]] + Lexemes(s, i)[1..];
    hide Lexemes, GetToken, Peek;
  }

  lemma {:induction false} BlockRead(s: string, i: nat, inside: Line) returns (g: Part)
    requires i <= |s| && Peek(s, i, "(") && ParseExec(s, i).Ok? && FitLine(inside)
    requires var t := GetToken(s, i); Reads(s, t.next, ParseLine(s, t.next), TreeLine(inside), LexLine(inside))
    ensures FitPart(g) && Reads(s, i, ParseExec(s, i), TreePart(g), LexPart(g))
  {
    hide Lexemes, GetToken, ParseLine, ParseRedirs, ParseExec, Peek, SkipSpace, Wrap, Around, Text, LexLine, LexRedirects, Same;
    BlockMet(s, i);
    var r := ParseLine(s, GetToken(s, i).next);
    CloseRead(s, r.pos, ')');
    var close := GetToken(s, SkipSpace(s, r.pos));
    var behind := RedirectsRead(s, close.next);
    WrapIsAround(s, r.value, ParseRedirs(s, close.next).value, behind);
    g := Block(inside, behind);
    BlockLex(inside, behind, Lexemes(s, ParseExec(s, i).pos));
    hide LexPart;
  }

  lemma {:induction false} PartRead(s: string, i: nat) returns (g: Part)
    requires i <= |s| && ParseExec(s, i).Ok?
    ensures FitPart(g) && Reads(s, i, ParseExec(s, i), TreePart(g), LexPart(g))
    decreases |s| - i, 0
  {
    hide Lexemes, GetToken, ParseLine, ParseExec, Reads, Peek;
    if Peek(s, i, "(") {
      BlockMet(s, i);
      var inside := LineRead(s, GetToken(s, i).next);
      g := BlockRead(s, i, inside);
    } else {
      g := SimpleRead(s, i);
    }
  }

  lemma {:induction false} PipeMet(s: string, i: nat)
    requires i <= |s| && ParsePipe(s, i).Ok?
    ensures var r := ParseExec(s, i);
      && r.Ok? && (!Peek(s, r.pos, "|") ==> ParsePipe(s, i) == r)
      && (Peek(s, r.pos, "|") ==>
            var d := ParsePipe(s, GetToken(s, SkipSpace(s, r.pos)).next);
            d.Ok? && ParsePipe(s, i) == Ok(Pipe(r.value, d.value), d.pos))
  {
    hide ParseExec, Peek, GetToken;
  }

  lemma {:induction false} PipelineRead(s: string, i: nat) returns (g: Pipeline)
    requires i <= |s| && ParsePipe(s, i).Ok?
    ensures FitPipeline(g) && Reads(s, i, ParsePipe(s, i), TreePipeline(g), LexPipeline(g))
    decreases |s| - i, 1
  {
    hide Lexemes, GetToken, ParsePipe, ParseExec, Peek, SkipSpace, LexPart, TreePart, FitPart;
    PipeMet(s, i);
    var part := PartRead(s, i);
    var r := ParseExec(s, i);
    if Peek(s, r.pos, "|") {
      CloseRead(s, r.pos, '|');
      var rest := PipelineRead(s, GetToken(s, SkipSpace(s, r.pos)).next);
      g := Piped(part, rest);
      PipedLex(part, rest, Lexemes(s, ParsePipe(s, i).pos));
      hide LexPipeline;
    } else {
      g := Last(part);
    }
  }

  lemma {:induction false} BacksRead(s: string, i: nat, c: Cmd<Span>) returns (n: nat)
    requires i <= |s| && WordsOk(s, c)
    ensures var (b, p) := ParseBacks(s, i, c);
      Text(s, b) == Backs(Text(s, c), n) && Lexemes(s, i) == LexBacks(n) + Lexemes(s, p) && SkipSpace(s, p) == p
    decreases |s| - i
  {
    hide Lexemes, GetToken, Peek, ParseBacks, SkipSpace;
    BackStep(s, i, c);
    Skipped(s, i);
    if Peek(s, i, "&") {
      CloseRead(s, i, '&');
      n := BacksRead(s, GetToken(s, SkipSpace(s, i)).next, Back(c));
      n := n + 1;
    } else {
      n := 0;
    }
  }

  lemma {:induction false} LineMet(s: string, i: nat)
    requires i <= |s| && ParseLine(s, i).Ok?
    ensures var r := ParsePipe(s, i);
      && r.Ok?
      && var (b, p) := ParseBacks(s, r.pos, r.value);
      && (!Peek(s, p, ";") ==> ParseLine(s, i) == Ok(b, p))
      && (Peek(s, p, ";") ==> var d := ParseLine(s, GetToken(s, p).next); d.Ok? && ParseLine(s, i) == Ok(List(b, d.value), d.pos))
  {
    hide ParsePipe, ParseBacks, Peek, GetToken;
  }

  lemma {:induction false} LineRead(s: string, i: nat) returns (g: Line)
    requires i <= |s| && ParseLine(s, i).Ok?
    ensures FitLine(g) && Reads(s, i, ParseLine(s, i), TreeLine(g), LexLine(g))
    decreases |s| - i, 2
  {
    hide Lexemes, GetToken, ParseLine, ParsePipe, ParseBacks, Peek, SkipSpace;
    LineMet(s, i);
    var ps := PipelineRead(s, i);
    var r := ParsePipe(s, i);
    var n := BacksRead(s, r.pos, r.value);
    var (b, p) := ParseBacks(s, r.pos, r.value);
    if Peek(s, p, ";") {
      CloseRead(s, p, ';');
      var more := LineRead(s, GetToken(s, p).next);
      g := Line(ps, n, Some(more));
    } else {
      g := Line(ps, n, None);
    }
    LineLex(g, Lexemes(s, ParseLine(s, i).pos));
    hide LexLine, LexPipeline, LexBacks;
  }

  /** What is parsed is a line of the grammar, and the result is its tree. */
  lemma {:induction false} Sound(s: string) returns (g: Line)
    requires ParseCmd(s).Ok?
    ensures FitLine(g) && LexLine(g) == Lexemes(s, 0) && TreeLine(g) == Text(s, ParseCmd(s).value)
  {
    g := LineRead(s, 0);
    hide ParseLine, LexLine, FitLine, TreeLine;
    var p := ParseLine(s, 0).pos;
    Skipped(s, p);
    assert Lexemes(s, |s|) == [];
  }

  /** The parser decides the grammar: a line is accepted exactly if it has a concrete syntax in which no
      command has MAXARGS words. */
  lemma {:induction false} Decides(s: string)
    ensures ParseCmd(s).Ok? <==> exists g :: FitLine(g) && LexLine(g) == Lexemes(s, 0)
  {
    hide ParseCmd, LexLine, FitLine, Lexemes;
    if ParseCmd(s).Ok? { var g := Sound(s); }
    if g :| FitLine(g) && LexLine(g) == Lexemes(s, 0) { Complete(s, g); }
  }

  // ----- lines as they are typed -----

  function Spell(x: Lex): string {
    match x case LexWord(w) => w case LexSym(c) => [c] case LexAppend => ">>"
  }

  /** Each lexeme with the space behind it. */
  function Typed(xs: seq<Lex>, gaps: seq<string>): string
    requires |gaps| == |xs|
  {
    if xs == [] then "" else Spell(xs[0]) + gaps[0] + Typed(xs[1..], gaps[1..])
  }

  predicate Blank(gap: string) { forall k :: 0 <= k < |gap| ==> Space(gap[k]) }

  predicate GoodLex(x: Lex) {
    match x case LexWord(w) => GoodWord(w) case LexSym(c) => Symbol(c) case LexAppend => true
  }

  /** Two lexemes that would run together. */
  predicate Joins(x: Lex, y: Lex) {
    || (x.LexWord? && y.LexWord?)
    || (x == LexSym('>') && (y == LexSym('>') || y == LexAppend))
  }

  /** The spaces keep the lexemes apart where they have to. */
  predicate Legible(xs: seq<Lex>, gaps: seq<string>) {
    && |gaps| == |xs| && (forall k :: 0 <= k < |xs| ==> GoodLex(xs[k]) && Blank(gaps[k]))
    && forall k :: 0 <= k < |xs| - 1 && Joins(xs[k], xs[k + 1]) ==> gaps[k] != ""
  }

  lemma {:induction false} SkipGap(s: string, i: nat, e: nat)
    requires i <= e <= |s| && (forall k :: i <= k < e ==> Space(s[k])) && (e < |s| ==> !Space(s[e]))
    ensures SkipSpace(s, i) == e
    decreases e - i
  {
    if i < e { SkipGap(s, i + 1, e); }
  }

  lemma {:induction false} FirstChar(xs: seq<Lex>, gaps: seq<string>)
    requires Legible(xs, gaps) && xs != []
    ensures var t := Typed(xs, gaps); t != "" && !Space(t[0]) && t[0] == Spell(xs[0])[0]
    ensures (xs[0].LexWord? <==> WordChar(Typed(xs, gaps)[0]))
    ensures Typed(xs, gaps)[0] == '>' <==> xs[0] == LexSym('>') || xs[0] == LexAppend
  {
  }

  /** Where a lexeme and the space behind it stand in the line. */
  lemma {:induction false} Stand(s: string, i: nat, w: string, gap: string, rest: string)
    requires i <= |s| && s[i..] == w + gap + rest && Blank(gap) && (rest != "" ==> !Space(rest[0]))
    ensures var e, n := i + |w|, i + |w| + |gap|;
      && n <= |s| && At(s, i, w) && SkipSpace(s, e) == n && s[n..] == rest
      && (e < |s| ==> s[e] == if gap != "" then gap[0] else rest[0])
  {
    var e, n := i + |w|, i + |w| + |gap|;
    var t := w + gap + rest;
    assert |s| == i + |t| && forall k :: i <= k < |s| ==> s[k] == t[k - i];
    assert s[n..] == rest && s[i..e] == w;
    assert forall k :: e <= k < n ==> s[k] == gap[k - e];
    SkipGap(s, e, n);
  }

  lemma {:induction false} TokenOfLex(s: string, i: nat, x: Lex, n: nat)
    requires i <= |s| && GoodLex(x) && At(s, i, Spell(x)) && n == SkipSpace(s, i + |Spell(x)|)
    requires i + |Spell(x)| < |s| ==> (x.LexWord? ==> !WordChar(s[i + |Spell(x)|])) && (x == LexSym('>') ==> s[i + |Spell(x)|] != '>')
    ensures var t := GetToken(s, i); t.kind != EndOfLine && LexOf(s, t) == x && t.next == n
  {
    var w := Spell(x);
    AtFirst(s, i, w);
    match x
    case LexWord(_) => TokenWord(s, i, w);
    case LexSym(c) => SkipGap(s, i, i);
    case LexAppend =>
      assert s[i + 1] == s[i..i + 2][1];
      SkipGap(s, i, i);
  }

  /** The first lexeme, and what it is kept apart from. */
  lemma {:induction false} TypedFirst(xs: seq<Lex>, gaps: seq<string>)
    requires Legible(xs, gaps) && xs != []
    ensures var rest := Typed(xs[1..], gaps[1..]);
      && Typed(xs, gaps) == Spell(xs[0]) + gaps[0] + rest && GoodLex(xs[0]) && Blank(gaps[0])
      && (gaps[0] != "" ==> Space(gaps[0][0])) && (rest != "" ==> !Space(rest[0]))
      && (gaps[0] == "" && rest != "" ==> (xs[0].LexWord? ==> !WordChar(rest[0])) && (xs[0] == LexSym('>') ==> rest[0] != '>'))
  {
    assert Legible(xs[1..], gaps[1..]);
    if |xs| > 1 { FirstChar(xs[1..], gaps[1..]); }
    assert |xs| > 1 && Joins(xs[0], xs[1]) ==> gaps[0] != "";
    hide Spell, GoodLex;
  }

  /** The token at the start of a typed line, and where the next one starts. */
  lemma {:induction false} TypedToken(s: string, i: nat, xs: seq<Lex>, gaps: seq<string>)
    requires i <= |s| && Legible(xs, gaps) && xs != [] && s[i..] == Typed(xs, gaps)
    ensures var t, n := GetToken(s, i), i + |Spell(xs[0])| + |gaps[0]|;
      t.kind != EndOfLine && LexOf(s, t) == xs[0] && t.next == n <= |s| && s[n..] == Typed(xs[1..], gaps[1..])
  {
    hide GetToken, At, LexOf, SkipSpace, Typed, Spell;
    var w, gap, rest := Spell(xs[0]), gaps[0], Typed(xs[1..], gaps[1..]);
    TypedFirst(xs, gaps);
    hide Legible, Blank, Joins, GoodLex;
    Stand(s, i, w, gap, rest);
    TokenOfLex(s, i, xs[0], i + |w| + |gap|);
  }

  lemma {:induction false} TypedReads(s: string, i: nat, xs: seq<Lex>, gaps: seq<string>)
    requires i <= |s| && Legible(xs, gaps) && s[i..] == Typed(xs, gaps)
    ensures Lexemes(s, i) == xs
    decreases |xs|
  {
    if xs != [] {
      TypedToken(s, i, xs, gaps);
      hide GetToken, Typed, Spell;
      TypedReads(s, GetToken(s, i).next, xs[1..], gaps[1..]);
    }
  }

  /** Parsing undoes typing: whatever spaces keep the lexemes of a line apart, the parser makes of it the
      tree that its syntax stands for. */
  lemma {:induction false} TypedLine(g: Line, lead: string, gaps: seq<string>)
    requires FitLine(g) && Blank(lead) && Legible(LexLine(g), gaps)
    ensures var s := lead + Typed(LexLine(g), gaps); ParseCmd(s).Ok? && Text(s, ParseCmd(s).value) == TreeLine(g)
  {
    var xs := LexLine(g);
    var s := lead + Typed(xs, gaps);
    assert s[|lead|..] == Typed(xs, gaps);
    if xs != [] { FirstChar(xs, gaps); }
    hide LexLine, FitLine, TreeLine, ParseCmd, Lexemes, GetToken, Text;
    SkipGap(s, 0, |lead|);
    Skipped(s, 0);
    TypedReads(s, |lead|, xs, gaps);
    Complete(s, g);
  }
}
