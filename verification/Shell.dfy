/** The command parser of sh.c.  A command line is a string s, a position in it is an index, and
a token is a span of indices, as the C code keeps pointers to a token's first character and
to the one behind it.  The character behind the line counts as NUL. */
module Shell {

  const MAXARGS: nat := 10

  /** The parse tree, over spans while parsing and over strings when printed. */
  datatype Cmd<W> =
    | Exec(argv: seq<W>)
    | Redir(cmd: Cmd<W>, file: W, output: bool)
    | Pipe(left: Cmd<W>, right: Cmd<W>)
    | List(left: Cmd<W>, right: Cmd<W>)
    | Back(cmd: Cmd<W>)

  datatype Span = Span(q: nat, eq: nat)

  /** Panics of the parser. */
  datatype Panic = MissingFile | MissingParen | Syntax | TooManyArgs | Leftovers

  datatype Parsed<T> = Ok(value: T, pos: nat) | Fail(why: Panic)

  predicate Space(c: char) { c in [' ', '\t', '\r', '\n', '\U{00000B}'] }

  predicate Symbol(c: char) { c in "<|>&;()" }

  predicate WordChar(c: char) { !Space(c) && !Symbol(c) }

  // ----- tokens -----

  function SkipSpace(s: string, i: nat): (r: nat)
    requires i <= |s|
    ensures i <= r <= |s| && (r < |s| ==> !Space(s[r]))
    decreases |s| - i
  {
    if i < |s| && Space(s[i]) then SkipSpace(s, i + 1) else i
  }

  function WordEnd(s: string, i: nat): (r: nat)
    requires i <= |s|
    ensures i <= r <= |s| && (r < |s| ==> !WordChar(s[r])) && forall k :: i <= k < r ==> WordChar(s[k])
    decreases |s| - i
  {
    if i < |s| && WordChar(s[i]) then WordEnd(s, i + 1) else i
  }

  /** peek: the next character, spaces skipped, is one of toks. */
  predicate Peek(s: string, i: nat, toks: string)
    requires i <= |s|
  {
    var p := SkipSpace(s, i);
    p < |s| && s[p] in toks
  }

  datatype Kind = EndOfLine | Sym(c: char) | Append | Word

  datatype Token = Token(kind: Kind, span: Span, next: nat)

  /** gettoken. Every token but the end of the line moves the position on. */
  function GetToken(s: string, i: nat): (t: Token)
    requires i <= |s|
    ensures i <= t.next <= |s| && (t.kind != EndOfLine ==> i < t.next)
    ensures t.kind == Word ==> ProperWord(s, t.span)
    ensures t.kind == EndOfLine ==> t.next == |s|
  {
    var q := SkipSpace(s, i);
    if q == |s| then Token(EndOfLine, Span(q, q), q)
    else if s[q] == '>' && q + 1 < |s| && s[q + 1] == '>' then Token(Append, Span(q, q + 2), SkipSpace(s, q + 2))
    else if Symbol(s[q]) then Token(Sym(s[q]), Span(q, q + 1), SkipSpace(s, q + 1))
    else
      var e := WordEnd(s, q);
      Token(Word, Span(q, e), SkipSpace(s, e))
  }

  /** A span of word characters that ends where the word ends. */
  predicate ProperWord(s: string, w: Span) {
    && w.q < w.eq <= |s| && (w.eq < |s| ==> !WordChar(s[w.eq]))
    && forall k :: w.q <= k < w.eq ==> WordChar(s[k])
  }

  // ----- the parser -----

  datatype Redirection = Redirection(file: Span, output: bool)

  /** redircmd nodes are put around a command in the order of the redirections. */
  function Wrap(c: Cmd<Span>, rs: seq<Redirection>): Cmd<Span> {
    if rs == [] then c else Redir(Wrap(c, rs[..|rs| - 1]), rs[|rs| - 1].file, rs[|rs| - 1].output)
  }

  function ParseRedirs(s: string, i: nat): (r: Parsed<seq<Redirection>>)
    requires i <= |s|
    ensures r.Ok? ==> i <= r.pos <= |s|
    ensures r.Ok? ==> forall k :: 0 <= k < |r.value| ==> ProperWord(s, r.value[k].file)
    decreases |s| - i
  {
    if !Peek(s, i, "<>") then Ok([], SkipSpace(s, i))
    else
      var tok := GetToken(s, SkipSpace(s, i));
      var f := GetToken(s, tok.next);
      if f.kind != Word then Fail(MissingFile)
      else
        var r := ParseRedirs(s, f.next);
        if r.Fail? then r
        else Ok([Redirection(f.span, tok.kind != Sym('<'))] + r.value, r.pos)
  }

  /** All words of a tree are words of the line. */
  predicate WordsOk(s: string, c: Cmd<Span>) {
    match c
    case Exec(argv) => forall k :: 0 <= k < |argv| ==> ProperWord(s, argv[k])
    case Redir(d, f, o) => WordsOk(s, d) && ProperWord(s, f)
    case Pipe(l, r) => WordsOk(s, l) && WordsOk(s, r)
    case List(l, r) => WordsOk(s, l) && WordsOk(s, r)
    case Back(d) => WordsOk(s, d)
  }

  lemma {:induction false} WrapWords(s: string, c: Cmd<Span>, rs: seq<Redirection>)
    requires WordsOk(s, c) && forall k :: 0 <= k < |rs| ==> ProperWord(s, rs[k].file)
    ensures WordsOk(s, Wrap(c, rs))
  {
    if rs != [] { WrapWords(s, c, rs[..|rs| - 1]); }
  }

  /** The loop of parseexec over arguments and redirections. */
  function ParseArgs(s: string, i: nat, argv: seq<Span>, rs: seq<Redirection>): (r: Parsed<Cmd<Span>>)
    requires i <= |s| && WordsOk(s, Exec(argv)) && forall k :: 0 <= k < |rs| ==> ProperWord(s, rs[k].file)
    ensures r.Ok? ==> i <= r.pos <= |s| && WordsOk(s, r.value)
    decreases |s| - i
  {
    WrapWords(s, Exec(argv), rs);
    if Peek(s, i, "|)&;") then Ok(Wrap(Exec(argv), rs), SkipSpace(s, i))
    else
      var tok := GetToken(s, SkipSpace(s, i));
      if tok.kind == EndOfLine then Ok(Wrap(Exec(argv), rs), tok.next)
      else if tok.kind != Word then Fail(Syntax)
      else if |argv| + 1 >= MAXARGS then Fail(TooManyArgs)
      else
        var r := ParseRedirs(s, tok.next);
        if r.Fail? then Fail(r.why) else ParseArgs(s, r.pos, argv + [tok.span], rs + r.value)
  }

  function ParseExec(s: string, i: nat): (r: Parsed<Cmd<Span>>)
    requires i <= |s|
    ensures r.Ok? ==> i <= r.pos <= |s| && WordsOk(s, r.value)
    decreases |s| - i, 2
  {
    if Peek(s, i, "(") then ParseBlock(s, SkipSpace(s, i))
    else
      var r := ParseRedirs(s, SkipSpace(s, i));
      if r.Fail? then Fail(r.why) else ParseArgs(s, r.pos, [], r.value)
  }

  function ParseBlock(s: string, i: nat): (r: Parsed<Cmd<Span>>)
    requires i < |s| && s[i] == '('
    ensures r.Ok? ==> i < r.pos <= |s| && WordsOk(s, r.value)
    decreases |s| - i, 1
  {
    var open := GetToken(s, i);
    var c := ParseLine(s, open.next);
    if c.Fail? then c
    else if !Peek(s, c.pos, ")") then Fail(MissingParen)
    else
      var close := GetToken(s, SkipSpace(s, c.pos));
      var r := ParseRedirs(s, close.next);
      if r.Fail? then Fail(r.why)
      else
        WrapWords(s, c.value, r.value);
        Ok(Wrap(c.value, r.value), r.pos)
  }

  function ParsePipe(s: string, i: nat): (r: Parsed<Cmd<Span>>)
    requires i <= |s|
    ensures r.Ok? ==> i <= r.pos <= |s| && WordsOk(s, r.value)
    decreases |s| - i, 3
  {
    var c := ParseExec(s, i);
    if c.Ok? && Peek(s, c.pos, "|") then
      var d := ParsePipe(s, GetToken(s, SkipSpace(s, c.pos)).next);
      if d.Fail? then d else Ok(Pipe(c.value, d.value), d.pos)
    else c
  }

  /** The loop of parseline over "&". */
  function ParseBacks(s: string, i: nat, c: Cmd<Span>): (r: (Cmd<Span>, nat))
    requires i <= |s| && WordsOk(s, c)
    ensures i <= r.1 <= |s| && WordsOk(s, r.0)
    decreases |s| - i
  {
    if Peek(s, i, "&") then ParseBacks(s, GetToken(s, SkipSpace(s, i)).next, Back(c)) else (c, SkipSpace(s, i))
  }

  function ParseLine(s: string, i: nat): (r: Parsed<Cmd<Span>>)
    requires i <= |s|
    ensures r.Ok? ==> i <= r.pos <= |s| && WordsOk(s, r.value)
    decreases |s| - i, 4
  {
    var c := ParsePipe(s, i);
    if c.Fail? then c
    else
      var (b, p) := ParseBacks(s, c.pos, c.value);
      if Peek(s, p, ";") then
        var d := ParseLine(s, GetToken(s, p).next);
        if d.Fail? then d else Ok(List(b, d.value), d.pos)
      else Ok(b, p)
  }

  function ParseCmd(s: string): (r: Parsed<Cmd<Span>>)
    ensures r.Ok? ==> r.pos == |s| && WordsOk(s, r.value)
  {
    var c := ParseLine(s, 0);
    if c.Fail? then c
    else if SkipSpace(s, c.pos) != |s| then Fail(Leftovers)
    else Ok(c.value, |s|)
  }

  // ----- printing and the round trip -----

  predicate GoodWord(w: string) {
    w != [] && forall k :: 0 <= k < |w| ==> WordChar(w[k])
  }

  /** Trees the parser can be given back: proper words, and fewer than MAXARGS of them a command. */
  predicate Printable(t: Cmd<string>) {
    match t
    case Exec(argv) => |argv| < MAXARGS && forall k :: 0 <= k < |argv| ==> GoodWord(argv[k])
    case Redir(d, f, o) => Printable(d) && GoodWord(f)
    case Pipe(l, r) => Printable(l) && Printable(r)
    case List(l, r) => Printable(l) && Printable(r)
    case Back(d) => Printable(d)
  }

  function PrintWords(ws: seq<string>): string
    decreases |ws|, 0
  {
    if ws == [] then "" else ws[0] + MoreWords(ws[1..])
  }

  function MoreWords(ws: seq<string>): string
    decreases |ws|, 1
  {
    if ws == [] then "" else " " + PrintWords(ws)
  }

  /** Every subcommand in parentheses. */
  function Print(t: Cmd<string>): string {
    match t
    case Exec(argv) => PrintWords(argv)
    case Redir(d, f, o) => "(" + Print(d) + ")" + (if o then ">" else "<") + f
    case Pipe(l, r) => "(" + Print(l) + ")" + "|" + ("(" + Print(r) + ")")
    case List(l, r) => "(" + Print(l) + ")" + ";" + ("(" + Print(r) + ")")
    case Back(d) => "(" + Print(d) + ")" + "&"
  }

  function Slice(s: string, w: Span): string {
    if w.q <= w.eq <= |s| then s[w.q..w.eq] else ""
  }

  /** The tree with the text of its spans. */
  function Text(s: string, c: Cmd<Span>): Cmd<string> {
    match c
    case Exec(argv) => Exec(seq(|argv|, k requires 0 <= k < |argv| => Slice(s, argv[k])))
    case Redir(d, f, o) => Redir(Text(s, d), Slice(s, f), o)
    case Pipe(l, r) => Pipe(Text(s, l), Text(s, r))
    case List(l, r) => List(Text(s, l), Text(s, r))
    case Back(d) => Back(Text(s, d))
  }

  /** A parse with the text of its spans. */
  function Read(s: string, r: Parsed<Cmd<Span>>): Parsed<Cmd<string>> {
    if r.Ok? then Ok(Text(s, r.value), r.pos) else Fail(r.why)
  }

  /** s has x at position i. */
  predicate At(s: string, i: nat, x: string) {
    i + |x| <= |s| && s[i..i + |x|] == x
  }

  /** The character at i, or NUL behind the end, is none of spaces and toks. */
  predicate Stops(s: string, i: nat, toks: string) {
    i == |s| || (i < |s| && !Space(s[i]) && s[i] !in toks)
  }

  lemma TokenSym(s: string, i: nat)
    requires i < |s| && Symbol(s[i]) && (i + 1 == |s| || (i + 1 < |s| && !Space(s[i + 1]) && s[i + 1] != '>'))
    ensures GetToken(s, i) == Token(Sym(s[i]), Span(i, i + 1), i + 1)
  {
  }

  lemma {:induction false} WordEndIs(s: string, i: nat, e: nat)
    requires i <= e <= |s| && (forall k :: i <= k < e ==> WordChar(s[k])) && (e < |s| ==> !WordChar(s[e]))
    ensures WordEnd(s, i) == e
    decreases e - i
  {
    if i < e { WordEndIs(s, i + 1, e); }
  }

  lemma TokenWord(s: string, i: nat, w: string)
    requires GoodWord(w) && At(s, i, w) && (i + |w| < |s| ==> !WordChar(s[i + |w|]))
    ensures GetToken(s, i) == Token(Word, Span(i, i + |w|), SkipSpace(s, i + |w|))
    ensures Slice(s, Span(i, i + |w|)) == w
  {
    var x := s[i..i + |w|];
    assert forall k :: i <= k < i + |w| ==> s[k] == x[k - i];
    WordEndIs(s, i, i + |w|);
  }

  lemma NoRedirs(s: string, i: nat)
    requires i <= |s| && Stops(s, i, "<>")
    ensures ParseRedirs(s, i) == Ok([], i)
  {
  }

  /** A block with its inside parsed and the redirections behind it. */
  lemma BlockWith(s: string, i: nat, p: nat, rs: seq<Redirection>, e: nat)
    requires i < p < |s| && s[i] == '(' && s[p] == ')' && !Space(s[i + 1]) && (p + 1 < |s| ==> !Space(s[p + 1]))
    requires ParseLine(s, i + 1).Ok? && ParseLine(s, i + 1).pos == p
    requires ParseRedirs(s, p + 1) == Ok(rs, e)
    ensures ParseExec(s, i) == Ok(Wrap(ParseLine(s, i + 1).value, rs), e)
  {
    hide ParseLine, ParseRedirs;
    assert GetToken(s, i) == Token(Sym('('), Span(i, i + 1), i + 1);
    assert GetToken(s, p) == Token(Sym(')'), Span(p, p + 1), p + 1);
  }

  lemma BlockParses(s: string, i: nat, t: Cmd<string>, p: nat)
    requires i < p < |s| && s[i] == '(' && s[p] == ')' && !Space(s[i + 1])
    requires Read(s, ParseLine(s, i + 1)) == Ok(t, p)
    requires Stops(s, p + 1, "<>")
    ensures Read(s, ParseExec(s, i)) == Ok(t, p + 1)
  {
    hide ParseLine, ParseExec;
    NoRedirs(s, p + 1);
    BlockWith(s, i, p, [], p + 1);
  }

  lemma OneRedir(s: string, i: nat, o: bool, f: string)
    requires i < |s| && s[i] == (if o then '>' else '<') && GoodWord(f) && At(s, i + 1, f)
    requires Stops(s, i + 1 + |f|, "<>") && (i + 1 + |f| < |s| ==> !WordChar(s[i + 1 + |f|]))
    ensures ParseRedirs(s, i) == Ok([Redirection(Span(i + 1, i + 1 + |f|), o)], i + 1 + |f|)
  {
    var e := i + 1 + |f|;
    assert s[i + 1] == s[i + 1..e][0] == f[0];
    TokenSym(s, i);
    TokenWord(s, i + 1, f);
    NoRedirs(s, e);
    assert SkipSpace(s, e) == e;
    var x := Redirection(Span(i + 1, e), o);
    assert [x] + [] == [x];
  }

  /** The token for appending is read as one for output. */
  lemma OneAppend(s: string, i: nat, f: string)
    requires i + 1 < |s| && s[i] == '>' && s[i + 1] == '>' && GoodWord(f) && At(s, i + 2, f)
    requires Stops(s, i + 2 + |f|, "<>") && (i + 2 + |f| < |s| ==> !WordChar(s[i + 2 + |f|]))
    ensures ParseRedirs(s, i) == Ok([Redirection(Span(i + 2, i + 2 + |f|), true)], i + 2 + |f|)
  {
    var e := i + 2 + |f|;
    assert s[i + 2] == s[i + 2..e][0] == f[0];
    assert GetToken(s, i) == Token(Append, Span(i, i + 2), i + 2);
    TokenWord(s, i + 2, f);
    NoRedirs(s, e);
    assert SkipSpace(s, e) == e;
    var x := Redirection(Span(i + 2, e), true);
    assert [x] + [] == [x];
  }

  lemma BlockRedirParses(s: string, i: nat, t: Cmd<string>, p: nat, o: bool, f: string)
    requires i < p < |s| && s[i] == '(' && s[p] == ')' && !Space(s[i + 1])
    requires Read(s, ParseLine(s, i + 1)) == Ok(t, p)
    requires p + 1 < |s| && s[p + 1] == (if o then '>' else '<') && GoodWord(f) && At(s, p + 2, f)
    requires p + 2 + |f| == |s| || (p + 2 + |f| < |s| && s[p + 2 + |f|] == ')')
    ensures Read(s, ParseExec(s, i)) == Ok(Redir(t, f, o), p + 2 + |f|)
  {
    hide ParseLine, ParseExec, ParseRedirs;
    OneRedir(s, p + 1, o, f);
    var w := Span(p + 2, p + 2 + |f|);
    BlockWith(s, i, p, [Redirection(w, o)], p + 2 + |f|);
    WrapOne(ParseLine(s, i + 1).value, Redirection(w, o));
    SliceAt(s, p + 2, f);
  }

  lemma WrapOne(c: Cmd<Span>, r: Redirection)
    ensures Wrap(c, [r]) == Redir(c, r.file, r.output)
  {
    assert [r][..0] == [];
    assert Wrap(c, [r][..0]) == c;
  }

  lemma SliceAt(s: string, i: nat, f: string)
    requires At(s, i, f)
    ensures Slice(s, Span(i, i + |f|)) == f && i + |f| <= |s|
  {
  }

  /** When an exec or block is followed by neither "|", "&" nor ";", it is the whole line. */
  lemma PipeIsExec(s: string, i: nat, t: Cmd<string>, p: nat)
    requires i <= p <= |s| && Read(s, ParseExec(s, i)) == Ok(t, p) && Stops(s, p, "|")
    ensures Read(s, ParsePipe(s, i)) == Ok(t, p)
  {
    hide ParseExec;
  }

  lemma LineIsPipe(s: string, i: nat, t: Cmd<string>, p: nat)
    requires i <= p <= |s| && Read(s, ParsePipe(s, i)) == Ok(t, p) && Stops(s, p, "&;")
    ensures Read(s, ParseLine(s, i)) == Ok(t, p)
  {
    hide ParsePipe;
  }

  lemma LineIsBack(s: string, i: nat, t: Cmd<string>, p: nat)
    requires i <= p < |s| && Read(s, ParsePipe(s, i)) == Ok(t, p) && s[p] == '&' && Stops(s, p + 1, "&;")
    ensures Read(s, ParseLine(s, i)) == Ok(Back(t), p + 1)
  {
    hide ParsePipe;
    assert GetToken(s, p) == Token(Sym('&'), Span(p, p + 1), p + 1);
    assert ParseBacks(s, p + 1, Back(ParsePipe(s, i).value)) == (Back(ParsePipe(s, i).value), p + 1);
  }

  lemma LineIsList(s: string, i: nat, t: Cmd<string>, p: nat, u: Cmd<string>, e: nat)
    requires i <= p < |s| && Read(s, ParsePipe(s, i)) == Ok(t, p) && s[p] == ';' && p + 1 < |s| && s[p + 1] == '('
    requires Read(s, ParseLine(s, p + 1)) == Ok(u, e)
    ensures Read(s, ParseLine(s, i)) == Ok(List(t, u), e)
  {
    hide ParsePipe;
    assert GetToken(s, p) == Token(Sym(';'), Span(p, p + 1), p + 1);
    assert ParseBacks(s, p, ParsePipe(s, i).value) == (ParsePipe(s, i).value, p);
  }

  lemma PipeIsPipe(s: string, i: nat, t: Cmd<string>, p: nat, u: Cmd<string>, e: nat)
    requires i <= p < |s| && Read(s, ParseExec(s, i)) == Ok(t, p) && s[p] == '|' && p + 1 < |s| && s[p + 1] == '('
    requires Read(s, ParsePipe(s, p + 1)) == Ok(u, e)
    ensures Read(s, ParsePipe(s, i)) == Ok(Pipe(t, u), e)
  {
    hide ParseExec;
    assert GetToken(s, p) == Token(Sym('|'), Span(p, p + 1), p + 1);
  }

  lemma AtConcat(s: string, i: nat, x: string, y: string)
    requires At(s, i, x + y)
    ensures At(s, i, x) && At(s, i + |x|, y) && i + |x| + |y| <= |s|
  {
    var z := s[i..i + |x + y|];
    assert s[i..i + |x|] == z[..|x|] && s[i + |x|..i + |x| + |y|] == z[|x|..];
    assert (x + y)[..|x|] == x && (x + y)[|x|..] == y;
  }

  lemma AtFirst(s: string, i: nat, x: string)
    requires At(s, i, x) && x != []
    ensures i < |s| && s[i] == x[0]
  {
    assert s[i] == s[i..i + |x|][0];
  }

  lemma TextOf(s: string, argv: seq<Span>, done: seq<string>, w: Span)
    requires Text(s, Exec(argv)) == Exec(done)
    ensures Text(s, Exec(argv + [w])) == Exec(done + [Slice(s, w)])
  {
    var a := Text(s, Exec(argv)).argv;
    assert Text(s, Exec(argv + [w])).argv == a + [Slice(s, w)];
  }

  /** The end of a printed command: the end of the line or a closing parenthesis. */
  predicate Closed(s: string, e: nat) {
    e == |s| || (e < |s| && s[e] == ')')
  }

  lemma ArgsEnd(s: string, e: nat, argv: seq<Span>, done: seq<string>)
    requires e <= |s| && Closed(s, e) && WordsOk(s, Exec(argv)) && Text(s, Exec(argv)) == Exec(done)
    ensures Read(s, ParseArgs(s, e, argv, [])) == Ok(Exec(done), e)
  {
    assert SkipSpace(s, e) == e;
  }

  /** The first word of a printed command: the token is the word, and the rest follows it. */
  lemma FirstWord(s: string, i: nat, ws: seq<string>) returns (next: nat)
    requires ws != [] && (forall k :: 0 <= k < |ws| ==> GoodWord(ws[k]))
    requires At(s, i, PrintWords(ws)) && Closed(s, i + |PrintWords(ws)|)
    ensures At(s, i, ws[0]) && i + |ws[0]| <= |s| && (i + |ws[0]| < |s| ==> !WordChar(s[i + |ws[0]|]))
    ensures next <= |s| && SkipSpace(s, i + |ws[0]|) == next
    ensures At(s, next, PrintWords(ws[1..])) && next + |PrintWords(ws[1..])| == i + |PrintWords(ws)|
    ensures Stops(s, next, "<>")
  {
    PrintHead(ws[1..]);
    var w, rest := ws[0], PrintWords(ws[1..]);
    assert PrintWords(ws) == w + MoreWords(ws[1..]);
    AtConcat(s, i, w, MoreWords(ws[1..]));
    hide PrintWords, At;
    next := i + |w|;
    if |ws| > 1 {
      assert MoreWords(ws[1..]) == " " + rest;
      AtConcat(s, i + |w|, " ", rest);
      AtFirst(s, i + |w|, " ");
      next := next + 1;
      AtFirst(s, next, rest);
      assert SkipSpace(s, next) == next;
    } else {
      assert MoreWords(ws[1..]) == "";
      NoWords(ws[1..]);
    }
  }

  lemma PrintHead(ws: seq<string>)
    requires ws != [] ==> GoodWord(ws[0])
    ensures ws != [] ==> PrintWords(ws) != [] && WordChar(PrintWords(ws)[0])
  {
    if ws != [] { assert PrintWords(ws)[0] == ws[0][0]; }
  }

  lemma WordStep(s: string, i: nat, ws: seq<string>) returns (next: nat)
    requires ws != [] && (forall k :: 0 <= k < |ws| ==> GoodWord(ws[k]))
    requires At(s, i, PrintWords(ws)) && Closed(s, i + |PrintWords(ws)|)
    ensures next <= |s| && GetToken(s, i) == Token(Word, Span(i, i + |ws[0]|), next) && Slice(s, Span(i, i + |ws[0]|)) == ws[0]
    ensures At(s, next, PrintWords(ws[1..])) && next + |PrintWords(ws[1..])| == i + |PrintWords(ws)|
    ensures Stops(s, next, "<>")
    ensures i < |s| && WordChar(s[i])
  {
    next := FirstWord(s, i, ws);
    hide PrintWords;
    TokenWord(s, i, ws[0]);
    AtFirst(s, i, ws[0]);
  }

  /** One argument in parseexec's loop. */
  lemma ArgStep(s: string, i: nat, argv: seq<Span>, w: Span, next: nat)
    requires i < |s| && WordChar(s[i]) && next <= |s| && GetToken(s, i) == Token(Word, w, next) && Stops(s, next, "<>")
    requires WordsOk(s, Exec(argv)) && |argv| + 1 < MAXARGS
    ensures WordsOk(s, Exec(argv + [w])) && ParseArgs(s, i, argv, []) == ParseArgs(s, next, argv + [w], [])
  {
    NoRedirs(s, next);
    hide GetToken, ParseRedirs;
    assert SkipSpace(s, i) == i;
    var rs: seq<Redirection> := [];
    assert rs + [] == rs;
  }

  lemma {:induction false} ArgsParse(s: string, i: nat, ws: seq<string>, argv: seq<Span>, done: seq<string>)
    requires At(s, i, PrintWords(ws)) && Closed(s, i + |PrintWords(ws)|)
    requires (forall k :: 0 <= k < |ws| ==> GoodWord(ws[k])) && |argv| + |ws| < MAXARGS
    requires WordsOk(s, Exec(argv)) && Text(s, Exec(argv)) == Exec(done)
    ensures Read(s, ParseArgs(s, i, argv, [])) == Ok(Exec(done + ws), i + |PrintWords(ws)|)
    decreases |ws|
  {
    hide ParseArgs, GetToken, PrintWords, At, Read, Text, GoodWord, WordsOk, Slice;
    if ws == [] {
      NoWords(ws);
      ArgsEnd(s, i, argv, done);
      assert done + ws == done;
    } else {
      var next := WordStep(s, i, ws);
      var w := Span(i, i + |ws[0]|);
      ArgStep(s, i, argv, w, next);
      TextOf(s, argv, done, w);
      ArgsParse(s, next, ws[1..], argv + [w], done + [ws[0]]);
      assert done + [ws[0]] + ws[1..] == done + ws;
    }
  }

  lemma NoWords(ws: seq<string>)
    requires ws == []
    ensures PrintWords(ws) == ""
  {
  }

  lemma ExecParses(s: string, i: nat, ws: seq<string>)
    requires Printable(Exec(ws)) && At(s, i, PrintWords(ws)) && Closed(s, i + |PrintWords(ws)|)
    ensures Read(s, ParseExec(s, i)) == Ok(Exec(ws), i + |PrintWords(ws)|)
  {
    if ws != [] { AtWord(s, i, ws); }
    NoRedirs(s, i);
    assert Text(s, Exec([])) == Exec([]);
    ArgsParse(s, i, ws, [], []);
    assert [] + ws == ws;
  }

  lemma AtWord(s: string, i: nat, ws: seq<string>)
    requires ws != [] && GoodWord(ws[0]) && At(s, i, PrintWords(ws))
    ensures i < |s| && WordChar(s[i])
  {
    assert PrintWords(ws)[0] == ws[0][0];
    AtFirst(s, i, PrintWords(ws));
  }

  /** Printed commands do not start with a space. */
  lemma PrintStart(s: string, i: nat, t: Cmd<string>)
    requires Printable(t) && At(s, i, Print(t)) && Closed(s, i + |Print(t)|) && i < |s|
    ensures !Space(s[i])
  {
    if t.Exec? {
      if t.argv != [] { AtWord(s, i, t.argv); }
    } else {
      assert Print(t)[0] == '(';
      AtFirst(s, i, Print(t));
    }
  }

  /** The parts of a block. */
  lemma BlockAt(s: string, i: nat, t: Cmd<string>, tail: string) returns (p: nat)
    requires At(s, i, "(" + Print(t) + ")" + tail)
    ensures p == i + 1 + |Print(t)| && p < |s| && i < |s| && s[i] == '(' && s[p] == ')'
    ensures At(s, i + 1, Print(t)) && At(s, p + 1, tail) && Closed(s, p)
  {
    p := i + 1 + |Print(t)|;
    AtConcat(s, i, "(" + Print(t) + ")", tail);
    AtConcat(s, i, "(" + Print(t), ")");
    AtConcat(s, i, "(", Print(t));
    AtFirst(s, i, "(");
    AtFirst(s, p, ")");
  }

  // What Print puts down for each kind of node.

  lemma PrintRedir(d: Cmd<string>, f: string, o: bool)
    ensures Print(Redir(d, f, o)) == "(" + Print(d) + ")" + ((if o then ">" else "<") + f)
    ensures |Print(Redir(d, f, o))| == |Print(d)| + 3 + |f|
  {
  }

  lemma PrintBack(d: Cmd<string>)
    ensures Print(Back(d)) == "(" + Print(d) + ")" + "&" && |Print(Back(d))| == |Print(d)| + 3
  {
  }

  lemma PrintPair(l: Cmd<string>, r: Cmd<string>)
    ensures Print(Pipe(l, r)) == "(" + Print(l) + ")" + "|" + ("(" + Print(r) + ")")
    ensures Print(List(l, r)) == "(" + Print(l) + ")" + ";" + ("(" + Print(r) + ")")
    ensures |Print(Pipe(l, r))| == |Print(List(l, r))| == |Print(l)| + |Print(r)| + 5
  {
  }

  lemma RedirCase(s: string, i: nat, d: Cmd<string>, f: string, o: bool)
    requires Printable(d) && GoodWord(f) && At(s, i, Print(Redir(d, f, o))) && Closed(s, i + |Print(Redir(d, f, o))|)
    requires i + 1 <= |s| && Read(s, ParseLine(s, i + 1)) == Ok(d, i + 1 + |Print(d)|)
    ensures Read(s, ParseLine(s, i)) == Ok(Redir(d, f, o), i + |Print(Redir(d, f, o))|)
  {
    hide ParseLine, ParsePipe, ParseExec, At, Read, Print, Printable, GoodWord, Text;
    var sym, t := if o then ">" else "<", Redir(d, f, o);
    PrintRedir(d, f, o);
    var e := i + |Print(t)|;
    var p := BlockAt(s, i, d, sym + f);
    AtConcat(s, p + 1, sym, f);
    AtFirst(s, p + 1, sym);
    PrintStart(s, i + 1, d);
    BlockRedirParses(s, i, d, p, o, f);
    PipeIsExec(s, i, t, e);
    LineIsPipe(s, i, t, e);
  }

  lemma BackCase(s: string, i: nat, d: Cmd<string>)
    requires Printable(d) && At(s, i, Print(Back(d))) && Closed(s, i + |Print(Back(d))|)
    requires i + 1 <= |s| && Read(s, ParseLine(s, i + 1)) == Ok(d, i + 1 + |Print(d)|)
    ensures Read(s, ParseLine(s, i)) == Ok(Back(d), i + |Print(Back(d))|)
  {
    hide ParseLine, ParsePipe, ParseExec, At, Read, Print, Printable, Text;
    PrintBack(d);
    var p := BlockAt(s, i, d, "&");
    AtFirst(s, p + 1, "&");
    PrintStart(s, i + 1, d);
    BlockParses(s, i, d, p);
    PipeIsExec(s, i, d, p + 1);
    LineIsBack(s, i, d, p + 1);
  }

  /** Two blocks with a symbol between them, both parsed; p is where the symbol stands. */
  predicate PairShape(s: string, i: nat, p: nat, c: char, e: nat) {
    && i < p - 1 < p < p + 2 < e <= |s|
    && s[i] == '(' && s[p - 1] == ')' && s[p] == c && s[p + 1] == '(' && s[e - 1] == ')' && Closed(s, e)
    && !Space(s[i + 1]) && !Space(s[p + 2])
  }

  predicate PairParsed(s: string, i: nat, l: Cmd<string>, p: nat, c: char, r: Cmd<string>, e: nat) {
    && PairShape(s, i, p, c, e)
    && Read(s, ParseLine(s, i + 1)) == Ok(l, p - 1) && Read(s, ParseLine(s, p + 2)) == Ok(r, e - 1)
  }

  lemma PipeCase(s: string, i: nat, l: Cmd<string>, p: nat, r: Cmd<string>, e: nat)
    requires PairParsed(s, i, l, p, '|', r, e)
    ensures Read(s, ParseLine(s, i)) == Ok(Pipe(l, r), e)
  {
    hide ParseLine, ParsePipe, ParseExec, Read;
    BlockParses(s, i, l, p - 1);
    BlockParses(s, p + 1, r, e - 1);
    PipeIsExec(s, p + 1, r, e);
    PipeIsPipe(s, i, l, p, r, e);
    LineIsPipe(s, i, Pipe(l, r), e);
  }

  lemma ListCase(s: string, i: nat, l: Cmd<string>, p: nat, r: Cmd<string>, e: nat)
    requires PairParsed(s, i, l, p, ';', r, e)
    ensures Read(s, ParseLine(s, i)) == Ok(List(l, r), e)
  {
    hide ParseLine, ParsePipe, ParseExec, Read;
    BlockParses(s, i, l, p - 1);
    BlockParses(s, p + 1, r, e - 1);
    PipeIsExec(s, i, l, p);
    PipeIsExec(s, p + 1, r, e);
    LineIsPipe(s, p + 1, r, e);
    LineIsList(s, i, l, p, r, e);
  }

  lemma {:induction false} RoundTripRedir(s: string, i: nat, t: Cmd<string>)
    requires t.Redir? && Printable(t) && At(s, i, Print(t)) && Closed(s, i + |Print(t)|) && i <= |s|
    ensures Read(s, ParseLine(s, i)) == Ok(t, i + |Print(t)|)
    decreases t, 0
  {
    hide ParseLine, At, Read, Print, Printable, GoodWord, Text, PrintWords, PairShape, Closed, WordsOk;
    Parts(t);
    var Redir(d, f, o) := t;
    InsideRedir(s, i, d, f, o);
    RoundTripAt(s, i + 1, d);
    RedirCase(s, i, d, f, o);
  }

  lemma {:induction false} RoundTripPipe(s: string, i: nat, t: Cmd<string>)
    requires t.Pipe? && Printable(t) && At(s, i, Print(t)) && Closed(s, i + |Print(t)|) && i <= |s|
    ensures Read(s, ParseLine(s, i)) == Ok(t, i + |Print(t)|)
    decreases t, 0
  {
    hide ParseLine, At, Read, Print, Printable, GoodWord, Text, PrintWords, PairShape, Closed, WordsOk;
    Parts(t);
    var Pipe(l, r) := t;
    var p, e := InsidePair(s, i, l, r, '|');
    RoundTripAt(s, i + 1, l);
    RoundTripAt(s, p + 2, r);
    PipeCase(s, i, l, p, r, e);
  }

  lemma {:induction false} RoundTripList(s: string, i: nat, t: Cmd<string>)
    requires t.List? && Printable(t) && At(s, i, Print(t)) && Closed(s, i + |Print(t)|) && i <= |s|
    ensures Read(s, ParseLine(s, i)) == Ok(t, i + |Print(t)|)
    decreases t, 0
  {
    hide ParseLine, At, Read, Print, Printable, GoodWord, Text, PrintWords, PairShape, Closed, WordsOk;
    Parts(t);
    var List(l, r) := t;
    var p, e := InsidePair(s, i, l, r, ';');
    RoundTripAt(s, i + 1, l);
    RoundTripAt(s, p + 2, r);
    ListCase(s, i, l, p, r, e);
  }

  lemma {:induction false} RoundTripBack(s: string, i: nat, t: Cmd<string>)
    requires t.Back? && Printable(t) && At(s, i, Print(t)) && Closed(s, i + |Print(t)|) && i <= |s|
    ensures Read(s, ParseLine(s, i)) == Ok(t, i + |Print(t)|)
    decreases t, 0
  {
    hide ParseLine, At, Read, Print, Printable, GoodWord, Text, PrintWords, PairShape, Closed, WordsOk;
    Parts(t);
    var Back(d) := t;
    PrintBack(d);
    var p := BlockAt(s, i, d, "&");
    RoundTripAt(s, i + 1, d);
    BackCase(s, i, d);
  }

  /** Parsing the parenthesised printing of a tree gives the tree back, wherever it stands. */
  lemma {:induction false} RoundTripAt(s: string, i: nat, t: Cmd<string>)
    requires Printable(t) && At(s, i, Print(t)) && Closed(s, i + |Print(t)|) && i <= |s|
    ensures Read(s, ParseLine(s, i)) == Ok(t, i + |Print(t)|)
    decreases t, 1
  {
    Parts(t);
    hide ParseLine, At, Read, Print, Printable, GoodWord, Text, PrintWords;
    match t
    case Exec(ws) => LineOfWords(s, i, ws);
    case Redir(_, _, _) => RoundTripRedir(s, i, t);
    case Pipe(_, _) => RoundTripPipe(s, i, t);
    case List(_, _) => RoundTripList(s, i, t);
    case Back(_) => RoundTripBack(s, i, t);
  }

  lemma Parts(t: Cmd<string>)
    requires Printable(t)
    ensures match t
      case Exec(ws) => Print(t) == PrintWords(ws)
      case Redir(d, f, o) => Printable(d) && GoodWord(f)
      case Pipe(l, r) => Printable(l) && Printable(r)
      case List(l, r) => Printable(l) && Printable(r)
      case Back(d) => Printable(d)
  {
  }

  lemma InsidePair(s: string, i: nat, l: Cmd<string>, r: Cmd<string>, c: char) returns (p: nat, e: nat)
    requires Printable(l) && Printable(r) && (c == '|' || c == ';')
    requires var t := if c == '|' then Pipe(l, r) else List(l, r); At(s, i, Print(t)) && Closed(s, i + |Print(t)|)
    ensures PairShape(s, i, p, c, e) && e == i + |Print(if c == '|' then Pipe(l, r) else List(l, r))|
    ensures At(s, i + 1, Print(l)) && Closed(s, p - 1) && p - 1 == i + 1 + |Print(l)|
    ensures At(s, p + 2, Print(r)) && Closed(s, e - 1) && e - 1 == p + 2 + |Print(r)| && e <= |s|
  {
    hide At, Print, Printable;
    PrintPair(l, r);
    BlockPair(s, i, l, [c], r);
    p, e := i + 2 + |Print(l)|, i + |Print(l)| + |Print(r)| + 5;
  }

  lemma LineOfWords(s: string, i: nat, ws: seq<string>)
    requires Printable(Exec(ws)) && At(s, i, PrintWords(ws)) && Closed(s, i + |PrintWords(ws)|)
    ensures Read(s, ParseLine(s, i)) == Ok(Exec(ws), i + |PrintWords(ws)|)
  {
    hide ParseLine, ParsePipe, ParseExec, Read;
    var e := i + |PrintWords(ws)|;
    ExecParses(s, i, ws);
    PipeIsExec(s, i, Exec(ws), e);
    LineIsPipe(s, i, Exec(ws), e);
  }

  lemma InsideRedir(s: string, i: nat, d: Cmd<string>, f: string, o: bool)
    requires At(s, i, Print(Redir(d, f, o)))
    ensures i + 1 <= |s| && At(s, i + 1, Print(d)) && Closed(s, i + 1 + |Print(d)|)
  {
    hide At, Print;
    var sym := if o then ">" else "<";
    PrintRedir(d, f, o);
    var p := BlockAt(s, i, d, sym + f);
  }

  /** Two blocks with a symbol between them. */
  lemma BlockPair(s: string, i: nat, l: Cmd<string>, sym: string, r: Cmd<string>)
    requires Printable(l) && Printable(r) && |sym| == 1
    requires At(s, i, "(" + Print(l) + ")" + sym + ("(" + Print(r) + ")"))
    requires Closed(s, i + |Print(l)| + |Print(r)| + 5)
    ensures var p := i + 2 + |Print(l)|;
      var e := i + |Print(l)| + |Print(r)| + 5;
      && p + 1 < e <= |s| && s[i] == '(' && s[p - 1] == ')' && s[p] == sym[0] && s[p + 1] == '(' && s[e - 1] == ')'
      && !Space(s[i + 1]) && !Space(s[p + 2])
      && At(s, i + 1, Print(l)) && Closed(s, p - 1) && At(s, p + 2, Print(r)) && Closed(s, e - 1)
  {
    hide At, Print, Printable;
    var x, block := "(" + Print(l) + ")", "(" + Print(r) + ")";
    assert x + sym + block == x + (sym + block);
    var q := BlockAt(s, i, l, sym + block);
    AtConcat(s, q + 1, sym, block);
    AtFirst(s, q + 1, sym);
    assert block == block + "";
    var z := BlockAt(s, q + 2, r, "");
    PrintStart(s, i + 1, l);
    PrintStart(s, q + 3, r);
  }

  /** The round trip: every printable tree is what the parser makes of its printing. */
  lemma RoundTrip(t: Cmd<string>)
    requires Printable(t)
    ensures ParseCmd(Print(t)).Ok? && Text(Print(t), ParseCmd(Print(t)).value) == t
  {
    hide Print, Printable, ParseLine, Text;
    var s := Print(t);
    assert s[0..|s|] == s;
    RoundTripAt(s, 0, t);
  }

  /** ">>" gives the tree that ">" gives. */
  lemma AppendIsOutput(d: Cmd<string>, f: string)
    requires Printable(d) && GoodWord(f)
    ensures var s := "(" + Print(d) + ")" + (">>" + f);
      ParseCmd(s).Ok? && Text(s, ParseCmd(s).value) == Redir(d, f, true)
  {
    hide Print, Printable, ParseLine, ParsePipe, ParseExec, ParseRedirs, Text, GoodWord;
    var s, n := "(" + Print(d) + ")" + (">>" + f), |Print(d)|;
    assert s[0..|s|] == s;
    var p := BlockAt(s, 0, d, ">>" + f);
    AtConcat(s, p + 1, ">>", f);
    assert s[p + 1] == s[p + 1..p + 3][0] && s[p + 2] == s[p + 1..p + 3][1];
    PrintStart(s, 1, d);
    RoundTripAt(s, 1, d);
    OneAppend(s, p + 1, f);
    var w := Redirection(Span(p + 3, p + 3 + |f|), true);
    BlockWith(s, 0, p, [w], |s|);
    WrapOne(ParseLine(s, 1).value, w);
    SliceAt(s, p + 3, f);
    AppendText(s, ParseLine(s, 1).value, w.file, d, f);
    PipeIsExec(s, 0, Redir(d, f, true), |s|);
    LineIsPipe(s, 0, Redir(d, f, true), |s|);
  }

  lemma AppendText(s: string, c: Cmd<Span>, w: Span, d: Cmd<string>, f: string)
    requires Text(s, c) == d && Slice(s, w) == f
    ensures Text(s, Redir(c, w, true)) == Redir(d, f, true)
  {
  }

  // ----- nulterminate -----

  const NUL: char := '\0'

  /** All words of a tree. */
  ghost function Words(c: Cmd<Span>): set<Span> {
    match c
    case Exec(argv) => set k | 0 <= k < |argv| :: argv[k]
    case Redir(d, f, o) => Words(d) + {f}
    case Pipe(l, r) => Words(l) + Words(r)
    case List(l, r) => Words(l) + Words(r)
    case Back(d) => Words(d)
  }

  /** Position k is behind one of the words. */
  ghost predicate EndsWord(ws: set<Span>, k: nat) {
    exists w :: w in ws && w.eq == k
  }

  lemma {:induction false} WordsProper(s: string, c: Cmd<Span>, w: Span)
    requires WordsOk(s, c) && w in Words(c)
    ensures ProperWord(s, w)
  {
    match c
    case Exec(argv) =>
    case Redir(d, f, o) => if w in Words(d) { WordsProper(s, d, w); }
    case Pipe(l, r) => if w in Words(l) { WordsProper(s, l, w); } else { WordsProper(s, r, w); }
    case List(l, r) => if w in Words(l) { WordsProper(s, l, w); } else { WordsProper(s, r, w); }
    case Back(d) => WordsProper(s, d, w);
  }

  /** after is before with a NUL behind every word of ws. */
  ghost predicate Ended(ws: set<Span>, before: seq<char>, after: seq<char>) {
    && |after| == |before|
    && forall k :: 0 <= k < |before| ==> after[k] == if EndsWord(ws, k) then NUL else before[k]
  }

  lemma EndedUnion(a: set<Span>, b: set<Span>, x: seq<char>, y: seq<char>, z: seq<char>)
    requires Ended(a, x, y) && Ended(b, y, z)
    ensures Ended(a + b, x, z)
  {
    assert forall k: nat :: EndsWord(a + b, k) <==> EndsWord(a, k) || EndsWord(b, k);
  }

  /** nulterminate writes a NUL behind every word of the tree, and nothing else. */
  method Nulterminate(buf: array<char>, c: Cmd<Span>)
    requires forall w :: w in Words(c) ==> w.eq < buf.Length
    modifies buf
    ensures Ended(Words(c), old(buf[..]), buf[..])
    decreases c
  {
    match c {
      case Exec(argv) =>
        var i := 0;
        ghost var done: set<Span> := {};
        while i < |argv|
          invariant 0 <= i <= |argv| && done == set k | 0 <= k < i :: argv[k]
          invariant Ended(done, old(buf[..]), buf[..])
        {
          ghost var b := buf[..];
          assert argv[i] in Words(c);
          buf[argv[i].eq] := NUL;
          assert Ended({argv[i]}, b, buf[..]) by { OneEnd(argv[i], b, buf[..]); }
          EndedUnion(done, {argv[i]}, old(buf[..]), b, buf[..]);
          done := done + {argv[i]};
          i := i + 1;
        }
      case Redir(d, f, o) =>
        Nulterminate(buf, d);
        ghost var b := buf[..];
        buf[f.eq] := NUL;
        OneEnd(f, b, buf[..]);
        EndedUnion(Words(d), {f}, old(buf[..]), b, buf[..]);
      case Pipe(l, r) =>
        Nulterminate(buf, l);
        ghost var b := buf[..];
        Nulterminate(buf, r);
        EndedUnion(Words(l), Words(r), old(buf[..]), b, buf[..]);
      case List(l, r) =>
        Nulterminate(buf, l);
        ghost var b := buf[..];
        Nulterminate(buf, r);
        EndedUnion(Words(l), Words(r), old(buf[..]), b, buf[..]);
      case Back(d) =>
        Nulterminate(buf, d);
    }
  }

  lemma OneEnd(w: Span, before: seq<char>, after: seq<char>)
    requires w.eq < |before| && after == before[w.eq := NUL]
    ensures Ended({w}, before, after)
  {
    assert EndsWord({w}, w.eq);
  }

  /** The C string that starts at i. */
  function CString(b: seq<char>, i: nat): string
    decreases |b| - i
  {
    if i >= |b| || b[i] == NUL then [] else [b[i]] + CString(b, i + 1)
  }

  lemma {:induction false} CStringIs(b: seq<char>, i: nat, e: nat)
    requires i <= e < |b| && b[e] == NUL && forall k :: i <= k < e ==> b[k] != NUL
    ensures CString(b, i) == b[i..e]
    decreases e - i
  {
    if i < e {
      CStringIs(b, i + 1, e);
      assert b[i..e] == [b[i]] + b[i + 1..e];
    }
  }

  /** After nulterminate every word of a parsed line is the C string at its start: no NUL behind
      one word falls into another. */
  lemma WordsTerminated(s: string, b: seq<char>, w: Span)
    requires NUL !in s && ParseCmd(s).Ok? && w in Words(ParseCmd(s).value)
    requires Ended(Words(ParseCmd(s).value), s + [NUL], b)
    ensures CString(b, w.q) == Slice(s, w)
  {
    var c := ParseCmd(s).value;
    WordsProper(s, c, w);
    assert EndsWord(Words(c), w.eq);
    forall k | w.q <= k < w.eq ensures b[k] == s[k] {
      forall v | v in Words(c) ensures v.eq != k { WordsProper(s, c, v); }
    }
    CStringIs(b, w.q, w.eq);
    assert b[w.q..w.eq] == s[w.q..w.eq];
  }
}
