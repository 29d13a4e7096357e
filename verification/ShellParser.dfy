/** The shell's parser (sh.c): tokens, grammar and command trees.

    `s` is the command line without its terminating NUL, so `es` is |s|.  Positions in `s` stand for
    the character pointers of the source; `Panic` stands for the calls of `panic`. */
module ShellParser {

  const MAXARGS := 10
  const O_RDONLY := 0x000
  const O_WRONLY_CREATE := 0x001 + 0x200

  /** A token's text: the pointers q and eq. */
  datatype Span = Span(q: nat, eq: nat)

  /** `struct cmd`, with words of type `W`. */
  datatype Cmd<W> =
    | Exec(argv: seq<W>)
    | Redir(cmd: Cmd<W>, file: W, mode: nat, fd: nat)
    | Pipe(left: Cmd<W>, right: Cmd<W>)
    | List(left: Cmd<W>, right: Cmd<W>)
    | Back(cmd: Cmd<W>)

  datatype Result<T> = Ok(value: T, pos: nat) | Panic(msg: string)

  // ---- Characters and tokens ----

  predicate IsSpace(c: char) {
    c == ' ' || c == '\t' || c == '\r' || c == '\n' || c == '\U{000B}'
  }

  predicate IsSymbol(c: char) {
    c == '<' || c == '|' || c == '>' || c == '&' || c == ';' || c == '(' || c == ')'
  }

  predicate IsWordChar(c: char) {
    !IsSpace(c) && !IsSymbol(c)
  }

  function SkipSpaces(s: string, i: nat): (j: nat)
    requires i <= |s|
    ensures i <= j <= |s| && (j < |s| ==> !IsSpace(s[j]))
    ensures i < |s| && !IsSpace(s[i]) ==> j == i
    decreases |s| - i
  {
    if i < |s| && IsSpace(s[i]) then SkipSpaces(s, i + 1) else i
  }

  function WordEnd(s: string, i: nat): (j: nat)
    requires i <= |s|
    ensures i <= j <= |s| && (j < |s| ==> !IsWordChar(s[j]))
    ensures forall k :: i <= k < j ==> IsWordChar(s[k])
    decreases |s| - i
  {
    if i < |s| && IsWordChar(s[i]) then WordEnd(s, i + 1) else i
  }

  datatype Token = End | Symbol(c: char) | Append | Word

  datatype Lexeme = Lexeme(tok: Token, span: Span, next: nat)

  /** `gettoken`. */
  function GetToken(s: string, i: nat): (t: Lexeme)
    requires i <= |s|
    ensures i <= t.next <= |s| && (t.tok != End ==> i < t.next)
    ensures t.tok == Word ==> IsWord(s, t.span)
  {
    var j := SkipSpaces(s, i);
    if j == |s| then Lexeme(End, Span(j, j), j)
    else if s[j] == '>' && j + 1 < |s| && s[j + 1] == '>' then
      Lexeme(Append, Span(j, j + 2), SkipSpaces(s, j + 2))
    else if IsSymbol(s[j]) then Lexeme(Symbol(s[j]), Span(j, j + 1), SkipSpaces(s, j + 1))
    else
      var e := WordEnd(s, j);
      Lexeme(Word, Span(j, e), SkipSpaces(s, e))
  }

  /** A maximal run of word characters. */
  ghost predicate IsWord(s: string, w: Span) {
    && w.q < w.eq <= |s|
    && (forall k :: w.q <= k < w.eq ==> IsWordChar(s[k]))
    && (w.eq < |s| ==> !IsWordChar(s[w.eq]))
  }

  /** `peek`: the cursor moves to the next character; is it one of `toks`? */
  predicate Peek(s: string, i: nat, toks: set<char>)
    requires i <= |s|
  {
    var j := SkipSpaces(s, i);
    j < |s| && s[j] in toks
  }

  // ---- Grammar ----

  /** One redirection: file name, mode and descriptor. */
  datatype Redirection<W> = Redirection(file: W, mode: nat, fd: nat)

  function Wrap<W>(cmd: Cmd<W>, rs: seq<Redirection<W>>): Cmd<W> {
    if rs == [] then cmd
    else
      var r := rs[|rs| - 1];
      Redir(Wrap(cmd, rs[..|rs| - 1]), r.file, r.mode, r.fd)
  }

  function RedirectionOf(tok: Token, file: Span): Redirection<Span> {
    if tok == Symbol('<') then Redirection(file, O_RDONLY, 0) else Redirection(file, O_WRONLY_CREATE, 1)
  }

  ghost predicate RedirsOk(s: string, rs: seq<Redirection<Span>>) {
    forall k :: 0 <= k < |rs| ==> IsWord(s, rs[k].file)
  }

  ghost predicate WordsOk(s: string, argv: seq<Span>) {
    forall k :: 0 <= k < |argv| ==> IsWord(s, argv[k])
  }

  /** Every word recorded in the tree is a maximal word of `s`. */
  ghost predicate TreeOk(s: string, c: Cmd<Span>) {
    match c
    case Exec(argv) => WordsOk(s, argv)
    case Redir(c, file, _, _) => TreeOk(s, c) && IsWord(s, file)
    case Pipe(l, r) => TreeOk(s, l) && TreeOk(s, r)
    case List(l, r) => TreeOk(s, l) && TreeOk(s, r)
    case Back(c) => TreeOk(s, c)
  }

  lemma {:induction false} WrapOk(s: string, c: Cmd<Span>, rs: seq<Redirection<Span>>)
    requires TreeOk(s, c) && RedirsOk(s, rs)
    ensures TreeOk(s, Wrap(c, rs))
  {
    if rs != [] {
      WrapOk(s, c, rs[..|rs| - 1]);
    }
  }

  /** The loop of `parseredirs`; `rs` are the redirections already read. */
  function ParseRedirs(s: string, i: nat, rs: seq<Redirection<Span>>): (r: Result<seq<Redirection<Span>>>)
    requires i <= |s| && RedirsOk(s, rs)
    ensures r.Ok? ==> i <= r.pos <= |s| && RedirsOk(s, r.value)
    decreases |s| - i
  {
    if !Peek(s, i, {'<', '>'}) then Ok(rs, SkipSpaces(s, i))
    else
      var op := GetToken(s, i);
      var file := GetToken(s, op.next);
      if file.tok != Word then Panic("missing file for redirection")
      else ParseRedirs(s, file.next, rs + [RedirectionOf(op.tok, file.span)])
  }

  datatype Simple = Simple(argv: seq<Span>, rs: seq<Redirection<Span>>)

  ghost predicate SimpleOk(s: string, x: Simple) {
    WordsOk(s, x.argv) && RedirsOk(s, x.rs) && |x.argv| < MAXARGS
  }

  /** The loop of `parseexec`; `x` is what was already read. */
  function ParseArgs(s: string, i: nat, x: Simple): (r: Result<Simple>)
    requires i <= |s| && SimpleOk(s, x)
    ensures r.Ok? ==> i <= r.pos <= |s| && SimpleOk(s, r.value)
    decreases |s| - i
  {
    if Peek(s, i, {'|', ')', '&', ';'}) then Ok(x, SkipSpaces(s, i))
    else
      var t := GetToken(s, i);
      if t.tok == End then Ok(x, t.next)
      else if t.tok != Word then Panic("syntax")
      else if |x.argv| + 1 >= MAXARGS then Panic("too many args")
      else
        var rr := ParseRedirs(s, t.next, x.rs);
        if rr.Panic? then Panic(rr.msg)
        else ParseArgs(s, rr.pos, Simple(x.argv + [t.span], rr.value))
  }

  function ParseExec(s: string, i: nat): (r: Result<Cmd<Span>>)
    requires i <= |s|
    ensures r.Ok? ==> i <= r.pos <= |s| && TreeOk(s, r.value)
    decreases |s| - i, 1
  {
    if Peek(s, i, {'('}) then ParseBlock(s, i)
    else
      var rr := ParseRedirs(s, i, []);
      if rr.Panic? then Panic(rr.msg)
      else
        var ar := ParseArgs(s, rr.pos, Simple([], rr.value));
        if ar.Panic? then Panic(ar.msg)
        else
          WrapOk(s, Exec(ar.value.argv), ar.value.rs);
          Ok(Wrap(Exec(ar.value.argv), ar.value.rs), ar.pos)
  }

  function ParseBlock(s: string, i: nat): (r: Result<Cmd<Span>>)
    requires i <= |s| && Peek(s, i, {'('})
    ensures r.Ok? ==> i <= r.pos <= |s| && TreeOk(s, r.value)
    decreases |s| - i, 0
  {
    var open := GetToken(s, i);
    var line := ParseLine(s, open.next);
    if line.Panic? then line
    else if !Peek(s, line.pos, {')'}) then Panic("syntax - missing )")
    else
      var close := GetToken(s, line.pos);
      var rr := ParseRedirs(s, close.next, []);
      if rr.Panic? then Panic(rr.msg)
      else
        WrapOk(s, line.value, rr.value);
        Ok(Wrap(line.value, rr.value), rr.pos)
  }

  function ParsePipe(s: string, i: nat): (r: Result<Cmd<Span>>)
    requires i <= |s|
    ensures r.Ok? ==> i <= r.pos <= |s| && TreeOk(s, r.value)
    decreases |s| - i, 2
  {
    var left := ParseExec(s, i);
    if left.Panic? || !Peek(s, left.pos, {'|'}) then AtNext(s, left)
    else
      var bar := GetToken(s, left.pos);
      var right := ParsePipe(s, bar.next);
      if right.Panic? then right else Ok(Pipe(left.value, right.value), right.pos)
  }

  /** The cursor after a failed `peek`. */
  function AtNext(s: string, r: Result<Cmd<Span>>): (r': Result<Cmd<Span>>)
    requires r.Ok? ==> r.pos <= |s|
    ensures r'.Ok? <==> r.Ok?
    ensures r.Ok? ==> r'.value == r.value && r.pos <= r'.pos <= |s|
  {
    if r.Ok? then Ok(r.value, SkipSpaces(s, r.pos)) else r
  }

  /** The loop of `parseline` over '&'. */
  function ParseBacks(s: string, i: nat, c: Cmd<Span>): (r: (Cmd<Span>, nat))
    requires i <= |s| && TreeOk(s, c)
    ensures i <= r.1 <= |s| && TreeOk(s, r.0)
    decreases |s| - i
  {
    if Peek(s, i, {'&'}) then ParseBacks(s, GetToken(s, i).next, Back(c)) else (c, SkipSpaces(s, i))
  }

  function ParseLine(s: string, i: nat): (r: Result<Cmd<Span>>)
    requires i <= |s|
    ensures r.Ok? ==> i <= r.pos <= |s| && TreeOk(s, r.value)
    decreases |s| - i, 3
  {
    var first := ParsePipe(s, i);
    if first.Panic? then first
    else
      var (c, j) := ParseBacks(s, first.pos, first.value);
      if !Peek(s, j, {';'}) then Ok(c, SkipSpaces(s, j))
      else
        var semi := GetToken(s, j);
        var rest := ParseLine(s, semi.next);
        if rest.Panic? then rest else Ok(List(c, rest.value), rest.pos)
  }

  /** `parsecmd` up to `nulterminate`. */
  function ParseCmd(s: string): (r: Result<Cmd<Span>>)
    ensures r.Ok? ==> r.pos == |s| && TreeOk(s, r.value)
  {
    var line := ParseLine(s, 0);
    if line.Panic? then line
    else if SkipSpaces(s, line.pos) != |s| then Panic("syntax")
    else Ok(line.value, |s|)
  }
}
