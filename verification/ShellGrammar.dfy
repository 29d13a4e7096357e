/** The shell's grammar as a relation between token lists and trees, and the parser against it: for every line. */
module ShellGrammar {
  import opened ShellParser
  import opened ShellRoundTrip

  // ---- Tokens ----

  datatype Tok = Sym(c: char) | App | Wd(w: string)

  function Spelling(t: Tok): string {
    match t
    case Sym(c) => [c]
    case App => ">>"
    case Wd(w) => w
  }

  ghost predicate GoodTok(t: Tok) {
    (t.Sym? ==> IsSymbol(t.c)) && (t.Wd? ==> GoodWord(t.w))
  }

  ghost predicate Blank(s: string, i: nat, j: nat)
    requires j <= |s|
  {
    forall k :: i <= k < j ==> IsSpace(s[k])
  }

  /** Token `t` ends at position `e`: the next character does not go on with it. */
  predicate Complete(s: string, t: Tok, e: nat) {
    e < |s| ==> !(t.Wd? && IsWordChar(s[e])) && !(t == Sym('>') && s[e] == '>')
  }

  /** Token `t` stands at position `j`, after nothing but white space. */
  ghost predicate StandsAt(s: string, i: nat, t: Tok, j: nat) {
    && i <= j && j + |Spelling(t)| <= |s| && Blank(s, i, j)
    && GoodTok(t) && s[j..j + |Spelling(t)|] == Spelling(t) && Complete(s, t, j + |Spelling(t)|)
  }

  /** From position `i` on, `s` is these tokens, as long as they can be, with white space anywhere between them. */
  ghost predicate Spells(s: string, i: nat, ts: seq<Tok>)
    decreases |ts|
  {
    i <= |s| &&
    if ts == [] then Blank(s, i, |s|)
    else exists j: nat :: StandsAt(s, i, ts[0], j) && Spells(s, j + |Spelling(ts[0])|, ts[1..])
  }

  function TokOf(s: string, t: Lexeme): Tok
    requires t.tok != End && (t.tok == Word ==> t.span.q <= t.span.eq <= |s|)
  {
    match t.tok
    case Symbol(c) => Sym(c)
    case Append => App
    case Word => Wd(s[t.span.q..t.span.eq])
  }

  /** The tokens that repeated calls of `gettoken` yield. */
  function Toks(s: string, i: nat): seq<Tok>
    requires i <= |s|
    decreases |s| - i
  {
    var t := GetToken(s, i);
    if t.tok == End then [] else [TokOf(s, t)] + Toks(s, t.next)
  }

  lemma {:induction false} SkipIs(s: string, i: nat, j: nat)
    requires i <= j <= |s| && Blank(s, i, j) && (j < |s| ==> !IsSpace(s[j]))
    ensures SkipSpaces(s, i) == j
    decreases j - i
  {
    if i < j {
      SkipIs(s, i + 1, j);
    }
  }

  lemma {:induction false} SkipBlank(s: string, i: nat)
    requires i <= |s|
    ensures Blank(s, i, SkipSpaces(s, i)) && SkipSpaces(s, SkipSpaces(s, i)) == SkipSpaces(s, i)
    decreases |s| - i
  {
    if i < |s| && IsSpace(s[i]) {
      SkipBlank(s, i + 1);
    }
  }

  lemma ToksAfterSkip(s: string, i: nat)
    requires i <= |s|
    ensures Toks(s, SkipSpaces(s, i)) == Toks(s, i)
  {
    SkipBlank(s, i);
    assert GetToken(s, SkipSpaces(s, i)) == GetToken(s, i);
  }

  lemma WordFound(s: string, i: nat, w: string, j: nat)
    requires i <= |s| && StandsAt(s, i, Wd(w), j)
    ensures GetToken(s, i) == Lexeme(Word, Span(j, j + |w|), SkipSpaces(s, j + |w|))
  {
    var e := j + |w|;
    forall k | j <= k < e ensures IsWordChar(s[k]) {
      assert s[k] == s[j..e][k - j];
    }
    hide SkipSpaces, WordEnd;
    SkipIs(s, i, j);
    WordEndIs(s, j, e);
  }

  lemma SymFound(s: string, i: nat, c: char, j: nat)
    requires i <= |s| && StandsAt(s, i, Sym(c), j)
    ensures GetToken(s, i) == Lexeme(Symbol(c), Span(j, j + 1), SkipSpaces(s, j + 1))
  {
    hide SkipSpaces, WordEnd;
    assert s[j] == s[j..j + 1][0];
    SkipIs(s, i, j);
  }

  lemma AppFound(s: string, i: nat, j: nat)
    requires i <= |s| && StandsAt(s, i, App, j)
    ensures GetToken(s, i) == Lexeme(Append, Span(j, j + 2), SkipSpaces(s, j + 2))
  {
    hide SkipSpaces, WordEnd;
    assert s[j] == s[j..j + 2][0] && s[j + 1] == s[j..j + 2][1];
    SkipIs(s, i, j);
  }

  /** What stands at a position is what `gettoken` finds there. */
  lemma TokenFound(s: string, i: nat, t: Tok, j: nat)
    requires i <= |s| && StandsAt(s, i, t, j)
    ensures var x, e := GetToken(s, i), j + |Spelling(t)|;
            x.tok != End && TokOf(s, x) == t && x.next == SkipSpaces(s, e) && i < e
  {
    hide SkipSpaces, GetToken;
    match t
    case Sym(c) => SymFound(s, i, c, j);
    case App => AppFound(s, i, j);
    case Wd(w) => WordFound(s, i, w, j);
  }

  lemma TokenStands(s: string, i: nat)
    requires i <= |s| && GetToken(s, i).tok != End
    ensures var x, j := GetToken(s, i), SkipSpaces(s, i);
            var e := j + |Spelling(TokOf(s, x))|;
            StandsAt(s, i, TokOf(s, x), j) && i < e <= |s| && x.next == SkipSpaces(s, e)
  {
    hide SkipSpaces, WordEnd;
    SkipBlank(s, i);
    var j := SkipSpaces(s, i);
    hide Blank;
    if IsSymbol(s[j]) {
      assert s[j..j + 1] == [s[j]];
      assert j + 1 < |s| ==> s[j..j + 2] == [s[j], s[j + 1]];
    }
  }

  lemma NoTokens(s: string, i: nat)
    requires i <= |s|
    ensures GetToken(s, i).tok == End <==> Blank(s, i, |s|)
  {
    SkipBlank(s, i);
    if Blank(s, i, |s|) {
      SkipIs(s, i, |s|);
    }
  }

  lemma {:induction false} LexUnique(s: string, i: nat, ts: seq<Tok>)
    requires i <= |s| && Spells(s, i, ts)
    ensures ts == Toks(s, i)
    decreases |ts|
  {
    hide GetToken, StandsAt, SkipSpaces, TokOf;
    if ts == [] {
      NoTokens(s, i);
    } else {
      var j: nat :| StandsAt(s, i, ts[0], j) && Spells(s, j + |Spelling(ts[0])|, ts[1..]);
      var e := j + |Spelling(ts[0])|;
      TokenFound(s, i, ts[0], j);
      LexUnique(s, e, ts[1..]);
      ToksAfterSkip(s, e);
    }
  }

  lemma {:induction false} LexSpells(s: string, i: nat)
    requires i <= |s|
    ensures Spells(s, i, Toks(s, i))
    decreases |s| - i
  {
    hide GetToken, StandsAt, SkipSpaces, TokOf;
    NoTokens(s, i);
    if Toks(s, i) != [] {
      TokenStands(s, i);
      var e := SkipSpaces(s, i) + |Spelling(Toks(s, i)[0])|;
      ToksAfterSkip(s, e);
      LexSpells(s, e);
    }
  }

  /** Every line is one list of tokens and no other. */
  lemma LexExact(s: string, i: nat, ts: seq<Tok>)
    requires i <= |s|
    ensures Spells(s, i, ts) <==> ts == Toks(s, i)
  {
    LexSpells(s, i);
    hide Spells, Toks;
    if Spells(s, i, ts) {
      LexUnique(s, i, ts);
    }
  }

  // ---- The grammar ----

  /** `<`, `>` or `>>`, and the file it names. */
  ghost predicate IsRedirection(t: Tok, file: string, r: Redirection<string>) {
    || (t == Sym('<') && r == Redirection(file, O_RDONLY, 0))
    || ((t == Sym('>') || t == App) && r == Redirection(file, O_WRONLY_CREATE, 1))
  }

  /** The words `ws` and the redirections `rs`, each in order, mixed in any way. */
  ghost predicate Mixed(ts: seq<Tok>, ws: seq<string>, rs: seq<Redirection<string>>)
    decreases |ts|
  {
    if ts == [] then ws == [] && rs == []
    else if ts[0].Wd? then ws != [] && ws[0] == ts[0].w && Mixed(ts[1..], ws[1..], rs)
    else |ts| >= 2 && ts[1].Wd? && rs != [] && IsRedirection(ts[0], ts[1].w, rs[0]) && Mixed(ts[2..], ws, rs[1..])
  }

  /** Words and redirections, at most 9 words. */
  ghost predicate IsSimple(ts: seq<Tok>, c: Cmd<string>) {
    exists ws, rs :: Mixed(ts, ws, rs) && |ws| < MAXARGS && c == Wrap(Exec(ws), rs)
  }

  /** A line in parentheses, the second at `k`, and redirections. */
  ghost predicate BlockAt(ts: seq<Tok>, k: nat, d: Cmd<string>, rs: seq<Redirection<string>>)
    decreases |ts|, 0
  {
    && 0 < k < |ts| && ts[0] == Sym('(') && ts[k] == Sym(')')
    && IsLine(ts[1..k], d) && Mixed(ts[k + 1..], [], rs)
  }

  ghost predicate IsCommand(ts: seq<Tok>, c: Cmd<string>)
    decreases |ts|, 1
  {
    IsSimple(ts, c) || exists k: nat, d, rs :: BlockAt(ts, k, d, rs) && c == Wrap(d, rs)
  }

  ghost predicate BarAt(ts: seq<Tok>, k: nat, c: Cmd<string>)
    decreases |ts|, 2
  {
    c.Pipe? && k < |ts| && ts[k] == Sym('|') && IsCommand(ts[..k], c.left) && IsPipeline(ts[k + 1..], c.right)
  }

  ghost predicate IsPipeline(ts: seq<Tok>, c: Cmd<string>)
    decreases |ts|, 3
  {
    IsCommand(ts, c) || exists k: nat :: BarAt(ts, k, c)
  }

  /** A pipeline, and any number of `&`. */
  ghost predicate IsHead(ts: seq<Tok>, c: Cmd<string>)
    decreases |ts|, 4
  {
    || IsPipeline(ts, c)
    || (c.Back? && ts != [] && ts[|ts| - 1] == Sym('&') && IsHead(ts[..|ts| - 1], c.cmd))
  }

  ghost predicate SemiAt(ts: seq<Tok>, k: nat, c: Cmd<string>)
    decreases |ts|, 5
  {
    c.List? && k < |ts| && ts[k] == Sym(';') && IsHead(ts[..k], c.left) && IsLine(ts[k + 1..], c.right)
  }

  ghost predicate IsLine(ts: seq<Tok>, c: Cmd<string>)
    decreases |ts|, 6
  {
    IsHead(ts, c) || exists k: nat :: SemiAt(ts, k, c)
  }

  // ---- Tokens as the parser sees them ----

  function FirstChar(t: Tok): char
    requires t.Wd? ==> t.w != ""
  {
    Spelling(t)[0]
  }

  /** `peek` looks at the first character of the next token. */
  lemma PeekTok(s: string, i: nat, toks: set<char>)
    requires i <= |s| && forall c :: c in toks ==> IsSymbol(c)
    ensures Peek(s, i, toks) <==>
              Toks(s, i) != [] && !Toks(s, i)[0].Wd? && FirstChar(Toks(s, i)[0]) in toks
  {
  }

  /** `gettoken` takes it. */
  lemma NextTok(s: string, i: nat)
    requires i <= |s|
    ensures var t := GetToken(s, i);
            if Toks(s, i) == [] then t.tok == End && Toks(s, t.next) == []
            else t.tok != End && Toks(s, i) == [TokOf(s, t)] + Toks(s, t.next)
  {
    SkipBlank(s, i);
  }
}
