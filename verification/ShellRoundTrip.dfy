/** Printing a command tree and parsing it back gives the same tree. */
module ShellRoundTrip {
  import opened ShellParser

  /** The tree with its words read off the command line. */
  function Text(s: string, c: Cmd<Span>): Cmd<string>
    requires TreeOk(s, c)
  {
    match c
    case Exec(argv) => Exec(Words(s, argv))
    case Redir(c, file, mode, fd) => Redir(Text(s, c), s[file.q..file.eq], mode, fd)
    case Pipe(l, r) => Pipe(Text(s, l), Text(s, r))
    case List(l, r) => List(Text(s, l), Text(s, r))
    case Back(c) => Back(Text(s, c))
  }

  function Words(s: string, argv: seq<Span>): (ws: seq<string>)
    requires WordsOk(s, argv)
    ensures |ws| == |argv|
  {
    if argv == [] then []
    else Words(s, argv[..|argv| - 1]) + [s[argv[|argv| - 1].q..argv[|argv| - 1].eq]]
  }

  function Files(s: string, rs: seq<Redirection<Span>>): (fs: seq<Redirection<string>>)
    requires RedirsOk(s, rs)
    ensures |fs| == |rs|
  {
    if rs == [] then []
    else
      var r := rs[|rs| - 1];
      Files(s, rs[..|rs| - 1]) + [Redirection(s[r.file.q..r.file.eq], r.mode, r.fd)]
  }

  // ---- Printing ----

  ghost predicate GoodWord(w: string) {
    w != "" && forall k :: 0 <= k < |w| ==> IsWordChar(w[k])
  }

  ghost predicate GoodRedirection(r: Redirection<string>) {
    GoodWord(r.file) && ((r.mode == O_RDONLY && r.fd == 0) || (r.mode == O_WRONLY_CREATE && r.fd == 1))
  }

  /** The trees the parser can build: at most 9 words to a command, words without white space or
      symbols, and the two kinds of redirection. */
  ghost predicate Printable(c: Cmd<string>) {
    match c
    case Exec(argv) => |argv| < MAXARGS && forall k :: 0 <= k < |argv| ==> GoodWord(argv[k])
    case Redir(c, file, mode, fd) => Printable(c) && GoodRedirection(Redirection(file, mode, fd))
    case Pipe(l, r) => Printable(l) && Printable(r)
    case List(l, r) => Printable(l) && Printable(r)
    case Back(c) => Printable(c)
  }

  function ShowWords(ws: seq<string>): string {
    if ws == [] then "" else ws[0] + " " + ShowWords(ws[1..])
  }

  function ShowRedir(r: Redirection<string>): string {
    (if r.fd == 0 then "<" else ">") + r.file + " "
  }

  function ShowRedirs(rs: seq<Redirection<string>>): string {
    if rs == [] then "" else ShowRedir(rs[0]) + ShowRedirs(rs[1..])
  }

  /** Grammar level a tree needs: 0 line, 1 line without ';', 2 pipeline, 3 command. */
  function Level(c: Cmd<string>): nat {
    match c
    case Exec(_) => 3
    case Redir(_, _, _, _) => 3
    case Pipe(_, _) => 2
    case Back(_) => 1
    case List(_, _) => 0
  }

  /** Canonical form of `c` where level `l` is allowed, in parentheses where needed. */
  function Show(c: Cmd<string>, l: nat): string
    decreases c, 1
  {
    if Level(c) < l then "(" + Plain(c) + ")" else Plain(c)
  }

  function Plain(c: Cmd<string>): string
    decreases c, 0
  {
    match c
    case Exec(argv) => ShowWords(argv)
    case Redir(c, file, mode, fd) => Show(c, 3) + ShowRedir(Redirection(file, mode, fd))
    case Pipe(l, r) => Show(l, 3) + "|" + Show(r, 2)
    case Back(c) => Show(c, 1) + "&"
    case List(l, r) => Show(l, 1) + ";" + Show(r, 0)
  }

  // ---- Reading at a position ----

  /** `t` stands at position `i` of `s`. */
  ghost predicate At(s: string, i: nat, t: string) {
    i + |t| <= |s| && s[i..i + |t|] == t
  }

  /** Position `j` is the end, or holds a character that may follow a phrase of level `l`. */
  ghost predicate Stop(s: string, j: nat, l: nat) {
    j <= |s| &&
    (j < |s| ==> s[j] == ')' || (s[j] == ';' && l >= 1) || (s[j] == '&' && l >= 1) || (s[j] == '|' && l >= 3))
  }

  ghost predicate NoSpace(s: string, j: nat) {
    j <= |s| && (j < |s| ==> !IsSpace(s[j]))
  }

  lemma AtSplit(s: string, i: nat, a: string, b: string)
    requires At(s, i, a + b)
    ensures At(s, i, a) && At(s, i + |a|, b)
  {
    var t := s[i..i + |a + b|];
    assert s[i..i + |a|] == t[..|a|];
    assert s[i + |a|..i + |a| + |b|] == t[|a|..];
  }

  lemma AtChar(s: string, i: nat, t: string, k: nat)
    requires At(s, i, t) && k < |t|
    ensures s[i + k] == t[k]
  {
  }

  lemma {:induction false} WordEndIs(s: string, i: nat, e: nat)
    requires i <= e <= |s| && (forall k :: i <= k < e ==> IsWordChar(s[k])) && (e < |s| ==> !IsWordChar(s[e]))
    ensures WordEnd(s, i) == e
    decreases e - i
  {
  }

  lemma WordToken(s: string, i: nat, w: string)
    requires GoodWord(w) && At(s, i, w + " ") && NoSpace(s, i + |w| + 1)
    ensures GetToken(s, i) == Lexeme(Word, Span(i, i + |w|), i + |w| + 1)
    ensures s[i..i + |w|] == w && i < |s| && IsWordChar(s[i])
  {
    AtSplit(s, i, w, " ");
    AtChar(s, i + |w|, " ", 0);
    forall k | i <= k < i + |w| ensures IsWordChar(s[k]) {
      AtChar(s, i, w, k - i);
      assert s[k] == w[k - i];
    }
    WordEndIs(s, i, i + |w|);
    assert SkipSpaces(s, i + |w|) == SkipSpaces(s, i + |w| + 1);
  }

  lemma SymbolToken(s: string, i: nat)
    requires i < |s| && IsSymbol(s[i]) && NoSpace(s, i + 1)
    requires s[i] == '>' && i + 1 < |s| ==> s[i + 1] != '>'
    ensures GetToken(s, i) == Lexeme(Symbol(s[i]), Span(i, i + 1), i + 1)
  {
  }

  lemma StartsRedir(s: string, i: nat, rs: seq<Redirection<string>>)
    requires rs != [] && At(s, i, ShowRedirs(rs)) && GoodRedirection(rs[0])
    ensures i < |s| && s[i] == if rs[0].fd == 0 then '<' else '>'
  {
  }

  /** One round of `parseredirs`. */
  lemma RedirStep(s: string, i: nat, acc: seq<Redirection<Span>>, r: Redirection<string>)
    returns (out: Redirection<Span>)
    requires i <= |s| && RedirsOk(s, acc) && GoodRedirection(r)
    requires At(s, i, ShowRedir(r)) && NoSpace(s, i + |ShowRedir(r)|)
    ensures RedirsOk(s, acc + [out]) && Files(s, acc + [out]) == Files(s, acc) + [r]
    ensures ParseRedirs(s, i, acc) == ParseRedirs(s, i + |ShowRedir(r)|, acc + [out])
  {
    hide SkipSpaces, WordEnd, GetToken, Files;
    var op := if r.fd == 0 then "<" else ">";
    assert ShowRedir(r) == op + (r.file + " ");
    AtSplit(s, i, op, r.file + " ");
    AtChar(s, i, op, 0);
    WordToken(s, i + 1, r.file);
    SymbolToken(s, i);
    out := RedirectionOf(Symbol(s[i]), Span(i + 1, i + 1 + |r.file|));
    assert IsWord(s, GetToken(s, i + 1).span);
    FilesSnoc(s, acc, out);
  }

  lemma FilesSnoc(s: string, acc: seq<Redirection<Span>>, r: Redirection<Span>)
    requires RedirsOk(s, acc) && IsWord(s, r.file)
    ensures RedirsOk(s, acc + [r])
    ensures Files(s, acc + [r]) == Files(s, acc) + [Redirection(s[r.file.q..r.file.eq], r.mode, r.fd)]
  {
  }

  /** `parseredirs` reads back a printed list of redirections. */
  lemma {:induction false} RedirsBack(s: string, i: nat, acc: seq<Redirection<Span>>, rs: seq<Redirection<string>>)
    returns (out: seq<Redirection<Span>>)
    requires i <= |s| && RedirsOk(s, acc) && (forall k :: 0 <= k < |rs| ==> GoodRedirection(rs[k]))
    requires At(s, i, ShowRedirs(rs)) && Stop(s, i + |ShowRedirs(rs)|, 3)
    ensures RedirsOk(s, out) && Files(s, out) == Files(s, acc) + rs
    ensures ParseRedirs(s, i, acc) == Ok(out, i + |ShowRedirs(rs)|)
    decreases |rs|
  {
    hide ParseRedirs, Files, ShowRedir;
    if rs == [] {
      NoRedirs(s, i, acc);
      out := acc;
    } else {
      AtSplit(s, i, ShowRedir(rs[0]), ShowRedirs(rs[1..]));
      if rs[1..] != [] {
        StartsRedir(s, i + |ShowRedir(rs[0])|, rs[1..]);
      }
      var r := RedirStep(s, i, acc, rs[0]);
      out := RedirsBack(s, i + |ShowRedir(rs[0])|, acc + [r], rs[1..]);
      assert Files(s, acc) + [rs[0]] + rs[1..] == Files(s, acc) + rs;
    }
  }

  lemma StartsWord(s: string, i: nat, ws: seq<string>, t: string)
    requires ws != [] && GoodWord(ws[0]) && At(s, i, ShowWords(ws) + t)
    ensures i < |s| && IsWordChar(s[i])
  {
  }

  /** One round of the loop of `parseexec`. */
  lemma ArgStep(s: string, i: nat, x: Simple, w: string, rr: Result<seq<Redirection<Span>>>) returns (y: Simple)
    requires i <= |s| && SimpleOk(s, x) && |x.argv| + 1 < MAXARGS && GoodWord(w)
    requires At(s, i, w + " ") && NoSpace(s, i + |w| + 1)
    requires rr == ParseRedirs(s, i + |w| + 1, x.rs) && rr.Ok?
    ensures SimpleOk(s, y) && Words(s, y.argv) == Words(s, x.argv) + [w] && y.rs == rr.value
    ensures |y.argv| == |x.argv| + 1
    ensures ParseArgs(s, i, x) == ParseArgs(s, rr.pos, y)
  {
    hide SkipSpaces, WordEnd, GetToken, ParseRedirs;
    WordToken(s, i, w);
    y := Simple(x.argv + [Span(i, i + |w|)], rr.value);
    assert IsWord(s, GetToken(s, i).span);
    assert y.argv[..|y.argv| - 1] == x.argv;
  }

  lemma FirstArg(s: string, i: nat, x: Simple, ws: seq<string>, rs: seq<Redirection<string>>) returns (y: Simple)
    requires i <= |s| && SimpleOk(s, x) && |x.argv| + |ws| < MAXARGS && |ws| > 1
    requires forall k :: 0 <= k < |ws| ==> GoodWord(ws[k])
    requires At(s, i, ShowWords(ws) + ShowRedirs(rs))
    ensures var j := i + |ws[0]| + 1;
            && j <= |s| && At(s, j, ShowWords(ws[1..]) + ShowRedirs(rs)) && SimpleOk(s, y)
            && Words(s, y.argv) == Words(s, x.argv) + [ws[0]] && y.rs == x.rs && |y.argv| == |x.argv| + 1
            && ParseArgs(s, i, x) == ParseArgs(s, j, y)
  {
    hide ParseArgs, Words, Files, ParseRedirs, ShowRedirs;
    var w, j := ws[0], i + |ws[0]| + 1;
    assert ShowWords(ws) + ShowRedirs(rs) == w + " " + (ShowWords(ws[1..]) + ShowRedirs(rs));
    AtSplit(s, i, w + " ", ShowWords(ws[1..]) + ShowRedirs(rs));
    StartsWord(s, j, ws[1..], ShowRedirs(rs));
    NoRedirs(s, j, x.rs);
    y := ArgStep(s, i, x, w, Ok(x.rs, j));
  }

  /** The loop of `parseexec` reads back words followed by redirections. */
  lemma {:induction false} ArgsBack(s: string, i: nat, x: Simple, ws: seq<string>, rs: seq<Redirection<string>>)
    returns (out: Simple)
    requires i <= |s| && SimpleOk(s, x) && |x.argv| + |ws| < MAXARGS && (ws == [] ==> rs == [])
    requires forall k :: 0 <= k < |ws| ==> GoodWord(ws[k])
    requires forall k :: 0 <= k < |rs| ==> GoodRedirection(rs[k])
    requires At(s, i, ShowWords(ws) + ShowRedirs(rs))
    requires Stop(s, i + |ShowWords(ws)| + |ShowRedirs(rs)|, 3)
    ensures SimpleOk(s, out) && Words(s, out.argv) == Words(s, x.argv) + ws && Files(s, out.rs) == Files(s, x.rs) + rs
    ensures ParseArgs(s, i, x) == Ok(out, i + |ShowWords(ws)| + |ShowRedirs(rs)|)
    decreases |ws|
  {
    hide ParseArgs, Words, Files, ParseRedirs;
    if ws == [] {
      NoArgs(s, i, x);
      out := x;
    } else if ws[1..] == [] {
      assert ShowWords(ws) + ShowRedirs(rs) == ws[0] + " " + ShowRedirs(rs);
      out := LastArg(s, i, x, ws[0], rs);
      assert ws == [ws[0]];
    } else {
      var y := FirstArg(s, i, x, ws, rs);
      hide ShowRedirs;
      out := ArgsBack(s, i + |ws[0]| + 1, y, ws[1..], rs);
      assert Words(s, x.argv) + [ws[0]] + ws[1..] == Words(s, x.argv) + ws;
    }
  }

  lemma LastArg(s: string, i: nat, x: Simple, w: string, rs: seq<Redirection<string>>) returns (out: Simple)
    requires i <= |s| && SimpleOk(s, x) && |x.argv| + 1 < MAXARGS && GoodWord(w)
    requires forall k :: 0 <= k < |rs| ==> GoodRedirection(rs[k])
    requires At(s, i, w + " " + ShowRedirs(rs)) && Stop(s, i + |w| + 1 + |ShowRedirs(rs)|, 3)
    ensures SimpleOk(s, out) && Words(s, out.argv) == Words(s, x.argv) + [w] && Files(s, out.rs) == Files(s, x.rs) + rs
    ensures ParseArgs(s, i, x) == Ok(out, i + |w| + 1 + |ShowRedirs(rs)|)
  {
    hide ParseArgs, Words, Files, ParseRedirs;
    var j := i + |w| + 1;
    AtSplit(s, i, w + " ", ShowRedirs(rs));
    if rs != [] {
      StartsRedir(s, j, rs);
    }
    var rr := RedirsBack(s, j, x.rs, rs);
    out := ArgStep(s, i, x, w, Ok(rr, j + |ShowRedirs(rs)|));
    NoArgs(s, j + |ShowRedirs(rs)|, out);
  }

  lemma NoArgs(s: string, i: nat, x: Simple)
    requires Stop(s, i, 3) && SimpleOk(s, x)
    ensures ParseArgs(s, i, x) == Ok(x, i)
  {
  }

  lemma NoRedirs(s: string, j: nat, rs: seq<Redirection<Span>>)
    requires NoSpace(s, j) && (j < |s| ==> s[j] != '<' && s[j] != '>') && RedirsOk(s, rs)
    ensures ParseRedirs(s, j, rs) == Ok(rs, j)
  {
  }

  // ---- The grammar ----

  lemma {:induction false} TextOfWrap(s: string, c: Cmd<Span>, rs: seq<Redirection<Span>>)
    requires TreeOk(s, c) && RedirsOk(s, rs)
    ensures TreeOk(s, Wrap(c, rs)) && Text(s, Wrap(c, rs)) == Wrap(Text(s, c), Files(s, rs))
  {
    WrapOk(s, c, rs);
    if rs != [] {
      TextOfWrap(s, c, rs[..|rs| - 1]);
      var fs := Files(s, rs);
      assert fs[..|fs| - 1] == Files(s, rs[..|rs| - 1]);
    }
  }

  lemma {:induction false} WrapCons(c: Cmd<string>, r: Redirection<string>, rs: seq<Redirection<string>>)
    ensures Wrap(Redir(c, r.file, r.mode, r.fd), rs) == Wrap(c, [r] + rs)
  {
    var all := [r] + rs;
    if rs == [] {
      assert all[..0] == [];
    } else {
      WrapCons(c, r, rs[..|rs| - 1]);
      assert all[..|all| - 1] == [r] + rs[..|rs| - 1];
    }
  }

  /** Printed trees do not start with white space. */
  lemma {:induction false} ShowStart(c: Cmd<string>, l: nat)
    requires Printable(c)
    ensures Show(c, l) == "" || !IsSpace(Show(c, l)[0])
    decreases c
  {
    match c
    case Exec(argv) =>
    case Redir(c, _, _, _) => ShowStart(c, 3);
    case Pipe(c, _) => ShowStart(c, 3);
    case List(c, _) => ShowStart(c, 1);
    case Back(c) => ShowStart(c, 1);
  }

  lemma StartNoSpace(s: string, i: nat, c: Cmd<string>, l: nat, j: nat)
    requires Printable(c) && At(s, i, Show(c, l)) && j == i + |Show(c, l)| && NoSpace(s, j)
    ensures NoSpace(s, i)
  {
    ShowStart(c, l);
    if Show(c, l) != "" {
      AtChar(s, i, Show(c, l), 0);
    }
  }

  function Rank(c: Cmd<string>, l: nat): nat
    requires l <= 3
  {
    if Level(c) < l then 10 - l else 4 - l
  }

  lemma SimpleParts(s: string, i: nat, ws: seq<string>, rs: seq<Redirection<string>>) returns (x: Simple)
    requires i <= |s| && |ws| < MAXARGS && (forall k :: 0 <= k < |ws| ==> GoodWord(ws[k]))
    requires forall k :: 0 <= k < |rs| ==> GoodRedirection(rs[k])
    requires At(s, i, ShowWords(ws) + ShowRedirs(rs)) && Stop(s, i + |ShowWords(ws)| + |ShowRedirs(rs)|, 3)
    ensures SimpleOk(s, x) && Words(s, x.argv) == ws && Files(s, x.rs) == rs
    ensures ParseExec(s, i) == Ok(Wrap(Exec(x.argv), x.rs), i + |ShowWords(ws)| + |ShowRedirs(rs)|)
  {
    hide ParseArgs, ParseRedirs, ParseExec, Wrap;
    if ws != [] {
      StartsWord(s, i, ws, ShowRedirs(rs));
      NoRedirs(s, i, []);
      x := ArgsBack(s, i, Simple([], []), ws, rs);
      ExecIs(s, i, Ok([], i), Ok(x, i + |ShowWords(ws)| + |ShowRedirs(rs)|));
      assert Words(s, []) + ws == ws && Files(s, []) + rs == rs;
    } else {
      assert ShowWords(ws) + ShowRedirs(rs) == ShowRedirs(rs);
      x := RedirsOnly(s, i, rs);
    }
  }

  lemma RedirsOnly(s: string, i: nat, rs: seq<Redirection<string>>) returns (x: Simple)
    requires i <= |s| && (forall k :: 0 <= k < |rs| ==> GoodRedirection(rs[k]))
    requires At(s, i, ShowRedirs(rs)) && Stop(s, i + |ShowRedirs(rs)|, 3)
    ensures SimpleOk(s, x) && x.argv == [] && Files(s, x.rs) == rs
    ensures ParseExec(s, i) == Ok(Wrap(Exec([]), x.rs), i + |ShowRedirs(rs)|)
  {
    hide ParseArgs, ParseRedirs, ParseExec, Wrap;
    if rs != [] { StartsRedir(s, i, rs); }
    var rr := RedirsBack(s, i, [], rs);
    x := Simple([], rr);
    NoArgs(s, i + |ShowRedirs(rs)|, x);
    ExecIs(s, i, Ok(rr, i + |ShowRedirs(rs)|), Ok(x, i + |ShowRedirs(rs)|));
    assert Files(s, []) + rs == rs;
  }

  /** A simple command: words and redirections. */
  lemma SimpleBack(s: string, i: nat, ws: seq<string>, rs: seq<Redirection<string>>) returns (t: Cmd<Span>)
    requires i <= |s| && |ws| < MAXARGS && (forall k :: 0 <= k < |ws| ==> GoodWord(ws[k]))
    requires forall k :: 0 <= k < |rs| ==> GoodRedirection(rs[k])
    requires At(s, i, ShowWords(ws) + ShowRedirs(rs)) && Stop(s, i + |ShowWords(ws)| + |ShowRedirs(rs)|, 3)
    ensures TreeOk(s, t) && Text(s, t) == Wrap(Exec(ws), rs)
    ensures ParseExec(s, i) == Ok(t, i + |ShowWords(ws)| + |ShowRedirs(rs)|)
  {
    hide ParseArgs, ParseRedirs, ParseExec, Wrap, ShowRedirs, ShowWords, Words, Files;
    var x := SimpleParts(s, i, ws, rs);
    t := Wrap(Exec(x.argv), x.rs);
    TextOfWrap(s, Exec(x.argv), x.rs);
  }

  lemma ExecIs(s: string, i: nat, rr: Result<seq<Redirection<Span>>>, ar: Result<Simple>)
    requires NoSpace(s, i) && (i < |s| ==> s[i] != '(')
    requires rr == ParseRedirs(s, i, []) && rr.Ok?
    requires ar == ParseArgs(s, rr.pos, Simple([], rr.value)) && ar.Ok?
    ensures ParseExec(s, i) == Ok(Wrap(Exec(ar.value.argv), ar.value.rs), ar.pos)
  {
    hide ParseArgs, ParseRedirs;
  }

  lemma PipeIs(s: string, i: nat, l: Cmd<Span>, bar: nat, r: Cmd<Span>, j: nat)
    requires i <= |s| && ParseExec(s, i) == Ok(l, bar) && bar < |s| && s[bar] == '|' && NoSpace(s, bar + 1)
    requires ParsePipe(s, bar + 1) == Ok(r, j)
    ensures ParsePipe(s, i) == Ok(Pipe(l, r), j)
  {
    hide ParseExec;
    SymbolToken(s, bar);
  }

  lemma LineIs(s: string, i: nat, first: Result<Cmd<Span>>, l: Cmd<Span>, semi: nat, r: Cmd<Span>, j: nat)
    requires i <= |s| && first == ParsePipe(s, i) && first.Ok?
    requires semi < |s| && s[semi] == ';' && NoSpace(s, semi + 1) && TreeOk(s, l)
    requires ParseBacks(s, first.pos, first.value) == ParseBacks(s, semi, l)
    requires ParseLine(s, semi + 1) == Ok(r, j)
    ensures ParseLine(s, i) == Ok(List(l, r), j)
  {
    hide ParsePipe;
  }

  lemma BackIs(s: string, i: nat, u: Cmd<Span>)
    requires i < |s| && s[i] == '&' && NoSpace(s, i + 1) && TreeOk(s, u)
    ensures ParseBacks(s, i, u) == ParseBacks(s, i + 1, Back(u))
  {
  }

  lemma BlockIs(s: string, i: nat, c: Cmd<Span>, j: nat, rr: Result<seq<Redirection<Span>>>)
    requires i < |s| && s[i] == '(' && NoSpace(s, i + 1)
    requires ParseLine(s, i + 1) == Ok(c, j) && j < |s| && s[j] == ')' && NoSpace(s, j + 1)
    requires rr == ParseRedirs(s, j + 1, []) && rr.Ok?
    ensures ParseExec(s, i) == Ok(Wrap(c, rr.value), rr.pos)
  {
    hide ParseLine, ParseRedirs;
    SymbolToken(s, i);
    SymbolToken(s, j);
    assert ParseExec(s, i) == ParseBlock(s, i);
  }

  /** A command printed at level 3, followed by more redirections. */
  lemma {:induction false} ExecBack(s: string, i: nat, c: Cmd<string>, more: seq<Redirection<string>>, j: nat)
    returns (t: Cmd<Span>)
    requires i <= |s| && Printable(c) && (forall k :: 0 <= k < |more| ==> GoodRedirection(more[k]))
    requires At(s, i, Show(c, 3) + ShowRedirs(more)) && j == i + |Show(c, 3)| + |ShowRedirs(more)| && Stop(s, j, 3)
    ensures TreeOk(s, t) && Text(s, t) == Wrap(c, more) && ParseExec(s, i) == Ok(t, j)
    decreases c, Rank(c, 3)
  {
    hide ParseExec, ParseLine, ParseRedirs;
    if c.Exec? {
      t := SimpleBack(s, i, c.argv, more);
    } else if c.Redir? {
      var r := Redirection(c.file, c.mode, c.fd);
      var all := [r] + more;
      assert ShowRedirs(all) == ShowRedir(r) + ShowRedirs(more) by { assert all[1..] == more; }
      assert Show(c, 3) + ShowRedirs(more) == Show(c.cmd, 3) + ShowRedirs(all);
      t := ExecBack(s, i, c.cmd, all, j);
      WrapCons(c.cmd, r, more);
    } else {
      t := ParenBack(s, i, c, more, j);
    }
  }

  lemma {:induction false} ParenBack(s: string, i: nat, c: Cmd<string>, more: seq<Redirection<string>>, j: nat)
    returns (t: Cmd<Span>)
    requires i <= |s| && Printable(c) && Level(c) < 3 && (forall k :: 0 <= k < |more| ==> GoodRedirection(more[k]))
    requires At(s, i, Show(c, 3) + ShowRedirs(more)) && j == i + |Show(c, 3)| + |ShowRedirs(more)| && Stop(s, j, 3)
    ensures TreeOk(s, t) && Text(s, t) == Wrap(c, more) && ParseExec(s, i) == Ok(t, j)
    decreases c, 6
  {
    hide ParseExec, ParseLine, ParseRedirs, Show, ShowRedirs, Files, Text;
    var close := ParenText(s, i, c, more, j);
    StartNoSpace(s, i + 1, c, 0, close);
    var line := LineBack(s, i + 1, c, close);
    var rr := RedirsBack(s, close + 1, [], more);
    FilesOfNone(s, more);
    BlockIs(s, i, line, close, Ok(rr, j));
    t := Wrap(line, rr);
    TextOfWrap(s, line, rr);
  }

  lemma FilesOfNone(s: string, more: seq<Redirection<string>>)
    ensures Files(s, []) + more == more
  {
  }

  lemma ParenText(s: string, i: nat, c: Cmd<string>, more: seq<Redirection<string>>, j: nat) returns (close: nat)
    requires i <= |s| && Level(c) < 3 && (forall k :: 0 <= k < |more| ==> GoodRedirection(more[k]))
    requires At(s, i, Show(c, 3) + ShowRedirs(more)) && j == i + |Show(c, 3)| + |ShowRedirs(more)| && Stop(s, j, 3)
    ensures i < |s| && s[i] == '(' && At(s, i + 1, Show(c, 0)) && close == i + 1 + |Show(c, 0)|
    ensures close < |s| && s[close] == ')' && At(s, close + 1, ShowRedirs(more)) && j == close + 1 + |ShowRedirs(more)|
    ensures NoSpace(s, close + 1)
  {
    var body, tail := Show(c, 0), ShowRedirs(more);
    hide ShowRedirs;
    close := i + 1 + |body|;
    assert Show(c, 3) == "(" + body + ")";
    AtSplit(s, i, "(" + body + ")", tail);
    AtSplit(s, i, "(" + body, ")");
    AtSplit(s, i, "(", body);
    AtChar(s, i, "(", 0);
    AtChar(s, close, ")", 0);
    AfterParen(s, close + 1, more, j);
  }

  lemma AfterParen(s: string, i: nat, more: seq<Redirection<string>>, j: nat)
    requires (forall k :: 0 <= k < |more| ==> GoodRedirection(more[k])) && At(s, i, ShowRedirs(more))
    requires j == i + |ShowRedirs(more)| && Stop(s, j, 3)
    ensures NoSpace(s, i)
  {
    hide ShowRedirs;
    if more != [] { StartsRedir(s, i, more); } else { NoText(more); }
  }

  lemma NoText(more: seq<Redirection<string>>)
    requires more == []
    ensures ShowRedirs(more) == ""
  {
  }

  lemma TwoParts(s: string, i: nat, left: string, c: char, right: string)
    requires At(s, i, left + [c] + right)
    ensures At(s, i, left) && i + |left| < |s| && s[i + |left|] == c && At(s, i + |left| + 1, right)
  {
    AtSplit(s, i, left + [c], right);
    AtSplit(s, i, left, [c]);
    AtChar(s, i + |left|, [c], 0);
  }

  /** A pipeline printed at level 2. */
  lemma {:induction false} PipeBack(s: string, i: nat, c: Cmd<string>, j: nat) returns (t: Cmd<Span>)
    requires i <= |s| && Printable(c) && At(s, i, Show(c, 2)) && j == i + |Show(c, 2)| && Stop(s, j, 2)
    ensures TreeOk(s, t) && Text(s, t) == c && ParsePipe(s, i) == Ok(t, j)
    decreases c, Rank(c, 2)
  {
    hide ParseExec, ParsePipe;
    if c.Pipe? {
      var bar := i + |Show(c.left, 3)|;
      TwoParts(s, i, Show(c.left, 3), '|', Show(c.right, 2));
      assert Show(c.left, 3) + ShowRedirs([]) == Show(c.left, 3);
      hide Show;
      StartNoSpace(s, bar + 1, c.right, 2, j);
      var l := ExecBack(s, i, c.left, [], bar);
      var r := PipeBack(s, bar + 1, c.right, j);
      PipeIs(s, i, l, bar, r, j);
      t := Pipe(l, r);
    } else {
      assert Show(c, 3) + ShowRedirs([]) == Show(c, 2);
      t := ExecBack(s, i, c, [], j);
      NoPipe(s, i, t, j);
    }
  }

  lemma NoPipe(s: string, i: nat, t: Cmd<Span>, j: nat)
    requires i <= |s| && ParseExec(s, i) == Ok(t, j) && Stop(s, j, 2)
    ensures ParsePipe(s, i) == Ok(t, j)
  {
    hide ParseExec;
  }

  lemma NoSemi(s: string, i: nat, first: Result<Cmd<Span>>, t: Cmd<Span>, j: nat)
    requires i <= |s| && first == ParsePipe(s, i) && first.Ok? && TreeOk(s, t) && Stop(s, j, 0)
    requires ParseBacks(s, first.pos, first.value) == ParseBacks(s, j, t)
    ensures ParseLine(s, i) == Ok(t, j)
  {
    hide ParsePipe;
  }

  /** A line head printed at level 1: what `parsepipe` and the '&' loop make of it. */
  lemma {:induction false} HeadBack(s: string, i: nat, c: Cmd<string>, j: nat) returns (t: Cmd<Span>)
    requires i <= |s| && Printable(c) && At(s, i, Show(c, 1)) && j == i + |Show(c, 1)| && Stop(s, j, 1)
    ensures TreeOk(s, t) && Text(s, t) == c && ParsePipe(s, i).Ok?
    ensures ParseBacks(s, ParsePipe(s, i).pos, ParsePipe(s, i).value) == ParseBacks(s, j, t)
    decreases c, Rank(c, 1)
  {
    hide ParsePipe, ParseBacks;
    if c.Back? {
      AtSplit(s, i, Show(c.cmd, 1), "&");
      AtChar(s, j - 1, "&", 0);
      var u := HeadBack(s, i, c.cmd, j - 1);
      BackIs(s, j - 1, u);
      t := Back(u);
    } else {
      assert Show(c, 1) == Show(c, 2);
      t := PipeBack(s, i, c, j);
    }
  }

  /** A line printed at level 0. */
  lemma {:induction false} LineBack(s: string, i: nat, c: Cmd<string>, j: nat) returns (t: Cmd<Span>)
    requires i <= |s| && Printable(c) && At(s, i, Show(c, 0)) && j == i + |Show(c, 0)| && Stop(s, j, 0)
    ensures TreeOk(s, t) && Text(s, t) == c && ParseLine(s, i) == Ok(t, j)
    decreases c, Rank(c, 0)
  {
    hide ParsePipe, ParseLine, ParseBacks;
    if c.List? {
      var semi := i + |Show(c.left, 1)|;
      TwoParts(s, i, Show(c.left, 1), ';', Show(c.right, 0));
      hide Show;
      StartNoSpace(s, semi + 1, c.right, 0, j);
      var l := HeadBack(s, i, c.left, semi);
      var r := LineBack(s, semi + 1, c.right, j);
      LineIs(s, i, ParsePipe(s, i), l, semi, r, j);
      t := List(l, r);
    } else {
      assert Show(c, 0) == Show(c, 1);
      t := HeadBack(s, i, c, j);
      NoSemi(s, i, ParsePipe(s, i), t, j);
    }
  }

  /** Round trip: parsing the canonical form of a printable tree gives that tree. */
  lemma RoundTrip(c: Cmd<string>)
    requires Printable(c)
    ensures var r := ParseCmd(Show(c, 0)); r.Ok? && Text(Show(c, 0), r.value) == c
  {
    var s := Show(c, 0);
    assert s[0..|s|] == s;
    var t := LineBack(s, 0, c, |s|);
  }
}
