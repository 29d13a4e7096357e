/** The parser accepts exactly the lines of the grammar, with the tree the grammar gives. */
module ShellParses {
  import opened ShellParser
  import opened ShellRoundTrip
  import opened ShellGrammar

  // ---- Redirections ----

  predicate IsArrow(t: Tok) {
    t == Sym('<') || t == Sym('>') || t == App
  }

  /** One round of the loop of `parseredirs`, in terms of tokens. */
  lemma RedirsEnd(s: string, i: nat, rs: seq<Redirection<Span>>)
    requires i <= |s| && RedirsOk(s, rs)
    requires var ts := Toks(s, i); ts == [] || !IsArrow(ts[0])
    ensures ParseRedirs(s, i, rs) == Ok(rs, SkipSpaces(s, i)) && Toks(s, SkipSpaces(s, i)) == Toks(s, i)
  {
    PeekTok(s, i, {'<', '>'});
    ToksAfterSkip(s, i);
    hide Toks, Peek;
  }

  lemma RedirsFail(s: string, i: nat, rs: seq<Redirection<Span>>)
    requires i <= |s| && RedirsOk(s, rs)
    requires var ts := Toks(s, i); ts != [] && IsArrow(ts[0]) && (|ts| < 2 || !ts[1].Wd?)
    ensures ParseRedirs(s, i, rs).Panic?
  {
    PeekTok(s, i, {'<', '>'});
    NextTok(s, i);
    NextTok(s, GetToken(s, i).next);
    hide Toks, Peek, GetToken;
  }

  lemma RedirsNext(s: string, i: nat, rs: seq<Redirection<Span>>)
    returns (j: nat, x: Redirection<Span>, r: Redirection<string>)
    requires i <= |s| && RedirsOk(s, rs)
    requires var ts := Toks(s, i); |ts| >= 2 && IsArrow(ts[0]) && ts[1].Wd?
    ensures i < j <= |s| && RedirsOk(s, rs + [x]) && Files(s, rs + [x]) == Files(s, rs) + [r]
    ensures ParseRedirs(s, i, rs) == ParseRedirs(s, j, rs + [x])
    ensures Toks(s, j) == Toks(s, i)[2..] && IsRedirection(Toks(s, i)[0], Toks(s, i)[1].w, r)
  {
    hide Toks, Peek, GetToken, Files, ParseRedirs, RedirsOk;
    var op, file := ArrowToks(s, i);
    hide IsArrow;
    j, x := file.next, RedirectionOf(op.tok, file.span);
    r := Redirection(s[file.span.q..file.span.eq], x.mode, x.fd);
    FilesSnoc(s, rs, x);
    RedirsUnfold(s, i, rs);
  }

  lemma ArrowToks(s: string, i: nat) returns (op: Lexeme, file: Lexeme)
    requires i <= |s|
    requires var ts := Toks(s, i); |ts| >= 2 && IsArrow(ts[0]) && ts[1].Wd?
    ensures op == GetToken(s, i) && file == GetToken(s, op.next) && op.tok != End && file.tok == Word
    ensures TokOf(s, op) == Toks(s, i)[0] && TokOf(s, file) == Toks(s, i)[1] && Toks(s, file.next) == Toks(s, i)[2..]
    ensures Peek(s, i, {'<', '>'}) && i < file.next <= |s|
  {
    hide Toks, Peek, GetToken;
    PeekTok(s, i, {'<', '>'});
    NextTok(s, i);
    op := GetToken(s, i);
    NextTok(s, op.next);
    file := GetToken(s, op.next);
  }

  lemma RedirsUnfold(s: string, i: nat, rs: seq<Redirection<Span>>)
    requires i <= |s| && RedirsOk(s, rs) && Peek(s, i, {'<', '>'})
    requires GetToken(s, GetToken(s, i).next).tok == Word
    ensures var op := GetToken(s, i);
            var file := GetToken(s, op.next);
            var x := RedirectionOf(op.tok, file.span);
            op.tok != End && RedirsOk(s, rs + [x]) && ParseRedirs(s, i, rs) == ParseRedirs(s, file.next, rs + [x])
  {
    hide WordEnd;
  }

  lemma {:induction false} RedirsSound(s: string, i: nat, rs: seq<Redirection<Span>>)
    returns (pre: seq<Tok>, more: seq<Redirection<string>>)
    requires i <= |s| && RedirsOk(s, rs) && ParseRedirs(s, i, rs).Ok?
    ensures var r := ParseRedirs(s, i, rs);
            && Toks(s, i) == pre + Toks(s, r.pos) && Mixed(pre, [], more) && Files(s, r.value) == Files(s, rs) + more
            && (Toks(s, r.pos) == [] || !IsArrow(Toks(s, r.pos)[0]))
    decreases |s| - i
  {
    hide ParseRedirs, Toks, Files;
    var ts := Toks(s, i);
    if ts == [] || !IsArrow(ts[0]) {
      RedirsEnd(s, i, rs);
      pre, more := [], [];
      assert Files(s, rs) + [] == Files(s, rs);
    } else if |ts| < 2 || !ts[1].Wd? {
      RedirsFail(s, i, rs);
    } else {
      var j, x, r := RedirsNext(s, i, rs);
      var p, m := RedirsSound(s, j, rs + [x]);
      pre, more := ts[..2] + p, [r] + m;
      assert pre[2..] == p && more[1..] == m;
      assert Files(s, rs) + [r] + m == Files(s, rs) + more;
    }
  }

  lemma {:induction false} RedirsComplete(s: string, i: nat, rs: seq<Redirection<Span>>,
                                          pre: seq<Tok>, more: seq<Redirection<string>>, rest: seq<Tok>)
    requires i <= |s| && RedirsOk(s, rs) && Toks(s, i) == pre + rest && Mixed(pre, [], more)
    requires rest == [] || !IsArrow(rest[0])
    ensures var r := ParseRedirs(s, i, rs);
            r.Ok? && Toks(s, r.pos) == rest && Files(s, r.value) == Files(s, rs) + more
    decreases |pre|
  {
    hide ParseRedirs, Toks, Files;
    if pre == [] {
      assert pre + rest == rest;
      RedirsEnd(s, i, rs);
      assert Files(s, rs) + [] == Files(s, rs);
    } else {
      var j, x, r := RedirsNext(s, i, rs);
      assert (pre + rest)[2..] == pre[2..] + rest;
      RedirsComplete(s, j, rs + [x], pre[2..], more[1..], rest);
      assert Files(s, rs) + [r] + more[1..] == Files(s, rs) + more;
    }
  }

  /** `ts` starts with the redirections `more`, and `rest`, which does not start with one, is left. */
  ghost predicate RedirsRead(ts: seq<Tok>, more: seq<Redirection<string>>, rest: seq<Tok>) {
    && (exists pre :: ts == pre + rest && Mixed(pre, [], more))
    && (rest == [] || !IsArrow(rest[0]))
  }

  /** `parseredirs` reads all redirections that come next, in order, and panics if one has no file name. */
  lemma RedirsExact(s: string, i: nat, rs: seq<Redirection<Span>>, more: seq<Redirection<string>>, rest: seq<Tok>)
    requires i <= |s| && RedirsOk(s, rs)
    ensures var r := ParseRedirs(s, i, rs);
            RedirsRead(Toks(s, i), more, rest) <==>
            r.Ok? && Toks(s, r.pos) == rest && Files(s, r.value) == Files(s, rs) + more
  {
    hide ParseRedirs, Toks, Files, Mixed, IsArrow;
    var r := ParseRedirs(s, i, rs);
    if RedirsRead(Toks(s, i), more, rest) {
      var pre :| Toks(s, i) == pre + rest && Mixed(pre, [], more);
      RedirsComplete(s, i, rs, pre, more, rest);
    }
    if r.Ok? && Toks(s, r.pos) == rest && Files(s, r.value) == Files(s, rs) + more {
      var pre, m := RedirsSound(s, i, rs);
      assert (Files(s, rs) + more)[|rs|..] == more && (Files(s, rs) + m)[|rs|..] == m;
    }
  }

  // ---- Simple commands ----

  lemma MixedWord(t: Tok, ts: seq<Tok>, ws: seq<string>, rs: seq<Redirection<string>>)
    requires t.Wd? && Mixed(ts, ws, rs)
    ensures Mixed([t] + ts, [t.w] + ws, rs)
  {
    assert ([t] + ts)[1..] == ts && ([t.w] + ws)[1..] == ws;
  }

  lemma MixedArrow(t: Tok, u: Tok, r: Redirection<string>, ts: seq<Tok>, ws: seq<string>, rs: seq<Redirection<string>>)
    requires u.Wd? && IsRedirection(t, u.w, r) && Mixed(ts, ws, rs)
    ensures Mixed([t, u] + ts, ws, [r] + rs)
  {
    assert ([t, u] + ts)[2..] == ts && ([r] + rs)[1..] == rs;
  }

  /** What comes first. */
  lemma MixedHead(ts: seq<Tok>, ws: seq<string>, rs: seq<Redirection<string>>)
    requires ts != [] && Mixed(ts, ws, rs)
    ensures ts[0].Wd? ==> ws != [] && ws[0] == ts[0].w && Mixed(ts[1..], ws[1..], rs)
    ensures !ts[0].Wd? ==>
              |ts| >= 2 && ts[1].Wd? && rs != [] && IsRedirection(ts[0], ts[1].w, rs[0]) && Mixed(ts[2..], ws, rs[1..])
  {
  }

  lemma ConsConcat<T>(a: seq<T>, b: seq<T>)
    requires a != []
    ensures [a[0]] + (a[1..] + b) == a + b
  {
  }

  lemma Cons2Concat<T>(a: seq<T>, b: seq<T>)
    requires |a| >= 2
    ensures [a[0], a[1]] + (a[2..] + b) == a + b
  {
  }

  lemma Assoc<T>(a: seq<T>, b: seq<T>, c: seq<T>)
    ensures a + b + c == a + (b + c)
  {
  }

  lemma {:induction false} MixedConcat(a: seq<Tok>, wa: seq<string>, ra: seq<Redirection<string>>,
                                       b: seq<Tok>, wb: seq<string>, rb: seq<Redirection<string>>)
    requires Mixed(a, wa, ra) && Mixed(b, wb, rb)
    ensures Mixed(a + b, wa + wb, ra + rb)
    decreases |a|
  {
    if a == [] {
      assert a + b == b && wa + wb == wb && ra + rb == rb;
    } else {
      MixedHead(a, wa, ra);
      hide Mixed, IsRedirection;
      if a[0].Wd? {
        MixedConcat(a[1..], wa[1..], ra, b, wb, rb);
        MixedWord(a[0], a[1..] + b, wa[1..] + wb, ra + rb);
        ConsConcat(a, b);
        ConsConcat(wa, wb);
      } else {
        MixedConcat(a[2..], wa, ra[1..], b, wb, rb);
        MixedArrow(a[0], a[1], ra[0], a[2..] + b, wa + wb, ra[1..] + rb);
        Cons2Concat(a, b);
        ConsConcat(ra, rb);
      }
    }
  }

  /** The redirections that come first. */
  lemma {:induction false} FirstRedirs(ts: seq<Tok>, ws: seq<string>, rs: seq<Redirection<string>>)
    returns (n: nat, m: nat)
    requires Mixed(ts, ws, rs)
    ensures n <= |ts| && m <= |rs| && Mixed(ts[..n], [], rs[..m]) && Mixed(ts[n..], ws, rs[m..])
    ensures n < |ts| ==> ts[n].Wd?
    decreases |ts|
  {
    if ts == [] || ts[0].Wd? {
      n, m := 0, 0;
      assert ts[0..] == ts && rs[0..] == rs;
    } else {
      n, m := FirstRedirs(ts[2..], ws, rs[1..]);
      assert ts[..n + 2][2..] == ts[2..][..n] && ts[n + 2..] == ts[2..][n..];
      assert rs[..m + 1][1..] == rs[1..][..m] && rs[m + 1..] == rs[1..][m..];
      n, m := n + 2, m + 1;
    }
  }

  predicate IsStop(t: Tok) {
    t == Sym('|') || t == Sym(')') || t == Sym('&') || t == Sym(';')
  }

  lemma ArgsEnd(s: string, i: nat, x: Simple)
    requires i <= |s| && SimpleOk(s, x)
    requires var ts := Toks(s, i); ts == [] || IsStop(ts[0])
    ensures var r := ParseArgs(s, i, x); r.Ok? && r.value == x && Toks(s, r.pos) == Toks(s, i)
  {
    PeekTok(s, i, {'|', ')', '&', ';'});
    ToksAfterSkip(s, i);
    NextTok(s, i);
    hide Toks, Peek, GetToken;
  }

  lemma ArgsFail(s: string, i: nat, x: Simple)
    requires i <= |s| && SimpleOk(s, x)
    requires var ts := Toks(s, i);
             ts != [] && !IsStop(ts[0]) && (ts[0].Wd? ==> |x.argv| + 1 >= MAXARGS)
    ensures ParseArgs(s, i, x).Panic?
  {
    PeekTok(s, i, {'|', ')', '&', ';'});
    NextTok(s, i);
    hide Toks, Peek, GetToken;
  }

  lemma ArgsNext(s: string, i: nat, x: Simple) returns (j: nat, w: Span)
    requires i <= |s| && SimpleOk(s, x) && |x.argv| + 1 < MAXARGS
    requires Toks(s, i) != [] && Toks(s, i)[0].Wd?
    ensures i < j <= |s| && Toks(s, j) == Toks(s, i)[1..]
    ensures WordsOk(s, x.argv + [w]) && Words(s, x.argv + [w]) == Words(s, x.argv) + [Toks(s, i)[0].w]
    ensures var rr := ParseRedirs(s, j, x.rs);
            ParseArgs(s, i, x) == if rr.Panic? then Panic(rr.msg)
                                  else ParseArgs(s, rr.pos, Simple(x.argv + [w], rr.value))
  {
    PeekTok(s, i, {'|', ')', '&', ';'});
    NextTok(s, i);
    var t := GetToken(s, i);
    j, w := t.next, t.span;
    hide Toks, Peek, GetToken, ParseRedirs;
    var argv := x.argv + [w];
    assert argv[..|argv| - 1] == x.argv;
  }

  lemma {:induction false} ArgsSound(s: string, i: nat, x: Simple)
    returns (pre: seq<Tok>, ws: seq<string>, more: seq<Redirection<string>>)
    requires i <= |s| && SimpleOk(s, x) && ParseArgs(s, i, x).Ok?
    ensures var r := ParseArgs(s, i, x);
            && Toks(s, i) == pre + Toks(s, r.pos) && Mixed(pre, ws, more)
            && Words(s, r.value.argv) == Words(s, x.argv) + ws && Files(s, r.value.rs) == Files(s, x.rs) + more
    decreases |s| - i
  {
    hide ParseArgs, ParseRedirs, Toks, Files, Words;
    var ts := Toks(s, i);
    if ts == [] || IsStop(ts[0]) {
      ArgsEnd(s, i, x);
      pre, ws, more := [], [], [];
      assert Words(s, x.argv) + [] == Words(s, x.argv) && Files(s, x.rs) + [] == Files(s, x.rs);
    } else if ts[0].Wd? && |x.argv| + 1 < MAXARGS {
      hide Mixed, IsStop;
      var j, w := ArgsNext(s, i, x);
      var rr := ParseRedirs(s, j, x.rs);
      var p, m := RedirsSound(s, j, x.rs);
      var p', ws', m' := ArgsSound(s, rr.pos, Simple(x.argv + [w], rr.value));
      MixedConcat(p, [], m, p', ws', m');
      assert [] + ws' == ws';
      MixedWord(ts[0], p + p', ws', m + m');
      pre, ws, more := [ts[0]] + (p + p'), [ts[0].w] + ws', m + m';
      var end := Toks(s, ParseArgs(s, i, x).pos);
      Assoc(p, p', end);
      Assoc([ts[0]], p + p', end);
      assert ts == [ts[0]] + ts[1..];
      Assoc(Words(s, x.argv), [ts[0].w], ws');
      Assoc(Files(s, x.rs), m, m');
    } else {
      ArgsFail(s, i, x);
    }
  }

  lemma NotArrow(ts: seq<Tok>, n: nat, rest: seq<Tok>)
    requires n <= |ts| && (n < |ts| ==> ts[n].Wd?) && (rest == [] || IsStop(rest[0]))
    ensures var all := ts[n..] + rest; all == [] || !IsArrow(all[0])
  {
  }

  lemma TailSplit<T>(a: seq<T>, n: nat, b: seq<T>)
    requires n + 1 <= |a|
    ensures (a + b)[1..] == a[1..][..n] + (a[n + 1..] + b) && a[1..][n..] == a[n + 1..]
  {
  }

  /** One word and the `n` tokens of redirections after it. */
  lemma ArgsRound(s: string, i: nat, x: Simple, pre: seq<Tok>, n: nat, more: seq<Redirection<string>>, rest: seq<Tok>)
    returns (j: nat, y: Simple)
    requires i <= |s| && SimpleOk(s, x) && Toks(s, i) == pre + rest && |x.argv| + 1 < MAXARGS
    requires n < |pre| && pre[0].Wd? && Mixed(pre[1..][..n], [], more)
    requires (n + 1 < |pre| ==> pre[n + 1].Wd?) && (rest == [] || IsStop(rest[0]))
    ensures j <= |s| && SimpleOk(s, y) && Toks(s, j) == pre[n + 1..] + rest && ParseArgs(s, i, x) == ParseArgs(s, j, y)
    ensures |y.argv| == |x.argv| + 1 && Words(s, y.argv) == Words(s, x.argv) + [pre[0].w]
    ensures Files(s, y.rs) == Files(s, x.rs) + more
  {
    hide ParseArgs, ParseRedirs, Toks, Files, Words, Mixed;
    var k, w := ArgsNext(s, i, x);
    TailSplit(pre, n, rest);
    NotArrow(pre, n + 1, rest);
    hide IsStop, IsArrow;
    RedirsComplete(s, k, x.rs, pre[1..][..n], more, pre[n + 1..] + rest);
    var rr := ParseRedirs(s, k, x.rs);
    j, y := rr.pos, Simple(x.argv + [w], rr.value);
  }

  lemma {:induction false} ArgsComplete(s: string, i: nat, x: Simple, pre: seq<Tok>, ws: seq<string>,
                                        more: seq<Redirection<string>>, rest: seq<Tok>)
    requires i <= |s| && SimpleOk(s, x) && Toks(s, i) == pre + rest && Mixed(pre, ws, more)
    requires |x.argv| + |ws| < MAXARGS && (pre != [] ==> pre[0].Wd?) && (rest == [] || IsStop(rest[0]))
    ensures var r := ParseArgs(s, i, x);
            && r.Ok? && Toks(s, r.pos) == rest
            && Words(s, r.value.argv) == Words(s, x.argv) + ws && Files(s, r.value.rs) == Files(s, x.rs) + more
    decreases |pre|
  {
    hide ParseArgs, ParseRedirs, Toks, Files, Words;
    if pre == [] {
      assert pre + rest == rest;
      ArgsEnd(s, i, x);
      assert Words(s, x.argv) + [] == Words(s, x.argv) && Files(s, x.rs) + [] == Files(s, x.rs);
    } else {
      MixedHead(pre, ws, more);
      hide Mixed, IsStop;
      var n, m := FirstRedirs(pre[1..], ws[1..], more);
      TailSplit(pre, n, rest);
      var j, y := ArgsRound(s, i, x, pre, n, more[..m], rest);
      ArgsComplete(s, j, y, pre[n + 1..], ws[1..], more[m..], rest);
      Assoc(Words(s, x.argv), [ws[0]], ws[1..]);
      Assoc(Files(s, x.rs), more[..m], more[m..]);
      assert [ws[0]] + ws[1..] == ws && more[..m] + more[m..] == more;
    }
  }

  // ---- What is parsed is in the grammar ----

  lemma NoWords(s: string, ws: seq<string>)
    ensures Words(s, []) + ws == ws
  {
  }

  lemma SimpleSound(s: string, i: nat) returns (pre: seq<Tok>)
    requires i <= |s| && !Peek(s, i, {'('}) && ParseExec(s, i).Ok?
    ensures var r := ParseExec(s, i); Toks(s, i) == pre + Toks(s, r.pos) && IsSimple(pre, Text(s, r.value))
  {
    hide ParseRedirs, ParseArgs, Toks, Mixed, Wrap, Peek, Text, Words, Files, IsArrow;
    var rr := ParseRedirs(s, i, []);
    var p, m := RedirsSound(s, i, []);
    var x := Simple([], rr.value);
    var ar := ParseArgs(s, rr.pos, x);
    var p', ws, m' := ArgsSound(s, rr.pos, x);
    MixedConcat(p, [], m, p', ws, m');
    pre := p + p';
    Assoc(p, p', Toks(s, ar.pos));
    TextOfWrap(s, Exec(ar.value.argv), ar.value.rs);
    ExecText(s, ar.value.argv);
    FilesOfNone(s, m);
    NoWords(s, ws);
    assert [] + ws == ws;
  }

  lemma ExecText(s: string, argv: seq<Span>)
    requires WordsOk(s, argv)
    ensures Text(s, Exec(argv)) == Exec(Words(s, argv))
  {
  }

  lemma {:induction false} ExecSound(s: string, i: nat) returns (pre: seq<Tok>)
    requires i <= |s| && ParseExec(s, i).Ok?
    ensures var r := ParseExec(s, i); Toks(s, i) == pre + Toks(s, r.pos) && IsCommand(pre, Text(s, r.value))
    decreases |s| - i, 1
  {
    if Peek(s, i, {'('}) {
      hide Toks, ParseLine, IsSimple, BlockAt, Text, Peek;
      pre := BlockSound(s, i);
    } else {
      hide Toks, ParseExec, IsSimple, BlockAt, Text, Peek;
      pre := SimpleSound(s, i);
    }
  }

  lemma {:induction false} BlockSound(s: string, i: nat) returns (pre: seq<Tok>)
    requires i <= |s| && Peek(s, i, {'('}) && ParseBlock(s, i).Ok?
    ensures var r := ParseBlock(s, i); Toks(s, i) == pre + Toks(s, r.pos) && IsCommand(pre, Text(s, r.value))
    decreases |s| - i, 0
  {
    PeekTok(s, i, {'('});
    NextTok(s, i);
    var open := GetToken(s, i);
    var line := ParseLine(s, open.next);
    PeekTok(s, line.pos, {')'});
    NextTok(s, line.pos);
    hide Toks, ParseLine, ParseRedirs, Peek, GetToken, Mixed, IsLine, Wrap, Text, IsSimple, Files;
    var mid := LineSound(s, open.next);
    var close := GetToken(s, line.pos);
    var p, m := RedirsSound(s, close.next, []);
    var rr := ParseRedirs(s, close.next, []);
    pre := [Sym('(')] + mid + [Sym(')')] + p;
    BlockParts(mid, p, Toks(s, rr.pos));
    TextOfWrap(s, line.value, rr.value);
    FilesOfNone(s, m);
    assert BlockAt(pre, |mid| + 1, Text(s, line.value), m);
  }

  lemma BlockParts(mid: seq<Tok>, p: seq<Tok>, rest: seq<Tok>)
    ensures var pre, k := [Sym('(')] + mid + [Sym(')')] + p, |mid| + 1;
            && pre[0] == Sym('(') && k < |pre| && pre[k] == Sym(')') && pre[1..k] == mid && pre[k + 1..] == p
            && pre + rest == [Sym('(')] + (mid + ([Sym(')')] + (p + rest)))
  {
  }

  lemma {:induction false} PipeSound(s: string, i: nat) returns (pre: seq<Tok>)
    requires i <= |s| && ParsePipe(s, i).Ok?
    ensures var r := ParsePipe(s, i); Toks(s, i) == pre + Toks(s, r.pos) && IsPipeline(pre, Text(s, r.value))
    decreases |s| - i, 2
  {
    var left := ParseExec(s, i);
    hide Toks, ParseExec, Peek, GetToken, IsCommand;
    var p := ExecSound(s, i);
    PeekTok(s, left.pos, {'|'});
    if !Peek(s, left.pos, {'|'}) {
      pre := p;
      ToksAfterSkip(s, left.pos);
    } else {
      NextTok(s, left.pos);
      var bar := GetToken(s, left.pos);
      var q := PipeSound(s, bar.next);
      pre := p + [Sym('|')] + q;
      MiddleParts(p, Sym('|'), q, Toks(s, ParsePipe(s, bar.next).pos));
      assert BarAt(pre, |p|, Text(s, ParsePipe(s, i).value));
    }
  }

  lemma MiddleParts(p: seq<Tok>, t: Tok, q: seq<Tok>, rest: seq<Tok>)
    ensures var pre := p + [t] + q;
            && pre[|p|] == t && pre[..|p|] == p && pre[|p| + 1..] == q && pre + rest == p + ([t] + (q + rest))
  {
  }

  /** The loop over '&', after a pipeline `p` that is a line's head. */
  lemma {:induction false} BacksSound(s: string, i: nat, c: Cmd<Span>, p: seq<Tok>) returns (amps: seq<Tok>)
    requires i <= |s| && TreeOk(s, c) && IsHead(p, Text(s, c))
    ensures var r := ParseBacks(s, i, c); Toks(s, i) == amps + Toks(s, r.1) && IsHead(p + amps, Text(s, r.0))
    decreases |s| - i
  {
    hide Toks, Peek, GetToken, IsHead;
    PeekTok(s, i, {'&'});
    if Peek(s, i, {'&'}) {
      NextTok(s, i);
      MoreHead(p, Text(s, c));
      var a := BacksSound(s, GetToken(s, i).next, Back(c), p + [Sym('&')]);
      amps := [Sym('&')] + a;
      Assoc(p, [Sym('&')], a);
      Assoc([Sym('&')], a, Toks(s, ParseBacks(s, i, c).1));
    } else {
      amps := [];
      ToksAfterSkip(s, i);
      assert p + amps == p;
    }
  }

  lemma MoreHead(p: seq<Tok>, c: Cmd<string>)
    requires IsHead(p, c)
    ensures IsHead(p + [Sym('&')], Back(c))
  {
    assert (p + [Sym('&')])[..|p|] == p;
  }

  lemma {:induction false} HeadSound(s: string, i: nat) returns (pre: seq<Tok>)
    requires i <= |s| && ParsePipe(s, i).Ok?
    ensures var r := ParseBacks(s, ParsePipe(s, i).pos, ParsePipe(s, i).value);
            Toks(s, i) == pre + Toks(s, r.1) && IsHead(pre, Text(s, r.0))
    decreases |s| - i, 3
  {
    hide Toks, ParsePipe, ParseBacks, IsPipeline;
    var first := ParsePipe(s, i);
    var p := PipeSound(s, i);
    var amps := BacksSound(s, first.pos, first.value, p);
    pre := p + amps;
    Assoc(p, amps, Toks(s, ParseBacks(s, first.pos, first.value).1));
  }

  lemma {:induction false} LineSound(s: string, i: nat) returns (pre: seq<Tok>)
    requires i <= |s| && ParseLine(s, i).Ok?
    ensures var r := ParseLine(s, i); Toks(s, i) == pre + Toks(s, r.pos) && IsLine(pre, Text(s, r.value))
    decreases |s| - i, 4
  {
    hide Toks, ParsePipe, ParseBacks, Peek, GetToken, IsHead;
    var head := HeadSound(s, i);
    var (c, j) := ParseBacks(s, ParsePipe(s, i).pos, ParsePipe(s, i).value);
    PeekTok(s, j, {';'});
    if !Peek(s, j, {';'}) {
      pre := head;
      ToksAfterSkip(s, j);
    } else {
      NextTok(s, j);
      var semi := GetToken(s, j);
      var q := LineSound(s, semi.next);
      pre := head + [Sym(';')] + q;
      MiddleParts(head, Sym(';'), q, Toks(s, ParseLine(s, semi.next).pos));
      assert SemiAt(pre, |head|, Text(s, ParseLine(s, i).value));
    }
  }

  // ---- What is in the grammar is parsed ----

  /** What may follow a phrase: 0 a line, 2 a pipeline or a line's head, 3 a command. */
  ghost predicate Follow(rest: seq<Tok>, l: nat) {
    || rest == [] || rest[0] == Sym(')') || (l >= 2 && (rest[0] == Sym(';') || rest[0] == Sym('&')))
    || (l >= 3 && rest[0] == Sym('|'))
  }

  lemma TakeTok(s: string, i: nat, t: Tok, rest: seq<Tok>)
    requires i <= |s| && Toks(s, i) == [t] + rest
    ensures Toks(s, GetToken(s, i).next) == rest
  {
    NextTok(s, i);
    hide Toks, GetToken;
    assert Toks(s, i)[1..] == rest;
  }

  lemma NotOpen(s: string, i: nat, pre: seq<Tok>, ws: seq<string>, rs: seq<Redirection<string>>, rest: seq<Tok>)
    requires i <= |s| && Toks(s, i) == pre + rest && Mixed(pre, ws, rs) && Follow(rest, 3)
    ensures !Peek(s, i, {'('})
  {
    PeekTok(s, i, {'('});
    hide Toks, Peek;
    if pre != [] {
      MixedHead(pre, ws, rs);
    }
  }

  lemma SimpleComplete(s: string, i: nat, pre: seq<Tok>, ws: seq<string>, rs: seq<Redirection<string>>, rest: seq<Tok>)
    requires i <= |s| && Toks(s, i) == pre + rest && Mixed(pre, ws, rs) && |ws| < MAXARGS && Follow(rest, 3)
    ensures var r := ParseExec(s, i); r.Ok? && Toks(s, r.pos) == rest && Text(s, r.value) == Wrap(Exec(ws), rs)
  {
    hide ParseRedirs, ParseArgs, Toks, Mixed, Wrap, Peek, Text, Files, Words;
    NotOpen(s, i, pre, ws, rs, rest);
    var n, m := FirstRedirs(pre, ws, rs);
    NotArrow(pre, n, rest);
    Assoc(pre[..n], pre[n..], rest);
    assert pre[..n] + pre[n..] == pre && rs[..m] + rs[m..] == rs;
    RedirsComplete(s, i, [], pre[..n], rs[..m], pre[n..] + rest);
    var rr := ParseRedirs(s, i, []);
    var x := Simple([], rr.value);
    ArgsComplete(s, rr.pos, x, pre[n..], ws, rs[m..], rest);
    var ar := ParseArgs(s, rr.pos, x);
    FilesOfNone(s, rs[..m]);
    NoWords(s, ws);
    TextOfWrap(s, Exec(ar.value.argv), ar.value.rs);
    ExecText(s, ar.value.argv);
  }

  lemma {:induction false} ExecComplete(s: string, i: nat, pre: seq<Tok>, c: Cmd<string>, rest: seq<Tok>)
    requires i <= |s| && Toks(s, i) == pre + rest && IsCommand(pre, c) && Follow(rest, 3)
    ensures var r := ParseExec(s, i); r.Ok? && Toks(s, r.pos) == rest && Text(s, r.value) == c
    decreases |pre|, 1
  {
    hide ParseExec, Toks, BlockAt, Mixed, Wrap, Text, Follow;
    if IsSimple(pre, c) {
      var ws, rs :| Mixed(pre, ws, rs) && |ws| < MAXARGS && c == Wrap(Exec(ws), rs);
      SimpleComplete(s, i, pre, ws, rs, rest);
    } else {
      var k: nat, d, rs :| BlockAt(pre, k, d, rs) && c == Wrap(d, rs);
      BlockComplete(s, i, pre, k, d, rs, rest);
    }
  }

  lemma BlockSplit(pre: seq<Tok>, k: nat, rest: seq<Tok>)
    requires 0 < k < |pre|
    ensures pre + rest == [pre[0]] + (pre[1..k] + ([pre[k]] + (pre[k + 1..] + rest)))
  {
  }

  lemma {:induction false} BlockComplete(s: string, i: nat, pre: seq<Tok>, k: nat, d: Cmd<string>,
                                         rs: seq<Redirection<string>>, rest: seq<Tok>)
    requires i <= |s| && Toks(s, i) == pre + rest && BlockAt(pre, k, d, rs) && Follow(rest, 3)
    ensures var r := ParseExec(s, i); r.Ok? && Toks(s, r.pos) == rest && Text(s, r.value) == Wrap(d, rs)
    decreases |pre|, 0
  {
    hide Toks, ParseLine, ParseRedirs, Peek, GetToken, Mixed, IsLine, Wrap, Text, Files;
    BlockSplit(pre, k, rest);
    PeekTok(s, i, {'('});
    var after := [Sym(')')] + (pre[k + 1..] + rest);
    TakeTok(s, i, Sym('('), pre[1..k] + after);
    var open := GetToken(s, i);
    LineComplete(s, open.next, pre[1..k], d, after);
    var line := ParseLine(s, open.next);
    PeekTok(s, line.pos, {')'});
    TakeTok(s, line.pos, Sym(')'), pre[k + 1..] + rest);
    var close := GetToken(s, line.pos);
    RedirsComplete(s, close.next, [], pre[k + 1..], rs, rest);
    FilesOfNone(s, rs);
    TextOfWrap(s, line.value, ParseRedirs(s, close.next, []).value);
  }

  lemma MiddleSplit(pre: seq<Tok>, k: nat, rest: seq<Tok>)
    requires k < |pre|
    ensures pre + rest == pre[..k] + ([pre[k]] + (pre[k + 1..] + rest))
  {
  }

  lemma {:induction false} PipeComplete(s: string, i: nat, pre: seq<Tok>, c: Cmd<string>, rest: seq<Tok>)
    requires i <= |s| && Toks(s, i) == pre + rest && IsPipeline(pre, c) && Follow(rest, 2)
    ensures var r := ParsePipe(s, i); r.Ok? && Toks(s, r.pos) == rest && Text(s, r.value) == c
    decreases |pre|, 2
  {
    hide ParseExec, Toks, Peek, GetToken, IsCommand;
    var left := ParseExec(s, i);
    if IsCommand(pre, c) {
      ExecComplete(s, i, pre, c, rest);
      PeekTok(s, left.pos, {'|'});
      ToksAfterSkip(s, left.pos);
    } else {
      var k: nat :| BarAt(pre, k, c);
      MiddleSplit(pre, k, rest);
      ExecComplete(s, i, pre[..k], c.left, [Sym('|')] + (pre[k + 1..] + rest));
      PeekTok(s, left.pos, {'|'});
      TakeTok(s, left.pos, Sym('|'), pre[k + 1..] + rest);
      PipeComplete(s, GetToken(s, left.pos).next, pre[k + 1..], c.right, rest);
    }
  }

  lemma BacksNext(s: string, i: nat, c: Cmd<Span>, rest: seq<Tok>) returns (j: nat)
    requires i <= |s| && TreeOk(s, c) && Toks(s, i) == [Sym('&')] + rest
    ensures j <= |s| && Toks(s, j) == rest && ParseBacks(s, i, c) == ParseBacks(s, j, Back(c))
  {
    hide Toks, Peek, GetToken;
    PeekTok(s, i, {'&'});
    TakeTok(s, i, Sym('&'), rest);
    j := GetToken(s, i).next;
  }

  lemma BacksEnd(s: string, i: nat, c: Cmd<Span>)
    requires i <= |s| && TreeOk(s, c) && (Toks(s, i) == [] || Toks(s, i)[0] != Sym('&'))
    ensures var r := ParseBacks(s, i, c); r.0 == c && Toks(s, r.1) == Toks(s, i)
  {
    hide Toks, Peek;
    PeekTok(s, i, {'&'});
    ToksAfterSkip(s, i);
  }

  /** A line's head: what `parsepipe` and the '&' loop make of it. */
  lemma {:induction false} HeadComplete(s: string, i: nat, pre: seq<Tok>, c: Cmd<string>, rest: seq<Tok>)
    returns (t: Cmd<Span>, j: nat)
    requires i <= |s| && Toks(s, i) == pre + rest && IsHead(pre, c) && Follow(rest, 2)
    ensures j <= |s| && TreeOk(s, t) && Text(s, t) == c && Toks(s, j) == rest && ParsePipe(s, i).Ok?
    ensures ParseBacks(s, ParsePipe(s, i).pos, ParsePipe(s, i).value) == ParseBacks(s, j, t)
    decreases |pre|, 3
  {
    hide ParsePipe, ParseBacks, Toks, IsPipeline;
    if IsPipeline(pre, c) {
      PipeComplete(s, i, pre, c, rest);
      t, j := ParsePipe(s, i).value, ParsePipe(s, i).pos;
    } else {
      var n := |pre| - 1;
      assert pre + rest == pre[..n] + ([Sym('&')] + rest);
      t, j := HeadComplete(s, i, pre[..n], c.cmd, [Sym('&')] + rest);
      j := BacksNext(s, j, t, rest);
      t := Back(t);
    }
  }

  lemma {:induction false} LineComplete(s: string, i: nat, pre: seq<Tok>, c: Cmd<string>, rest: seq<Tok>)
    requires i <= |s| && Toks(s, i) == pre + rest && IsLine(pre, c) && Follow(rest, 0)
    ensures var r := ParseLine(s, i); r.Ok? && Toks(s, r.pos) == rest && Text(s, r.value) == c
    decreases |pre|, 4
  {
    hide ParsePipe, ParseBacks, Toks, Peek, GetToken, IsHead;
    if IsHead(pre, c) {
      var t, j := HeadComplete(s, i, pre, c, rest);
      BacksEnd(s, j, t);
      var p := ParseBacks(s, j, t).1;
      PeekTok(s, p, {';'});
      ToksAfterSkip(s, p);
    } else {
      var k: nat :| SemiAt(pre, k, c);
      MiddleSplit(pre, k, rest);
      var t, j := HeadComplete(s, i, pre[..k], c.left, [Sym(';')] + (pre[k + 1..] + rest));
      BacksEnd(s, j, t);
      var p := ParseBacks(s, j, t).1;
      PeekTok(s, p, {';'});
      TakeTok(s, p, Sym(';'), pre[k + 1..] + rest);
      LineComplete(s, GetToken(s, p).next, pre[k + 1..], c.right, rest);
    }
  }

  // ---- The parser is the grammar ----

  lemma ParseSound(s: string)
    requires ParseCmd(s).Ok?
    ensures IsLine(Toks(s, 0), Text(s, ParseCmd(s).value))
  {
    hide ParseLine, Toks, IsLine, Text;
    var pre := LineSound(s, 0);
    var p := ParseLine(s, 0).pos;
    AtEnd(s, p);
    assert pre + [] == pre;
  }

  lemma AtEnd(s: string, i: nat)
    requires i <= |s|
    ensures SkipSpaces(s, i) == |s| <==> Toks(s, i) == []
  {
  }

  lemma ParseComplete(s: string, c: Cmd<string>)
    requires IsLine(Toks(s, 0), c)
    ensures ParseCmd(s).Ok? && Text(s, ParseCmd(s).value) == c
  {
    hide ParseLine, Toks, IsLine, Text;
    assert Toks(s, 0) + [] == Toks(s, 0);
    LineComplete(s, 0, Toks(s, 0), c, []);
    AtEnd(s, ParseLine(s, 0).pos);
  }

  /** Every line: `parsecmd` builds the one tree the grammar gives its tokens, and panics if there is none. */
  lemma ParseExact(s: string, ts: seq<Tok>)
    requires Spells(s, 0, ts)
    ensures forall c :: IsLine(ts, c) <==> ParseCmd(s).Ok? && Text(s, ParseCmd(s).value) == c
    ensures ParseCmd(s).Panic? <==> forall c :: !IsLine(ts, c)
  {
    LexUnique(s, 0, ts);
    hide ParseCmd, Toks, Spells, IsLine, Text;
    if ParseCmd(s).Ok? {
      ParseSound(s);
    }
    forall c | IsLine(ts, c) ensures ParseCmd(s).Ok? && Text(s, ParseCmd(s).value) == c {
      ParseComplete(s, c);
    }
  }
}
