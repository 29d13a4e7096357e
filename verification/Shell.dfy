/** The shell's parser as it runs (sh.c): the loops over a cursor, then `nulterminate` writing into the
    command line in place. */
module Shell {
  import opened ShellParser
  import opened ShellRoundTrip
  import opened ShellGrammar
  import opened ShellParses

  // ---- The loops ----

  method Skip(s: string, i: nat) returns (j: nat)
    requires i <= |s|
    ensures j == SkipSpaces(s, i)
  {
    j := i;
    while j < |s| && IsSpace(s[j])
      invariant i <= j <= |s| && SkipSpaces(s, i) == SkipSpaces(s, j)
    {
      j := j + 1;
    }
  }

  /** `gettoken`. */
  method NextToken(s: string, i: nat) returns (t: Lexeme)
    requires i <= |s|
    ensures t == GetToken(s, i)
  {
    var q := Skip(s, i);
    var e := q;
    var tok := End;
    if q < |s| {
      if s[q] == '|' || s[q] == '(' || s[q] == ')' || s[q] == ';' || s[q] == '&' || s[q] == '<' {
        tok := Symbol(s[q]);
        e := q + 1;
      } else if s[q] == '>' {
        tok := Symbol('>');
        e := q + 1;
        if e < |s| && s[e] == '>' {
          tok := Append;
          e := e + 1;
        }
      } else {
        tok := Word;
        while e < |s| && !IsSpace(s[e]) && !IsSymbol(s[e])
          invariant q <= e <= |s| && WordEnd(s, q) == WordEnd(s, e)
        {
          e := e + 1;
        }
      }
    }
    var next := Skip(s, e);
    t := Lexeme(tok, Span(q, e), next);
  }

  /** `peek`. */
  method PeekAt(s: string, i: nat, toks: set<char>) returns (found: bool, j: nat)
    requires i <= |s|
    ensures found == Peek(s, i, toks) && j == SkipSpaces(s, i)
  {
    j := Skip(s, i);
    found := j < |s| && s[j] in toks;
  }

  lemma SkipTwice(s: string, i: nat)
    requires i <= |s|
    ensures SkipSpaces(s, SkipSpaces(s, i)) == SkipSpaces(s, i)
    ensures GetToken(s, SkipSpaces(s, i)) == GetToken(s, i)
  {
  }

  lemma RedirsMeaning(s: string, i: nat, rs: seq<Redirection<Span>>)
    requires i <= |s| && RedirsOk(s, rs)
    ensures var r := ParseRedirs(s, i, rs);
            && (r.Ok? ==> exists more ::
                            RedirsRead(Toks(s, i), more, Toks(s, r.pos)) && Files(s, r.value) == Files(s, rs) + more)
            && (r.Panic? ==> forall more, rest :: !RedirsRead(Toks(s, i), more, rest))
  {
    hide ParseRedirs, Toks, Files, RedirsRead;
    var r := ParseRedirs(s, i, rs);
    if r.Ok? {
      var _, more := RedirsSound(s, i, rs);
      RedirsExact(s, i, rs, more, Toks(s, r.pos));
    } else {
      forall more, rest ensures !RedirsRead(Toks(s, i), more, rest) {
        RedirsExact(s, i, rs, more, rest);
      }
    }
  }

  /** `parseredirs`. */
  method ReadRedirs(s: string, i: nat, before: seq<Redirection<Span>>) returns (r: Result<seq<Redirection<Span>>>)
    requires i <= |s| && RedirsOk(s, before)
    ensures r == ParseRedirs(s, i, before)
    ensures r.Ok? ==> exists more ::
                        RedirsRead(Toks(s, i), more, Toks(s, r.pos)) && Files(s, r.value) == Files(s, before) + more
    ensures r.Panic? ==> forall more, rest :: !RedirsRead(Toks(s, i), more, rest)
  {
    RedirsMeaning(s, i, before);
    var rs, p := before, i;
    while true
      invariant p <= |s| && RedirsOk(s, rs) && ParseRedirs(s, i, before) == ParseRedirs(s, p, rs)
      decreases |s| - p
    {
      var more, j := PeekAt(s, p, {'<', '>'});
      if !more {
        return Ok(rs, j);
      }
      SkipTwice(s, p);
      var op := NextToken(s, j);
      var file := NextToken(s, op.next);
      if file.tok != Word {
        return Panic("missing file for redirection");
      }
      rs := rs + [RedirectionOf(op.tok, file.span)];
      p := file.next;
    }
  }

  /** The loop of `parseexec`. */
  method ReadArgs(s: string, i: nat, before: Simple) returns (r: Result<Simple>)
    requires i <= |s| && SimpleOk(s, before)
    ensures r == ParseArgs(s, i, before)
  {
    var x, p := before, i;
    while true
      invariant p <= |s| && SimpleOk(s, x) && ParseArgs(s, i, before) == ParseArgs(s, p, x)
      decreases |s| - p
    {
      var stop, j := PeekAt(s, p, {'|', ')', '&', ';'});
      if stop {
        return Ok(x, j);
      }
      SkipTwice(s, p);
      var t := NextToken(s, j);
      if t.tok == End {
        return Ok(x, t.next);
      }
      if t.tok != Word {
        return Panic("syntax");
      }
      if |x.argv| + 1 >= MAXARGS {
        return Panic("too many args");
      }
      var rr := ReadRedirs(s, t.next, x.rs);
      if rr.Panic? {
        return Panic(rr.msg);
      }
      x, p := Simple(x.argv + [t.span], rr.value), rr.pos;
    }
  }

  /** `parseexec`. */
  method ReadExec(s: string, i: nat) returns (r: Result<Cmd<Span>>)
    requires i <= |s|
    ensures r == ParseExec(s, i)
    decreases |s| - i, 1
  {
    var block, _ := PeekAt(s, i, {'('});
    if block {
      r := ReadBlock(s, i);
      return;
    }
    var rr := ReadRedirs(s, i, []);
    if rr.Panic? {
      return Panic(rr.msg);
    }
    var ar := ReadArgs(s, rr.pos, Simple([], rr.value));
    if ar.Panic? {
      return Panic(ar.msg);
    }
    return Ok(Wrap(Exec(ar.value.argv), ar.value.rs), ar.pos);
  }

  /** `parseblock`. */
  method ReadBlock(s: string, i: nat) returns (r: Result<Cmd<Span>>)
    requires i <= |s| && Peek(s, i, {'('})
    ensures r == ParseBlock(s, i)
    decreases |s| - i, 0
  {
    var open := NextToken(s, i);
    var line := ReadLine(s, open.next);
    if line.Panic? {
      return line;
    }
    var closed, _ := PeekAt(s, line.pos, {')'});
    if !closed {
      return Panic("syntax - missing )");
    }
    var close := NextToken(s, line.pos);
    var rr := ReadRedirs(s, close.next, []);
    if rr.Panic? {
      return Panic(rr.msg);
    }
    return Ok(Wrap(line.value, rr.value), rr.pos);
  }

  /** `parsepipe`. */
  method ReadPipe(s: string, i: nat) returns (r: Result<Cmd<Span>>)
    requires i <= |s|
    ensures r == ParsePipe(s, i)
    decreases |s| - i, 2
  {
    r := ReadExec(s, i);
    if r.Panic? {
      return;
    }
    var bar, j := PeekAt(s, r.pos, {'|'});
    if bar {
      var t := NextToken(s, r.pos);
      var right := ReadPipe(s, t.next);
      if right.Panic? {
        return right;
      }
      return Ok(Pipe(r.value, right.value), right.pos);
    }
    return Ok(r.value, j);
  }

  /** `parseline`. */
  method ReadLine(s: string, i: nat) returns (r: Result<Cmd<Span>>)
    requires i <= |s|
    ensures r == ParseLine(s, i)
    decreases |s| - i, 3
  {
    var first := ReadPipe(s, i);
    if first.Panic? {
      return first;
    }
    var c, p := first.value, first.pos;
    var back, j := PeekAt(s, p, {'&'});
    while back
      invariant i <= p <= |s| && TreeOk(s, c) && back == Peek(s, p, {'&'}) && j == SkipSpaces(s, p)
      invariant ParseBacks(s, first.pos, first.value) == ParseBacks(s, p, c)
      decreases |s| - p
    {
      SkipTwice(s, p);
      var t := NextToken(s, j);
      c, p := Back(c), t.next;
      back, j := PeekAt(s, p, {'&'});
    }
    SkipTwice(s, p);
    var semi, k := PeekAt(s, j, {';'});
    if semi {
      var t := NextToken(s, j);
      var rest := ReadLine(s, t.next);
      if rest.Panic? {
        return rest;
      }
      return Ok(List(c, rest.value), rest.pos);
    }
    return Ok(c, k);
  }

  // ---- In-place termination ----

  /** The C string that starts at `q`. */
  function CString(b: seq<char>, q: nat): string
    decreases |b| - q
  {
    if q >= |b| || b[q] == '\0' then "" else [b[q]] + CString(b, q + 1)
  }

  /** The tree as `runcmd` reads it: only the start pointers and the buffer. */
  function CText(b: seq<char>, c: Cmd<Span>): Cmd<string> {
    match c
    case Exec(argv) => Exec(CWords(b, argv))
    case Redir(c, file, mode, fd) => Redir(CText(b, c), CString(b, file.q), mode, fd)
    case Pipe(l, r) => Pipe(CText(b, l), CText(b, r))
    case List(l, r) => List(CText(b, l), CText(b, r))
    case Back(c) => Back(CText(b, c))
  }

  function CWords(b: seq<char>, argv: seq<Span>): seq<string> {
    if argv == [] then [] else CWords(b, argv[..|argv| - 1]) + [CString(b, argv[|argv| - 1].q)]
  }

  /** The positions `nulterminate` writes. */
  function Ends(c: Cmd<Span>): set<nat> {
    match c
    case Exec(argv) => set k | 0 <= k < |argv| :: argv[k].eq
    case Redir(c, file, _, _) => Ends(c) + {file.eq}
    case Pipe(l, r) => Ends(l) + Ends(r)
    case List(l, r) => Ends(l) + Ends(r)
    case Back(c) => Ends(c)
  }

  ghost predicate Cut(before: seq<char>, after: seq<char>, ends: set<nat>) {
    |after| == |before| &&
    forall k :: 0 <= k < |before| ==> after[k] == if k in ends then '\0' else before[k]
  }

  /** `nulterminate`. */
  method NulTerminate(buf: array<char>, c: Cmd<Span>, ghost s: string)
    requires TreeOk(s, c) && |s| < buf.Length
    modifies buf
    ensures Cut(old(buf[..]), buf[..], Ends(c))
    decreases c
  {
    match c
    case Exec(argv) =>
      for i := 0 to |argv|
        invariant Cut(old(buf[..]), buf[..], set k | 0 <= k < i :: argv[k].eq)
      {
        assert IsWord(s, argv[i]);
        buf[argv[i].eq] := '\0';
      }
    case Redir(d, file, _, _) =>
      NulTerminate(buf, d, s);
      buf[file.eq] := '\0';
    case Pipe(l, r) =>
      NulTerminate(buf, l, s);
      NulTerminate(buf, r, s);
    case List(l, r) =>
      NulTerminate(buf, l, s);
      NulTerminate(buf, r, s);
    case Back(d) =>
      NulTerminate(buf, d, s);
  }

  /** What is overwritten is never part of a word. */
  lemma {:induction false} EndsAreNotWords(s: string, c: Cmd<Span>, e: nat)
    requires TreeOk(s, c) && e in Ends(c)
    ensures e <= |s| && (e < |s| ==> !IsWordChar(s[e]))
    decreases c
  {
    match c
    case Exec(argv) =>
      var k :| 0 <= k < |argv| && argv[k].eq == e;
      assert IsWord(s, argv[k]);
    case Redir(d, file, _, _) =>
      if e != file.eq { EndsAreNotWords(s, d, e); }
    case Pipe(l, r) =>
      if e in Ends(l) { EndsAreNotWords(s, l, e); } else { EndsAreNotWords(s, r, e); }
    case List(l, r) =>
      if e in Ends(l) { EndsAreNotWords(s, l, e); } else { EndsAreNotWords(s, r, e); }
    case Back(d) => EndsAreNotWords(s, d, e);
  }

  /** `b` is the line `s` with NULs written at non-word positions, among them the end of `w`. */
  ghost predicate Intact(s: string, b: seq<char>) {
    |b| > |s| && forall k :: 0 <= k < |s| && IsWordChar(s[k]) ==> b[k] == s[k] && s[k] != '\0'
  }

  lemma {:induction false} WordReads(s: string, b: seq<char>, q: nat, e: nat)
    requires Intact(s, b) && q <= e <= |s| && (forall k :: q <= k < e ==> IsWordChar(s[k])) && b[e] == '\0'
    ensures CString(b, q) == s[q..e]
    decreases e - q
  {
    if q < e {
      WordReads(s, b, q + 1, e);
    }
  }

  lemma {:induction false} WordsRead(s: string, b: seq<char>, argv: seq<Span>)
    requires Intact(s, b) && WordsOk(s, argv) && (forall k :: 0 <= k < |argv| ==> b[argv[k].eq] == '\0')
    ensures CWords(b, argv) == Words(s, argv)
  {
    if argv != [] {
      var w := argv[|argv| - 1];
      WordsRead(s, b, argv[..|argv| - 1]);
      assert IsWord(s, w);
      WordReads(s, b, w.q, w.eq);
    }
  }

  lemma {:induction false} TreeReads(s: string, b: seq<char>, c: Cmd<Span>, ends: set<nat>)
    requires Intact(s, b) && TreeOk(s, c) && Ends(c) <= ends && (forall e :: e in ends ==> e < |b| && b[e] == '\0')
    ensures CText(b, c) == Text(s, c)
    decreases c
  {
    match c
    case Exec(argv) =>
      forall k | 0 <= k < |argv| ensures b[argv[k].eq] == '\0' {
        assert argv[k].eq in Ends(c);
      }
      WordsRead(s, b, argv);
    case Redir(d, file, _, _) =>
      TreeReads(s, b, d, ends);
      assert file.eq in Ends(c);
      WordReads(s, b, file.q, file.eq);
    case Pipe(l, r) => TreeReads(s, b, l, ends); TreeReads(s, b, r, ends);
    case List(l, r) => TreeReads(s, b, l, ends); TreeReads(s, b, r, ends);
    case Back(d) => TreeReads(s, b, d, ends);
  }

  /** In-place termination is safe: after it, every word reads as the token the parser recorded. */
  lemma TerminatedTreeReads(s: string, before: seq<char>, after: seq<char>, c: Cmd<Span>)
    requires TreeOk(s, c) && s < before && '\0' !in s && Cut(before, after, Ends(c))
    ensures CText(after, c) == Text(s, c)
  {
    forall k | 0 <= k < |s| && IsWordChar(s[k]) ensures after[k] == s[k] && s[k] != '\0' {
      if k in Ends(c) { EndsAreNotWords(s, c, k); }
      assert s[k] in s && before[k] == s[k];
    }
    forall e | e in Ends(c) ensures e < |after| && after[e] == '\0' {
      EndsAreNotWords(s, c, e);
    }
    TreeReads(s, after, c, Ends(c));
  }

  /** `parsecmd`. */
  method ParseCommand(buf: array<char>) returns (r: Result<Cmd<Span>>)
    requires '\0' in buf[..]
    modifies buf
    ensures r == ParseCmd(CString(old(buf[..]), 0))
    ensures r.Panic? ==> buf[..] == old(buf[..])
    ensures r.Ok? ==> Cut(old(buf[..]), buf[..], Ends(r.value))
    ensures r.Ok? ==> CText(buf[..], r.value) == Text(CString(old(buf[..]), 0), r.value)
    ensures r.Ok? ==> IsLine(Toks(CString(old(buf[..]), 0), 0), CText(buf[..], r.value))
    ensures r.Panic? ==> forall c :: !IsLine(Toks(CString(old(buf[..]), 0), 0), c)
  {
    var es := 0;
    while buf[es] != '\0'
      invariant 0 <= es < buf.Length && '\0' in buf[es..] && '\0' !in buf[..es]
      decreases buf.Length - es
    {
      es := es + 1;
      assert buf[es - 1..] == [buf[es - 1]] + buf[es..];
    }
    var s := buf[..es];
    StringIs(buf[..], 0, es);
    LexSpells(s, 0);
    ParseExact(s, Toks(s, 0));
    var line := ReadLine(s, 0);
    if line.Panic? {
      return line;
    }
    var j := Skip(s, line.pos);
    if j != |s| {
      return Panic("syntax");
    }
    NulTerminate(buf, line.value, s);
    TerminatedTreeReads(s, old(buf[..]), buf[..], line.value);
    return Ok(line.value, |s|);
  }

  lemma {:induction false} StringIs(b: seq<char>, q: nat, e: nat)
    requires q <= e < |b| && b[e] == '\0' && '\0' !in b[q..e]
    ensures CString(b, q) == b[q..e]
    decreases e - q
  {
    if q < e {
      assert b[q] in b[q..e] && b[q..e] == [b[q]] + b[q + 1..e];
      StringIs(b, q + 1, e);
    }
  }
}
