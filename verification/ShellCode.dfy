/** The parser of sh.c as it runs: a cursor moved by loops over the line, recursive descent, and
    nulterminate writing into the line. A command refers to its words by position. */
module ShellCode {
  import opened ShellSpec

  /** [q, eq) of the line. */
  datatype Span = Span(q: nat, eq: nat)

  /** What q and eq delimit: a whole word, up to the next delimiter or the end of the line. */
  ghost predicate WordSpan(s: string, w: Span) {
    && w.q < w.eq <= |s| && (w.eq < |s| ==> Delimiter(s[w.eq]))
    && forall i :: w.q <= i < w.eq ==> !Delimiter(s[i])
  }

  ghost predicate SpansOk(s: string, c: Cmd<Span>) {
    match c
    case Exec(argv) => forall i :: 0 <= i < |argv| ==> WordSpan(s, argv[i])
    case Redir(c, file, mode, fd) => SpansOk(s, c) && WordSpan(s, file)
    case Pipe(l, r) => SpansOk(s, l) && SpansOk(s, r)
    case List(l, r) => SpansOk(s, l) && SpansOk(s, r)
    case Back(c) => SpansOk(s, c)
  }

  function Text(s: string, w: Span): string { if w.q <= w.eq <= |s| then s[w.q..w.eq] else "" }

  function Texts(s: string, ws: seq<Span>): (r: seq<string>)
    ensures |r| == |ws| && forall i :: 0 <= i < |ws| ==> r[i] == Text(s, ws[i])
  {
    seq(|ws|, i requires 0 <= i < |ws| => Text(s, ws[i]))
  }

  /** The command with its words spelled out. */
  function TextOf(s: string, c: Cmd<Span>): Tree {
    match c
    case Exec(argv) => Exec(Texts(s, argv))
    case Redir(c, file, mode, fd) => Redir(TextOf(s, c), Text(s, file), mode, fd)
    case Pipe(l, r) => Pipe(TextOf(s, l), TextOf(s, r))
    case List(l, r) => List(TextOf(s, l), TextOf(s, r))
    case Back(c) => Back(TextOf(s, c))
  }

  // ---- gettoken and peek -----------------------------------------------------------------

  /** The int gettoken returns for a token. */
  function Code(tok: Tok): char {
    match tok
    case Sym(c) => c
    case Append => '+'
    case Word(w) => 'a'
  }

  lemma TrimTwice(u: string)
    ensures Trim(Trim(u)) == Trim(u) && Lex(Trim(u)) == Lex(u)
  {}

  /** while (s < es && strchr(whitespace, *s)) s++; */
  method Skip(s: string, p: nat) returns (at: nat)
    requires p <= |s|
    ensures p <= at <= |s| && s[at..] == Trim(s[p..]) && Lex(s[at..]) == Lex(s[p..])
    ensures at < |s| ==> !Space(s[at])
  {
    at := p;
    while at < |s| && Space(s[at])
      invariant p <= at <= |s| && Trim(s[at..]) == Trim(s[p..])
    {
      assert s[at..][1..] == s[at + 1..];
      at := at + 1;
    }
    TrimTwice(s[p..]);
  }

  /** The word loop of gettoken. */
  method WordLoop(s: string, q: nat) returns (eq: nat)
    requires q < |s| && !Delimiter(s[q])
    ensures WordSpan(s, Span(q, eq)) && eq == q + WordLen(s[q..])
  {
    eq := q;
    while eq < |s| && !Space(s[eq]) && !Symbol(s[eq])
      invariant q <= eq <= |s| && (forall i :: q <= i < eq ==> !Delimiter(s[i]))
      invariant WordLen(s[q..]) == eq - q + WordLen(s[eq..])
    {
      assert s[eq..][1..] == s[eq + 1..];
      eq := eq + 1;
    }
  }

  method GetToken(s: string, p: nat) returns (ret: char, w: Span, at: nat)
    requires p <= |s| && forall i :: 0 <= i < |s| ==> s[i] != NUL
    ensures p <= at <= |s|
    ensures var ts := Lex(s[p..]);
            if ts == [] then ret == NUL && at == |s| && Lex(s[at..]) == []
            else ret == Code(ts[0]) && ret != NUL && at > p && Lex(s[at..]) == ts[1..] &&
                 (ret == 'a' <==> ts[0].Word?) && (ret == '<' <==> ts[0] == Sym('<')) &&
                 (ts[0].Word? ==> WordSpan(s, w) && Text(s, w) == ts[0].w)
  {
    hide Lex, Trim;
    LexEnd(s);
    var q := Skip(s, p);
    var eq := q;
    if q == |s| {
      ret := NUL;
    } else if s[q] == '>' {
      ret, eq := '>', q + 1;
      if eq < |s| && s[eq] == '>' {
        ret, eq := '+', eq + 1;
      }
    } else if Symbol(s[q]) {
      ret, eq := s[q], q + 1;
    } else {
      ret := 'a';
      eq := WordLoop(s, q);
    }
    w := Span(q, eq);
    at := Skip(s, eq);
    if q < |s| {
      LexAt(s, q, eq);
    }
  }

  lemma LexAt(s: string, q: nat, eq: nat)
    requires q < |s| && !Space(s[q]) && eq == q + HeadLen(s[q..])
    ensures Lex(s[q..]) == [Head(s[q..])] + Lex(s[eq..]) && Lex(s[q..])[1..] == Lex(s[eq..])
  {
    assert s[q..][HeadLen(s[q..])..] == s[eq..];
  }

  lemma LexEnd(s: string)
    ensures Lex(s[|s|..]) == []
  {}

  method Peek(s: string, p: nat, toks: string) returns (at: nat, b: bool)
    requires p <= |s| && forall i :: 0 <= i < |toks| ==> Symbol(toks[i])
    ensures p <= at <= |s| && Lex(s[at..]) == Lex(s[p..])
    ensures b <==>
              && Lex(s[p..]) != []
              && match Lex(s[p..])[0] { case Sym(c) => c in toks case Append => '>' in toks case Word(_) => false }
  {
    hide Lex, Trim;
    LexEnd(s);
    at := Skip(s, p);
    b := at < |s| && s[at] in toks;
    if at < |s| {
      LexAt(s, at, at + HeadLen(s[at..]));
    }
  }

  // ---- Recursive descent -----------------------------------------------------------------

  datatype SpanRed = SpanRed(file: Span, out: bool)

  function RedsOf(s: string, rs: seq<SpanRed>): (r: seq<Red>)
    ensures |r| == |rs| && forall i :: 0 <= i < |rs| ==> r[i] == Red(Text(s, rs[i].file), rs[i].out)
  {
    seq(|rs|, i requires 0 <= i < |rs| => Red(Text(s, rs[i].file), rs[i].out))
  }

  ghost predicate RedSpansOk(s: string, rs: seq<SpanRed>) { forall i :: 0 <= i < |rs| ==> WordSpan(s, rs[i].file) }

  /** redircmd around redircmd, the first one innermost. */
  function WrapSpans(c: Cmd<Span>, rs: seq<SpanRed>): Cmd<Span>
    decreases |rs|
  {
    if rs == [] then c
    else
      var r := rs[|rs| - 1];
      Redir(WrapSpans(c, rs[..|rs| - 1]), r.file, if r.out then O_WRONLY_CREATE else O_RDONLY, if r.out then 1 else 0)
  }

  lemma {:induction false} WrapTexts(s: string, c: Cmd<Span>, rs: seq<SpanRed>)
    requires SpansOk(s, c) && RedSpansOk(s, rs)
    ensures TextOf(s, WrapSpans(c, rs)) == Wrap(TextOf(s, c), RedsOf(s, rs)) && SpansOk(s, WrapSpans(c, rs))
    decreases |rs|
  {
    if rs != [] {
      WrapTexts(s, c, rs[..|rs| - 1]);
      assert RedsOf(s, rs)[..|rs| - 1] == RedsOf(s, rs[..|rs| - 1]);
    }
  }

  datatype RedResult = RedGot(rs: seq<SpanRed>, p: nat) | RedDied

  ghost predicate RedAgrees(s: string, p: nat, r: RedResult, g: Reds) {
    && (r.RedDied? <==> g.RedsPanic?)
    && (r.RedGot? ==> p <= r.p <= |s| && RedSpansOk(s, r.rs) && RedsOf(s, r.rs) == g.rs && Lex(s[r.p..]) == g.rest)
  }

  /** parseredirs. */
  method ParseRedirs(s: string, rs: seq<SpanRed>, p: nat) returns (r: RedResult)
    requires Line(s) && p <= |s| && RedSpansOk(s, rs)
    ensures RedAgrees(s, p, r, GReds(RedsOf(s, rs), Lex(s[p..])))
  {
    hide Lex;
    var acc, at := rs, p;
    while true
      invariant p <= at <= |s| && RedSpansOk(s, acc)
      invariant GReds(RedsOf(s, acc), Lex(s[at..])) == GReds(RedsOf(s, rs), Lex(s[p..]))
      decreases |s| - at
    {
      var b;
      at, b := Peek(s, at, "<>");
      if !b {
        return RedGot(acc, at);
      }
      ghost var ts := Lex(s[at..]);
      var tok, w, at1 := GetToken(s, at);
      var ret, file, at2 := GetToken(s, at1);
      if ret != 'a' {
        return RedDied;
      }
      assert ts[1..][1..] == ts[2..];
      assert RedsOf(s, acc + [SpanRed(file, tok != '<')]) == RedsOf(s, acc) + [Red(ts[1].w, ts[0] != Sym('<'))];
      acc, at := acc + [SpanRed(file, tok != '<')], at2;
    }
  }

  datatype Result = Got(cmd: Cmd<Span>, p: nat) | Died

  /** The code and the grammar agree: on giving up, on the tree and on what is left of the line. */
  ghost predicate Agrees(s: string, p: nat, r: Result, g: Parsed) {
    && (r.Died? <==> g.Panic?)
    && (r.Got? ==> p <= r.p <= |s| && SpansOk(s, r.cmd) && TextOf(s, r.cmd) == g.cmd && Lex(s[r.p..]) == g.rest)
  }

  /** parseexec's argument loop. */
  method ParseArgs(s: string, rs0: seq<SpanRed>, p: nat) returns (r: Result)
    requires Line(s) && p <= |s| && RedSpansOk(s, rs0)
    ensures Agrees(s, p, r, GArgs([], RedsOf(s, rs0), Lex(s[p..])))
  {
    hide Lex, Wrap, GReds, WordSpan;
    var argv: seq<Span>, rs, at := [], rs0, p;
    assert Texts(s, argv) == [];
    while true
      invariant p <= at <= |s| && RedSpansOk(s, rs) && SpansOk(s, Exec(argv)) && |argv| < MAXARGS
      invariant GArgs(Texts(s, argv), RedsOf(s, rs), Lex(s[at..])) == GArgs([], RedsOf(s, rs0), Lex(s[p..]))
      decreases |s| - at
    {
      var b;
      at, b := Peek(s, at, "|)&;");
      if b {
        break;
      }
      ghost var ts := Lex(s[at..]);
      var tok, w, at1 := GetToken(s, at);
      if tok == NUL {
        break;
      }
      if tok != 'a' || |argv| + 1 >= MAXARGS {
        return Died;
      }
      assert Texts(s, argv + [w]) == Texts(s, argv) + [ts[0].w];
      var q := ParseRedirs(s, rs, at1);
      if q.RedDied? {
        return Died;
      }
      argv, rs, at := argv + [w], q.rs, q.p;
    }
    WrapTexts(s, Exec(argv), rs);
    r := Got(WrapSpans(Exec(argv), rs), at);
  }

  method ParseExec(s: string, p: nat) returns (r: Result)
    requires Line(s) && p <= |s|
    ensures Agrees(s, p, r, GExec(Lex(s[p..])))
    decreases |s| - p, 1
  {
    hide Lex, GArgs, GReds, GBlock, TextOf, SpansOk;
    var at, b := Peek(s, p, "(");
    if b {
      r := ParseBlock(s, at);
      return;
    }
    var q := ParseRedirs(s, [], at);
    assert RedsOf(s, []) == [];
    if q.RedDied? {
      return Died;
    }
    r := ParseArgs(s, q.rs, q.p);
  }

  method ParseBlock(s: string, p: nat) returns (r: Result)
    requires Line(s) && p <= |s| && Starts(Lex(s[p..]), {'('})
    ensures Agrees(s, p, r, GBlock(Lex(s[p..])))
    decreases |s| - p, 0
  {
    hide Lex, GLine, GReds, TextOf, SpansOk, Wrap;
    var tok, w, at := GetToken(s, p);
    r := ParseLine(s, at);
    if r.Died? {
      return;
    }
    var at1, b := Peek(s, r.p, ")");
    if !b {
      return Died;
    }
    var tok2, w2, at2 := GetToken(s, at1);
    var q := ParseRedirs(s, [], at2);
    assert RedsOf(s, []) == [];
    if q.RedDied? {
      return Died;
    }
    WrapTexts(s, r.cmd, q.rs);
    r := Got(WrapSpans(r.cmd, q.rs), q.p);
  }

  method ParsePipe(s: string, p: nat) returns (r: Result)
    requires Line(s) && p <= |s|
    ensures Agrees(s, p, r, GPipe(Lex(s[p..])))
    decreases |s| - p, 2
  {
    hide Lex, GExec;
    r := ParseExec(s, p);
    if r.Died? {
      return;
    }
    var at, b := Peek(s, r.p, "|");
    var cmd := r.cmd;
    r := Got(cmd, at);
    if b {
      var tok, w, at1 := GetToken(s, at);
      r := ParsePipe(s, at1);
      if r.Got? {
        r := Got(Pipe(cmd, r.cmd), r.p);
      }
    }
  }

  /** parseline's loop over &. */
  method ParseBacks(s: string, c: Cmd<Span>, p: nat) returns (r: Result)
    requires Line(s) && p <= |s| && SpansOk(s, c)
    ensures r.Got? && Agrees(s, p, r, GBacks(TextOf(s, c), Lex(s[p..])))
  {
    hide Lex;
    var cmd := c;
    var at, b := Peek(s, p, "&");
    while b
      invariant p <= at <= |s| && SpansOk(s, cmd) && (b <==> Starts(Lex(s[at..]), {'&'}))
      invariant GBacks(TextOf(s, cmd), Lex(s[at..])) == GBacks(TextOf(s, c), Lex(s[p..]))
      decreases |s| - at
    {
      var tok, w, at1 := GetToken(s, at);
      cmd := Back(cmd);
      at, b := Peek(s, at1, "&");
    }
    r := Got(cmd, at);
  }

  method ParseLine(s: string, p: nat) returns (r: Result)
    requires Line(s) && p <= |s|
    ensures Agrees(s, p, r, GLine(Lex(s[p..])))
    decreases |s| - p, 3
  {
    hide Lex, GPipe, GBacks;
    r := ParsePipe(s, p);
    if r.Died? {
      return;
    }
    r := ParseBacks(s, r.cmd, r.p);
    var at, b := Peek(s, r.p, ";");
    var cmd := r.cmd;
    r := Got(cmd, at);
    if b {
      var tok, w, at1 := GetToken(s, at);
      r := ParseLine(s, at1);
      if r.Got? {
        r := Got(List(cmd, r.cmd), r.p);
      }
    }
  }
}
