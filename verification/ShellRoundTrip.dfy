/** Parsing what the printer prints gives the tree back. */
module ShellRoundTrip {
  import opened ShellSpec

  // ---- Commands with redirections --------------------------------------------------------

  /** The command under all redirections, and the redirections, innermost first. */
  function Base(t: Tree): Tree { if t.Redir? then Base(t.cmd) else t }

  function Outer(t: Tree): seq<Red> { if t.Redir? then Outer(t.cmd) + [Red(t.file, t.mode != O_RDONLY)] else [] }

  lemma {:induction false} WrapBase(t: Tree)
    requires Legal(t)
    ensures Wrap(Base(t), Outer(t)) == t && !Base(t).Redir? && Legal(Base(t))
  {
    if t.Redir? {
      WrapBase(t.cmd);
      assert Outer(t)[..|Outer(t)| - 1] == Outer(t.cmd);
    }
  }

  /** What parseexec does once the base command is read and `rs` redirections are pending. */
  function Onward(base: Tree, rs: seq<Red>, ts: seq<Tok>): Parsed {
    match GReds(rs, ts)
    case RedsPanic => Panic
    case RedsOk(rs', rest) => if base.Exec? then GArgs(base.argv, rs', rest) else Ok(Wrap(base, rs'), rest)
  }

  /** One more redirection. */
  lemma OnwardRed(base: Tree, rs: seq<Red>, file: string, mode: nat, rest: seq<Tok>)
    requires mode == O_RDONLY || mode == O_WRONLY_CREATE
    ensures Onward(base, rs, [Op(mode), Word(file)] + rest) == Onward(base, rs + [Red(file, mode != O_RDONLY)], rest)
  {
    var ts := [Op(mode), Word(file)] + rest;
    assert ts[2..] == rest && ts[0] == Op(mode) && ts[1] == Word(file);
    assert StartsRedir(ts);
  }

  /** All words of a command. */
  lemma {:induction false} GArgsWords(argv: seq<string>, more: seq<string>, rest: seq<Tok>)
    requires |argv| + |more| < MAXARGS
    ensures Onward(Exec(argv), [], Words(more) + rest) == Onward(Exec(argv + more), [], rest)
    decreases |more|
  {
    if more == [] {
      assert Words(more) + rest == rest && argv + more == argv;
    } else {
      var ts := Words(more) + rest;
      assert ts[0] == Word(more[0]) && ts[1..] == Words(more[1..]) + rest;
      GArgsWords(argv + [more[0]], more[1..], rest);
      assert argv + [more[0]] + more[1..] == argv + more;
      assert GReds([], ts) == RedsOk([], ts);
    }
  }

  /** After this an exec is over. */
  predicate Stop(rest: seq<Tok>) { rest == [] || Starts(rest, {'|', ')', '&', ';'}) }

  lemma OnwardStop(base: Tree, rs: seq<Red>, rest: seq<Tok>)
    requires Stop(rest)
    ensures Onward(base, rs, rest) == Ok(Wrap(base, rs), rest)
  {}

  // ---- The round trip on tokens ------------------------------------------------------------

  /** The level at which t needs no parentheses. */
  function Level(t: Tree): nat {
    match t
    case Exec(_) => 0
    case Redir(_, _, _, _) => 0
    case Pipe(_, _) => 1
    case Back(_) => 2
    case List(_, _) => 3
  }

  function Rank(lv: nat, t: Tree): nat
    requires lv <= 3
  {
    if lv >= Level(t) then lv - Level(t) else lv + 4 - Level(t)
  }

  /** What the parser of level lv makes of tokens that start with t's. */
  predicate Reads(lv: nat, t: Tree, rest: seq<Tok>)
    requires lv <= 3
  {
    var ts := Print(lv, t) + rest;
    match lv
    case 0 => GExec(ts) == Onward(Base(t), Outer(t), rest)
    case 1 => GPipe(ts) == Ok(t, rest)
    case 2 => GSeg(ts) == GBacks(t, rest)
    case _ => GLine(ts) == Ok(t, rest)
  }

  /** The part of parseline before the semicolon. */
  function GSeg(ts: seq<Tok>): Parsed {
    match GPipe(ts)
    case Panic => Panic
    case Ok(c, rest) => GBacks(c, rest)
  }

  /** What may follow. */
  predicate Follows(lv: nat, rest: seq<Tok>) {
    match lv
    case 0 => !Starts(rest, {'('}) && (rest != [] ==> !rest[0].Word?)
    case 1 => rest == [] || Starts(rest, {')', '&', ';'})
    case 2 => rest == [] || Starts(rest, {')', '&', ';'})
    case _ => rest == [] || Starts(rest, {')'})
  }

  lemma UpToPipe(t: Tree, rest: seq<Tok>)
    requires Reads(0, t, rest) && Legal(t) && Level(t) != 1 && Follows(1, rest)
    ensures Reads(1, t, rest)
  {
    WrapBase(t);
    OnwardStop(Base(t), Outer(t), rest);
  }

  lemma UpToSeg(t: Tree, rest: seq<Tok>)
    requires Reads(1, t, rest) && Level(t) != 2
    ensures Reads(2, t, rest)
  {}

  lemma LineIsSeg(ts: seq<Tok>)
    ensures GSeg(ts).Ok? && !Starts(GSeg(ts).rest, {';'}) ==> GLine(ts) == GSeg(ts)
  {}

  lemma UpToLine(t: Tree, rest: seq<Tok>)
    requires Reads(2, t, rest) && Level(t) != 3 && Follows(3, rest)
    ensures Reads(3, t, rest)
  {
    LineIsSeg(Print(2, t) + rest);
  }

  lemma Parenthesised(t: Tree, rest: seq<Tok>)
    requires Level(t) > 0 && Reads(3, t, [Sym(')')] + rest)
    ensures Reads(0, t, rest)
  {
    var ts := Print(0, t) + rest;
    assert ts[0] == Sym('(') && ts[1..] == Print(3, t) + ([Sym(')')] + rest);
    assert ([Sym(')')] + rest)[1..] == rest;
  }

  lemma ReadExec(argv: seq<string>, rest: seq<Tok>)
    requires |argv| < MAXARGS && Follows(0, rest)
    ensures Reads(0, Exec(argv), rest)
  {
    var ts := Words(argv) + rest;
    assert !Starts(ts, {'('}) by { if argv == [] { assert ts == rest; } }
    GArgsWords([], argv, rest);
    assert [] + argv == argv;
  }

  lemma ReadRedir(c: Tree, file: string, mode: nat, fd: nat, rest: seq<Tok>)
    requires (mode == O_RDONLY || mode == O_WRONLY_CREATE) && Reads(0, c, [Op(mode), Word(file)] + rest)
    ensures Reads(0, Redir(c, file, mode, fd), rest)
  {
    OnwardRed(Base(c), Outer(c), file, mode, rest);
    assert Print(0, Redir(c, file, mode, fd)) + rest == Print(0, c) + ([Op(mode), Word(file)] + rest);
  }

  lemma ReadPipe(l: Tree, r: Tree, rest: seq<Tok>)
    requires Legal(l) && Reads(0, l, [Sym('|')] + Print(1, r) + rest) && Reads(1, r, rest)
    ensures Reads(1, Pipe(l, r), rest)
  {
    hide GExec, GPipe, GReds, GArgs, Onward, Wrap, Legal;
    var tail := [Sym('|')] + Print(1, r) + rest;
    WrapBase(l);
    OnwardStop(Base(l), Outer(l), tail);
    assert Print(1, Pipe(l, r)) + rest == Print(0, l) + tail;
    assert tail[1..] == Print(1, r) + rest;
    ExecThenPipe(Print(0, l) + tail, l, tail, r, rest);
  }

  lemma ExecThenPipe(ts: seq<Tok>, l: Tree, tail: seq<Tok>, r: Tree, rest: seq<Tok>)
    requires GExec(ts) == Ok(l, tail) && Starts(tail, {'|'}) && GPipe(tail[1..]) == Ok(r, rest)
    ensures GPipe(ts) == Ok(Pipe(l, r), rest)
  {
    hide GExec;
  }

  lemma ReadBackground(c: Tree, rest: seq<Tok>)
    requires Reads(2, c, [Sym('&')] + rest)
    ensures Reads(2, Back(c), rest)
  {
    assert Print(2, Back(c)) + rest == Print(2, c) + ([Sym('&')] + rest);
    assert ([Sym('&')] + rest)[1..] == rest;
  }

  lemma ReadList(l: Tree, r: Tree, rest: seq<Tok>)
    requires Reads(2, l, [Sym(';')] + Print(3, r) + rest) && Reads(3, r, rest)
    ensures Reads(3, List(l, r), rest)
  {
    var tail := [Sym(';')] + Print(3, r) + rest;
    assert Print(3, List(l, r)) + rest == Print(2, l) + tail;
    assert tail[1..] == Print(3, r) + rest;
    SegThenLine(Print(2, l) + tail, l, tail, r, rest);
  }

  lemma SegThenLine(ts: seq<Tok>, l: Tree, tail: seq<Tok>, r: Tree, rest: seq<Tok>)
    requires GSeg(ts) == Ok(l, tail) && Starts(tail, {';'}) && GLine(tail[1..]) == Ok(r, rest)
    ensures GLine(ts) == Ok(List(l, r), rest)
  {}

  /** Each parser reads back what the printer prints for it, and stops there. */
  lemma {:induction false} ReadBack(lv: nat, t: Tree, rest: seq<Tok>)
    requires lv <= 3 && Legal(t) && Follows(lv, rest)
    ensures Reads(lv, t, rest)
    decreases t, Rank(lv, t)
  {
    hide Reads;
    if lv == 0 && Level(t) > 0 {
      ReadBack(3, t, [Sym(')')] + rest);
      Parenthesised(t, rest);
    } else if lv != Level(t) {
      ReadBack(lv - 1, t, rest);
      if lv == 1 { UpToPipe(t, rest); } else if lv == 2 { UpToSeg(t, rest); } else { UpToLine(t, rest); }
    } else {
      match t
      case Exec(argv) =>
        ReadExec(argv, rest);
      case Redir(c, file, mode, fd) =>
        ReadBack(0, c, [Op(mode), Word(file)] + rest);
        ReadRedir(c, file, mode, fd, rest);
      case Pipe(l, r) =>
        ReadBack(0, l, [Sym('|')] + Print(1, r) + rest);
        ReadBack(1, r, rest);
        ReadPipe(l, r, rest);
      case Back(c) =>
        ReadBack(2, c, [Sym('&')] + rest);
        ReadBackground(c, rest);
      case List(l, r) =>
        ReadBack(2, l, [Sym(';')] + Print(3, r) + rest);
        ReadBack(3, r, rest);
        ReadList(l, r, rest);
    }
  }

  // ---- Spelling and lexing -----------------------------------------------------------------

  predicate LegalTok(tok: Tok) {
    match tok
    case Sym(c) => Symbol(c)
    case Append => true
    case Word(w) => LegalWord(w)
  }

  ghost predicate LegalToks(ts: seq<Tok>) { forall i :: 0 <= i < |ts| ==> LegalTok(ts[i]) }

  lemma {:induction false} PrintLegal(lv: nat, t: Tree)
    requires Legal(t)
    ensures LegalToks(Print(lv, t))
    decreases t
  {
    match t
    case Exec(argv) =>
    case Redir(c, file, mode, fd) => PrintLegal(0, c);
    case Pipe(l, r) => PrintLegal(0, l); PrintLegal(1, r);
    case Back(c) => PrintLegal(2, c);
    case List(l, r) => PrintLegal(2, l); PrintLegal(3, r);
  }

  lemma {:induction false} WordLenIs(w: string, u: string)
    requires (forall i :: 0 <= i < |w| ==> !Delimiter(w[i])) && (u != [] ==> Delimiter(u[0]))
    ensures WordLen(w + u) == |w|
  {
    if w == [] {
      assert w + u == u;
    } else {
      WordLenIs(w[1..], u);
      assert (w + u)[1..] == w[1..] + u;
    }
  }

  /** A token followed by a blank is read as that token. */
  lemma HeadIs(tok: Tok, u: string)
    requires LegalTok(tok)
    ensures var v := Spell(tok) + " " + u;
            v != [] && !Space(v[0]) && Head(v) == tok && HeadLen(v) == |Spell(tok)|
  {
    var v := Spell(tok) + " " + u;
    if tok.Word? {
      assert v == tok.w + (" " + u);
      WordLenIs(tok.w, " " + u);
    }
  }

  lemma {:induction false} LexRender(ts: seq<Tok>)
    requires LegalToks(ts)
    ensures Lex(Render(ts)) == ts
  {
    if ts != [] {
      var v := Render(ts);
      var rest := Render(ts[1..]);
      HeadIs(ts[0], rest);
      assert v == Spell(ts[0]) + " " + rest;
      assert v[|Spell(ts[0])|..] == " " + rest;
      assert (" " + rest)[1..] == rest;
      assert Trim(" " + rest) == Trim(rest);
      assert Lex(" " + rest) == Lex(rest);
      LexRender(ts[1..]);
      assert Lex(v) == [Head(v)] + Lex(v[HeadLen(v)..]);
    }
  }

  /** Parsing the printed form of any legal tree gives back that tree. */
  lemma RoundTrip(t: Tree)
    requires Legal(t)
    ensures GCmd(Render(Print(3, t))) == Ok(t, [])
  {
    PrintLegal(3, t);
    LexRender(Print(3, t));
    ReadBack(3, t, []);
    assert Print(3, t) + [] == Print(3, t);
  }

  // ---- The converse: the parser only builds trees that can be printed ------------------------

  lemma {:induction false} TrimLine(u: string)
    requires Line(u)
    ensures Line(Trim(u))
  {
    if u != [] && Space(u[0]) { TrimLine(u[1..]); }
  }

  lemma {:induction false} LexLegal(u: string)
    requires Line(u)
    ensures LegalToks(Lex(u))
    decreases |u|
  {
    var v := Trim(u);
    TrimLine(u);
    if v != [] { LexLegal(v[HeadLen(v)..]); }
  }

  ghost predicate LegalReds(rs: seq<Red>) { forall i :: 0 <= i < |rs| ==> LegalWord(rs[i].file) }

  lemma {:induction false} WrapLegal(c: Tree, rs: seq<Red>)
    requires Legal(c) && LegalReds(rs)
    ensures Legal(Wrap(c, rs))
  {
    if rs != [] { WrapLegal(c, rs[..|rs| - 1]); }
  }

  lemma {:induction false} GRedsLegal(rs: seq<Red>, ts: seq<Tok>)
    requires LegalReds(rs) && LegalToks(ts)
    ensures var r := GReds(rs, ts); r.RedsOk? ==> LegalReds(r.rs) && LegalToks(r.rest)
    decreases |ts|
  {
    if StartsRedir(ts) && |ts| >= 2 && ts[1].Word? {
      assert LegalTok(ts[1]);
      GRedsLegal(rs + [Red(ts[1].w, ts[0] != Sym('<'))], ts[2..]);
    }
  }

  ghost predicate LegalParsed(r: Parsed) { r.Ok? ==> Legal(r.cmd) && LegalToks(r.rest) }

  lemma {:induction false} GArgsLegal(argv: seq<string>, rs: seq<Red>, ts: seq<Tok>)
    requires Legal(Exec(argv)) && LegalReds(rs) && LegalToks(ts)
    ensures LegalParsed(GArgs(argv, rs, ts))
    decreases |ts|
  {
    hide LegalWord, Wrap;
    if ts == [] || Starts(ts, {'|', ')', '&', ';'}) {
      WrapLegal(Exec(argv), rs);
    } else if ts[0].Word? && |argv| + 1 < MAXARGS {
      assert LegalTok(ts[0]);
      GRedsLegal(rs, ts[1..]);
      var r := GReds(rs, ts[1..]);
      if r.RedsOk? { GArgsLegal(argv + [ts[0].w], r.rs, r.rest); }
    }
  }

  lemma {:induction false} GBacksLegal(c: Tree, ts: seq<Tok>)
    requires Legal(c) && LegalToks(ts)
    ensures LegalParsed(GBacks(c, ts))
    decreases |ts|
  {
    if Starts(ts, {'&'}) { GBacksLegal(Back(c), ts[1..]); }
  }

  lemma {:induction false} GExecLegal(ts: seq<Tok>)
    requires LegalToks(ts)
    ensures LegalParsed(GExec(ts))
    decreases |ts|, 1
  {
    hide LegalTok, Legal;
    if Starts(ts, {'('}) {
      GBlockLegal(ts);
    } else {
      GRedsLegal([], ts);
      var r := GReds([], ts);
      if r.RedsOk? { NoArgs(); GArgsLegal([], r.rs, r.rest); }
    }
  }

  lemma NoArgs()
    ensures Legal(Exec([]))
  {}

  lemma {:induction false} GBlockLegal(ts: seq<Tok>)
    requires LegalToks(ts) && Starts(ts, {'('})
    ensures LegalParsed(GBlock(ts))
    decreases |ts|, 0
  {
    hide LegalTok, Legal, Wrap;
    GLineLegal(ts[1..]);
    var r := GLine(ts[1..]);
    if r.Ok? && Starts(r.rest, {')'}) {
      GRedsLegal([], r.rest[1..]);
      var q := GReds([], r.rest[1..]);
      if q.RedsOk? { WrapLegal(r.cmd, q.rs); }
    }
  }

  lemma {:induction false} GPipeLegal(ts: seq<Tok>)
    requires LegalToks(ts)
    ensures LegalParsed(GPipe(ts))
    decreases |ts|, 2
  {
    hide LegalTok;
    GExecLegal(ts);
    var r := GExec(ts);
    if r.Ok? && Starts(r.rest, {'|'}) { GPipeLegal(r.rest[1..]); }
  }

  lemma {:induction false} GLineLegal(ts: seq<Tok>)
    requires LegalToks(ts)
    ensures LegalParsed(GLine(ts))
    decreases |ts|, 3
  {
    hide LegalTok;
    GPipeLegal(ts);
    var r := GPipe(ts);
    if r.Ok? {
      GBacksLegal(r.cmd, r.rest);
      var b := GBacks(r.cmd, r.rest);
      if Starts(b.rest, {';'}) { GLineLegal(b.rest[1..]); }
    }
  }

  /** The trees some line parses to are exactly the legal ones. */
  lemma ParsesIff(t: Tree)
    ensures Legal(t) <==> exists u: string :: Line(u) && GCmd(u) == Ok(t, [])
  {
    if Legal(t) {
      RoundTrip(t);
      PrintLegal(3, t);
      RenderLine(Print(3, t));
    } else {
      forall u: string | Line(u) ensures GCmd(u) != Ok(t, []) {
        LexLegal(u);
        GLineLegal(Lex(u));
      }
    }
  }

  lemma {:induction false} RenderLine(ts: seq<Tok>)
    requires LegalToks(ts)
    ensures Line(Render(ts))
  {
    if ts != [] {
      assert LegalTok(ts[0]);
      RenderLine(ts[1..]);
    }
  }
}
