/** Everything that can be written on a command line: concrete syntax, with any spacing of redirections among
    the words, > or >>, and any parentheses. The parser accepts exactly the token lists of well-formed
    syntax, and builds what they mean. */
module ShellSyntax {
  import opened ShellSpec
  import opened ShellRoundTrip
  import L = ShellLexing

  /** An argument, or a redirection `op` to or from a file. */
  datatype Item = Arg(w: string) | To(op: Tok, file: string)

  datatype Items = Nil | Cons(head: Item, tail: Items)

  datatype Syntax =
    | Simple(items: Items)                   // words and redirections in any order
    | Block(inner: Syntax, reds: Items)      // ( line ) and redirections
    | Piped(left: Syntax, right: Syntax)     // exec | pipe
    | Amp(cmd: Syntax)                       // pipe &
    | Semi(left: Syntax, right: Syntax)      // pipe & ; line

  predicate RedirOp(op: Tok) { op == Sym('<') || op == Sym('>') || op == Append }

  predicate ItemsOk(xs: Items) { xs.Cons? ==> (xs.head.To? ==> RedirOp(xs.head.op)) && ItemsOk(xs.tail) }

  function Args(xs: Items): seq<string> {
    match xs
    case Nil => []
    case Cons(Arg(w), tail) => [w] + Args(tail)
    case Cons(To(_, _), tail) => Args(tail)
  }

  /** Well-formed where the grammar expects an exec (0), a pipe (1), a pipe with & (2) or a line (3). */
  predicate WellFormed(lv: nat, x: Syntax)
    decreases x
  {
    match x
    case Simple(items) => ItemsOk(items) && |Args(items)| < MAXARGS
    case Block(inner, reds) => WellFormed(3, inner) && ItemsOk(reds) && Args(reds) == []
    case Piped(l, r) => lv >= 1 && WellFormed(0, l) && WellFormed(1, r)
    case Amp(c) => lv >= 2 && WellFormed(2, c)
    case Semi(l, r) => lv >= 3 && WellFormed(2, l) && WellFormed(3, r)
  }

  // ---- What it looks like ----------------------------------------------------------------

  function ItemsToks(xs: Items): seq<Tok> {
    match xs
    case Nil => []
    case Cons(Arg(w), tail) => [Word(w)] + ItemsToks(tail)
    case Cons(To(op, file), tail) => [op, Word(file)] + ItemsToks(tail)
  }

  function Toks(x: Syntax): seq<Tok> {
    match x
    case Simple(items) => ItemsToks(items)
    case Block(inner, reds) => [Sym('(')] + Toks(inner) + [Sym(')')] + ItemsToks(reds)
    case Piped(l, r) => Toks(l) + [Sym('|')] + Toks(r)
    case Amp(c) => Toks(c) + [Sym('&')]
    case Semi(l, r) => Toks(l) + [Sym(';')] + Toks(r)
  }

  // ---- What it means ---------------------------------------------------------------------

  /** < reads the file as descriptor 0; > and >> both write it as descriptor 1. */
  function Redirected(c: Tree, xs: Items): Tree
    decreases xs
  {
    match xs
    case Nil => c
    case Cons(Arg(_), tail) => Redirected(c, tail)
    case Cons(To(op, file), tail) =>
      Redirected(if op == Sym('<') then Redir(c, file, O_RDONLY, 0) else Redir(c, file, O_WRONLY_CREATE, 1), tail)
  }

  function Meaning(x: Syntax): Tree {
    match x
    case Simple(items) => Redirected(Exec(Args(items)), items)
    case Block(inner, reds) => Redirected(Meaning(inner), reds)
    case Piped(l, r) => Pipe(Meaning(l), Meaning(r))
    case Amp(c) => Back(Meaning(c))
    case Semi(l, r) => List(Meaning(l), Meaning(r))
  }

  /** rs and then the redirections among the items. */
  function Reds(rs: seq<Red>, xs: Items): seq<Red>
    decreases xs
  {
    match xs
    case Nil => rs
    case Cons(Arg(_), tail) => Reds(rs, tail)
    case Cons(To(op, file), tail) => Reds(rs + [Red(file, op != Sym('<'))], tail)
  }

  /** argv and then the arguments among the items. */
  function Argv(argv: seq<string>, xs: Items): seq<string>
    decreases xs
  {
    match xs
    case Nil => argv
    case Cons(Arg(w), tail) => Argv(argv + [w], tail)
    case Cons(To(_, _), tail) => Argv(argv, tail)
  }

  lemma {:induction false} ArgvArgs(argv: seq<string>, xs: Items)
    ensures Argv(argv, xs) == argv + Args(xs)
    decreases xs
  {
    match xs
    case Nil =>
    case Cons(Arg(w), tail) => ArgvArgs(argv + [w], tail);
    case Cons(To(_, _), tail) => ArgvArgs(argv, tail);
  }

  lemma WrapMore(c: Tree, rs: seq<Red>, r: Red)
    ensures Wrap(c, rs + [r]) ==
              Redir(Wrap(c, rs), r.file, if r.out then O_WRONLY_CREATE else O_RDONLY, if r.out then 1 else 0)
  {
    assert (rs + [r])[..|rs|] == rs;
  }

  lemma {:induction false} WrapItems(c: Tree, rs: seq<Red>, xs: Items)
    ensures Wrap(c, Reds(rs, xs)) == Redirected(Wrap(c, rs), xs)
    decreases xs
  {
    hide Wrap;
    match xs
    case Nil =>
    case Cons(Arg(_), tail) => WrapItems(c, rs, tail);
    case Cons(To(op, file), tail) =>
      WrapMore(c, rs, Red(file, op != Sym('<')));
      WrapItems(c, rs + [Red(file, op != Sym('<'))], tail);
  }

  lemma WrapNone(c: Tree)
    ensures Wrap(c, []) == c
  {}

  // ---- All of it is accepted -------------------------------------------------------------

  lemma OnwardTo(base: Tree, rs: seq<Red>, op: Tok, file: string, rest: seq<Tok>)
    requires RedirOp(op)
    ensures Onward(base, rs, [op, Word(file)] + rest) == Onward(base, rs + [Red(file, op != Sym('<'))], rest)
  {
    RedsTo(rs, op, file, rest);
  }

  lemma RedsTo(rs: seq<Red>, op: Tok, file: string, rest: seq<Tok>)
    requires RedirOp(op)
    ensures GReds(rs, [op, Word(file)] + rest) == GReds(rs + [Red(file, op != Sym('<'))], rest)
  {
    var ts := [op, Word(file)] + rest;
    assert ts[2..] == rest && ts[0] == op && ts[1] == Word(file);
    assert StartsRedir(ts);
  }

  lemma OnwardArg(argv: seq<string>, rs: seq<Red>, w: string, rest: seq<Tok>)
    requires |argv| + 1 < MAXARGS
    ensures Onward(Exec(argv), rs, [Word(w)] + rest) == Onward(Exec(argv + [w]), rs, rest)
  {
    var ts := [Word(w)] + rest;
    assert ts[0] == Word(w) && ts[1..] == rest;
    assert GReds(rs, ts) == RedsOk(rs, ts);
  }

  lemma Join(a: seq<Tok>, b: seq<Tok>, c: seq<Tok>)
    ensures a + b + c == a + (b + c)
  {}

  lemma {:induction false} AcceptItems(argv: seq<string>, rs: seq<Red>, xs: Items, rest: seq<Tok>)
    requires ItemsOk(xs) && |argv| + |Args(xs)| < MAXARGS && Stop(rest)
    ensures Onward(Exec(argv), rs, ItemsToks(xs) + rest) == Ok(Wrap(Exec(Argv(argv, xs)), Reds(rs, xs)), rest)
    decreases xs
  {
    hide Onward, Wrap, Stop;
    match xs
    case Nil =>
      assert ItemsToks(xs) + rest == rest;
      OnwardStop(Exec(argv), rs, rest);
    case Cons(Arg(w), tail) =>
      Join([Word(w)], ItemsToks(tail), rest);
      OnwardArg(argv, rs, w, ItemsToks(tail) + rest);
      AcceptItems(argv + [w], rs, tail, rest);
    case Cons(To(op, file), tail) =>
      Join([op, Word(file)], ItemsToks(tail), rest);
      OnwardTo(Exec(argv), rs, op, file, ItemsToks(tail) + rest);
      AcceptItems(argv, rs + [Red(file, op != Sym('<'))], tail, rest);
  }

  lemma {:induction false} AcceptReds(rs: seq<Red>, xs: Items, rest: seq<Tok>)
    requires ItemsOk(xs) && Args(xs) == [] && Stop(rest)
    ensures GReds(rs, ItemsToks(xs) + rest) == RedsOk(Reds(rs, xs), rest)
    decreases xs
  {
    hide GReds;
    match xs
    case Nil =>
      assert ItemsToks(xs) + rest == rest;
      NoReds(rs, rest);
    case Cons(To(op, file), tail) =>
      Join([op, Word(file)], ItemsToks(tail), rest);
      RedsTo(rs, op, file, ItemsToks(tail) + rest);
      AcceptReds(rs + [Red(file, op != Sym('<'))], tail, rest);
  }

  lemma NoReds(rs: seq<Red>, rest: seq<Tok>)
    requires Stop(rest)
    ensures GReds(rs, rest) == RedsOk(rs, rest)
  {}

  lemma ExecOnward(ts: seq<Tok>)
    requires !Starts(ts, {'('})
    ensures GExec(ts) == Onward(Exec([]), [], ts)
  {}

  lemma NoParen(items: Items, rest: seq<Tok>)
    requires ItemsOk(items) && Stop(rest)
    ensures !Starts(ItemsToks(items) + rest, {'('})
  {
    match items
    case Nil => assert ItemsToks(items) + rest == rest;
    case Cons(_, _) => assert (ItemsToks(items) + rest)[0] == ItemsToks(items)[0];
  }

  lemma AcceptSimple(items: Items, rest: seq<Tok>)
    requires ItemsOk(items) && |Args(items)| < MAXARGS && Stop(rest)
    ensures GExec(ItemsToks(items) + rest) == Ok(Redirected(Exec(Args(items)), items), rest)
  {
    hide GExec, Onward, Wrap, ItemsToks, Reds, Argv;
    NoParen(items, rest);
    ExecOnward(ItemsToks(items) + rest);
    AcceptItems([], [], items, rest);
    ArgvArgs([], items);
    assert [] + Args(items) == Args(items);
    WrapItems(Exec(Args(items)), [], items);
    WrapNone(Exec(Args(items)));
  }

  lemma BlockThen(ts: seq<Tok>, c: Tree, rest: seq<Tok>, rs: seq<Red>, rest': seq<Tok>)
    requires Starts(ts, {'('}) && GLine(ts[1..]) == Ok(c, rest) && Starts(rest, {')'})
    requires GReds([], rest[1..]) == RedsOk(rs, rest')
    ensures GExec(ts) == Ok(Wrap(c, rs), rest')
  {
    hide GLine, Wrap, GReds;
  }

  lemma AcceptBlock(inner: Syntax, reds: Items, rest: seq<Tok>)
    requires ItemsOk(reds) && Args(reds) == [] && Stop(rest)
    requires var tail := [Sym(')')] + (ItemsToks(reds) + rest); GLine(Toks(inner) + tail) == Ok(Meaning(inner), tail)
    ensures GExec([Sym('(')] + Toks(inner) + [Sym(')')] + ItemsToks(reds) + rest) ==
              Ok(Redirected(Meaning(inner), reds), rest)
  {
    hide GLine, Wrap, GExec, GReds, ItemsToks, Toks, Meaning, Reds;
    var tail := [Sym(')')] + (ItemsToks(reds) + rest);
    var ts := [Sym('(')] + (Toks(inner) + tail);
    assert [Sym('(')] + Toks(inner) + [Sym(')')] + ItemsToks(reds) + rest == ts;
    assert ts[1..] == Toks(inner) + tail && tail[1..] == ItemsToks(reds) + rest;
    AcceptReds([], reds, rest);
    BlockThen(ts, Meaning(inner), tail, Reds([], reds), rest);
    WrapItems(Meaning(inner), [], reds);
    WrapNone(Meaning(inner));
  }

  /** What the parser of level lv makes of tokens that start with x's. */
  predicate Accepts(lv: nat, x: Syntax, rest: seq<Tok>)
    requires lv <= 3
  {
    var ts := Toks(x) + rest;
    match lv
    case 0 => GExec(ts) == Ok(Meaning(x), rest)
    case 1 => GPipe(ts) == Ok(Meaning(x), rest)
    case 2 => GSeg(ts) == GBacks(Meaning(x), rest)
    case _ => GLine(ts) == Ok(Meaning(x), rest)
  }

  /** What may follow. */
  predicate Next(lv: nat, rest: seq<Tok>) { if lv == 0 then Stop(rest) else Follows(lv, rest) }

  lemma AcceptPiped(l: Syntax, r: Syntax, rest: seq<Tok>)
    requires Accepts(0, l, [Sym('|')] + Toks(r) + rest) && Accepts(1, r, rest)
    ensures Accepts(1, Piped(l, r), rest)
  {
    hide GExec, GPipe;
    var tail := [Sym('|')] + Toks(r) + rest;
    assert Toks(Piped(l, r)) + rest == Toks(l) + tail && tail[1..] == Toks(r) + rest;
    ExecThenPipe(Toks(l) + tail, Meaning(l), tail, Meaning(r), rest);
  }

  lemma AcceptAmp(c: Syntax, rest: seq<Tok>)
    requires Accepts(2, c, [Sym('&')] + rest)
    ensures Accepts(2, Amp(c), rest)
  {
    assert Toks(Amp(c)) + rest == Toks(c) + ([Sym('&')] + rest);
    assert ([Sym('&')] + rest)[1..] == rest;
  }

  lemma AcceptSemi(l: Syntax, r: Syntax, rest: seq<Tok>)
    requires Accepts(2, l, [Sym(';')] + Toks(r) + rest) && Accepts(3, r, rest)
    ensures Accepts(3, Semi(l, r), rest)
  {
    var tail := [Sym(';')] + Toks(r) + rest;
    assert Toks(Semi(l, r)) + rest == Toks(l) + tail && tail[1..] == Toks(r) + rest;
    SegThenLine(Toks(l) + tail, Meaning(l), tail, Meaning(r), rest);
  }

  /** A pipe is what an exec is when no | follows, and so on up. */
  lemma Upward(lv: nat, x: Syntax, rest: seq<Tok>)
    requires lv < 3 && Accepts(lv, x, rest) && Next(lv + 1, rest) && Next(lv, rest)
    ensures Accepts(lv + 1, x, rest)
  {
    if lv == 2 { LineIsSeg(Toks(x) + rest); }
  }

  function Own(x: Syntax): nat {
    match x
    case Simple(_) => 0
    case Block(_, _) => 0
    case Piped(_, _) => 1
    case Amp(_) => 2
    case Semi(_, _) => 3
  }

  /** Every parser accepts every well-formed piece of its level, stops after it, and builds its meaning. */
  lemma {:induction false} Complete(lv: nat, x: Syntax, rest: seq<Tok>)
    requires lv <= 3 && WellFormed(lv, x) && Next(lv, rest)
    ensures Accepts(lv, x, rest)
    decreases x, lv
  {
    hide Accepts;
    if lv > Own(x) {
      Complete(lv - 1, x, rest);
      Upward(lv - 1, x, rest);
    } else {
      match x
      case Simple(items) =>
        AcceptSimple(items, rest);
        AcceptsExec(x, rest);
      case Block(inner, reds) =>
        var tail := [Sym(')')] + (ItemsToks(reds) + rest);
        Complete(3, inner, tail);
        AcceptsLine(inner, tail);
        AcceptBlock(inner, reds, rest);
        AcceptsExec(x, rest);
      case Piped(l, r) =>
        Complete(0, l, [Sym('|')] + Toks(r) + rest);
        Complete(1, r, rest);
        AcceptPiped(l, r, rest);
      case Amp(c) =>
        Complete(2, c, [Sym('&')] + rest);
        AcceptAmp(c, rest);
      case Semi(l, r) =>
        Complete(2, l, [Sym(';')] + Toks(r) + rest);
        Complete(3, r, rest);
        AcceptSemi(l, r, rest);
    }
  }

  lemma AcceptsExec(x: Syntax, rest: seq<Tok>)
    ensures Accepts(0, x, rest) <==> GExec(Toks(x) + rest) == Ok(Meaning(x), rest)
  {}

  lemma AcceptsLine(x: Syntax, rest: seq<Tok>)
    ensures Accepts(3, x, rest) <==> GLine(Toks(x) + rest) == Ok(Meaning(x), rest)
  {}

  // ---- Nothing else is -------------------------------------------------------------------

  /** GReds has read the redirections before `more`. */
  lemma {:induction false} SoundReds(rs: seq<Red>, ts: seq<Tok>, more: Items, rest: seq<Tok>) returns (xs: Items)
    requires GReds(rs, ts).RedsOk? && GReds(rs, ts).rest == ItemsToks(more) + rest && ItemsOk(more)
    ensures ItemsOk(xs) && ts == ItemsToks(xs) + rest
    ensures Args(xs) == Args(more) && Reds(rs, xs) == Reds(GReds(rs, ts).rs, more)
    decreases |ts|
  {
    hide Starts;
    if !StartsRedir(ts) {
      xs := more;
    } else {
      var tail := SoundReds(rs + [Red(ts[1].w, ts[0] != Sym('<'))], ts[2..], more, rest);
      xs := Cons(To(ts[0], ts[1].w), tail);
      RedirFirst(ts);
      assert ts == [ts[0], Word(ts[1].w)] + ts[2..];
      Join([ts[0], Word(ts[1].w)], ItemsToks(tail), rest);
    }
  }

  lemma RedirFirst(ts: seq<Tok>)
    requires StartsRedir(ts)
    ensures RedirOp(ts[0])
  {}

  lemma {:induction false} SoundArgs(argv: seq<string>, rs: seq<Red>, ts: seq<Tok>) returns (xs: Items)
    requires GArgs(argv, rs, ts).Ok? && |argv| < MAXARGS
    ensures ItemsOk(xs) && |argv| + |Args(xs)| < MAXARGS
    ensures var r := GArgs(argv, rs, ts);
            ts == ItemsToks(xs) + r.rest && r.cmd == Wrap(Exec(Argv(argv, xs)), Reds(rs, xs))
    decreases |ts|
  {
    hide Wrap, GReds, Starts;
    if ts == [] || Starts(ts, {'|', ')', '&', ';'}) {
      xs := Nil;
      assert ItemsToks(xs) + ts == ts;
    } else {
      var w, q := ts[0].w, GReds(rs, ts[1..]);
      var r := GArgs(argv + [w], q.rs, q.rest);
      var more := SoundArgs(argv + [w], q.rs, q.rest);
      var reds := SoundReds(rs, ts[1..], more, r.rest);
      xs := Cons(Arg(w), reds);
      assert ts == [Word(w)] + ts[1..];
      Join([Word(w)], ItemsToks(reds), r.rest);
      ArgvArgs(argv + [w], more);
      ArgvArgs(argv + [w], reds);
    }
  }

  /** ts starts with the tokens of x, which means c, and `rest` is what follows. */
  predicate Read(lv: nat, x: Syntax, ts: seq<Tok>, c: Tree, rest: seq<Tok>) {
    WellFormed(lv, x) && ts == Toks(x) + rest && c == Meaning(x)
  }

  lemma SoundSimple(ts: seq<Tok>) returns (x: Syntax)
    requires !Starts(ts, {'('}) && GExec(ts).Ok?
    ensures Read(0, x, ts, GExec(ts).cmd, GExec(ts).rest)
  {
    hide Wrap, GReds, GArgs, Reds, Argv, ItemsToks;
    var q := GReds([], ts);
    var r := GArgs([], q.rs, q.rest);
    var more := SoundArgs([], q.rs, q.rest);
    var items := SoundReds([], ts, more, r.rest);
    x := Simple(items);
    ArgvArgs([], more);
    assert [] + Args(more) == Args(items);
    WrapItems(Exec(Args(items)), [], items);
    WrapNone(Exec(Args(items)));
  }

  lemma {:induction false} SoundExec(ts: seq<Tok>) returns (x: Syntax)
    requires GExec(ts).Ok?
    ensures Read(0, x, ts, GExec(ts).cmd, GExec(ts).rest)
    decreases |ts|, 1
  {
    hide Read, GBlock;
    if Starts(ts, {'('}) {
      x := SoundBlock(ts);
    } else {
      x := SoundSimple(ts);
    }
  }

  lemma {:induction false} SoundBlock(ts: seq<Tok>) returns (x: Syntax)
    requires Starts(ts, {'('}) && GBlock(ts).Ok?
    ensures Read(0, x, ts, GBlock(ts).cmd, GBlock(ts).rest)
    decreases |ts|, 0
  {
    hide Wrap, GReds, GLine, Reds, ItemsToks;
    var inner := SoundLine(ts[1..]);
    var r := GLine(ts[1..]);
    var q := GReds([], r.rest[1..]);
    NoItems(q.rest);
    var reds := SoundReds([], r.rest[1..], Nil, q.rest);
    x := Block(inner, reds);
    assert Reds(q.rs, Nil) == q.rs by { RedsNil(q.rs); }
    WrapItems(r.cmd, [], reds);
    WrapNone(r.cmd);
    Parens(ts, Toks(inner), r.rest, ItemsToks(reds), q.rest);
  }

  lemma RedsNil(rs: seq<Red>)
    ensures Reds(rs, Nil) == rs
  {}

  lemma NoItems(rest: seq<Tok>)
    ensures ItemsToks(Nil) + rest == rest
  {}

  lemma Parens(ts: seq<Tok>, a: seq<Tok>, mid: seq<Tok>, b: seq<Tok>, rest: seq<Tok>)
    requires Starts(ts, {'('}) && ts[1..] == a + mid && Starts(mid, {')'}) && mid[1..] == b + rest
    ensures ts == [Sym('(')] + a + [Sym(')')] + b + rest
  {
    assert ts == [Sym('(')] + ts[1..] && mid == [Sym(')')] + mid[1..];
  }

  lemma {:induction false} SoundPipe(ts: seq<Tok>) returns (x: Syntax)
    requires GPipe(ts).Ok?
    ensures Read(1, x, ts, GPipe(ts).cmd, GPipe(ts).rest)
    decreases |ts|, 2
  {
    hide GExec, Read;
    var l := SoundExec(ts);
    var r := GExec(ts);
    if Starts(r.rest, {'|'}) {
      var y := SoundPipe(r.rest[1..]);
      x := Piped(l, y);
      ReadPiped(l, y, ts, r.cmd, r.rest, GPipe(r.rest[1..]).cmd, GPipe(r.rest[1..]).rest);
    } else {
      x := l;
      ReadLooser(0, l, ts, r.cmd, r.rest);
    }
  }

  lemma ReadPiped(l: Syntax, r: Syntax, ts: seq<Tok>, c: Tree, mid: seq<Tok>, c': Tree, rest: seq<Tok>)
    requires Read(0, l, ts, c, mid) && Starts(mid, {'|'}) && Read(1, r, mid[1..], c', rest)
    ensures Read(1, Piped(l, r), ts, Pipe(c, c'), rest)
  {
    Joined(ts, Toks(l), mid, Toks(r), rest);
  }

  lemma ReadSemi(l: Syntax, r: Syntax, ts: seq<Tok>, c: Tree, mid: seq<Tok>, c': Tree, rest: seq<Tok>)
    requires Read(2, l, ts, c, mid) && Starts(mid, {';'}) && Read(3, r, mid[1..], c', rest)
    ensures Read(3, Semi(l, r), ts, List(c, c'), rest)
  {
    Joined(ts, Toks(l), mid, Toks(r), rest);
  }

  lemma Joined(ts: seq<Tok>, a: seq<Tok>, mid: seq<Tok>, b: seq<Tok>, rest: seq<Tok>)
    requires ts == a + mid && mid != [] && mid[1..] == b + rest
    ensures ts == a + [mid[0]] + b + rest
  {
    assert mid == [mid[0]] + mid[1..];
  }

  lemma ReadLooser(lv: nat, x: Syntax, ts: seq<Tok>, c: Tree, rest: seq<Tok>)
    requires Read(lv, x, ts, c, rest)
    ensures Read(lv + 1, x, ts, c, rest)
  {
    Looser(lv, x);
  }

  lemma Looser(lv: nat, x: Syntax)
    requires WellFormed(lv, x)
    ensures WellFormed(lv + 1, x)
  {}

  lemma {:induction false} SoundBacks(y: Syntax, ts: seq<Tok>) returns (x: Syntax)
    requires WellFormed(2, y)
    ensures var r := GBacks(Meaning(y), ts); Read(2, x, Toks(y) + ts, r.cmd, r.rest)
    decreases |ts|
  {
    if Starts(ts, {'&'}) {
      x := SoundBacks(Amp(y), ts[1..]);
      assert ts == [Sym('&')] + ts[1..];
      assert Toks(Amp(y)) + ts[1..] == Toks(y) + ts;
    } else {
      x := y;
    }
  }

  lemma {:induction false} SoundLine(ts: seq<Tok>) returns (x: Syntax)
    requires GLine(ts).Ok?
    ensures Read(3, x, ts, GLine(ts).cmd, GLine(ts).rest)
    decreases |ts|, 3
  {
    hide GPipe, GBacks, Read;
    var p := SoundPipe(ts);
    var q := GPipe(ts);
    ReadLooser(1, p, ts, q.cmd, q.rest);
    var l := ReadBacks(p, ts, q.cmd, q.rest);
    var b := GBacks(q.cmd, q.rest);
    if Starts(b.rest, {';'}) {
      var y := SoundLine(b.rest[1..]);
      x := Semi(l, y);
      ReadSemi(l, y, ts, b.cmd, b.rest, GLine(b.rest[1..]).cmd, GLine(b.rest[1..]).rest);
    } else {
      x := l;
      ReadLooser(2, l, ts, b.cmd, b.rest);
    }
  }

  lemma ReadBacks(y: Syntax, ts: seq<Tok>, c: Tree, mid: seq<Tok>) returns (x: Syntax)
    requires Read(2, y, ts, c, mid)
    ensures Read(2, x, ts, GBacks(c, mid).cmd, GBacks(c, mid).rest)
  {
    x := SoundBacks(y, mid);
  }

  /** x is a way to write t with the tokens ts. */
  predicate Writes(x: Syntax, ts: seq<Tok>, t: Tree) { WellFormed(3, x) && Toks(x) == ts && Meaning(x) == t }

  /** parseline reads all of ts as t exactly when ts is a way to write t. */
  lemma GrammarIff(ts: seq<Tok>, t: Tree)
    ensures GLine(ts) == Ok(t, []) <==> exists x :: Writes(x, ts, t)
  {
    hide GLine, WellFormed, Toks, Meaning;
    if GLine(ts) == Ok(t, []) {
      var x := SoundLine(ts);
      assert Toks(x) + [] == Toks(x);
      assert Writes(x, ts, t);
    }
    forall x | Writes(x, ts, t) ensures GLine(ts) == Ok(t, []) {
      Complete(3, x, []);
      AcceptsLine(x, []);
      assert Toks(x) + [] == Toks(x);
    }
  }

  /** parsecmd reads a line as t exactly when the line lays out the tokens of a way to write t. */
  lemma CommandIff(u: string, t: Tree)
    ensures GCmd(u) == Ok(t, []) <==>
              exists l, x :: L.Proper(l) && L.Text(l) == u && Writes(x, L.Tokens(l), t)
  {
    hide GLine, Lex, Writes, L.Proper, L.Text, L.Tokens;
    GrammarIff(Lex(u), t);
    if GCmd(u) == Ok(t, []) {
      var l := L.LayoutOf(u);
      var x :| Writes(x, Lex(u), t);
      assert L.Proper(l) && Writes(x, L.Tokens(l), t);
    }
    forall l, x | L.Proper(l) && L.Text(l) == u && Writes(x, L.Tokens(l), t) ensures GCmd(u) == Ok(t, []) {
      L.LexLaid(l);
      assert Writes(x, Lex(u), t);
    }
  }
}
