/** The shell's command language: tokens of a line, the grammar sh.c parses, and a printer. */
module ShellSpec {

  const MAXARGS: nat := 10
  const O_RDONLY: nat := 0
  const O_WRONLY_CREATE: nat := 0x201   // O_WRONLY | O_CREATE

  const NUL: char := '\0'

  /** A command line: what comes before the NUL. */
  predicate Line(s: string) { forall i :: 0 <= i < |s| ==> s[i] != NUL }

  predicate Space(c: char) { c in " \t\r\n" || c == '\U{B}' }

  predicate Symbol(c: char) { c in "<|>&;()" }

  predicate Delimiter(c: char) { Space(c) || Symbol(c) }

  /** Words are given by their text (W = string) or by their place in the line (W = Span). */
  datatype Cmd<W> =
    | Exec(argv: seq<W>)
    | Redir(cmd: Cmd<W>, file: W, mode: nat, fd: nat)
    | Pipe(left: Cmd<W>, right: Cmd<W>)
    | List(left: Cmd<W>, right: Cmd<W>)
    | Back(cmd: Cmd<W>)

  type Tree = Cmd<string>

  // ---- Tokens ----------------------------------------------------------------------------

  /** gettoken's return values: a symbol, '+' for >>, 'a' for a word. */
  datatype Tok = Sym(c: char) | Append | Word(w: string)

  function Trim(u: string): (v: string)
    ensures |v| <= |u| && (v != [] ==> !Space(v[0]))
  {
    if u != [] && Space(u[0]) then Trim(u[1..]) else u
  }

  /** Length of the longest prefix without a delimiter. */
  function WordLen(u: string): (n: nat)
    ensures n <= |u| && (n < |u| ==> Delimiter(u[n])) && (forall i :: 0 <= i < n ==> !Delimiter(u[i]))
  {
    if u == [] || Delimiter(u[0]) then 0 else 1 + WordLen(u[1..])
  }

  /** Length of the token u starts with. */
  function HeadLen(u: string): (n: nat)
    requires u != [] && !Space(u[0])
    ensures 1 <= n <= |u|
  {
    if u[0] == '>' && 1 < |u| && u[1] == '>' then 2 else if Symbol(u[0]) then 1 else WordLen(u)
  }

  function Head(u: string): Tok
    requires u != [] && !Space(u[0])
  {
    if u[0] == '>' && 1 < |u| && u[1] == '>' then Append else if Symbol(u[0]) then Sym(u[0]) else Word(u[..WordLen(u)])
  }

  /** The tokens of a line. */
  function Lex(u: string): seq<Tok>
    decreases |u|
  {
    var v := Trim(u);
    if v == [] then [] else [Head(v)] + Lex(v[HeadLen(v)..])
  }

  // ---- Grammar ---------------------------------------------------------------------------

  /** A redirection waiting to be wrapped around a command. */
  datatype Red = Red(file: string, out: bool)

  function Wrap(c: Tree, rs: seq<Red>): Tree
    decreases |rs|
  {
    if rs == [] then c
    else
      var r := rs[|rs| - 1];
      Redir(Wrap(c, rs[..|rs| - 1]), r.file, if r.out then O_WRONLY_CREATE else O_RDONLY, if r.out then 1 else 0)
  }

  datatype Parsed = Ok(cmd: Tree, rest: seq<Tok>) | Panic

  datatype Reds = RedsOk(rs: seq<Red>, rest: seq<Tok>) | RedsPanic

  predicate Starts(ts: seq<Tok>, cs: set<char>) { ts != [] && ts[0].Sym? && ts[0].c in cs }

  predicate StartsRedir(ts: seq<Tok>) { ts != [] && (ts[0] == Append || Starts(ts, {'<', '>'})) }

  function GReds(rs: seq<Red>, ts: seq<Tok>): (r: Reds)
    ensures r.RedsOk? ==> |r.rest| <= |ts| && !StartsRedir(r.rest)
    decreases |ts|
  {
    if !StartsRedir(ts) then RedsOk(rs, ts)
    else if |ts| < 2 || !ts[1].Word? then RedsPanic
    else GReds(rs + [Red(ts[1].w, ts[0] != Sym('<'))], ts[2..])
  }

  function GArgs(argv: seq<string>, rs: seq<Red>, ts: seq<Tok>): (r: Parsed)
    ensures r.Ok? ==> |r.rest| <= |ts|
    decreases |ts|
  {
    if ts == [] || Starts(ts, {'|', ')', '&', ';'}) then Ok(Wrap(Exec(argv), rs), ts)
    else if !ts[0].Word? || |argv| + 1 >= MAXARGS then Panic
    else match GReds(rs, ts[1..])
      case RedsPanic => Panic
      case RedsOk(rs', rest) => GArgs(argv + [ts[0].w], rs', rest)
  }

  function GExec(ts: seq<Tok>): (r: Parsed)
    ensures r.Ok? ==> |r.rest| <= |ts|
    decreases |ts|, 1
  {
    if Starts(ts, {'('}) then GBlock(ts)
    else match GReds([], ts)
      case RedsPanic => Panic
      case RedsOk(rs, rest) => GArgs([], rs, rest)
  }

  function GBlock(ts: seq<Tok>): (r: Parsed)
    requires Starts(ts, {'('})
    ensures r.Ok? ==> |r.rest| < |ts|
    decreases |ts|, 0
  {
    match GLine(ts[1..])
    case Panic => Panic
    case Ok(c, rest) =>
      if !Starts(rest, {')'}) then Panic
      else match GReds([], rest[1..])
        case RedsPanic => Panic
        case RedsOk(rs, rest') => Ok(Wrap(c, rs), rest')
  }

  function GPipe(ts: seq<Tok>): (r: Parsed)
    ensures r.Ok? ==> |r.rest| <= |ts|
    decreases |ts|, 2
  {
    match GExec(ts)
    case Panic => Panic
    case Ok(c, rest) =>
      if !Starts(rest, {'|'}) then Ok(c, rest)
      else match GPipe(rest[1..])
        case Panic => Panic
        case Ok(c', rest') => Ok(Pipe(c, c'), rest')
  }

  function GBacks(c: Tree, ts: seq<Tok>): (r: Parsed)
    ensures r.Ok? && |r.rest| <= |ts| && !Starts(r.rest, {'&'})
    decreases |ts|
  {
    if Starts(ts, {'&'}) then GBacks(Back(c), ts[1..]) else Ok(c, ts)
  }

  function GLine(ts: seq<Tok>): (r: Parsed)
    ensures r.Ok? ==> |r.rest| <= |ts|
    decreases |ts|, 3
  {
    match GPipe(ts)
    case Panic => Panic
    case Ok(c, rest) =>
      var b := GBacks(c, rest);
      if !Starts(b.rest, {';'}) then b
      else match GLine(b.rest[1..])
        case Panic => Panic
        case Ok(c', rest') => Ok(List(b.cmd, c'), rest')
  }

  /** parsecmd: the whole line or nothing. */
  function GCmd(u: string): Parsed {
    match GLine(Lex(u))
    case Panic => Panic
    case Ok(c, rest) => if rest == [] then Ok(c, []) else Panic
  }

  // ---- Printing --------------------------------------------------------------------------

  predicate LegalWord(w: string) { w != [] && forall i :: 0 <= i < |w| ==> !Delimiter(w[i]) && w[i] != NUL }

  predicate Legal(t: Tree) {
    match t
    case Exec(argv) => |argv| < MAXARGS && forall i :: 0 <= i < |argv| ==> LegalWord(argv[i])
    case Redir(c, file, mode, fd) =>
      Legal(c) && LegalWord(file) && ((mode == O_RDONLY && fd == 0) || (mode == O_WRONLY_CREATE && fd == 1))
    case Pipe(l, r) => Legal(l) && Legal(r)
    case List(l, r) => Legal(l) && Legal(r)
    case Back(c) => Legal(c)
  }

  function Words(argv: seq<string>): (ts: seq<Tok>)
    ensures |ts| == |argv| && forall i :: 0 <= i < |argv| ==> ts[i] == Word(argv[i])
  {
    seq(|argv|, i requires 0 <= i < |argv| => Word(argv[i]))
  }

  function Paren(wrapped: bool, ts: seq<Tok>): seq<Tok> { if wrapped then [Sym('(')] + ts + [Sym(')')] else ts }

  function Op(mode: nat): Tok { if mode == O_RDONLY then Sym('<') else Sym('>') }

  /** The tokens of t where the grammar expects an exec (0), a pipe (1), a pipe with & (2) or a line (3). */
  function Print(lv: nat, t: Tree): seq<Tok>
    decreases t
  {
    match t
    case Exec(argv) => Words(argv)
    case Redir(c, file, mode, fd) => Print(0, c) + [Op(mode), Word(file)]
    case Pipe(l, r) => Paren(lv < 1, Print(0, l) + [Sym('|')] + Print(1, r))
    case Back(c) => Paren(lv < 2, Print(2, c) + [Sym('&')])
    case List(l, r) => Paren(lv < 3, Print(2, l) + [Sym(';')] + Print(3, r))
  }

  function Spell(tok: Tok): string {
    match tok
    case Sym(c) => [c]
    case Append => ">>"
    case Word(w) => w
  }

  /** Tokens with a blank after each. */
  function Render(ts: seq<Tok>): string {
    if ts == [] then [] else Spell(ts[0]) + " " + Render(ts[1..])
  }
}
