/** parsecmd on the line buffer. nulterminate overwrites the character after each word; every argument
    and file name then reads, as a C string, as exactly its token. */
module ShellMemory {
  import opened ShellSpec
  import opened ShellRoundTrip
  import opened ShellCode

  /** The C string at index q: up to the first NUL. */
  function CString(buf: seq<char>, q: nat): string
    decreases |buf| - q
  {
    if q < |buf| && buf[q] != NUL then [buf[q]] + CString(buf, q + 1) else []
  }

  function CStrings(buf: seq<char>, ws: seq<Span>): (r: seq<string>)
    ensures |r| == |ws| && forall i :: 0 <= i < |ws| ==> r[i] == CString(buf, ws[i].q)
  {
    seq(|ws|, i requires 0 <= i < |ws| => CString(buf, ws[i].q))
  }

  /** The command as runcmd finds it: each word a char pointer. */
  function InMemory(buf: seq<char>, c: Cmd<Span>): Tree {
    match c
    case Exec(argv) => Exec(CStrings(buf, argv))
    case Redir(c, file, mode, fd) => Redir(InMemory(buf, c), CString(buf, file.q), mode, fd)
    case Pipe(l, r) => Pipe(InMemory(buf, l), InMemory(buf, r))
    case List(l, r) => List(InMemory(buf, l), InMemory(buf, r))
    case Back(c) => Back(InMemory(buf, c))
  }

  /** Where nulterminate stores NULs. */
  function Ends(c: Cmd<Span>): set<nat> {
    match c
    case Exec(argv) => set i | 0 <= i < |argv| :: argv[i].eq
    case Redir(c, file, mode, fd) => Ends(c) + {file.eq}
    case Pipe(l, r) => Ends(l) + Ends(r)
    case List(l, r) => Ends(l) + Ends(r)
    case Back(c) => Ends(c)
  }

  /** buf' is buf with NULs at the places in `ends`, and otherwise unchanged. */
  ghost predicate Cut(buf: seq<char>, buf': seq<char>, ends: set<nat>) {
    |buf'| == |buf| && forall k: nat :: k < |buf| ==> buf'[k] == if k in ends then NUL else buf[k]
  }

  lemma CutTwice(a: seq<char>, b: seq<char>, c: seq<char>, e: set<nat>, f: set<nat>)
    requires Cut(a, b, e) && Cut(b, c, f)
    ensures Cut(a, c, e + f)
  {}

  method Nulterminate(buf: array<char>, c: Cmd<Span>)
    requires forall e <- Ends(c) :: e < buf.Length
    modifies buf
    ensures Cut(old(buf[..]), buf[..], Ends(c))
    decreases c
  {
    ghost var buf0 := buf[..];
    match c
    case Exec(argv) =>
      var i := 0;
      while i < |argv|
        invariant 0 <= i <= |argv| && Cut(buf0, buf[..], set j | 0 <= j < i :: argv[j].eq)
      {
        assert argv[i].eq in Ends(c);
        buf[argv[i].eq] := NUL;
        i := i + 1;
      }
    case Redir(d, file, mode, fd) =>
      assert Ends(c) == Ends(d) + {file.eq};
      Nulterminate(buf, d);
      ghost var buf1 := buf[..];
      buf[file.eq] := NUL;
      assert Cut(buf1, buf[..], {file.eq});
      CutTwice(buf0, buf1, buf[..], Ends(d), {file.eq});
    case Pipe(l, r) =>
      assert Ends(c) == Ends(l) + Ends(r);
      Nulterminate(buf, l);
      ghost var buf1 := buf[..];
      Nulterminate(buf, r);
      CutTwice(buf0, buf1, buf[..], Ends(l), Ends(r));
    case List(l, r) =>
      assert Ends(c) == Ends(l) + Ends(r);
      Nulterminate(buf, l);
      ghost var buf1 := buf[..];
      Nulterminate(buf, r);
      CutTwice(buf0, buf1, buf[..], Ends(l), Ends(r));
    case Back(d) =>
      assert Ends(c) == Ends(d);
      Nulterminate(buf, d);
  }

  // ---- Reading the words back ------------------------------------------------------------

  /** NULs go to delimiters and to the end of the line, never into a word. */
  ghost predicate AtDelimiters(s: string, ends: set<nat>) {
    forall e <- ends :: e <= |s| && (e < |s| ==> Delimiter(s[e]))
  }

  lemma {:induction false} EndsAtDelimiters(s: string, c: Cmd<Span>)
    requires SpansOk(s, c)
    ensures AtDelimiters(s, Ends(c))
  {
    match c
    case Exec(argv) =>
    case Redir(d, file, mode, fd) => EndsAtDelimiters(s, d);
    case Pipe(l, r) => EndsAtDelimiters(s, l); EndsAtDelimiters(s, r);
    case List(l, r) => EndsAtDelimiters(s, l); EndsAtDelimiters(s, r);
    case Back(d) => EndsAtDelimiters(s, d);
  }

  /** buf holds the line s with NULs at `ends` and at its end. */
  ghost predicate Holds(buf: seq<char>, s: string, ends: set<nat>) {
    && Line(s) && |s| < |buf| && buf[|s|] == NUL && AtDelimiters(s, ends)
    && forall k: nat :: k < |s| ==> buf[k] == if k in ends then NUL else s[k]
  }

  lemma {:induction false} WordReads(buf: seq<char>, s: string, ends: set<nat>, w: Span, i: nat)
    requires Holds(buf, s, ends) && WordSpan(s, w) && w.eq in ends && w.q <= i <= w.eq
    ensures CString(buf, i) == s[i..w.eq]
    decreases w.eq - i
  {
    if i < w.eq {
      WordReads(buf, s, ends, w, i + 1);
      assert i !in ends;
    }
  }

  lemma {:induction false} TreeReads(buf: seq<char>, s: string, ends: set<nat>, c: Cmd<Span>)
    requires Holds(buf, s, ends) && SpansOk(s, c) && Ends(c) <= ends
    ensures InMemory(buf, c) == TextOf(s, c)
  {
    hide Holds, CString;
    match c
    case Exec(argv) =>
      forall i | 0 <= i < |argv| ensures CString(buf, argv[i].q) == Text(s, argv[i]) {
        assert argv[i].eq in Ends(c);
        WordReads(buf, s, ends, argv[i], argv[i].q);
      }
      assert CStrings(buf, argv) == Texts(s, argv);
    case Redir(d, file, mode, fd) => TreeReads(buf, s, ends, d); WordReads(buf, s, ends, file, file.q);
    case Pipe(l, r) => TreeReads(buf, s, ends, l); TreeReads(buf, s, ends, r);
    case List(l, r) => TreeReads(buf, s, ends, l); TreeReads(buf, s, ends, r);
    case Back(d) => TreeReads(buf, s, ends, d);
  }

  // ---- parsecmd --------------------------------------------------------------------------

  method Strlen(buf: array<char>) returns (n: nat)
    requires NUL in buf[..]
    ensures n < buf.Length && buf[n] == NUL && CString(buf[..], 0) == buf[..n] && Line(buf[..n])
  {
    ghost var k :| 0 <= k < buf.Length && buf[k] == NUL;
    n := 0;
    while buf[n] != NUL
      invariant 0 <= n <= k && forall i :: 0 <= i < n ==> buf[i] != NUL
      decreases k - n
    {
      n := n + 1;
    }
    StringIs(buf[..], 0, n);
  }

  lemma {:induction false} StringIs(buf: seq<char>, i: nat, n: nat)
    requires i <= n < |buf| && buf[n] == NUL && forall k :: i <= k < n ==> buf[k] != NUL
    ensures CString(buf, i) == buf[i..n]
    decreases n - i
  {
    if i < n { StringIs(buf, i + 1, n); }
  }

  /** parsecmd: the tree the grammar gives, readable in memory, or a panic exactly when the grammar has
      no tree for the line. */
  method ParseCmd(buf: array<char>) returns (r: Result)
    requires NUL in buf[..]
    modifies buf
    ensures r.Died? <==> GCmd(old(CString(buf[..], 0))).Panic?
    ensures r.Got? ==> InMemory(buf[..], r.cmd) == GCmd(old(CString(buf[..], 0))).cmd
    ensures r.Died? ==> buf[..] == old(buf[..])
  {
    hide GLine, Lex, CString, InMemory, Ends, TextOf, SpansOk, AtDelimiters;
    var n := Strlen(buf);
    ghost var buf0 := buf[..];
    var s := buf[..n];
    assert s[0..] == s;
    r := ParseLine(s, 0);
    if r.Died? {
      return;
    }
    var at := Skip(s, r.p);
    LeftOver(s, at);
    if at != |s| {
      return Died;
    }
    EndsAtDelimiters(s, r.cmd);
    EndsInside(s, Ends(r.cmd), buf.Length);
    Nulterminate(buf, r.cmd);
    CutHolds(buf0, buf[..], s, Ends(r.cmd));
    TreeReads(buf[..], s, Ends(r.cmd), r.cmd);
  }

  lemma LeftOver(s: string, at: nat)
    requires at <= |s| && (at < |s| ==> !Space(s[at]))
    ensures at == |s| <==> Lex(s[at..]) == []
  {
    if at < |s| { LexAt(s, at, at + HeadLen(s[at..])); } else { LexEnd(s); }
  }

  lemma EndsInside(s: string, ends: set<nat>, n: nat)
    requires AtDelimiters(s, ends) && |s| < n
    ensures forall e <- ends :: e < n
  {}

  lemma CutHolds(buf: seq<char>, buf': seq<char>, s: string, ends: set<nat>)
    requires |s| < |buf| && buf[|s|] == NUL && s == buf[..|s|] && Line(s) && AtDelimiters(s, ends)
    requires Cut(buf, buf', ends)
    ensures Holds(buf', s, ends)
  {}

  /** The two together: a buffer with the printed form of a legal tree is parsed to that tree. */
  method ParsePrinted(t: Tree, buf: array<char>) returns (r: Result)
    requires Legal(t) && NUL in buf[..] && CString(buf[..], 0) == Render(Print(3, t))
    modifies buf
    ensures r.Got? && InMemory(buf[..], r.cmd) == t
  {
    RoundTrip(t);
    r := ParseCmd(buf);
  }
}
