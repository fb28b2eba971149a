/** What the tokens of a line are, without reference to how they are found: the line is the tokens' spellings
    with blanks between them, and blanks only where two neighbours would otherwise read as one. */
module ShellLexing {
  import opened ShellSpec
  import opened ShellRoundTrip

  /** A line taken apart: blanks, a token, blanks, a token, ..., blanks. */
  datatype Layout = Last(gap: string) | Then(gap: string, tok: Tok, rest: Layout)

  predicate Blank(g: string) { forall i :: 0 <= i < |g| ==> Space(g[i]) }

  /** A word is not empty and holds no delimiter. */
  predicate Spellable(tok: Tok) {
    match tok
    case Sym(c) => Symbol(c)
    case Append => true
    case Word(w) => w != [] && forall i :: 0 <= i < |w| ==> !Delimiter(w[i])
  }

  /** Two words, or a > and something that starts with >, would run together. */
  predicate Clash(a: Tok, b: Tok) { (a.Word? && b.Word?) || (a == Sym('>') && (b == Sym('>') || b == Append)) }

  predicate Proper(l: Layout) {
    && Blank(l.gap)
    && (l.Then? ==>
          && Spellable(l.tok) && Proper(l.rest)
          && (l.rest.Then? && Clash(l.tok, l.rest.tok) ==> l.rest.gap != []))
  }

  function Text(l: Layout): string {
    match l
    case Last(gap) => gap
    case Then(gap, tok, rest) => gap + Spell(tok) + Text(rest)
  }

  function Tokens(l: Layout): seq<Tok> {
    match l
    case Last(_) => []
    case Then(_, tok, rest) => [tok] + Tokens(rest)
  }

  /** The line without its blanks. */
  function Dense(u: string): string {
    if u == [] then [] else (if Space(u[0]) then [] else [u[0]]) + Dense(u[1..])
  }

  function Spelled(ts: seq<Tok>): string { if ts == [] then [] else Spell(ts[0]) + Spelled(ts[1..]) }

  // ---- Every layout reads as its tokens --------------------------------------------------

  lemma {:induction false} TrimGap(g: string, v: string)
    requires Blank(g) && (v == [] || !Space(v[0]))
    ensures Trim(g + v) == v
  {
    if g == [] {
      assert g + v == v;
    } else {
      assert (g + v)[0] == g[0] && (g + v)[1..] == g[1..] + v;
      TrimGap(g[1..], v);
    }
  }

  /** What may stand right behind a token. */
  predicate Ends(tok: Tok, u: string) {
    && (tok.Word? && u != [] ==> Delimiter(u[0]))
    && (tok == Sym('>') && u != [] ==> u[0] != '>')
  }

  lemma HeadOf(tok: Tok, u: string)
    requires Spellable(tok) && Ends(tok, u)
    ensures var v := Spell(tok) + u;
            v != [] && !Space(v[0]) && Head(v) == tok && HeadLen(v) == |Spell(tok)| && v[HeadLen(v)..] == u
  {
    var v := Spell(tok) + u;
    if tok.Word? {
      WordLenIs(tok.w, u);
      assert v[0] == tok.w[0];
    }
    assert v[|Spell(tok)|..] == u;
  }

  lemma RestEnds(l: Layout)
    requires Proper(l) && l.Then?
    ensures Ends(l.tok, Text(l.rest))
  {
    var r := l.rest;
    if r.gap != [] {
      assert Space(r.gap[0]) && Text(r)[0] == r.gap[0];
    } else if r.Then? {
      assert Text(r)[0] == Spell(r.tok)[0];
    }
  }

  lemma {:induction false} LexLaid(l: Layout)
    requires Proper(l)
    ensures Lex(Text(l)) == Tokens(l)
  {
    match l
    case Last(gap) =>
      assert gap + [] == gap;
      TrimGap(gap, []);
    case Then(gap, tok, rest) =>
      RestEnds(l);
      HeadOf(tok, Text(rest));
      var v := Spell(tok) + Text(rest);
      assert Text(l) == gap + v;
      TrimGap(gap, v);
      LexLaid(rest);
  }

  // ---- Every line has a layout -----------------------------------------------------------

  lemma {:induction false} GapOf(u: string) returns (g: string)
    ensures Blank(g) && u == g + Trim(u)
  {
    if u != [] && Space(u[0]) {
      var h := GapOf(u[1..]);
      g := [u[0]] + h;
      assert u == [u[0]] + u[1..];
    } else {
      g := [];
      assert u == g + u;
    }
  }

  lemma HeadEnds(v: string)
    requires v != [] && !Space(v[0])
    ensures Spellable(Head(v)) && v == Spell(Head(v)) + v[HeadLen(v)..] && Ends(Head(v), v[HeadLen(v)..])
  {
    assert v == v[..HeadLen(v)] + v[HeadLen(v)..];
  }

  lemma {:induction false} LayoutOf(u: string) returns (l: Layout)
    ensures Proper(l) && Text(l) == u && Tokens(l) == Lex(u)
    decreases |u|
  {
    hide Proper, Text, Tokens, Lex, Trim, Head, HeadLen, Spellable, Ends;
    var g := GapOf(u);
    var v := Trim(u);
    LexStep(u);
    if v == [] {
      l := Last(g);
      LaidLast(u, g);
    } else {
      HeadEnds(v);
      var r := LayoutOf(v[HeadLen(v)..]);
      l := Then(g, Head(v), r);
      LaidThen(u, g, Head(v), r);
    }
  }

  lemma LexStep(u: string)
    ensures var v := Trim(u); Lex(u) == if v == [] then [] else [Head(v)] + Lex(v[HeadLen(v)..])
  {}

  lemma LaidLast(u: string, g: string)
    requires Blank(g) && u == g + []
    ensures Proper(Last(g)) && Text(Last(g)) == u && Tokens(Last(g)) == []
  {}

  lemma LaidThen(u: string, g: string, tok: Tok, r: Layout)
    requires Blank(g) && Spellable(tok) && Proper(r) && Ends(tok, Text(r)) && u == g + (Spell(tok) + Text(r))
    ensures Proper(Then(g, tok, r)) && Text(Then(g, tok, r)) == u && Tokens(Then(g, tok, r)) == [tok] + Tokens(r)
  {
    hide Spellable, Ends, Spell;
    NoClash(tok, r);
  }

  lemma NoClash(tok: Tok, r: Layout)
    requires Proper(r) && Ends(tok, Text(r))
    ensures r.Then? && Clash(tok, r.tok) ==> r.gap != []
  {
    if r.Then? && r.gap == [] {
      assert Text(r)[0] == Spell(r.tok)[0];
    }
  }

  /** gettoken, call after call, reads u as ts exactly when u is the spellings of ts with blanks between them,
      at least one where two neighbours would run together. */
  lemma LexIff(u: string, ts: seq<Tok>)
    ensures Lex(u) == ts <==> exists l :: Proper(l) && Text(l) == u && Tokens(l) == ts
  {
    hide Proper, Text, Tokens, Lex;
    if Lex(u) == ts {
      var l := LayoutOf(u);
      assert Proper(l);
    }
    forall l | Proper(l) && Text(l) == u && Tokens(l) == ts ensures Lex(u) == ts { LexLaid(l); }
  }

  // ---- No character is lost or invented --------------------------------------------------

  lemma {:induction false} DenseJoin(u: string, v: string)
    ensures Dense(u + v) == Dense(u) + Dense(v)
  {
    if u == [] {
      assert u + v == v;
    } else {
      assert (u + v)[1..] == u[1..] + v;
      DenseJoin(u[1..], v);
    }
  }

  lemma {:induction false} DenseBlank(g: string)
    requires Blank(g)
    ensures Dense(g) == []
  {
    if g != [] { DenseBlank(g[1..]); }
  }

  lemma {:induction false} DenseSolid(w: string)
    requires forall i :: 0 <= i < |w| ==> !Space(w[i])
    ensures Dense(w) == w
  {
    if w != [] {
      DenseSolid(w[1..]);
      assert w == [w[0]] + w[1..];
    }
  }

  lemma {:induction false} DenseLaid(l: Layout)
    requires Proper(l)
    ensures Dense(Text(l)) == Spelled(Tokens(l))
  {
    hide Dense;
    DenseBlank(l.gap);
    match l
    case Last(gap) =>
    case Then(gap, tok, rest) =>
      DenseJoin(gap + Spell(tok), Text(rest));
      DenseJoin(gap, Spell(tok));
      DenseSolid(Spell(tok));
      DenseLaid(rest);
      assert Tokens(l)[1..] == Tokens(rest);
  }

  /** The spellings of the tokens, joined together, are the line without its blanks. */
  lemma NothingLost(u: string)
    ensures Spelled(Lex(u)) == Dense(u)
  {
    hide Dense, Spelled, Lex, Proper, Text, Tokens;
    var l := LayoutOf(u);
    DenseLaid(l);
  }
}
