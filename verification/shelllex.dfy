/** How the shell's tokens are spelled: any text made of words, symbols and blanks has those tokens. */
module ShellLex {
  import opened ShellSyntax

  /** A word, or a symbol: one of the shell's characters, or + for >>. */
  datatype Lexeme = WordOf(s: string) | SymbolOf(c: char)

  /** A lexeme with the blanks in front of it. */
  datatype Piece = Piece(gap: string, lex: Lexeme)

  predicate Blank(s: string) { forall c | c in s :: c in " \t\r\n\U{000B}" }

  predicate Spellable(l: Lexeme) {
    match l
    case WordOf(s) => s != "" && forall c | c in s :: c !in " \t\r\n\U{000B}" && c !in "<|>&;()" && c != '\0'
    case SymbolOf(c) => c in "<|>&;()+"
  }

  function Spell(l: Lexeme): (s: string)
    requires Spellable(l)
    ensures s != ""
  {
    match l
    case WordOf(s) => s
    case SymbolOf(c) => if c == '+' then ">>" else [c]
  }

  /** Two words need blanks between them, and so do > and what starts with another >. */
  predicate MayTouch(a: Lexeme, b: Lexeme) {
    && !(a.WordOf? && b.WordOf?)
    && !(a == SymbolOf('>') && (b == SymbolOf('>') || b == SymbolOf('+')))
  }

  predicate Pieces(ps: seq<Piece>) {
    && (forall p | p in ps :: Blank(p.gap) && Spellable(p.lex))
    && (forall i | 0 < i < |ps| :: ps[i].gap == "" ==> MayTouch(ps[i - 1].lex, ps[i].lex))
  }

  /** The text of the pieces, with blanks and a NUL behind. */
  function Text(ps: seq<Piece>, end: string): string
    requires Pieces(ps)
  {
    if ps == [] then end + [NUL] else ps[0].gap + Spell(ps[0].lex) + (TailPieces(ps); Text(ps[1..], end))
  }

  lemma TailPieces(ps: seq<Piece>)
    requires Pieces(ps) && ps != []
    ensures Pieces(ps[1..])
  {
    var rest := ps[1..];
    forall i | 0 < i < |rest| && rest[i].gap == "" ensures MayTouch(rest[i - 1].lex, rest[i].lex) {
      assert rest[i] == ps[i + 1] && rest[i - 1] == ps[i];
    }
  }

  /** The token is this lexeme: its kind, and, of a word, its letters. */
  predicate Is(t: string, k: Tok, l: Lexeme) {
    match l
    case WordOf(s) => k.kind == 'a' && k.w.q <= k.w.e <= |t| && t[k.w.q..k.w.e] == s
    case SymbolOf(c) => k == Sym(c)
  }

  lemma {:induction false} SkipGap(t: string, s: nat, q: nat)
    requires s <= q < |t| && (forall i | s <= i < q :: IsSpace(t[i])) && !IsSpace(t[q])
    ensures SkipSpaces(t, s) == q
    decreases q - s
  {
    if s < q {
      SkipGap(t, s + 1, q);
    }
  }

  lemma {:induction false} WordRun(t: string, q: nat, e: nat)
    requires q <= e < |t| && (forall i | q <= i < e :: IsWordChar(t[i])) && !IsWordChar(t[e])
    ensures WordEnd(t, q) == e
    decreases e - q
  {
    if q < e {
      WordRun(t, q + 1, e);
    }
  }

  /** The first character of a text is a blank, the first of its first lexeme, or the NUL. */
  lemma FirstChar(ps: seq<Piece>, end: string)
    requires Pieces(ps) && Blank(end)
    ensures var x := Text(ps, end);
      && x != []
      && (IsSpace(x[0]) || (ps == [] && x[0] == NUL) || (ps != [] && ps[0].gap == "" && x[0] == Spell(ps[0].lex)[0]))
  {
    if ps == [] {
      assert end != "" ==> end[0] in end;
    } else {
      assert ps[0] in ps;
      assert ps[0].gap != "" ==> ps[0].gap[0] in ps[0].gap;
    }
  }

  /** One lexeme: where its token ends, given the character that follows. */
  lemma OneToken(t: string, q: nat, l: Lexeme)
    requires Spellable(l) && q + |Spell(l)| < |t| && t[q..q + |Spell(l)|] == Spell(l)
    requires l.WordOf? ==> !IsWordChar(t[q + |Spell(l)|])
    requires l == SymbolOf('>') ==> t[q + |Spell(l)|] != '>'
    ensures !IsSpace(t[q]) && t[q] != NUL && TokenAt(t, q).w == Slice(q, q + |Spell(l)|)
    ensures Is(t, Token(TokenAt(t, q).kind, TokenAt(t, q).w), l)
  {
    var e := q + |Spell(l)|;
    match l
    case WordOf(s) =>
      forall i | q <= i < e ensures IsWordChar(t[i]) {
        assert t[i] == s[i - q] && s[i - q] in s;
      }
      WordRun(t, q, e);
    case SymbolOf(c) =>
      assert t[q] == Spell(l)[0] && (c == '+' ==> t[q + 1] == Spell(l)[1]);
  }

  lemma TextStep(ps: seq<Piece>, end: string)
    requires Pieces(ps)
    ensures ps == [] ==> Text(ps, end) == end + [NUL]
    ensures ps != [] ==> Pieces(ps[1..]) && Text(ps, end) == ps[0].gap + Spell(ps[0].lex) + Text(ps[1..], end)
  {
    if ps != [] {
      TailPieces(ps);
    }
  }

  /** What follows a lexeme does not run into it. */
  lemma NextChar(ps: seq<Piece>, end: string)
    requires Pieces(ps) && ps != [] && Blank(end)
    ensures Pieces(ps[1..]) && Text(ps[1..], end) != ""
    ensures ps[0].lex.WordOf? ==> !IsWordChar(Text(ps[1..], end)[0])
    ensures ps[0].lex == SymbolOf('>') ==> Text(ps[1..], end)[0] != '>'
  {
    TailPieces(ps);
    FirstChar(ps[1..], end);
    if |ps| > 1 && ps[1].gap == "" {
      assert ps[1..][0] == ps[1] && ps[1] in ps && MayTouch(ps[0].lex, ps[1].lex);
      var m := ps[1].lex;
      if m.WordOf? {
        assert m.s[0] in m.s;
      }
    }
  }

  lemma Blanks(t: string, s: nat, gap: string)
    requires Blank(gap) && s + |gap| <= |t| && t[s..s + |gap|] == gap
    ensures forall i | s <= i < s + |gap| :: IsSpace(t[i])
  {
    forall i | s <= i < s + |gap| ensures IsSpace(t[i]) {
      assert t[i] == gap[i - s] && gap[i - s] in gap;
    }
  }

  lemma LexEnd(t: string, s: nat, end: string)
    requires s <= |t| && Blank(end) && t[s..] == end + [NUL]
    ensures Tokens(t, s) == []
  {
    assert t[s..s + |end|] == t[s..][..|end|] == end && t[s + |end|] == t[s..][|end|] == NUL;
    Blanks(t, s, end);
    SkipGap(t, s, s + |end|);
  }

  /** The first piece is the first token, and the rest of the text the others. */
  lemma LexOne(t: string, s: nat, ps: seq<Piece>, end: string) returns (k: Tok, e: nat)
    requires s <= |t| && Pieces(ps) && ps != [] && Blank(end) && t[s..] == Text(ps, end)
    ensures s <= e <= |t| && Tokens(t, s) == [k] + Tokens(t, e) && Is(t, k, ps[0].lex)
    ensures Pieces(ps[1..]) && t[e..] == Text(ps[1..], end)
  {
    hide Text, Spell, Is, TokenAt, SkipSpaces, Spellable, Pieces, Token;
    TextStep(ps, end);
    HeadOk(ps);
    NextChar(ps, end);
    var q := s + |ps[0].gap|;
    e := q + |Spell(ps[0].lex)|;
    Cut(t, s, ps[0].gap, Spell(ps[0].lex), Text(ps[1..], end));
    Blanks(t, s, ps[0].gap);
    OneToken(t, q, ps[0].lex);
    SkipGap(t, s, q);
    k := Token(TokenAt(t, q).kind, TokenAt(t, q).w);
  }

  /** Any text made of words, symbols and blanks has just those words and symbols for tokens. */
  lemma {:induction false} LexBack(t: string, s: nat, ps: seq<Piece>, end: string)
    requires s <= |t| && Pieces(ps) && Blank(end) && t[s..] == Text(ps, end)
    ensures |Tokens(t, s)| == |ps| && forall i | 0 <= i < |ps| :: Is(t, Tokens(t, s)[i], ps[i].lex)
    decreases |ps|
  {
    hide Text, Is, Tokens, Pieces, Blank;
    TextStep(ps, end);
    if ps == [] {
      LexEnd(t, s, end);
    } else {
      var k, e := LexOne(t, s, ps, end);
      LexBack(t, e, ps[1..], end);
      var ts, more := Tokens(t, s), Tokens(t, e);
      forall i | 0 <= i < |ps| ensures Is(t, ts[i], ps[i].lex) {
        if i > 0 {
          assert ts[i] == more[i - 1] && ps[i] == ps[1..][i - 1];
        }
      }
    }
  }

  lemma HeadOk(ps: seq<Piece>)
    requires Pieces(ps) && ps != []
    ensures Blank(ps[0].gap) && Spellable(ps[0].lex)
  {
    assert ps[0] in ps;
  }

  lemma Cut(t: string, s: nat, a: string, b: string, c: string)
    requires s <= |t| && t[s..] == a + b + c && c != ""
    ensures s + |a| + |b| < |t| && t[s..s + |a|] == a && t[s + |a|..s + |a| + |b|] == b && t[s + |a| + |b|..] == c
    ensures t[s + |a| + |b|] == c[0]
  {
    assert t[s..][..|a|] == a && t[s..][|a|..|a| + |b|] == b && t[s..][|a| + |b|..] == c;
  }
}
