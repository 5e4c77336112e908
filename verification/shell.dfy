/** The shell's parser, and the in-place termination of the strings it finds. */
module Shell {
  import opened ShellSyntax

  datatype Parse = Parsed(cmd: Cmd) | Failed

  /** A whole word: no other word character comes before it or follows. */
  predicate Word(t: seq<char>, w: Slice) {
    && w.q < w.e < |t|
    && (forall i | w.q <= i < w.e :: IsWordChar(t[i]))
    && (w.q > 0 ==> !IsWordChar(t[w.q - 1])) && !IsWordChar(t[w.e])
  }

  predicate Disjoint(v: Slice, w: Slice) { v.e <= w.q || w.e <= v.q }

  predicate Spaces(t: seq<char>, lo: nat, hi: nat) {
    lo <= hi <= |t| && forall i | lo <= i < hi :: IsSpace(t[i])
  }

  /** The character before m is no >. */
  predicate NotAfterGt(t: seq<char>, m: nat) { m <= |t| && (m > 0 ==> t[m - 1] != '>') }

  /** The redirection operator at m and the mode and descriptor it asks for. */
  predicate OperatorAt(t: seq<char>, m: nat, q: nat, mode: Mode, fd: nat) {
    m < |t| && match mode
    case ReadOnly => t[m] == '<' && fd == 0 && Spaces(t, m + 1, q)
    case Truncate => t[m] == '>' && NotAfterGt(t, m) && fd == 1 && Spaces(t, m + 1, q)
    case Append => t[m] == '>' && fd == 1 && m + 1 < |t| && t[m + 1] == '>' && Spaces(t, m + 2, q)
  }

  /** No word of c is w. */
  predicate Clear(c: Cmd, w: Slice) {
    match c
    case Exec(args) => w !in args
    case Redir(d, file, _, _) => file != w && Clear(d, w)
    case Pipe(l, r) => Clear(l, w) && Clear(r, w)
    case List(l, r) => Clear(l, w) && Clear(r, w)
    case Back(d) => Clear(d, w)
  }

  /** No word of c shares a character with w. */
  predicate Off(c: Cmd, w: Slice) {
    match c
    case Exec(args) => forall v | v in args :: Disjoint(v, w)
    case Redir(d, file, _, _) => Disjoint(file, w) && Off(d, w)
    case Pipe(l, r) => Off(l, w) && Off(r, w)
    case List(l, r) => Off(l, w) && Off(r, w)
    case Back(d) => Off(d, w)
  }

  /** What the text between lo and hi says: every argument is a whole word, in order; every file
      follows its operator and touches no other word; | and ; stand between their commands and & after its one. */
  ghost predicate Reads(t: seq<char>, c: Cmd, lo: nat, hi: nat) {
    match c
    case Exec(args) =>
      && |args| < MAXARGS
      && (forall i | 0 <= i < |args| :: Word(t, args[i]) && lo <= args[i].q && args[i].e <= hi)
      && (forall i, j | 0 <= i < j < |args| :: args[i].e < args[j].q)
    case Redir(d, file, mode, fd) =>
      && Reads(t, d, lo, hi) && Word(t, file) && file.e <= hi && Off(d, file)
      && exists m :: lo <= m < file.q && OperatorAt(t, m, file.q, mode, fd)
    case Pipe(l, r) => exists m :: Splits(t, m, '|', lo, hi) && Reads(t, l, lo, m) && Reads(t, r, m + 1, hi)
    case List(l, r) => exists m :: Splits(t, m, ';', lo, hi) && Reads(t, l, lo, m) && Reads(t, r, m + 1, hi)
    case Back(d) => exists m :: Splits(t, m, '&', lo, hi) && Reads(t, d, lo, m)
  }

  predicate Splits(t: seq<char>, m: int, c: char, lo: nat, hi: nat) { lo <= m < hi <= |t| && t[m] == c }

  /** Where a pipeline or list splits. */
  lemma PipeSplit(t: seq<char>, l: Cmd, r: Cmd, lo: nat, hi: nat) returns (m: nat)
    requires Reads(t, Pipe(l, r), lo, hi)
    ensures Splits(t, m, '|', lo, hi) && Reads(t, l, lo, m) && Reads(t, r, m + 1, hi)
  {
    m :| Splits(t, m, '|', lo, hi) && Reads(t, l, lo, m) && Reads(t, r, m + 1, hi);
  }

  lemma ListSplit(t: seq<char>, l: Cmd, r: Cmd, lo: nat, hi: nat) returns (m: nat)
    requires Reads(t, List(l, r), lo, hi)
    ensures Splits(t, m, ';', lo, hi) && Reads(t, l, lo, m) && Reads(t, r, m + 1, hi)
  {
    m :| Splits(t, m, ';', lo, hi) && Reads(t, l, lo, m) && Reads(t, r, m + 1, hi);
  }

  lemma BackSplit(t: seq<char>, d: Cmd, lo: nat, hi: nat) returns (m: nat)
    requires Reads(t, Back(d), lo, hi)
    ensures Splits(t, m, '&', lo, hi) && Reads(t, d, lo, m)
  {
    m :| Splits(t, m, '&', lo, hi) && Reads(t, d, lo, m);
  }

  lemma {:induction false} Wider(t: seq<char>, c: Cmd, lo: nat, hi: nat, lo': nat, hi': nat)
    requires Reads(t, c, lo, hi) && lo' <= lo && hi <= hi' <= |t|
    ensures Reads(t, c, lo', hi')
    decreases c
  {
    hide Reads;
    match c
    case Exec(args) =>
      WiderExec(t, args, lo, hi, lo', hi');
    case Redir(d, file, mode, fd) =>
      RedirReads(t, d, file, mode, fd, lo, hi);
      Wider(t, d, lo, hi, lo', hi');
      WiderRedir(t, d, file, mode, fd, lo, hi, lo', hi');
    case Pipe(l, r) =>
      var m := PipeSplit(t, l, r, lo, hi);
      Wider(t, l, lo, m, lo', m);
      Wider(t, r, m + 1, hi, m + 1, hi');
      ReadsPipe(t, l, r, lo', m, hi');
    case List(l, r) =>
      var m := ListSplit(t, l, r, lo, hi);
      Wider(t, l, lo, m, lo', m);
      Wider(t, r, m + 1, hi, m + 1, hi');
      ReadsList(t, l, r, lo', m, hi');
    case Back(d) =>
      var m := BackSplit(t, d, lo, hi);
      Wider(t, d, lo, m, lo', m);
      ReadsBack(t, d, lo', m, hi');
  }

  lemma WiderExec(t: seq<char>, args: seq<Slice>, lo: nat, hi: nat, lo': nat, hi': nat)
    requires Reads(t, Exec(args), lo, hi) && lo' <= lo && hi <= hi'
    ensures Reads(t, Exec(args), lo', hi')
  {
  }

  lemma RedirReads(t: seq<char>, d: Cmd, file: Slice, mode: Mode, fd: nat, lo: nat, hi: nat)
    requires Reads(t, Redir(d, file, mode, fd), lo, hi)
    ensures Reads(t, d, lo, hi)
  {
  }

  lemma WiderRedir(t: seq<char>, d: Cmd, file: Slice, mode: Mode, fd: nat, lo: nat, hi: nat, lo': nat, hi': nat)
    requires Reads(t, Redir(d, file, mode, fd), lo, hi) && Reads(t, d, lo', hi') && lo' <= lo && hi <= hi'
    ensures Reads(t, Redir(d, file, mode, fd), lo', hi')
  {
  }

  lemma ReadsPipe(t: seq<char>, l: Cmd, r: Cmd, lo: nat, m: nat, hi: nat)
    requires Splits(t, m, '|', lo, hi) && Reads(t, l, lo, m) && Reads(t, r, m + 1, hi)
    ensures Reads(t, Pipe(l, r), lo, hi)
  {
  }

  lemma ReadsList(t: seq<char>, l: Cmd, r: Cmd, lo: nat, m: nat, hi: nat)
    requires Splits(t, m, ';', lo, hi) && Reads(t, l, lo, m) && Reads(t, r, m + 1, hi)
    ensures Reads(t, List(l, r), lo, hi)
  {
  }

  lemma ReadsBack(t: seq<char>, d: Cmd, lo: nat, m: nat, hi: nat)
    requires Splits(t, m, '&', lo, hi) && Reads(t, d, lo, m)
    ensures Reads(t, Back(d), lo, hi)
  {
  }

  lemma ReadsRedir(t: seq<char>, d: Cmd, file: Slice, mode: Mode, fd: nat, lo: nat, m: nat, p: nat, hi: nat)
    requires Reads(t, d, lo, p) && lo <= p <= m < file.q && OperatorAt(t, m, file.q, mode, fd) && Word(t, file)
    requires file.e <= hi <= |t|
    ensures Reads(t, Redir(d, file, mode, fd), lo, hi)
  {
    Wider(t, d, lo, p, lo, hi);
    OffOutside(t, d, lo, p, file);
  }

  lemma ReadsNone(t: seq<char>, lo: nat, hi: nat)
    ensures Reads(t, Exec([]), lo, hi)
  {
  }

  /** What comes after a command's text shares nothing with its words. */
  lemma {:induction false} OffOutside(t: seq<char>, c: Cmd, lo: nat, hi: nat, w: Slice)
    requires Reads(t, c, lo, hi) && w.q >= hi
    ensures Off(c, w)
    decreases c
  {
    match c
    case Exec(_) =>
    case Redir(d, _, _, _) => OffOutside(t, d, lo, hi, w);
    case Pipe(l, r) =>
      var m := PipeSplit(t, l, r, lo, hi);
      OffOutside(t, l, lo, m, w);
      OffOutside(t, r, m + 1, hi, w);
    case List(l, r) =>
      var m := ListSplit(t, l, r, lo, hi);
      OffOutside(t, l, lo, m, w);
      OffOutside(t, r, m + 1, hi, w);
    case Back(d) =>
      var m := BackSplit(t, d, lo, hi);
      OffOutside(t, d, lo, m, w);
  }

  /** All words of a command lie in its text. */
  lemma {:induction false} Inside(t: seq<char>, c: Cmd, lo: nat, hi: nat, w: Slice)
    requires Reads(t, c, lo, hi) && !Clear(c, w)
    ensures lo <= w.q < w.e <= hi
    decreases c
  {
    match c
    case Exec(args) =>
      var j :| 0 <= j < |args| && args[j] == w;
      assert Word(t, args[j]);
    case Redir(d, file, _, _) =>
      if file != w {
        Inside(t, d, lo, hi, w);
      }
    case Pipe(l, r) =>
      var m := PipeSplit(t, l, r, lo, hi);
      if !Clear(l, w) {
        Inside(t, l, lo, m, w);
      } else {
        Inside(t, r, m + 1, hi, w);
      }
    case List(l, r) =>
      var m := ListSplit(t, l, r, lo, hi);
      if !Clear(l, w) {
        Inside(t, l, lo, m, w);
      } else {
        Inside(t, r, m + 1, hi, w);
      }
    case Back(d) =>
      var m := BackSplit(t, d, lo, hi);
      Inside(t, d, lo, m, w);
  }

  lemma {:induction false} OffWord(c: Cmd, file: Slice, w: Slice)
    requires Off(c, file) && !Clear(c, w)
    ensures Disjoint(w, file)
    decreases c
  {
    match c
    case Exec(_) =>
    case Redir(d, f, _, _) =>
      if f != w {
        OffWord(d, file, w);
      }
    case Pipe(l, r) =>
      if !Clear(l, w) {
        OffWord(l, file, w);
      } else {
        OffWord(r, file, w);
      }
    case List(l, r) =>
      if !Clear(l, w) {
        OffWord(l, file, w);
      } else {
        OffWord(r, file, w);
      }
    case Back(d) => OffWord(d, file, w);
  }

  /** Words on either side of position m. */
  lemma Beside(t: seq<char>, l: Cmd, r: Cmd, lo: nat, m: nat, hi: nat, v: Slice, w: Slice)
    requires Reads(t, l, lo, m) && Reads(t, r, m + 1, hi) && !Clear(l, v) && !Clear(r, w)
    ensures Disjoint(v, w) && Disjoint(w, v)
  {
    hide Reads;
    Inside(t, l, lo, m, v);
    Inside(t, r, m + 1, hi, w);
  }

  /** Different words of a command share no character. */
  lemma {:induction false} WordsDisjoint(t: seq<char>, c: Cmd, lo: nat, hi: nat, v: Slice, w: Slice)
    requires Reads(t, c, lo, hi) && !Clear(c, v) && !Clear(c, w) && v != w
    ensures Disjoint(v, w)
    decreases c
  {
    match c
    case Exec(args) =>
      var i :| 0 <= i < |args| && args[i] == v;
      var j :| 0 <= j < |args| && args[j] == w;
      assert Word(t, args[i]) && Word(t, args[j]);
    case Redir(d, file, _, _) =>
      if v == file {
        OffWord(d, file, w);
      } else if w == file {
        OffWord(d, file, v);
      } else {
        WordsDisjoint(t, d, lo, hi, v, w);
      }
    case Pipe(l, r) =>
      var m := PipeSplit(t, l, r, lo, hi);
      if !Clear(l, v) && !Clear(l, w) {
        WordsDisjoint(t, l, lo, m, v, w);
      } else if !Clear(l, v) {
        Beside(t, l, r, lo, m, hi, v, w);
      } else if !Clear(l, w) {
        Beside(t, l, r, lo, m, hi, w, v);
      } else {
        WordsDisjoint(t, r, m + 1, hi, v, w);
      }
    case List(l, r) =>
      var m := ListSplit(t, l, r, lo, hi);
      if !Clear(l, v) && !Clear(l, w) {
        WordsDisjoint(t, l, lo, m, v, w);
      } else if !Clear(l, v) {
        Beside(t, l, r, lo, m, hi, v, w);
      } else if !Clear(l, w) {
        Beside(t, l, r, lo, m, hi, w, v);
      } else {
        WordsDisjoint(t, r, m + 1, hi, v, w);
      }
    case Back(d) =>
      var m := BackSplit(t, d, lo, hi);
      WordsDisjoint(t, d, lo, m, v, w);
  }

  lemma {:induction false} AddArgReads(t: seq<char>, c: Cmd, lo: nat, hi: nat, w: Slice, hi': nat)
    requires Reads(t, c, lo, hi) && Argc(c) + 1 < MAXARGS && Word(t, w) && lo <= hi <= w.q && w.e <= hi' <= |t|
    ensures Reads(t, AddArg(c, w), lo, hi')
    decreases c
  {
    match c
    case Exec(args) =>
      var more := args + [w];
      forall i | 0 <= i < |more|
        ensures Word(t, more[i]) && lo <= more[i].q && more[i].e <= hi' && (i < |args| ==> more[i].e < w.q)
      {
        assert i < |args| ==> Word(t, args[i]) && args[i] == more[i];
      }
    case Redir(d, file, _, _) =>
      AddArgReads(t, d, lo, hi, w, hi');
      AddArgOff(d, w, file);
    case _ =>
      Wider(t, c, lo, hi, lo, hi');
  }

  lemma {:induction false} AddArgOff(c: Cmd, w: Slice, file: Slice)
    requires Off(c, file) && Disjoint(w, file)
    ensures Off(AddArg(c, w), file)
    decreases c
  {
    match c
    case Redir(d, _, _, _) => AddArgOff(d, w, file);
    case _ =>
  }

  // The tokens ahead of the cursor.

  lemma {:induction false} SkipTo(t: seq<char>, s: nat, r: nat)
    requires Spaces(t, s, r) && r < |t|
    ensures SkipSpaces(t, s) == SkipSpaces(t, r)
    decreases r - s
  {
    if s < r {
      SkipTo(t, s + 1, r);
    }
  }

  /** Spaces in front make no difference. */
  lemma TokensSkip(t: seq<char>, s: nat, r: nat)
    requires Spaces(t, s, r) && r < |t|
    ensures Tokens(t, s) == Tokens(t, r)
  {
    SkipTo(t, s, r);
  }

  lemma {:induction false} WordTo(t: seq<char>, s: nat, e: nat)
    requires s <= e < |t| && !IsWordChar(t[e]) && forall i | s <= i < e :: IsWordChar(t[i])
    ensures WordEnd(t, s) == e
    decreases e - s
  {
    if s < e {
      WordTo(t, s + 1, e);
    }
  }

  /** The characters of a token, seen alone. */
  predicate Lexed(t: seq<char>, k: Tok) {
    k.w.q < k.w.e < |t| && match k.kind
    case 'a' => Word(t, k.w)
    case '+' => t[k.w.q] == '>' && t[k.w.q + 1] == '>' && k.w.e == k.w.q + 2
    case c => c == t[k.w.q] && IsSymbol(c) && k.w.e == k.w.q + 1 && !(c == '>' && t[k.w.q + 1] == '>')
  }

  /** A token read off the text is the first of the tokens ahead. */
  lemma FirstToken(t: seq<char>, s: nat, k: Tok, p: nat)
    requires Spaces(t, s, k.w.q) && Lexed(t, k) && k.w.e <= p < |t| && Spaces(t, k.w.e, p)
    ensures Tokens(t, s) == [Token(k.kind, k.w)] + Tokens(t, p)
  {
    SkipTo(t, s, k.w.q);
    if k.kind == 'a' {
      WordTo(t, k.w.q, k.w.e);
    }
    TokensSkip(t, k.w.e, p);
  }

  lemma NoToken(t: seq<char>, s: nat, q: nat)
    requires Spaces(t, s, q) && q < |t| && t[q] == NUL
    ensures Tokens(t, s) == []
  {
    SkipTo(t, s, q);
  }

  /** A parser that did what the grammar says and left the cursor before ts. */
  predicate Agrees(s: Res, r: Parse, ts: seq<Tok>) {
    if r.Parsed? then s == Ok(r.cmd, ts) else s == Fail
  }

  /** Neither a word nor a space is a >. */
  lemma AfterWord(t: seq<char>, w: Slice, p: nat)
    requires Word(t, w) && Spaces(t, w.e, p)
    ensures NotAfterGt(t, p)
  {
  }

  lemma SpacesTwice(t: seq<char>, a: nat, b: nat, c: nat)
    requires Spaces(t, a, b) && Spaces(t, b, c)
    ensures Spaces(t, a, c)
  {
  }

  lemma HeadIs(t: seq<char>, s: nat)
    requires s < |t| && !IsSpace(t[s])
    ensures Head(Tokens(t, s)) == if t[s] == NUL then NUL else if IsSymbol(t[s]) then t[s] else 'a'
  {
  }

  /** The line being parsed, a C string, and the cursor. */
  class Parser {
    const buf: array<char>
    const es: nat            // end of the string
    var pos: nat

    ghost predicate Valid()
      reads this, buf
    {
      && es + 1 == buf.Length && buf[es] == NUL && (forall i | 0 <= i < es :: buf[i] != NUL)
      && pos <= es && (pos > 0 && IsWordChar(buf[pos - 1]) ==> !IsWordChar(buf[pos]))
    }

    /** The tokens ahead of the cursor. */
    ghost function Ahead(): seq<Tok>
      requires Valid()
      reads this, buf
    {
      Tokens(buf[..], pos)
    }

    constructor (buf: array<char>)
      requires buf.Length > 0 && buf[buf.Length - 1] == NUL && forall i | 0 <= i < buf.Length - 1 :: buf[i] != NUL
      ensures Valid() && this.buf == buf && pos == 0 && es == buf.Length - 1
    {
      this.buf, this.es, this.pos := buf, buf.Length - 1, 0;
    }

    /** while(s < es && strchr(whitespace, *s)) s++; */
    method Skip(s: nat) returns (r: nat)
      requires Valid() && s <= es
      ensures s <= r <= es && Spaces(buf[..], s, r) && !IsSpace(buf[r])
    {
      r := s;
      while r < es && IsSpace(buf[r])
        invariant s <= r <= es && forall i | s <= i < r :: IsSpace(buf[i])
      {
        r := r + 1;
      }
    }

    /** Whether the next character that is no space is one of toks. */
    method Peek(toks: string) returns (r: bool)
      requires Valid() && forall c | c in toks :: IsSymbol(c)
      modifies this`pos
      ensures Valid() && pos >= old(pos) && Spaces(buf[..], old(pos), pos) && !IsSpace(buf[pos])
      ensures r == (buf[pos] in toks) && (r ==> pos < es)
      ensures old(NotAfterGt(buf[..], pos)) ==> NotAfterGt(buf[..], pos)
      ensures Ahead() == old(Ahead()) && r == (Head(Ahead()) in toks)
    {
      pos := Skip(pos);
      TokensSkip(buf[..], old(pos), pos);
      HeadIs(buf[..], pos);
      return buf[pos] != NUL && buf[pos] in toks;
    }

    /** The next token: NUL at the end, a symbol, '+' for >>, or 'a' for a word. */
    method GetToken() returns (ret: char, w: Slice)
      requires Valid()
      modifies this`pos
      ensures Valid() && old(pos) <= w.q <= w.e <= pos && Spaces(buf[..], old(pos), w.q) && Spaces(buf[..], w.e, pos)
      ensures !IsSpace(buf[pos])
      ensures (ret == NUL <==> w.q == es) && (ret != NUL ==> pos > old(pos))
      ensures ret == 'a' <==> w.q < es && IsWordChar(buf[w.q])
      ensures old(NotAfterGt(buf[..], pos)) ==>
                NotAfterGt(buf[..], w.q) && (ret != '>' && ret != '+' ==> NotAfterGt(buf[..], pos))
      ensures ret == 'a' ==> Word(buf[..], w)
      ensures ret != 'a' && ret != NUL && ret != '+' ==> ret == buf[w.q] && w.e == w.q + 1 && IsSymbol(ret)
      ensures ret == '+' ==> buf[w.q] == '>' && w.q + 1 < es && buf[w.q + 1] == '>' && w.e == w.q + 2
      ensures if ret == NUL then old(Ahead()) == [] == Ahead()
              else old(Ahead()) != [] && old(Ahead())[0] == Token(ret, w) && old(Ahead())[1..] == Ahead()
    {
      hide Tokens;
      var q := Skip(pos);
      var e;
      ret, e := Scan(q);
      w := Slice(q, e);
      pos := Skip(e);
      if ret == NUL {
        NoToken(buf[..], old(pos), q);
        NoToken(buf[..], pos, pos);
      } else {
        FirstToken(buf[..], old(pos), Tok(ret, w), pos);
      }
    }

    /** gettoken's switch: the kind and end of the token that starts at q. */
    method Scan(q: nat) returns (ret: char, e: nat)
      requires Valid() && q <= es && !IsSpace(buf[q]) && (q > 0 && IsWordChar(buf[q - 1]) ==> !IsWordChar(buf[q]))
      ensures q <= e <= es && (ret == NUL <==> q == es) && (q == es ==> e == q)
      ensures ret != NUL ==> Lexed(buf[..], Tok(ret, Slice(q, e)))
      ensures ret == 'a' <==> IsWordChar(buf[q])
    {
      e := q;
      ret := buf[e];
      if buf[e] == NUL {
      } else if buf[e] == '>' {
        e := e + 1;
        if buf[e] == '>' {
          ret := '+';
          e := e + 1;
        }
      } else if IsSymbol(buf[e]) {
        e := e + 1;
      } else {
        ret := 'a';
        while e < es && !IsSpace(buf[e]) && !IsSymbol(buf[e])
          invariant q <= e <= es && (e > q || IsWordChar(buf[e])) && forall i | q <= i < e :: IsWordChar(buf[i])
        {
          e := e + 1;
        }
      }
    }

    /** Redirections after a command. */
    method ParseRedirs(cmd: Cmd, ghost lo: nat) returns (r: Parse)
      requires Valid() && lo <= pos && Reads(buf[..], cmd, lo, pos) && NotAfterGt(buf[..], pos)
      modifies this`pos
      ensures Valid() && pos >= old(pos) && (r.Parsed? ==> NotAfterGt(buf[..], pos))
      ensures r.Parsed? ==>
                Reads(buf[..], r.cmd, lo, pos) && Argc(r.cmd) == Argc(cmd) && (Simple(cmd) ==> Simple(r.cmd))
      ensures Agrees(Redirs(cmd, old(Ahead())), r, Ahead())
    {
      hide Reads, IsWordChar, Simple, Argc, Spaces, NotAfterGt, Tokens, Redirs, Parser.Ahead;
      r := Parsed(cmd);
      var more := Peek("<>");
      RedirsStep(cmd, Ahead());
      Wider(buf[..], cmd, lo, old(pos), lo, pos);
      while more
        invariant Valid() && pos >= old(pos) && lo <= pos && r.Parsed? && Reads(buf[..], r.cmd, lo, pos)
        invariant Argc(r.cmd) == Argc(cmd) && (Simple(cmd) ==> Simple(r.cmd))
        invariant NotAfterGt(buf[..], pos) && !IsSpace(buf[pos]) && more == Redirecting(Ahead()) && (more ==> pos < es)
        invariant Redirs(cmd, old(Ahead())) == Redirs(r.cmd, Ahead())
        invariant !more ==> Redirs(r.cmd, Ahead()) == Ok(r.cmd, Ahead())
        decreases es - pos
      {
        r := ParseRedir(r.cmd, lo);
        if r.Failed? {
          return;
        }
        ghost var p := pos;
        more := Peek("<>");
        RedirsStep(r.cmd, Ahead());
        Wider(buf[..], r.cmd, lo, p, lo, pos);
      }
    }

    /** The body of parseredirs' loop. */
    method ParseRedir(c: Cmd, ghost lo: nat) returns (r: Parse)
      requires Valid() && lo <= pos && pos < es && Reads(buf[..], c, lo, pos) && NotAfterGt(buf[..], pos)
      requires Redirecting(Ahead())
      modifies this`pos
      ensures Valid() && pos > old(pos) && (r.Parsed? ==> NotAfterGt(buf[..], pos))
      ensures r.Parsed? ==> Reads(buf[..], r.cmd, lo, pos) && Argc(r.cmd) == Argc(c) && (Simple(c) ==> Simple(r.cmd))
      ensures Redirs(c, old(Ahead())) == if r.Parsed? then Redirs(r.cmd, Ahead()) else Fail
    {
      hide Reads, Word, Simple, Argc, Spaces, OperatorAt, NotAfterGt, Tokens, Redirect, Redirs, Parser.Ahead;
      RedirsStep(c, Ahead());
      var tok, op := GetToken();
      ghost var q := pos;
      var tok', file := GetToken();
      if tok' != 'a' {
        return Failed;
      }
      SpacesTwice(buf[..], op.e, q, file.q);
      AfterWord(buf[..], file, pos);
      var d := Redirected(c, tok, op, file, lo, old(pos));
      return Parsed(d);
    }

    /** The three redirection operators. */
    method Redirected(c: Cmd, tok: char, op: Slice, file: Slice, ghost lo: nat, ghost p: nat) returns (r: Cmd)
      requires Valid() && lo <= p <= op.q < file.q && file.e <= pos && Reads(buf[..], c, lo, p) && Word(buf[..], file)
      requires op.e <= file.q && Spaces(buf[..], op.e, file.q) && NotAfterGt(buf[..], op.q) && op.q < es
      requires tok == '<' || tok == '>' ==> tok == buf[op.q] && op.e == op.q + 1
      requires tok == '+' ==> buf[op.q] == '>' && op.q + 1 < es && buf[op.q + 1] == '>' && op.e == op.q + 2
      requires tok == '<' || tok == '>' || tok == '+'
      ensures Reads(buf[..], r, lo, pos) && Argc(r) == Argc(c) && (Simple(c) ==> Simple(r))
      ensures r == Redirect(c, tok, file)
    {
      hide Reads, Word, Spaces;
      match tok {
        case '<' =>
          r := Redir(c, file, ReadOnly, 0);
          ReadsRedir(buf[..], c, file, ReadOnly, 0, lo, op.q, p, pos);
        case '>' =>
          r := Redir(c, file, Truncate, 1);
          ReadsRedir(buf[..], c, file, Truncate, 1, lo, op.q, p, pos);
        case _ =>
          r := Redir(c, file, Append, 1);
          ReadsRedir(buf[..], c, file, Append, 1, lo, op.q, p, pos);
      }
    }

    /** parseexec */
    method ParseExec() returns (r: Parse)
      requires Valid() && NotAfterGt(buf[..], pos)
      modifies this`pos
      ensures Valid() && pos >= old(pos)
      ensures r.Parsed? ==> NotAfterGt(buf[..], pos) && Reads(buf[..], r.cmd, old(pos), pos)
      ensures Agrees(ExecOf(old(Ahead())), r, Ahead())
      decreases es - pos, 1
    {
      hide Reads, Word, IsWordChar, Simple, Argc, Spaces, NotAfterGt, Tokens, Redirs, LineOf, Parser.Ahead;
      ghost var lo := pos;
      var block := Peek("(");
      ghost var p0 := pos;
      if block {
        r := ParseBlock();
        if r.Parsed? {
          Wider(buf[..], r.cmd, p0, pos, lo, pos);
        }
        return;
      }
      ReadsNone(buf[..], lo, pos);
      SimpleNone();
      r := ParseRedirs(Exec([]), lo);
      if r.Failed? {
        return;
      }
      p0 := pos;
      var stop := Peek("|)&;");
      Wider(buf[..], r.cmd, lo, p0, lo, pos);
      while !stop
        invariant Valid() && pos >= old(pos) && r.Parsed? && Simple(r.cmd) && Argc(r.cmd) < MAXARGS
        invariant NotAfterGt(buf[..], pos) && Reads(buf[..], r.cmd, lo, pos)
        invariant stop == (Ahead() != [] && Ends(Ahead())) && ExecOf(old(Ahead())) == Args(r.cmd, Ahead())
        decreases es - pos
      {
        var end;
        r, end := ParseArg(r.cmd, lo);
        if end || r.Failed? {
          return;
        }
        p0 := pos;
        stop := Peek("|)&;");
        Wider(buf[..], r.cmd, lo, p0, lo, pos);
      }
    }

    /** The body of parseexec's loop up to the test; it ends with the line. */
    method ParseArg(c: Cmd, ghost lo: nat) returns (r: Parse, end: bool)
      requires Valid() && lo <= pos && Simple(c) && Argc(c) < MAXARGS && NotAfterGt(buf[..], pos)
      requires Reads(buf[..], c, lo, pos) && (Ahead() == [] || !Ends(Ahead()))
      modifies this`pos
      ensures Valid() && pos >= old(pos) && (end ==> r == Parsed(c) && Ahead() == []) && (!end ==> pos > old(pos))
      ensures r.Parsed? ==> NotAfterGt(buf[..], pos) && Reads(buf[..], r.cmd, lo, pos)
      ensures r.Parsed? ==> Simple(r.cmd) && Argc(r.cmd) < MAXARGS
      ensures Args(c, old(Ahead())) == if r.Failed? then Fail else Args(r.cmd, Ahead())
    {
      hide Reads, Word, IsWordChar, Simple, Argc, Spaces, NotAfterGt, Tokens, Redirs, Parser.Ahead;
      ghost var p := pos;
      var tok, w := GetToken();
      Wider(buf[..], c, lo, p, lo, pos);
      if tok == NUL {
        return Parsed(c), true;
      }
      if tok != 'a' || Argc(c) + 1 >= MAXARGS {
        return Failed, false;
      }
      AddArgReads(buf[..], c, lo, p, w, pos);
      AddArgSimple(c, w);
      r := ParseRedirs(AddArg(c, w), lo);
      end := false;
    }

    /** parseblock */
    method ParseBlock() returns (r: Parse)
      requires Valid() && buf[pos] == '(' && pos < es && Head(Ahead()) == '('
      modifies this`pos
      ensures Valid() && pos >= old(pos)
      ensures r.Parsed? ==> NotAfterGt(buf[..], pos) && Reads(buf[..], r.cmd, old(pos), pos)
      ensures Agrees(ExecOf(old(Ahead())), r, Ahead())
      decreases es - pos, 0
    {
      hide Reads, Word, Tokens, Parser.Ahead;
      ghost var lo := pos;
      var _, _ := GetToken();
      assert NotAfterGt(buf[..], pos);
      ghost var p := pos;
      r := ParseLine();
      if r.Failed? {
        return;
      }
      ghost var p' := pos;
      var close := Peek(")");
      if !close {
        return Failed;
      }
      var _, _ := GetToken();
      Wider(buf[..], r.cmd, p, p', lo, pos);
      r := ParseRedirs(r.cmd, lo);
    }

    /** parsepipe */
    method ParsePipe() returns (r: Parse)
      requires Valid() && NotAfterGt(buf[..], pos)
      modifies this`pos
      ensures Valid() && pos >= old(pos)
      ensures r.Parsed? ==> NotAfterGt(buf[..], pos) && Reads(buf[..], r.cmd, old(pos), pos)
      ensures Agrees(PipeOf(old(Ahead())), r, Ahead())
      decreases es - pos, 2
    {
      hide Reads, Word, IsWordChar, Spaces, Tokens, Parser.Ahead;
      ghost var lo := pos;
      r := ParseExec();
      if r.Failed? {
        return;
      }
      ghost var p := pos;
      var bar := Peek("|");
      Wider(buf[..], r.cmd, lo, p, lo, pos);
      if bar {
        ghost var m := pos;
        var _, _ := GetToken();
        ghost var p' := pos;
        var right := ParsePipe();
        if right.Failed? {
          return Failed;
        }
        Wider(buf[..], right.cmd, p', pos, m + 1, pos);
        ReadsPipe(buf[..], r.cmd, right.cmd, lo, m, pos);
        r := Parsed(Pipe(r.cmd, right.cmd));
      }
    }

    /** parseline up to a ; */
    method ParseBack() returns (r: Parse)
      requires Valid() && NotAfterGt(buf[..], pos)
      modifies this`pos
      ensures Valid() && pos >= old(pos)
      ensures r.Parsed? ==> NotAfterGt(buf[..], pos) && Reads(buf[..], r.cmd, old(pos), pos)
      ensures Agrees(BackOf(old(Ahead())), r, Ahead())
      decreases es - pos, 3
    {
      hide Reads, Word, IsWordChar, Spaces, NotAfterGt, Tokens, Parser.Ahead, BackOf, PipeOf, Backs;
      ghost var lo := pos;
      ghost var ts := Ahead();
      r := ParsePipe();
      BackStart(ts);
      if r.Failed? {
        return;
      }
      BacksStep(r.cmd, Ahead());
      ghost var p := pos;
      var amp := Peek("&");
      Wider(buf[..], r.cmd, lo, p, lo, pos);
      while amp
        invariant Valid() && pos >= lo && r.Parsed? && NotAfterGt(buf[..], pos) && Reads(buf[..], r.cmd, lo, pos)
        invariant (amp ==> pos < es && buf[pos] == '&') && amp == (Head(Ahead()) == '&')
        invariant BackOf(ts) == Backs(r.cmd, Ahead()) && (!amp ==> BackOf(ts) == Ok(r.cmd, Ahead()))
        decreases es - pos
      {
        ghost var m := pos;
        BacksStep(r.cmd, Ahead());
        var _, _ := GetToken();
        amp := Peek("&");
        BacksStep(Back(r.cmd), Ahead());
        ReadsBack(buf[..], r.cmd, lo, m, pos);
        r := Parsed(Back(r.cmd));
      }
    }

    /** parseline */
    method ParseLine() returns (r: Parse)
      requires Valid() && NotAfterGt(buf[..], pos)
      modifies this`pos
      ensures Valid() && pos >= old(pos)
      ensures r.Parsed? ==> NotAfterGt(buf[..], pos) && Reads(buf[..], r.cmd, old(pos), pos)
      ensures Agrees(LineOf(old(Ahead())), r, Ahead())
      decreases es - pos, 4
    {
      hide Reads, Word, IsWordChar, Spaces, NotAfterGt, Tokens, Parser.Ahead, LineOf, BackOf;
      ghost var lo := pos;
      ghost var ts := Ahead();
      r := ParseBack();
      if r.Failed? {
        BackStart(ts);
        return;
      }
      LineEnd(ts);
      ghost var p := pos;
      var semi := Peek(";");
      Wider(buf[..], r.cmd, lo, p, lo, pos);
      if semi {
        ghost var m := pos;
        var _, _ := GetToken();
        ghost var q := pos;
        var right := ParseLine();
        if right.Failed? {
          return Failed;
        }
        Wider(buf[..], right.cmd, q, pos, m + 1, pos);
        ReadsList(buf[..], r.cmd, right.cmd, lo, m, pos);
        r := Parsed(List(r.cmd, right.cmd));
      }
    }
  }

  lemma SimpleNone()
    ensures Simple(Exec([])) && Argc(Exec([])) == 0
  {
  }

  lemma {:induction false} AddArgSimple(c: Cmd, w: Slice)
    requires Simple(c)
    ensures Simple(AddArg(c, w)) && Argc(AddArg(c, w)) == Argc(c) + 1
    decreases c
  {
    if c.Redir? {
      AddArgSimple(c.cmd, w);
    }
  }

  // NUL termination.

  /** Where nulterminate writes. */
  function NulsOf(c: Cmd): set<nat> {
    match c
    case Exec(args) => set w | w in args :: w.e
    case Redir(d, file, _, _) => NulsOf(d) + {file.e}
    case Pipe(l, r) => NulsOf(l) + NulsOf(r)
    case List(l, r) => NulsOf(l) + NulsOf(r)
    case Back(d) => NulsOf(d)
  }

  /** Writes a NUL after every word of a command. */
  method Nulterminate(buf: array<char>, c: Cmd)
    requires forall i | i in NulsOf(c) :: i < buf.Length
    modifies buf
    ensures forall i: nat | i < buf.Length :: buf[i] == if i in NulsOf(c) then NUL else old(buf[i])
    decreases c
  {
    match c
    case Exec(args) =>
      for i := 0 to |args|
        invariant forall k: nat | k < buf.Length ::
                    buf[k] == if (exists j :: 0 <= j < i && args[j].e == k) then NUL else old(buf[k])
      {
        assert args[i] in args && args[i].e in NulsOf(c);
        buf[args[i].e] := NUL;
      }
    case Redir(d, file, _, _) =>
      assert NulsOf(c) == NulsOf(d) + {file.e};
      Nulterminate(buf, d);
      buf[file.e] := NUL;
    case Pipe(l, r) =>
      assert NulsOf(c) == NulsOf(l) + NulsOf(r);
      Nulterminate(buf, l);
      Nulterminate(buf, r);
    case List(l, r) =>
      assert NulsOf(c) == NulsOf(l) + NulsOf(r);
      Nulterminate(buf, l);
      Nulterminate(buf, r);
    case Back(d) =>
      assert NulsOf(c) == NulsOf(d);
      Nulterminate(buf, d);
  }

  /** The C string at q. */
  function CString(t: seq<char>, q: nat): string
    requires q <= |t|
    decreases |t| - q
  {
    if q == |t| || t[q] == NUL then "" else [t[q]] + CString(t, q + 1)
  }

  lemma {:induction false} CStringIs(t: seq<char>, q: nat, e: nat)
    requires q <= e < |t| && t[e] == NUL && forall i | q <= i < e :: t[i] != NUL
    ensures CString(t, q) == t[q..e]
    decreases e - q
  {
    if q < e {
      CStringIs(t, q + 1, e);
    }
  }

  /** A NUL is written only where no word character was. */
  lemma {:induction false} EndsOutside(t: seq<char>, c: Cmd, lo: nat, hi: nat, i: nat)
    requires Reads(t, c, lo, hi) && i in NulsOf(c)
    ensures i < |t| && i <= hi && !IsWordChar(t[i])
    decreases c
  {
    match c
    case Exec(args) =>
      var w :| w in args && w.e == i;
      var j :| 0 <= j < |args| && args[j] == w;
      assert Word(t, args[j]);
    case Redir(d, file, _, _) =>
      if i in NulsOf(d) {
        EndsOutside(t, d, lo, hi, i);
      }
    case Pipe(l, r) =>
      var m :| Splits(t, m, '|', lo, hi) && Reads(t, l, lo, m) && Reads(t, r, m + 1, hi);
      if i in NulsOf(l) {
        EndsOutside(t, l, lo, m, i);
      } else {
        EndsOutside(t, r, m + 1, hi, i);
      }
    case List(l, r) =>
      var m :| Splits(t, m, ';', lo, hi) && Reads(t, l, lo, m) && Reads(t, r, m + 1, hi);
      if i in NulsOf(l) {
        EndsOutside(t, l, lo, m, i);
      } else {
        EndsOutside(t, r, m + 1, hi, i);
      }
    case Back(d) =>
      var m :| Splits(t, m, '&', lo, hi) && Reads(t, d, lo, m);
      EndsOutside(t, d, lo, m, i);
  }

  /** The words of a command are whole words of its text, and end where nulterminate writes. */
  lemma {:induction false} WordOf(t: seq<char>, c: Cmd, lo: nat, hi: nat, w: Slice)
    requires Reads(t, c, lo, hi) && !Clear(c, w)
    ensures Word(t, w) && w.e in NulsOf(c)
    decreases c
  {
    match c
    case Exec(args) =>
      var j :| 0 <= j < |args| && args[j] == w;
      assert Word(t, args[j]);
    case Redir(d, file, _, _) =>
      if file != w {
        WordOf(t, d, lo, hi, w);
      }
    case Pipe(l, r) =>
      var m :| Splits(t, m, '|', lo, hi) && Reads(t, l, lo, m) && Reads(t, r, m + 1, hi);
      if !Clear(l, w) {
        WordOf(t, l, lo, m, w);
      } else {
        WordOf(t, r, m + 1, hi, w);
      }
    case List(l, r) =>
      var m :| Splits(t, m, ';', lo, hi) && Reads(t, l, lo, m) && Reads(t, r, m + 1, hi);
      if !Clear(l, w) {
        WordOf(t, l, lo, m, w);
      } else {
        WordOf(t, r, m + 1, hi, w);
      }
    case Back(d) =>
      var m :| Splits(t, m, '&', lo, hi) && Reads(t, d, lo, m);
      WordOf(t, d, lo, m, w);
  }

  /** After nulterminate every argument and file name is a C string equal to its word. */
  lemma Terminated(t: seq<char>, t': seq<char>, c: Cmd, lo: nat, hi: nat, w: Slice)
    requires Reads(t, c, lo, hi) && !Clear(c, w) && |t'| == |t|
    requires forall i: nat | i < |t| :: t'[i] == if i in NulsOf(c) then NUL else t[i]
    ensures w.q < w.e < |t| && CString(t', w.q) == t[w.q..w.e]
  {
    hide Reads, Clear, NulsOf;
    WordOf(t, c, lo, hi, w);
    forall i: nat | w.q <= i < w.e ensures t'[i] == t[i] && t'[i] != NUL {
      if i in NulsOf(c) {
        EndsOutside(t, c, lo, hi, i);
      }
    }
    CStringIs(t', w.q, w.e);
    assert t'[w.q..w.e] == t[w.q..w.e];
  }

  /** parsecmd: the whole line, or nothing. */
  method ParseCmd(buf: array<char>) returns (r: Parse)
    requires buf.Length > 0 && buf[buf.Length - 1] == NUL && forall i | 0 <= i < buf.Length - 1 :: buf[i] != NUL
    modifies buf
    ensures r == var s := LineOf(Tokens(old(buf[..]), 0)); if s.Ok? && s.rest == [] then Parsed(s.c) else Failed
    ensures r.Failed? ==> buf[..] == old(buf[..])
    ensures r.Parsed? ==> exists f :: Writes(Tokens(old(buf[..]), 0), r.cmd, f)
    ensures r.Failed? ==> forall f :: IsLine(f) ==> Write(f) != Tokens(old(buf[..]), 0)
    ensures r.Parsed? ==> Reads(old(buf[..]), r.cmd, 0, buf.Length - 1)
    ensures r.Parsed? ==> forall w: Slice | !Clear(r.cmd, w) ::
              w.q < w.e < buf.Length && CString(buf[..], w.q) == old(buf[..])[w.q..w.e]
    ensures r.Parsed? ==> forall v: Slice, w: Slice | !Clear(r.cmd, v) && !Clear(r.cmd, w) && v != w :: Disjoint(v, w)
  {
    hide Reads, Clear, NulsOf, CString, Writes, IsLine, Write;
    ghost var t := buf[..];
    var p := new Parser(buf);
    r := p.ParseLine();
    if r.Failed? {
      Refused(t);
      return;
    }
    ghost var m := p.pos;
    var _ := p.Peek("");
    Wider(t, r.cmd, 0, m, 0, p.pos);
    if p.pos != p.es {
      Refused(t);
      return Failed;
    }
    Accepted(t, r.cmd);
    forall i | i in NulsOf(r.cmd) ensures i < buf.Length {
      EndsOutside(t, r.cmd, 0, p.pos, i);
    }
    Nulterminate(buf, r.cmd);
    forall w: Slice | !Clear(r.cmd, w) ensures w.q < w.e < buf.Length && CString(buf[..], w.q) == t[w.q..w.e] {
      Terminated(t, buf[..], r.cmd, 0, p.pos, w);
    }
    forall v: Slice, w: Slice | !Clear(r.cmd, v) && !Clear(r.cmd, w) && v != w ensures Disjoint(v, w) {
      WordsDisjoint(t, r.cmd, 0, p.pos, v, w);
    }
  }
}
