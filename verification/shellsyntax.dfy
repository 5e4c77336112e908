/** The shell's commands, the tokens of a line, and the grammar that relates the two. */
module ShellSyntax {
  const MAXARGS: nat := 10
  const NUL: char := '\0'

  /** buf[q..e] */
  datatype Slice = Slice(q: nat, e: nat)
  datatype Mode = ReadOnly | Truncate | Append

  datatype Cmd =
    | Exec(args: seq<Slice>)
    | Redir(cmd: Cmd, file: Slice, mode: Mode, fd: nat)
    | Pipe(left: Cmd, right: Cmd)
    | List(left: Cmd, right: Cmd)
    | Back(cmd: Cmd)

  predicate IsSpace(c: char) { c == ' ' || c == '\t' || c == '\r' || c == '\n' || c == '\U{000B}' }
  predicate IsSymbol(c: char) { c == '<' || c == '|' || c == '>' || c == '&' || c == ';' || c == '(' || c == ')' }
  predicate IsWordChar(c: char) { !IsSpace(c) && !IsSymbol(c) && c != NUL }

  /** cmd->argv[argc] = q on the exec command inside its redirections. */
  function AddArg(c: Cmd, w: Slice): Cmd {
    match c
    case Exec(args) => Exec(args + [w])
    case Redir(d, file, mode, fd) => Redir(AddArg(d, w), file, mode, fd)
    case _ => c
  }

  function Argc(c: Cmd): nat {
    match c
    case Exec(args) => |args|
    case Redir(d, _, _, _) => Argc(d)
    case _ => 0
  }

  // Tokens.

  /** kind: 'a' for a word, '+' for >>, else the symbol itself.  Where a symbol stands does not matter. */
  datatype Tok = Tok(kind: char, w: Slice)

  function Sym(c: char): Tok { Tok(c, Slice(0, 0)) }
  function Token(kind: char, w: Slice): Tok { if kind == 'a' then Tok(kind, w) else Sym(kind) }

  function SkipSpaces(t: seq<char>, s: nat): (r: nat)
    requires s <= |t|
    ensures s <= r <= |t| && (r < |t| ==> !IsSpace(t[r]))
    decreases |t| - s
  {
    if s < |t| && IsSpace(t[s]) then SkipSpaces(t, s + 1) else s
  }

  function WordEnd(t: seq<char>, s: nat): (r: nat)
    requires s <= |t|
    ensures s <= r <= |t| && (s < |t| && IsWordChar(t[s]) ==> s < r)
    decreases |t| - s
  {
    if s < |t| && IsWordChar(t[s]) then WordEnd(t, s + 1) else s
  }

  /** The token that starts at q. */
  function TokenAt(t: seq<char>, q: nat): (k: Tok)
    requires q < |t| && !IsSpace(t[q]) && t[q] != NUL
    ensures k.w.q == q < k.w.e <= |t|
  {
    if t[q] == '>' && q + 1 < |t| && t[q + 1] == '>' then Tok('+', Slice(q, q + 2))
    else if IsSymbol(t[q]) then Tok(t[q], Slice(q, q + 1))
    else Tok('a', Slice(q, WordEnd(t, q)))
  }

  /** The tokens of a line from s on. */
  function Tokens(t: seq<char>, s: nat): seq<Tok>
    requires s <= |t|
    decreases |t| - s
  {
    var q := SkipSpaces(t, s);
    if q == |t| || t[q] == NUL then []
    else
      var k := TokenAt(t, q);
      [Token(k.kind, k.w)] + Tokens(t, k.w.e)
  }

  /** The character the next token starts with, 'a' for a word and NUL at the end. */
  function Head(ts: seq<Tok>): char {
    if ts == [] then NUL else if ts[0].kind == '+' then '>' else ts[0].kind
  }

  // The grammar, as a recursive descent over tokens.

  datatype Res = Fail | Ok(c: Cmd, rest: seq<Tok>)

  function Redirect(c: Cmd, op: char, file: Slice): Cmd {
    if op == '<' then Redir(c, file, ReadOnly, 0)
    else if op == '>' then Redir(c, file, Truncate, 1)
    else Redir(c, file, Append, 1)
  }

  predicate Redirecting(ts: seq<Tok>) { Head(ts) == '<' || Head(ts) == '>' }

  /** c followed by redirections. */
  function Redirs(c: Cmd, ts: seq<Tok>): (r: Res)
    ensures r.Ok? ==> |r.rest| <= |ts| && Argc(r.c) == Argc(c)
    decreases |ts|
  {
    if !Redirecting(ts) then Ok(c, ts)
    else if ts[1..] == [] || ts[1..][0].kind != 'a' then Fail
    else Redirs(Redirect(c, ts[0].kind, ts[1..][0].w), ts[1..][1..])
  }

  /** An exec command that goes on with redirections, then arguments. */
  function Simples(c: Cmd, ts: seq<Tok>): (r: Res)
    ensures r.Ok? ==> |r.rest| <= |ts|
    decreases |ts|, 1
  {
    var r := Redirs(c, ts);
    if r.Fail? then Fail else Args(r.c, r.rest)
  }

  function Args(c: Cmd, ts: seq<Tok>): (r: Res)
    ensures r.Ok? ==> |r.rest| <= |ts|
    decreases |ts|, 0
  {
    if Ends(ts) then Ok(c, ts)
    else if ts[0].kind != 'a' || Argc(c) + 1 >= MAXARGS then Fail
    else Simples(AddArg(c, ts[0].w), ts[1..])
  }

  /** What may follow an exec command. */
  predicate Ends(ts: seq<Tok>) {
    ts == [] || ts[0].kind == '|' || ts[0].kind == ')' || ts[0].kind == '&' || ts[0].kind == ';'
  }

  function ExecOf(ts: seq<Tok>): (r: Res)
    ensures r.Ok? ==> |r.rest| <= |ts|
    decreases |ts|, 0
  {
    if Head(ts) == '(' then
      var r := LineOf(ts[1..]);
      if r.Fail? || Head(r.rest) != ')' then Fail else Redirs(r.c, r.rest[1..])
    else Simples(Exec([]), ts)
  }

  function PipeOf(ts: seq<Tok>): (r: Res)
    ensures r.Ok? ==> |r.rest| <= |ts|
    decreases |ts|, 1
  {
    var l := ExecOf(ts);
    if l.Fail? || Head(l.rest) != '|' then l
    else
      var r := PipeOf(l.rest[1..]);
      if r.Fail? then Fail else Ok(Pipe(l.c, r.c), r.rest)
  }

  function Backs(c: Cmd, ts: seq<Tok>): (r: Res)
    ensures r.Ok? && |r.rest| <= |ts|
    decreases |ts|
  {
    if Head(ts) == '&' then Backs(Back(c), ts[1..]) else Ok(c, ts)
  }

  function BackOf(ts: seq<Tok>): (r: Res)
    ensures r.Ok? ==> |r.rest| <= |ts|
    decreases |ts|, 2
  {
    var l := PipeOf(ts);
    if l.Fail? then Fail else Backs(l.c, l.rest)
  }

  function LineOf(ts: seq<Tok>): (r: Res)
    ensures r.Ok? ==> |r.rest| <= |ts|
    decreases |ts|, 3
  {
    var l := BackOf(ts);
    if l.Fail? || Head(l.rest) != ';' then l
    else
      var r := LineOf(l.rest[1..]);
      if r.Fail? then Fail else Ok(List(l.c, r.c), r.rest)
  }

  lemma RedirsStep(c: Cmd, ts: seq<Tok>)
    ensures !Redirecting(ts) ==> Redirs(c, ts) == Ok(c, ts)
    ensures Redirecting(ts) ==> ts != [] && (ts[0].kind == '<' || ts[0].kind == '>' || ts[0].kind == '+')
    ensures Redirecting(ts) && ts[1..] != [] && ts[1..][0].kind == 'a' ==>
              Redirs(c, ts) == Redirs(Redirect(c, ts[0].kind, ts[1..][0].w), ts[1..][1..])
    ensures Redirecting(ts) && (ts[1..] == [] || ts[1..][0].kind != 'a') ==> Redirs(c, ts) == Fail
  {
  }

  lemma BacksStep(c: Cmd, ts: seq<Tok>)
    ensures if Head(ts) == '&' then ts != [] && Backs(c, ts) == Backs(Back(c), ts[1..]) else Backs(c, ts) == Ok(c, ts)
  {
  }

  lemma BackStart(ts: seq<Tok>)
    ensures BackOf(ts) == if PipeOf(ts).Fail? then Fail else Backs(PipeOf(ts).c, PipeOf(ts).rest)
    ensures BackOf(ts).Fail? ==> LineOf(ts).Fail?
  {
  }

  lemma LineEnd(ts: seq<Tok>)
    requires BackOf(ts).Ok?
    ensures Head(BackOf(ts).rest) != ';' ==> LineOf(ts) == BackOf(ts)
    ensures Head(BackOf(ts).rest) == ';' ==> BackOf(ts).rest != []
    ensures Head(BackOf(ts).rest) == ';' ==>
      var r := LineOf(BackOf(ts).rest[1..]); LineOf(ts) == if r.Fail? then Fail else Ok(List(BackOf(ts).c, r.c), r.rest)
  {
  }

  // Every word of a line ends up in its command, once.

  function TokenWords(ts: seq<Tok>): multiset<Slice> {
    if ts == [] then multiset{} else (if ts[0].kind == 'a' then multiset{ts[0].w} else multiset{}) + TokenWords(ts[1..])
  }

  function CmdWords(c: Cmd): multiset<Slice> {
    match c
    case Exec(args) => multiset(args)
    case Redir(d, file, _, _) => CmdWords(d) + multiset{file}
    case Pipe(l, r) => CmdWords(l) + CmdWords(r)
    case List(l, r) => CmdWords(l) + CmdWords(r)
    case Back(d) => CmdWords(d)
  }

  /** The words of ts are those of r's command and of what is left. */
  predicate Keeps(r: Res, ts: multiset<Slice>) {
    r.Ok? ==> CmdWords(r.c) + TokenWords(r.rest) == ts
  }

  lemma TwoWords(ts: seq<Tok>)
    requires ts != [] && ts[0].kind != 'a' && ts[1..] != [] && ts[1..][0].kind == 'a'
    ensures TokenWords(ts) == multiset{ts[1..][0].w} + TokenWords(ts[1..][1..])
  {
  }

  lemma Regroup(a: multiset<Slice>, b: multiset<Slice>, c: multiset<Slice>)
    ensures a + b + c == a + (b + c)
  {
  }

  lemma RedirectWords(c: Cmd, op: char, file: Slice)
    ensures CmdWords(Redirect(c, op, file)) == CmdWords(c) + multiset{file}
  {
  }

  lemma {:induction false} RedirsKeep(c: Cmd, ts: seq<Tok>)
    ensures Keeps(Redirs(c, ts), CmdWords(c) + TokenWords(ts))
    decreases |ts|
  {
    hide TokenWords, CmdWords, Redirs, Redirect;
    RedirsStep(c, ts);
    if Redirecting(ts) && ts[1..] != [] && ts[1..][0].kind == 'a' {
      var w, rest := ts[1..][0].w, ts[1..][1..];
      RedirsKeep(Redirect(c, ts[0].kind, w), rest);
      TwoWords(ts);
      RedirectWords(c, ts[0].kind, w);
      Regroup(CmdWords(c), multiset{w}, TokenWords(rest));
    }
  }

  predicate Simple(c: Cmd) { c.Exec? || (c.Redir? && Simple(c.cmd)) }

  lemma {:induction false} AddArgWords(c: Cmd, w: Slice)
    requires Simple(c)
    ensures Simple(AddArg(c, w)) && CmdWords(AddArg(c, w)) == CmdWords(c) + multiset{w}
    ensures Argc(AddArg(c, w)) == Argc(c) + 1
    decreases c
  {
    if c.Redir? {
      AddArgWords(c.cmd, w);
    }
  }

  lemma {:induction false} RedirsSimple(c: Cmd, ts: seq<Tok>)
    requires Simple(c)
    ensures Redirs(c, ts).Ok? ==> Simple(Redirs(c, ts).c)
    decreases |ts|
  {
    if Redirecting(ts) && ts[1..] != [] && ts[1..][0].kind == 'a' {
      RedirsSimple(Redirect(c, ts[0].kind, ts[1..][0].w), ts[1..][1..]);
    }
  }

  lemma {:induction false} SimplesKeep(c: Cmd, ts: seq<Tok>)
    requires Simple(c)
    ensures Keeps(Simples(c, ts), CmdWords(c) + TokenWords(ts))
    decreases |ts|
  {
    RedirsKeep(c, ts);
    RedirsSimple(c, ts);
    var r := Redirs(c, ts);
    if r.Ok? && !Ends(r.rest) && r.rest[0].kind == 'a' && Argc(r.c) + 1 < MAXARGS {
      AddArgWords(r.c, r.rest[0].w);
      SimplesKeep(AddArg(r.c, r.rest[0].w), r.rest[1..]);
    }
  }

  lemma {:induction false} ExecKeeps(ts: seq<Tok>)
    ensures Keeps(ExecOf(ts), TokenWords(ts))
    decreases |ts|, 0
  {
    if Head(ts) == '(' {
      LineKeeps(ts[1..]);
      var r := LineOf(ts[1..]);
      if r.Ok? && Head(r.rest) == ')' {
        RedirsKeep(r.c, r.rest[1..]);
      }
    } else {
      SimplesKeep(Exec([]), ts);
    }
  }

  lemma {:induction false} PipeKeeps(ts: seq<Tok>)
    ensures Keeps(PipeOf(ts), TokenWords(ts))
    decreases |ts|, 1
  {
    ExecKeeps(ts);
    var l := ExecOf(ts);
    if l.Ok? && Head(l.rest) == '|' {
      PipeKeeps(l.rest[1..]);
    }
  }

  lemma {:induction false} BacksKeep(c: Cmd, ts: seq<Tok>)
    ensures Keeps(Backs(c, ts), CmdWords(c) + TokenWords(ts))
    decreases |ts|
  {
    if Head(ts) == '&' {
      BacksKeep(Back(c), ts[1..]);
    }
  }

  /** No word is lost, none appears twice. */
  lemma {:induction false} LineKeeps(ts: seq<Tok>)
    ensures Keeps(LineOf(ts), TokenWords(ts))
    decreases |ts|, 2
  {
    PipeKeeps(ts);
    var p := PipeOf(ts);
    if p.Ok? {
      BacksKeep(p.c, p.rest);
      var l := BackOf(ts);
      if Head(l.rest) == ';' {
        LineKeeps(l.rest[1..]);
      }
    }
  }

  // What the grammar accepts, said without parsing.

  /** What a simple command is made of, in any order. */
  datatype Item = Arg(w: Slice) | Red(mode: Mode, file: Slice)

  /** How a line may be written: a simple command, a line in parentheses with redirections after it, a pipe,
      a command with & after it, and a list. */
  datatype Form =
    | Plain(items: seq<Item>)
    | Group(body: Form, reds: seq<Item>)
    | Piped(left: Form, right: Form)
    | Behind(body: Form)
    | Listed(left: Form, right: Form)

  function Operator(mode: Mode): Tok {
    match mode
    case ReadOnly => Sym('<')
    case Truncate => Sym('>')
    case Append => Sym('+')
  }

  /** An item in front of other tokens. */
  function Front(it: Item, more: seq<Tok>): seq<Tok> {
    match it
    case Arg(w) => [Tok('a', w)] + more
    case Red(mode, file) => [Operator(mode)] + ([Tok('a', file)] + more)
  }

  function Flat(items: seq<Item>): seq<Tok> {
    if items == [] then [] else Front(items[0], Flat(items[1..]))
  }

  /** The arguments among the items, in order. */
  function ArgsIn(items: seq<Item>): seq<Slice> {
    if items == [] then [] else (if items[0].Arg? then [items[0].w] else []) + ArgsIn(items[1..])
  }

  /** The redirections among them, in order. */
  function RedsIn(items: seq<Item>): seq<Item> {
    if items == [] then [] else (if items[0].Red? then [items[0]] else []) + RedsIn(items[1..])
  }

  /** < is for descriptor 0, > and >> for 1. */
  function Within(c: Cmd, mode: Mode, file: Slice): Cmd { Redir(c, file, mode, if mode == ReadOnly then 0 else 1) }

  /** c inside redirections, the first innermost. */
  function Wrap(c: Cmd, reds: seq<Item>): Cmd
    decreases |reds|
  {
    if reds == [] then c
    else Wrap(if reds[0].Red? then Within(c, reds[0].mode, reds[0].file) else c, reds[1..])
  }

  predicate IsExec(f: Form)
    decreases f, 0
  {
    match f
    case Plain(items) => |ArgsIn(items)| < MAXARGS
    case Group(body, reds) => IsLine(body) && forall r | r in reds :: r.Red?
    case _ => false
  }

  predicate IsPipe(f: Form)
    decreases f, 1
  {
    if f.Piped? then IsExec(f.left) && IsPipe(f.right) else IsExec(f)
  }

  predicate IsBack(f: Form)
    decreases f, 2
  {
    if f.Behind? then IsBack(f.body) else IsPipe(f)
  }

  predicate IsLine(f: Form)
    decreases f, 3
  {
    if f.Listed? then IsBack(f.left) && IsLine(f.right) else IsBack(f)
  }

  function Write(f: Form): seq<Tok> {
    match f
    case Plain(items) => Flat(items)
    case Group(body, reds) => [Sym('(')] + Write(body) + [Sym(')')] + Flat(reds)
    case Piped(l, r) => Write(l) + [Sym('|')] + Write(r)
    case Behind(body) => Write(body) + [Sym('&')]
    case Listed(l, r) => Write(l) + [Sym(';')] + Write(r)
  }

  function Meaning(f: Form): Cmd {
    match f
    case Plain(items) => Wrap(Exec(ArgsIn(items)), RedsIn(items))
    case Group(body, reds) => Wrap(Meaning(body), reds)
    case Piped(l, r) => Pipe(Meaning(l), Meaning(r))
    case Behind(body) => Back(Meaning(body))
    case Listed(l, r) => List(Meaning(l), Meaning(r))
  }

  // Every line so written is read as what it means.

  /** One item after another. */
  function Put(c: Cmd, it: Item): Cmd {
    match it
    case Arg(w) => AddArg(c, w)
    case Red(mode, file) => Within(c, mode, file)
  }

  function Puts(c: Cmd, items: seq<Item>): Cmd
    decreases |items|
  {
    if items == [] then c else Puts(Put(c, items[0]), items[1..])
  }

  function AddArgs(c: Cmd, args: seq<Slice>): Cmd
    decreases |args|
  {
    if args == [] then c else AddArgs(AddArg(c, args[0]), args[1..])
  }

  lemma {:induction false} AddArgsWithin(c: Cmd, mode: Mode, file: Slice, args: seq<Slice>)
    ensures AddArgs(Within(c, mode, file), args) == Within(AddArgs(c, args), mode, file)
    decreases |args|
  {
    if args != [] {
      AddArgsWithin(AddArg(c, args[0]), mode, file, args[1..]);
    }
  }

  lemma {:induction false} AddArgsExec(a: seq<Slice>, args: seq<Slice>)
    ensures AddArgs(Exec(a), args) == Exec(a + args)
    decreases |args|
  {
    if args == [] {
      assert a + args == a;
    } else {
      AddArgsExec(a + [args[0]], args[1..]);
      assert a + [args[0]] + args[1..] == a + args;
    }
  }

  lemma InStep(it: Item, rest: seq<Item>)
    ensures ArgsIn([it] + rest) == (if it.Arg? then [it.w] + ArgsIn(rest) else ArgsIn(rest))
    ensures RedsIn([it] + rest) == (if it.Arg? then RedsIn(rest) else [it] + RedsIn(rest))
  {
    assert ([it] + rest)[1..] == rest;
  }

  lemma AddArgsStep(c: Cmd, w: Slice, args: seq<Slice>)
    ensures AddArgs(c, [w] + args) == AddArgs(AddArg(c, w), args)
  {
    assert ([w] + args)[1..] == args;
  }

  lemma WrapStep(c: Cmd, mode: Mode, file: Slice, reds: seq<Item>)
    ensures Wrap(c, [Red(mode, file)] + reds) == Wrap(Within(c, mode, file), reds)
  {
    assert ([Red(mode, file)] + reds)[1..] == reds;
  }

  /** Putting items one after another keeps arguments and redirections in order. */
  lemma {:induction false} PutsOrder(c: Cmd, items: seq<Item>)
    ensures Puts(c, items) == Wrap(AddArgs(c, ArgsIn(items)), RedsIn(items))
    decreases |items|
  {
    hide AddArgs, Wrap, ArgsIn, RedsIn, AddArg;
    if items == [] {
      NoItems(c);
    } else {
      var it, rest := items[0], items[1..];
      assert items == [it] + rest;
      InStep(it, rest);
      PutsOrder(Put(c, it), rest);
      match it {
        case Arg(w) =>
          AddArgsStep(c, w, ArgsIn(rest));
        case Red(mode, file) =>
          AddArgsWithin(c, mode, file, ArgsIn(rest));
          WrapStep(AddArgs(c, ArgsIn(rest)), mode, file, RedsIn(rest));
      }
    }
  }

  lemma NoItems(c: Cmd)
    ensures ArgsIn([]) == [] && RedsIn([]) == [] && AddArgs(c, []) == c && Wrap(c, []) == c
  {
  }

  lemma PlainMeans(items: seq<Item>)
    ensures Puts(Exec([]), items) == Meaning(Plain(items))
  {
    PutsOrder(Exec([]), items);
    AddArgsExec([], ArgsIn(items));
    assert [] + ArgsIn(items) == ArgsIn(items);
  }

  lemma {:induction false} PutsReds(c: Cmd, reds: seq<Item>)
    requires forall r | r in reds :: r.Red?
    ensures Puts(c, reds) == Wrap(c, reds)
    decreases |reds|
  {
    if reds != [] {
      PutsReds(Put(c, reds[0]), reds[1..]);
    }
  }

  lemma FlatStep(items: seq<Item>, rest: seq<Tok>)
    requires items != []
    ensures Flat(items) + rest == Front(items[0], Flat(items[1..]) + rest)
  {
    FrontMore(items[0], Flat(items[1..]), rest);
  }

  lemma FrontMore(it: Item, a: seq<Tok>, b: seq<Tok>)
    ensures Front(it, a) + b == Front(it, a + b)
  {
  }

  /** Arguments and redirections in any order. */
  lemma {:induction false} ItemsBack(c: Cmd, items: seq<Item>, rest: seq<Tok>)
    requires Simple(c) && Ends(rest) && Argc(c) + |ArgsIn(items)| < MAXARGS
    ensures Simples(c, Flat(items) + rest) == Ok(Puts(c, items), rest)
    decreases |items|
  {
    hide Flat, Simples, Args, Redirs, AddArg, Argc;
    if items == [] {
      SimplesEnd(c, rest);
      assert Flat(items) + rest == rest by { NoFlat(); }
    } else {
      FlatStep(items, rest);
      var more := Flat(items[1..]) + rest;
      match items[0] {
        case Arg(w) =>
          SimplesArg(c, w, more);
          AddArgWords(c, w);
        case Red(mode, file) =>
          SimplesRed(c, mode, file, more);
      }
      ItemsBack(Put(c, items[0]), items[1..], rest);
    }
  }

  lemma NoFlat()
    ensures Flat([]) == []
  {
  }

  lemma SimplesEnd(c: Cmd, rest: seq<Tok>)
    requires Ends(rest)
    ensures Simples(c, rest) == Ok(c, rest)
  {
  }

  lemma SimplesArg(c: Cmd, w: Slice, more: seq<Tok>)
    requires Argc(c) + 1 < MAXARGS
    ensures Simples(c, [Tok('a', w)] + more) == Simples(AddArg(c, w), more)
  {
    var ts := [Tok('a', w)] + more;
    assert ts[0] == Tok('a', w) && ts[1..] == more;
  }

  lemma RedirsRed(c: Cmd, mode: Mode, file: Slice, more: seq<Tok>)
    ensures Redirs(c, [Operator(mode)] + ([Tok('a', file)] + more)) == Redirs(Within(c, mode, file), more)
    ensures Argc(Within(c, mode, file)) == Argc(c)
  {
    var ts := [Operator(mode)] + ([Tok('a', file)] + more);
    assert ts[0] == Operator(mode) && ts[1..] == [Tok('a', file)] + more && ts[1..][1..] == more;
  }

  lemma SimplesRed(c: Cmd, mode: Mode, file: Slice, more: seq<Tok>)
    ensures Simples(c, [Operator(mode)] + ([Tok('a', file)] + more)) == Simples(Within(c, mode, file), more)
    ensures Argc(Within(c, mode, file)) == Argc(c)
  {
    hide Redirs, Args;
    RedirsRed(c, mode, file, more);
  }

  /** Redirections after a parenthesis. */
  lemma {:induction false} RedsBack(c: Cmd, reds: seq<Item>, rest: seq<Tok>)
    requires !Redirecting(rest) && forall r | r in reds :: r.Red?
    ensures Redirs(c, Flat(reds) + rest) == Ok(Wrap(c, reds), rest)
    decreases |reds|
  {
    hide Flat;
    if reds == [] {
      assert Flat(reds) + rest == rest by { NoFlat(); }
    } else {
      FlatStep(reds, rest);
      RedirsRed(c, reds[0].mode, reds[0].file, Flat(reds[1..]) + rest);
      RedsBack(Within(c, reds[0].mode, reds[0].file), reds[1..], rest);
    }
  }

  lemma FlatHead(items: seq<Item>, rest: seq<Tok>)
    requires Head(rest) != '('
    ensures Head(Flat(items) + rest) != '('
  {
    if items == [] {
      assert Flat(items) + rest == rest;
    } else {
      FlatStep(items, rest);
    }
  }

  lemma {:induction false} ExecBack(f: Form, rest: seq<Tok>)
    requires IsExec(f) && Ends(rest)
    ensures ExecOf(Write(f) + rest) == Ok(Meaning(f), rest)
    decreases f, 0
  {
    hide LineOf, Redirs, Simples, Flat, Puts, Wrap, ArgsIn, RedsIn;
    match f
    case Plain(items) =>
      FlatHead(items, rest);
      ItemsBack(Exec([]), items, rest);
      PlainMeans(items);
    case Group(body, reds) =>
      var more := [Sym(')')] + (Flat(reds) + rest);
      LineBack(body, more);
      RedsBack(Meaning(body), reds, rest);
      BlockRead(Meaning(body), Write(body), Flat(reds) + rest);
      assert Write(f) + rest == [Sym('(')] + (Write(body) + more);
  }

  lemma BlockRead(c: Cmd, ts: seq<Tok>, rest: seq<Tok>)
    requires LineOf(ts + ([Sym(')')] + rest)) == Ok(c, [Sym(')')] + rest)
    ensures ExecOf([Sym('(')] + (ts + ([Sym(')')] + rest))) == Redirs(c, rest)
  {
    hide LineOf, Redirs, Simples;
    var all, more := [Sym('(')] + (ts + ([Sym(')')] + rest)), [Sym(')')] + rest;
    assert all[1..] == ts + more && more[1..] == rest;
  }

  lemma {:induction false} PipeBack(f: Form, rest: seq<Tok>)
    requires IsPipe(f) && Ends(rest) && Head(rest) != '|'
    ensures PipeOf(Write(f) + rest) == Ok(Meaning(f), rest)
    decreases f, 1
  {
    if f.Piped? {
      var more := [Sym('|')] + (Write(f.right) + rest);
      ExecBack(f.left, more);
      PipeBack(f.right, rest);
      assert Write(f) + rest == Write(f.left) + more;
      assert more[1..] == Write(f.right) + rest;
    } else {
      ExecBack(f, rest);
    }
  }

  lemma {:induction false} BackBack(f: Form, rest: seq<Tok>)
    requires IsBack(f) && Ends(rest) && Head(rest) != '|'
    ensures BackOf(Write(f) + rest) == Backs(Meaning(f), rest)
    decreases f, 2
  {
    if f.Behind? {
      var more := [Sym('&')] + rest;
      BackBack(f.body, more);
      assert Write(f) + rest == Write(f.body) + more;
      assert more[1..] == rest;
    } else {
      PipeBack(f, rest);
    }
  }

  /** Every way of writing a line is read as what it means. */
  lemma {:induction false} LineBack(f: Form, rest: seq<Tok>)
    requires IsLine(f) && (rest == [] || Head(rest) == ')')
    ensures LineOf(Write(f) + rest) == Ok(Meaning(f), rest)
    decreases f, 3
  {
    if f.Listed? {
      var more := [Sym(';')] + (Write(f.right) + rest);
      BackBack(f.left, more);
      LineBack(f.right, rest);
      assert Write(f) + rest == Write(f.left) + more;
      assert more[1..] == Write(f.right) + rest;
    } else {
      BackBack(f, rest);
    }
  }

  // Nothing else is accepted.

  /** Only words say where they stand. */
  predicate Normal(ts: seq<Tok>) { forall k | k in ts :: k.kind == 'a' || k == Sym(k.kind) }

  lemma {:induction false} TokensNormal(t: seq<char>, s: nat)
    requires s <= |t|
    ensures Normal(Tokens(t, s))
    decreases |t| - s
  {
    var q := SkipSpaces(t, s);
    if q < |t| && t[q] != NUL {
      TokensNormal(t, TokenAt(t, q).w.e);
    }
  }

  function ModeOf(op: char): Mode { if op == '<' then ReadOnly else if op == '>' then Truncate else Append }

  lemma FlatCons(it: Item, items: seq<Item>, ts: seq<Tok>)
    ensures Flat([it] + items) + ts == Front(it, Flat(items) + ts)
    ensures forall c :: Puts(c, [it] + items) == Puts(Put(c, it), items)
  {
    assert ([it] + items)[1..] == items;
    FlatStep([it] + items, ts);
  }

  /** A token in front, and an operator with its file. */
  lemma Fronts(ts: seq<Tok>)
    requires Normal(ts)
    ensures ts != [] && ts[0].kind == 'a' ==> ts == [Tok('a', ts[0].w)] + ts[1..] && Normal(ts[1..])
    ensures Redirecting(ts) && ts[1..] != [] && ts[1..][0].kind == 'a' ==>
              && Normal(ts[1..][1..]) && |ts[1..][1..]| < |ts|
              && ts == [Operator(ModeOf(ts[0].kind))] + ([Tok('a', ts[1..][0].w)] + ts[1..][1..])
              && forall c :: Redirect(c, ts[0].kind, ts[1..][0].w) == Within(c, ModeOf(ts[0].kind), ts[1..][0].w)
  {
    if Redirecting(ts) && ts[1..] != [] {
      assert ts[1..] == [ts[1..][0]] + ts[1..][1..] && ts == [ts[0]] + ts[1..];
      assert ts[1] == ts[1..][0];
    }
  }

  lemma SimplesFirst(c: Cmd, ts: seq<Tok>)
    requires Simples(c, ts).Ok?
    ensures Redirecting(ts) ==> ts[1..] != [] && ts[1..][0].kind == 'a'
    ensures !Redirecting(ts) && !Ends(ts) ==> ts != [] && ts[0].kind == 'a' && Argc(c) + 1 < MAXARGS
    ensures !Redirecting(ts) && Ends(ts) ==> Simples(c, ts) == Ok(c, ts)
  {
    RedirsStep(c, ts);
  }

  lemma {:induction false} ItemsOnly(c: Cmd, ts: seq<Tok>) returns (items: seq<Item>)
    requires Simple(c) && Argc(c) < MAXARGS && Normal(ts) && Simples(c, ts).Ok?
    ensures ts == Flat(items) + Simples(c, ts).rest && Ends(Simples(c, ts).rest)
    ensures Simples(c, ts).c == Puts(c, items) && Argc(c) + |ArgsIn(items)| < MAXARGS
    decreases |ts|
  {
    hide Flat, Simples, Args, Redirs, AddArg, Argc, ArgsIn, Ends;
    Fronts(ts);
    SimplesFirst(c, ts);
    if Redirecting(ts) {
      var mode, file, rest := ModeOf(ts[0].kind), ts[1..][0].w, ts[1..][1..];
      SimplesRed(c, mode, file, rest);
      var more := ItemsOnly(Within(c, mode, file), rest);
      FlatCons(Red(mode, file), more, Simples(c, ts).rest);
      InStep(Red(mode, file), more);
      items := [Red(mode, file)] + more;
    } else if Ends(ts) {
      items := [];
      NoFlat();
      NoItems(c);
    } else {
      var w, rest := ts[0].w, ts[1..];
      AddArgWords(c, w);
      SimplesArg(c, w, rest);
      var more := ItemsOnly(AddArg(c, w), rest);
      FlatCons(Arg(w), more, Simples(c, ts).rest);
      InStep(Arg(w), more);
      items := [Arg(w)] + more;
    }
  }

  lemma {:induction false} RedsOnly(c: Cmd, ts: seq<Tok>) returns (reds: seq<Item>)
    requires Normal(ts) && Redirs(c, ts).Ok?
    ensures (forall r | r in reds :: r.Red?) && ts == Flat(reds) + Redirs(c, ts).rest
    ensures Redirs(c, ts).c == Wrap(c, reds)
    decreases |ts|
  {
    hide Flat, Redirs, Wrap;
    Fronts(ts);
    RedirsStep(c, ts);
    reds := [];
    if Redirecting(ts) {
      var mode, file, rest := ModeOf(ts[0].kind), ts[1..][0].w, ts[1..][1..];
      RedirsRed(c, mode, file, rest);
      var more := RedsOnly(Within(c, mode, file), rest);
      FlatCons(Red(mode, file), more, Redirs(c, ts).rest);
      WrapStep(c, mode, file, more);
      reds := [Red(mode, file)] + more;
    } else {
      NoFlat();
      NoItems(c);
    }
  }

  lemma {:induction false} ExecOnly(ts: seq<Tok>) returns (f: Form)
    requires Normal(ts) && ExecOf(ts).Ok?
    ensures IsExec(f) && ts == Write(f) + ExecOf(ts).rest && Meaning(f) == ExecOf(ts).c
    decreases |ts|, 0
  {
    hide LineOf, Redirs, Simples, Flat, Puts, Wrap, ArgsIn, RedsIn;
    if Head(ts) == '(' {
      var body := LineOnly(ts[1..]);
      var r := LineOf(ts[1..]);
      assert r.rest == [Sym(')')] + r.rest[1..] && ts == [Sym('(')] + ts[1..];
      var reds := RedsOnly(r.c, r.rest[1..]);
      f := Group(body, reds);
    } else {
      var items := ItemsOnly(Exec([]), ts);
      PlainMeans(items);
      f := Plain(items);
    }
  }

  lemma {:induction false} PipeOnly(ts: seq<Tok>) returns (f: Form)
    requires Normal(ts) && PipeOf(ts).Ok?
    ensures IsPipe(f) && ts == Write(f) + PipeOf(ts).rest && Meaning(f) == PipeOf(ts).c
    decreases |ts|, 1
  {
    hide ExecOf, PipeOf, Write, Meaning;
    PipeStart(ts);
    f := ExecOnly(ts);
    var l := ExecOf(ts);
    if Head(l.rest) == '|' {
      var g := PipeOnly(l.rest[1..]);
      assert l.rest == [Sym('|')] + l.rest[1..];
      PipedIs(f, g, PipeOf(ts).rest);
      f := Piped(f, g);
    }
  }

  lemma PipeStart(ts: seq<Tok>)
    requires PipeOf(ts).Ok?
    ensures ExecOf(ts).Ok? && (Head(ExecOf(ts).rest) != '|' ==> PipeOf(ts) == ExecOf(ts))
    ensures Head(ExecOf(ts).rest) == '|' ==>
              var r := PipeOf(ExecOf(ts).rest[1..]); r.Ok? && PipeOf(ts) == Ok(Pipe(ExecOf(ts).c, r.c), r.rest)
  {
  }

  lemma PipedIs(f: Form, g: Form, rest: seq<Tok>)
    ensures Meaning(Piped(f, g)) == Pipe(Meaning(f), Meaning(g))
    ensures Write(f) + ([Sym('|')] + (Write(g) + rest)) == Write(Piped(f, g)) + rest
  {
  }

  lemma BehindIs(g: Form, ts: seq<Tok>)
    ensures Meaning(Behind(g)) == Back(Meaning(g)) && Write(g) + ([Sym('&')] + ts) == Write(Behind(g)) + ts
  {
  }

  lemma {:induction false} BacksOnly(g: Form, ts: seq<Tok>) returns (f: Form)
    requires Normal(ts) && IsBack(g)
    ensures IsBack(f) && Write(g) + ts == Write(f) + Backs(Meaning(g), ts).rest
    ensures Meaning(f) == Backs(Meaning(g), ts).c
    decreases |ts|
  {
    hide Backs, Write, Meaning;
    f := g;
    BacksStep(Meaning(g), ts);
    if Head(ts) == '&' {
      assert ts == [Sym('&')] + ts[1..];
      BehindIs(g, ts[1..]);
      f := BacksOnly(Behind(g), ts[1..]);
    }
  }

  /** Every line that is read was written so. */
  lemma {:induction false} LineOnly(ts: seq<Tok>) returns (f: Form)
    requires Normal(ts) && LineOf(ts).Ok?
    ensures IsLine(f) && ts == Write(f) + LineOf(ts).rest && Meaning(f) == LineOf(ts).c
    decreases |ts|, 2
  {
    hide LineOf, BackOf, Backs, PipeOf, Write, Meaning;
    BackStart(ts);
    var g := PipeOnly(ts);
    f := BacksOnly(g, PipeOf(ts).rest);
    var l := BackOf(ts);
    LineEnd(ts);
    BackIsLine(f);
    if Head(l.rest) == ';' {
      var r := LineOnly(l.rest[1..]);
      assert l.rest == [Sym(';')] + l.rest[1..];
      ListedIs(f, r, LineOf(ts).rest);
      f := Listed(f, r);
    }
  }

  lemma BackIsLine(f: Form)
    requires IsBack(f)
    ensures IsLine(f)
  {
    assert f.Listed? ==> !IsExec(f) && !IsPipe(f);
  }

  lemma ListedIs(f: Form, r: Form, rest: seq<Tok>)
    ensures Meaning(Listed(f, r)) == List(Meaning(f), Meaning(r))
    ensures Write(f) + ([Sym(';')] + (Write(r) + rest)) == Write(Listed(f, r)) + rest
  {
  }

  ghost predicate Writes(ts: seq<Tok>, c: Cmd, f: Form) { IsLine(f) && Write(f) == ts && Meaning(f) == c }

  /** The grammar gives a text's tokens a command exactly if there is a way of writing them that means it. */
  lemma Accepted(t: seq<char>, c: Cmd)
    ensures LineOf(Tokens(t, 0)) == Ok(c, []) <==> exists f :: Writes(Tokens(t, 0), c, f)
  {
    var ts := Tokens(t, 0);
    TokensNormal(t, 0);
    if LineOf(ts) == Ok(c, []) {
      var f := LineOnly(ts);
      assert Write(f) + [] == Write(f);
      assert Writes(ts, c, f);
    }
    forall f | Writes(ts, c, f) ensures LineOf(ts) == Ok(c, []) {
      LineBack(f, []);
      assert Write(f) + [] == Write(f);
    }
  }

  /** No way of writing a line gives a text's tokens if the grammar does not take them all. */
  lemma Refused(t: seq<char>)
    requires var s := LineOf(Tokens(t, 0)); s.Fail? || s.rest != []
    ensures forall f :: IsLine(f) ==> Write(f) != Tokens(t, 0)
  {
    forall f | IsLine(f) ensures Write(f) != Tokens(t, 0) {
      LineBack(f, []);
      assert Write(f) + [] == Write(f);
    }
  }

  /** Arguments and redirections of a simple command come in any order: it is read if there are fewer than
      MAXARGS arguments, with these in order, inside the redirections in theirs. */
  lemma ItemsRead(items: seq<Item>, rest: seq<Tok>)
    requires Ends(rest) && |ArgsIn(items)| < MAXARGS
    ensures ExecOf(Flat(items) + rest) == Ok(Wrap(Exec(ArgsIn(items)), RedsIn(items)), rest)
  {
    ExecBack(Plain(items), rest);
  }

  /** What the redirections leave inside, and what they are, outermost last. */
  lemma {:induction false} WrapHas(args: seq<Slice>, reds: seq<Item>)
    requires forall r | r in reds :: r.Red?
    ensures Inside(Wrap(Exec(args), reds)) == Exec(args) && Around(Wrap(Exec(args), reds)) == reds
    decreases |reds|
  {
    if reds != [] {
      var n := |reds| - 1;
      WrapHas(args, reds[..n]);
      WrapMore(Exec(args), reds[..n], reds[n]);
      assert reds[..n] + [reds[n]] == reds;
    }
  }

  function Inside(c: Cmd): Cmd { if c.Redir? then Inside(c.cmd) else c }
  function Around(c: Cmd): seq<Item> { if c.Redir? then Around(c.cmd) + [Red(c.mode, c.file)] else [] }

  // Every command can be written.

  /** Arguments fit, and redirections have the descriptor their mode goes with. */
  predicate WellFormed(c: Cmd) {
    match c
    case Exec(args) => |args| < MAXARGS
    case Redir(d, _, mode, fd) => WellFormed(d) && fd == (if mode == ReadOnly then 0 else 1)
    case Pipe(l, r) => WellFormed(l) && WellFormed(r)
    case List(l, r) => WellFormed(l) && WellFormed(r)
    case Back(d) => WellFormed(d)
  }

  function ArgItems(args: seq<Slice>): seq<Item> { seq(|args|, i requires 0 <= i < |args| => Arg(args[i])) }

  /** How many levels of the grammar lie between one level and the one that prints c. */
  function Rank(c: Cmd, level: nat): nat
    requires level < 4
  {
    var own := match c case List(_, _) => 3 case Back(_) => 2 case Pipe(_, _) => 1 case _ => 0;
    (level + 4 - own) % 4
  }

  /** A command's own way of being written, with parentheses where the grammar needs them. */
  function ShowExec(c: Cmd): (f: Form)
    ensures f.Plain? || f.Group?
    decreases c, Rank(c, 0)
  {
    match c
    case Exec(args) => Plain(ArgItems(args))
    case Redir(d, file, mode, _) =>
      (match ShowExec(d)
       case Plain(items) => Plain(items + [Red(mode, file)])
       case Group(body, reds) => Group(body, reds + [Red(mode, file)]))
    case _ => Group(ShowLine(c), [])
  }

  function ShowPipe(c: Cmd): Form
    decreases c, Rank(c, 1)
  {
    if c.Pipe? then Piped(ShowExec(c.left), ShowPipe(c.right)) else ShowExec(c)
  }

  function ShowBack(c: Cmd): Form
    decreases c, Rank(c, 2)
  {
    if c.Back? then Behind(ShowBack(c.cmd)) else ShowPipe(c)
  }

  function ShowLine(c: Cmd): Form
    decreases c, Rank(c, 3)
  {
    if c.List? then Listed(ShowBack(c.left), ShowLine(c.right)) else ShowBack(c)
  }

  lemma {:induction false} ArgItemsIn(args: seq<Slice>)
    ensures ArgsIn(ArgItems(args)) == args && RedsIn(ArgItems(args)) == []
    decreases |args|
  {
    if args != [] {
      ArgItemsIn(args[1..]);
      assert ArgItems(args)[1..] == ArgItems(args[1..]);
    }
  }

  lemma {:induction false} OneMoreRed(items: seq<Item>, r: Item)
    requires r.Red?
    ensures ArgsIn(items + [r]) == ArgsIn(items) && RedsIn(items + [r]) == RedsIn(items) + [r]
    decreases |items|
  {
    if items != [] {
      OneMoreRed(items[1..], r);
      assert (items + [r])[1..] == items[1..] + [r];
    } else {
      assert items + [r] == [r] && [r][1..] == [];
    }
  }

  lemma {:induction false} WrapMore(c: Cmd, reds: seq<Item>, r: Item)
    requires r.Red?
    ensures Wrap(c, reds + [r]) == Within(Wrap(c, reds), r.mode, r.file)
    decreases |reds|
  {
    if reds == [] {
      assert reds + [r] == [r] + [];
      WrapStep(c, r.mode, r.file, []);
    } else {
      assert reds + [r] == [reds[0]] + (reds[1..] + [r]);
      assert (reds + [r])[1..] == reds[1..] + [r];
      WrapMore(if reds[0].Red? then Within(c, reds[0].mode, reds[0].file) else c, reds[1..], r);
    }
  }

  lemma {:induction false} ShowExecMeans(c: Cmd)
    requires WellFormed(c)
    ensures IsExec(ShowExec(c)) && Meaning(ShowExec(c)) == c
    decreases c, Rank(c, 0)
  {
    hide ArgsIn, RedsIn, Wrap;
    match c
    case Exec(args) =>
      ArgItemsIn(args);
      NoItems(c);
    case Redir(d, file, mode, _) =>
      ShowExecMeans(d);
      var r := Red(mode, file);
      match ShowExec(d) {
        case Plain(items) =>
          OneMoreRed(items, r);
          WrapMore(Exec(ArgsIn(items)), RedsIn(items), r);
        case Group(body, reds) =>
          WrapMore(Meaning(body), reds, r);
      }
    case _ =>
      ShowMeans(c);
      NoItems(c);
  }

  /** What a command is written as means it. */
  lemma {:induction false} ShowMeans(c: Cmd)
    requires WellFormed(c)
    ensures IsLine(ShowLine(c)) && Meaning(ShowLine(c)) == c
    decreases c, Rank(c, 3)
  {
    if c.List? {
      ShowBackMeans(c.left);
      ShowMeans(c.right);
    } else {
      ShowBackMeans(c);
    }
  }

  lemma {:induction false} ShowBackMeans(c: Cmd)
    requires WellFormed(c)
    ensures IsBack(ShowBack(c)) && Meaning(ShowBack(c)) == c
    decreases c, Rank(c, 2)
  {
    if c.Back? {
      ShowBackMeans(c.cmd);
    } else {
      ShowPipeMeans(c);
    }
  }

  lemma {:induction false} ShowPipeMeans(c: Cmd)
    requires WellFormed(c)
    ensures IsPipe(ShowPipe(c)) && Meaning(ShowPipe(c)) == c
    decreases c, Rank(c, 1)
  {
    if c.Pipe? {
      ShowExecMeans(c.left);
      ShowPipeMeans(c.right);
    } else {
      ShowExecMeans(c);
    }
  }

  /** Every command is the meaning of a line, and no two of the same. */
  lemma ShowsApart(c: Cmd, d: Cmd)
    requires WellFormed(c) && WellFormed(d)
    ensures LineOf(Write(ShowLine(c))) == Ok(c, [])
    ensures Write(ShowLine(c)) == Write(ShowLine(d)) ==> c == d
  {
    ShowMeans(c);
    ShowMeans(d);
    LineBack(ShowLine(c), []);
    LineBack(ShowLine(d), []);
    assert Write(ShowLine(c)) + [] == Write(ShowLine(c)) && Write(ShowLine(d)) + [] == Write(ShowLine(d));
  }
}
