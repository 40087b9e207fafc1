/** user/sh.c, parsing. ShellSyntax: tokens, the grammar as functions on token sequences, a printer, and
    the round trip between them. Shell: the recursive-descent code with its cursor, and nulterminate. */
module ShellSyntax {
  const MAXARGS := 10

  datatype Mode = In | Out | Append            // <, > and >>
  datatype Tree = Exec(args: seq<string>) | Redir(cmd: Tree, file: string, mode: Mode) | Pipe(left: Tree, right: Tree)
                | List(left: Tree, right: Tree) | Back(cmd: Tree)

  /** A word, or a symbol; '+' stands for >>. */
  datatype Tok = W(text: string) | S(c: char)

  predicate IsSpace(c: char) { c == ' ' || c == '\t' || c == '\r' || c == '\n' || c == '\U{00000B}' }
  predicate IsSymbol(c: char) { c == '<' || c == '|' || c == '>' || c == '&' || c == ';' || c == '(' || c == ')' }
  predicate IsWordChar(c: char) { !IsSpace(c) && !IsSymbol(c) }

  /** Length of the word at the start of s. */
  function WordLen(s: string): (k: nat)
    ensures k <= |s| && (forall i | 0 <= i < k :: IsWordChar(s[i])) && (k < |s| ==> !IsWordChar(s[k]))
  {
    if s == "" || !IsWordChar(s[0]) then 0 else 1 + WordLen(s[1..])
  }

  function Tokens(s: string): seq<Tok> {
    if s == "" then []
    else if IsSpace(s[0]) then Tokens(s[1..])
    else if s[0] == '>' && |s| >= 2 && s[1] == '>' then [S('+')] + Tokens(s[2..])
    else if IsSymbol(s[0]) then [S(s[0])] + Tokens(s[1..])
    else [W(s[..WordLen(s)])] + Tokens(s[WordLen(s)..])
  }

  // ---- the grammar ----

  datatype Res = Ok(t: Tree, rest: seq<Tok>) | Panic
  datatype Redirs = Found(rs: seq<(string, Mode)>, rest: seq<Tok>) | Missing   // "missing file for redirection"

  predicate Starts(ts: seq<Tok>, c: char) { ts != [] && ts[0] == S(c) }

  function ModeOf(c: char): Mode { if c == '<' then In else if c == '>' then Out else Append }

  /** t with the redirections rs around it, the first innermost. */
  function Wrap(t: Tree, rs: seq<(string, Mode)>): Tree {
    if rs == [] then t else Redir(Wrap(t, rs[..|rs| - 1]), rs[|rs| - 1].0, rs[|rs| - 1].1)
  }

  function PRedirs(rs: seq<(string, Mode)>, ts: seq<Tok>): (r: Redirs)
    ensures r.Found? ==> |r.rest| <= |ts|
    decreases |ts|
  {
    if Starts(ts, '<') || Starts(ts, '>') || Starts(ts, '+') then
      if |ts| >= 2 && ts[1].W? then PRedirs(rs + [(ts[1].text, ModeOf(ts[0].c))], ts[2..]) else Missing
    else Found(rs, ts)
  }

  /** The words of a command, with redirections between them. */
  function PArgs(words: seq<string>, rs: seq<(string, Mode)>, ts: seq<Tok>): (r: Res)
    ensures r.Ok? ==> |r.rest| <= |ts|
    decreases |ts|
  {
    if ts == [] || Starts(ts, '|') || Starts(ts, ')') || Starts(ts, '&') || Starts(ts, ';') then
      Ok(Wrap(Exec(words), rs), ts)
    else if !ts[0].W? || |words| + 1 >= MAXARGS then Panic
    else match PRedirs(rs, ts[1..])
         case Missing => Panic
         case Found(rs', rest) => PArgs(words + [ts[0].text], rs', rest)
  }

  function PExec(ts: seq<Tok>): (r: Res)
    ensures r.Ok? ==> |r.rest| <= |ts|
    decreases |ts|, 0
  {
    if Starts(ts, '(') then
      match PLine(ts[1..])
      case Panic => Panic
      case Ok(t, rest) =>
        if !Starts(rest, ')') then Panic
        else match PRedirs([], rest[1..])
             case Missing => Panic
             case Found(rs, rest') => Ok(Wrap(t, rs), rest')
    else
      match PRedirs([], ts)
      case Missing => Panic
      case Found(rs, rest) => PArgs([], rs, rest)
  }

  function PPipe(ts: seq<Tok>): (r: Res)
    ensures r.Ok? ==> |r.rest| <= |ts|
    decreases |ts|, 1
  {
    match PExec(ts)
    case Panic => Panic
    case Ok(t, rest) =>
      if !Starts(rest, '|') then Ok(t, rest)
      else match PPipe(rest[1..])
           case Panic => Panic
           case Ok(u, rest') => Ok(Pipe(t, u), rest')
  }

  /** A run of &. */
  function PBacks(t: Tree, ts: seq<Tok>): (r: (Tree, seq<Tok>))
    ensures |r.1| <= |ts| && !Starts(r.1, '&')
    decreases |ts|
  {
    if Starts(ts, '&') then PBacks(Back(t), ts[1..]) else (t, ts)
  }

  function PLine(ts: seq<Tok>): (r: Res)
    ensures r.Ok? ==> |r.rest| <= |ts|
    decreases |ts|, 2
  {
    match PPipe(ts)
    case Panic => Panic
    case Ok(t, rest) =>
      var (u, rest') := PBacks(t, rest);
      if !Starts(rest', ';') then Ok(u, rest')
      else match PLine(rest'[1..])
           case Panic => Panic
           case Ok(v, rest'') => Ok(List(u, v), rest'')
  }

  /** parsecmd: a whole line; leftovers are a panic too. */
  function Parse(ts: seq<Tok>): Res {
    match PLine(ts)
    case Panic => Panic
    case Ok(t, rest) => if rest == [] then Ok(t, []) else Panic
  }

  // ---- the printer ----

  function Words(ws: seq<string>): (ts: seq<Tok>)
    ensures |ts| == |ws| && forall k | 0 <= k < |ws| :: ts[k] == W(ws[k])
  {
    if ws == [] then [] else Words(ws[..|ws| - 1]) + [W(ws[|ws| - 1])]
  }

  function ModeTok(m: Mode): Tok { S(if m == In then '<' else if m == Out then '>' else '+') }

  /** Levels: 3 a line, 2 a command with its &s, 1 a pipeline, 0 one element of a pipeline. */
  function Rank(t: Tree, level: nat): nat
    requires level <= 3
  {
    match t
    case Exec(args) => level
    case Redir(c, f, m) => level
    case Pipe(l, r) => (level + 3) % 4
    case Back(c) => (level + 2) % 4
    case List(l, r) => (level + 1) % 4
  }

  /** t as tokens, with parentheses where its level needs them. */
  function Pr(t: Tree, level: nat): seq<Tok>
    requires level <= 3
    decreases t, Rank(t, level)
  {
    if level == 3 then
      if t.List? then Pr(t.left, 2) + [S(';')] + Pr(t.right, 3) else Pr(t, 2)
    else if level == 2 then
      if t.Back? then Pr(t.cmd, 2) + [S('&')] else Pr(t, 1)
    else if level == 1 then
      if t.Pipe? then Pr(t.left, 0) + [S('|')] + Pr(t.right, 1) else Pr(t, 0)
    else if t.Exec? then Words(t.args)
    else if t.Redir? then Pr(t.cmd, 0) + [ModeTok(t.mode), W(t.file)]
    else [S('(')] + Pr(t, 3) + [S(')')]
  }

  /** The trees of the grammar: fewer than MAXARGS words to a command. */
  predicate Fits(t: Tree) {
    match t
    case Exec(args) => |args| < MAXARGS
    case Redir(c, f, m) => Fits(c)
    case Pipe(l, r) => Fits(l) && Fits(r)
    case Back(c) => Fits(c)
    case List(l, r) => Fits(l) && Fits(r)
  }

  // ---- parsing what was printed ----

  /** What can follow an element of a pipeline. */
  predicate After(ts: seq<Tok>, level: nat) {
    ts == [] || Starts(ts, ')') || (level <= 2 && Starts(ts, ';')) || (level <= 1 && Starts(ts, '&'))
    || (level <= 0 && Starts(ts, '|'))
  }

  lemma {:induction false} RedirsNone(rs: seq<(string, Mode)>, ts: seq<Tok>)
    requires !Starts(ts, '<') && !Starts(ts, '>') && !Starts(ts, '+')
    ensures PRedirs(rs, ts) == Found(rs, ts)
  {
  }

  /** Tokens of a list of redirections. */
  function RedirToks(rs: seq<(string, Mode)>): seq<Tok> {
    if rs == [] then [] else [ModeTok(rs[0].1), W(rs[0].0)] + RedirToks(rs[1..])
  }

  lemma {:induction false} RedirsParsed(acc: seq<(string, Mode)>, rs: seq<(string, Mode)>, rest: seq<Tok>)
    requires !Starts(rest, '<') && !Starts(rest, '>') && !Starts(rest, '+')
    ensures PRedirs(acc, RedirToks(rs) + rest) == Found(acc + rs, rest)
    decreases |rs|
  {
    if rs == [] {
      assert RedirToks(rs) + rest == rest && acc + rs == acc;
    } else {
      var ts := RedirToks(rs) + rest;
      assert ts[0] == ModeTok(rs[0].1) && ts[1] == W(rs[0].0) && ts[2..] == RedirToks(rs[1..]) + rest;
      assert ModeOf(ts[0].c) == rs[0].1;
      RedirsParsed(acc + [rs[0]], rs[1..], rest);
      assert acc + [rs[0]] + rs[1..] == acc + rs;
    }
  }

  lemma {:induction false} ArgsParsed(done: seq<string>, ws: seq<string>, rs: seq<(string, Mode)>, rest: seq<Tok>)
    requires After(rest, 0) && |done| + |ws| < MAXARGS && ws != []
    ensures PArgs(done, [], Words(ws) + RedirToks(rs) + rest) == Ok(Wrap(Exec(done + ws), rs), rest)
    decreases |ws|
  {
    hide RedirToks, PRedirs, Wrap;
    var ts := Words(ws) + RedirToks(rs) + rest;
    WordsTail(ws, RedirToks(rs) + rest);
    assert ts == Words(ws) + (RedirToks(rs) + rest);
    if |ws| == 1 {
      RedirsParsed([], rs, rest);
      assert [] + rs == rs && done + [ws[0]] == done + ws && ws[1..] == [];
      assert ts[1..] == RedirToks(rs) + rest;
      ArgsEnd(done + [ws[0]], rs, rest);
    } else {
      assert ts[1..] == Words(ws[1..]) + RedirToks(rs) + rest;
      WordsTail(ws[1..], RedirToks(rs) + rest);
      RedirsNone([], ts[1..]);
      assert done + [ws[0]] + ws[1..] == done + ws;
      ArgsParsed(done + [ws[0]], ws[1..], rs, rest);
    }
  }

  lemma {:induction false} WordsTail(ws: seq<string>, rest: seq<Tok>)
    requires ws != []
    ensures var ts := Words(ws) + rest; |ts| > 0 && ts[0] == W(ws[0]) && ts[1..] == Words(ws[1..]) + rest
  {
    assert Words(ws)[1..] == Words(ws[1..]);
  }

  lemma {:induction false} ArgsEnd(done: seq<string>, rs: seq<(string, Mode)>, rest: seq<Tok>)
    requires After(rest, 0)
    ensures PArgs(done, rs, rest) == Ok(Wrap(Exec(done), rs), rest)
  {
  }

  /** t without its outer redirections, and those redirections. */
  function Core(t: Tree): Tree { if t.Redir? then Core(t.cmd) else t }
  function Outer(t: Tree): seq<(string, Mode)> { if t.Redir? then Outer(t.cmd) + [(t.file, t.mode)] else [] }

  lemma {:induction false} RedirToksAdd(rs: seq<(string, Mode)>, f: string, m: Mode)
    ensures RedirToks(rs + [(f, m)]) == RedirToks(rs) + [ModeTok(m), W(f)]
    decreases |rs|
  {
    if rs == [] {
      assert rs + [(f, m)] == [(f, m)] && RedirToks([(f, m)][1..]) == [];
    } else {
      assert (rs + [(f, m)])[1..] == rs[1..] + [(f, m)];
      RedirToksAdd(rs[1..], f, m);
    }
  }

  lemma {:induction false} CoreOuter(t: Tree)
    ensures Wrap(Core(t), Outer(t)) == t && Pr(t, 0) == Pr(Core(t), 0) + RedirToks(Outer(t)) && !Core(t).Redir?
    ensures Fits(t) ==> Fits(Core(t))
    ensures t.Redir? ==> Core(t) < t
    ensures !t.Redir? ==> Core(t) == t
  {
    if t.Redir? {
      CoreOuter(t.cmd);
      var rs := Outer(t.cmd);
      assert (rs + [(t.file, t.mode)])[..|rs|] == rs;
      RedirToksAdd(rs, t.file, t.mode);
      assert Pr(Core(t), 0) + RedirToks(rs) + [ModeTok(t.mode), W(t.file)] == Pr(Core(t), 0) +
        (RedirToks(rs) + [ModeTok(t.mode), W(t.file)]);
    } else {
      assert Pr(t, 0) + [] == Pr(t, 0);
    }
  }

  /** The command under a run of &, and the run. */
  function Fore(t: Tree): Tree { if t.Back? then Fore(t.cmd) else t }
  function Ands(t: Tree): seq<Tok> { if t.Back? then Ands(t.cmd) + [S('&')] else [] }

  lemma {:induction false} ForeAnds(t: Tree, rest: seq<Tok>)
    requires !Starts(rest, '&')
    ensures Pr(t, 2) == Pr(Fore(t), 1) + Ands(t) && PBacks(Fore(t), Ands(t) + rest) == (t, rest)
    ensures Fits(t) ==> Fits(Fore(t))
    ensures t.Back? ==> Fore(t) < t && Starts(Ands(t) + rest, '&')
    ensures !t.Back? ==> Fore(t) == t && Ands(t) == []
  {
    if t.Back? {
      ForeAnds(t.cmd, []);
      assert Pr(Fore(t), 1) + Ands(t.cmd) + [S('&')] == Pr(Fore(t), 1) + (Ands(t.cmd) + [S('&')]);
      BacksMore(Fore(t), t.cmd, Ands(t.cmd), rest);
      assert Ands(t) + rest == Ands(t.cmd) + ([S('&')] + rest);
    } else {
      assert Pr(t, 1) + [] == Pr(t, 1) && [] + rest == rest;
    }
  }

  /** A run of & and one more. */
  lemma {:induction false} BacksMore(u: Tree, t: Tree, ands: seq<Tok>, rest: seq<Tok>)
    requires PBacks(u, ands + []) == (t, []) && !Starts(rest, '&')
    ensures PBacks(u, ands + ([S('&')] + rest)) == (Back(t), rest) && Starts(ands + ([S('&')] + rest), '&')
    decreases |ands|
  {
    assert ands + [] == ands;
    var ts := ands + ([S('&')] + rest);
    if ands == [] {
      assert ts[1..] == rest;
      assert PBacks(Back(u), rest) == (Back(u), rest);
    } else {
      assert Starts(ands, '&');
      assert ts[1..] == ands[1..] + ([S('&')] + rest) && ands[1..] + [] == ands[1..];
      BacksMore(Back(u), t, ands[1..], rest);
    }
  }

  lemma {:induction false} ExecParsed(ws: seq<string>, rs: seq<(string, Mode)>, rest: seq<Tok>)
    requires After(rest, 0) && |ws| < MAXARGS
    ensures PExec(Words(ws) + RedirToks(rs) + rest) == Ok(Wrap(Exec(ws), rs), rest)
  {
    var ts := Words(ws) + RedirToks(rs) + rest;
    if ws == [] {
      assert ts == RedirToks(rs) + rest;
      if rs != [] { assert ts[0] == ModeTok(rs[0].1); }
      RedirsParsed([], rs, rest);
      assert [] + rs == rs;
    } else {
      assert ts[0] == W(ws[0]);
      RedirsNone([], ts);
      ArgsParsed([], ws, rs, rest);
      assert [] + ws == ws;
    }
  }

  lemma {:induction false} BlockParsed(c: Tree, line: seq<Tok>, rs: seq<(string, Mode)>, rest: seq<Tok>)
    requires After(rest, 0)
    requires var tail := [S(')')] + (RedirToks(rs) + rest); PLine(line + tail) == Ok(c, tail)
    ensures PExec([S('(')] + (line + ([S(')')] + (RedirToks(rs) + rest)))) == Ok(Wrap(c, rs), rest)
  {
    hide PLine, Wrap;
    var tail := [S(')')] + (RedirToks(rs) + rest);
    var ts := [S('(')] + (line + tail);
    assert ts[1..] == line + tail && tail[1..] == RedirToks(rs) + rest;
    RedirsParsed([], rs, rest);
    assert [] + rs == rs;
  }

  lemma {:induction false} ElementParsed(t: Tree, rest: seq<Tok>)
    requires Fits(t) && After(rest, 0)
    ensures PExec(Pr(t, 0) + rest) == Ok(t, rest)
    decreases t, Rank(t, 0), 0
  {
    hide PExec, PLine, Wrap, RedirToks, Outer;
    CoreOuter(t);
    var c, rs := Core(t), Outer(t);
    if c.Exec? {
      assert Pr(t, 0) + rest == Words(c.args) + RedirToks(rs) + rest;
      ExecParsed(c.args, rs, rest);
    } else {
      var tail := RedirToks(rs) + rest;
      assert Pr(c, 0) == [S('(')] + Pr(c, 3) + [S(')')];
      assert Pr(t, 0) + rest == [S('(')] + (Pr(c, 3) + ([S(')')] + tail));
      LineParsed(c, [S(')')] + tail);
      BlockParsed(c, Pr(c, 3), rs, rest);
    }
  }

  lemma {:induction false} PipeParsed(t: Tree, rest: seq<Tok>)
    requires Fits(t) && After(rest, 1)
    ensures PPipe(Pr(t, 1) + rest) == Ok(t, rest)
    decreases t, Rank(t, 1), 0
  {
    if t.Pipe? {
      var tail := Pr(t.right, 1) + rest;
      assert Pr(t, 1) + rest == Pr(t.left, 0) + ([S('|')] + tail);
      ElementParsed(t.left, [S('|')] + tail);
      assert ([S('|')] + tail)[1..] == tail;
      PipeParsed(t.right, rest);
    } else {
      ElementParsed(t, rest);
    }
  }

  /** A line begins with what stands before its first semicolon. */
  lemma {:induction false} LineFrom(l: Tree, rest: seq<Tok>)
    requires PPipe(Pr(Fore(l), 1) + (Ands(l) + rest)) == Ok(Fore(l), Ands(l) + rest) && !Starts(rest, '&')
    ensures PLine(Pr(l, 2) + rest) ==
      if !Starts(rest, ';') then Ok(l, rest)
        else match PLine(rest[1..]) case Panic => Panic case Ok(v, rest') => Ok(List(l, v), rest')
  {
    ForeAnds(l, rest);
    assert Pr(l, 2) + rest == Pr(Fore(l), 1) + (Ands(l) + rest);
  }

  lemma {:induction false} LineParsed(t: Tree, rest: seq<Tok>)
    requires Fits(t) && After(rest, 3)
    ensures PLine(Pr(t, 3) + rest) == Ok(t, rest)
    decreases t, Rank(t, 3), 0
  {
    hide PPipe, PBacks, Ands, Fore;
    if t.List? {
      var tail := [S(';')] + (Pr(t.right, 3) + rest);
      ForeAnds(t.left, tail);
      assert t.left.Back? || Ands(t.left) + tail == tail;
      PipeParsed(Fore(t.left), Ands(t.left) + tail);
      LineFrom(t.left, tail);
      LineParsed(t.right, rest);
      assert tail[1..] == Pr(t.right, 3) + rest;
      assert Pr(t, 3) + rest == Pr(t.left, 2) + tail;
    } else {
      ForeAnds(t, rest);
      assert t.Back? || Ands(t) + rest == rest;
      PipeParsed(Fore(t), Ands(t) + rest);
      LineFrom(t, rest);
    }
  }

  /** Parsing the tokens of a printed tree gives the tree back. */
  lemma {:induction false} TokensRoundTrip(t: Tree)
    requires Fits(t)
    ensures Parse(Pr(t, 3)) == Ok(t, [])
  {
    LineParsed(t, []);
    assert Pr(t, 3) + [] == Pr(t, 3);
  }

  // ---- the printed line ----

  predicate Wordy(w: string) { w != "" && forall i | 0 <= i < |w| :: IsWordChar(w[i]) && w[i] != '\0' }

  /** Every word and file name is one the shell can read back. */
  predicate Readable(t: Tree) {
    match t
    case Exec(args) => forall k | 0 <= k < |args| :: Wordy(args[k])
    case Redir(c, f, m) => Readable(c) && Wordy(f)
    case Pipe(l, r) => Readable(l) && Readable(r)
    case Back(c) => Readable(c)
    case List(l, r) => Readable(l) && Readable(r)
  }

  predicate TokOk(tok: Tok) { if tok.W? then Wordy(tok.text) else IsSymbol(tok.c) || tok.c == '+' }

  function Spell(tok: Tok): string { if tok.W? then tok.text else if tok.c == '+' then ">>" else [tok.c] }

  /** The tokens in order, a space after each. */
  function Join(ts: seq<Tok>): string { if ts == [] then "" else Spell(ts[0]) + " " + Join(ts[1..]) }

  function Print(t: Tree): string { Join(Pr(t, 3)) }

  lemma {:induction false} WordLenIs(w: string, rest: string)
    requires (forall i | 0 <= i < |w| :: IsWordChar(w[i])) && (rest != "" ==> !IsWordChar(rest[0]))
    ensures WordLen(w + rest) == |w|
  {
    assert forall i | 0 <= i < |w| :: (w + rest)[i] == w[i];
    assert rest != "" ==> (w + rest)[|w|] == rest[0];
  }

  lemma {:induction false} LexTok(tok: Tok, rest: string)
    requires TokOk(tok)
    ensures Tokens(Spell(tok) + " " + rest) == [tok] + Tokens(rest)
  {
    var s := Spell(tok) + " " + rest;
    assert Tokens(" " + rest) == Tokens(rest) by { assert (" " + rest)[1..] == rest; }
    if tok.W? {
      assert s == tok.text + (" " + rest) && s[0] == tok.text[0];
      WordLenIs(tok.text, " " + rest);
      assert s[..|tok.text|] == tok.text && s[|tok.text|..] == " " + rest;
    } else if tok.c == '+' {
      assert s[0] == '>' && s[1] == '>' && s[2..] == " " + rest;
    } else {
      assert s[0] == tok.c && s[1] == ' ' && s[1..] == " " + rest;
    }
  }

  lemma {:induction false} LexJoin(ts: seq<Tok>)
    requires forall k | 0 <= k < |ts| :: TokOk(ts[k])
    ensures Tokens(Join(ts)) == ts
  {
    if ts != [] {
      LexJoin(ts[1..]);
      LexTok(ts[0], Join(ts[1..]));
    }
  }

  lemma {:induction false} PrReadable(t: Tree, level: nat)
    requires Readable(t) && level <= 3
    ensures forall k | 0 <= k < |Pr(t, level)| :: TokOk(Pr(t, level)[k])
    decreases t, Rank(t, level)
  {
    if level == 3 && t.List? { PrReadable(t.left, 2); PrReadable(t.right, 3); }
    else if level == 3 { PrReadable(t, 2); }
    else if level == 2 && t.Back? { PrReadable(t.cmd, 2); }
    else if level == 2 { PrReadable(t, 1); }
    else if level == 1 && t.Pipe? { PrReadable(t.left, 0); PrReadable(t.right, 1); }
    else if level == 1 { PrReadable(t, 0); }
    else if t.Redir? { PrReadable(t.cmd, 0); }
    else if !t.Exec? { PrReadable(t, 3); }
  }

  /** Reading back a printed tree gives the tree. */
  lemma {:induction false} RoundTrip(t: Tree)
    requires Fits(t) && Readable(t)
    ensures Parse(Tokens(Print(t))) == Ok(t, [])
  {
    PrReadable(t, 3);
    LexJoin(Pr(t, 3));
    TokensRoundTrip(t);
  }

  // ---- nothing else can be parsed ----

  /** The trees that can be printed and read back. */
  predicate Plain(t: Tree) { Fits(t) && Readable(t) }

  predicate ToksOk(ts: seq<Tok>) { forall k | 0 <= k < |ts| :: TokOk(ts[k]) }

  predicate FilesOk(rs: seq<(string, Mode)>) { forall k | 0 <= k < |rs| :: Wordy(rs[k].0) }

  predicate NoNul(s: string) { forall i | 0 <= i < |s| :: s[i] != '\0' }

  lemma {:induction false} TokensOk(s: string)
    requires NoNul(s)
    ensures ToksOk(Tokens(s))
    decreases |s|
  {
    hide WordLen;
    if s == "" {
    } else if IsSpace(s[0]) {
      TokensOk(s[1..]);
    } else if IsSymbol(s[0]) {
      TokensOk(s[1..]);
      if |s| >= 2 { TokensOk(s[2..]); }
    } else {
      LexFirst(s);
      TokensOk(s[WordLen(s)..]);
      assert Wordy(s[..WordLen(s)]);
    }
  }

  lemma {:induction false} RedirsPlain(rs: seq<(string, Mode)>, ts: seq<Tok>)
    requires FilesOk(rs) && ToksOk(ts) && PRedirs(rs, ts).Found?
    ensures FilesOk(PRedirs(rs, ts).rs) && ToksOk(PRedirs(rs, ts).rest)
    decreases |ts|
  {
    if Starts(ts, '<') || Starts(ts, '>') || Starts(ts, '+') {
      assert TokOk(ts[1]);
      RedirsPlain(rs + [(ts[1].text, ModeOf(ts[0].c))], ts[2..]);
    }
  }

  lemma {:induction false} WrapPlain(t: Tree, rs: seq<(string, Mode)>)
    requires Plain(t) && FilesOk(rs)
    ensures Plain(Wrap(t, rs))
    decreases |rs|
  {
    if rs != [] { WrapPlain(t, rs[..|rs| - 1]); }
  }

  lemma {:induction false} ArgsPlain(words: seq<string>, rs: seq<(string, Mode)>, ts: seq<Tok>)
    requires Plain(Exec(words)) && FilesOk(rs) && ToksOk(ts) && PArgs(words, rs, ts).Ok?
    ensures Plain(PArgs(words, rs, ts).t) && ToksOk(PArgs(words, rs, ts).rest)
    decreases |ts|
  {
    hide PRedirs, Wrap;
    if ts == [] || Starts(ts, '|') || Starts(ts, ')') || Starts(ts, '&') || Starts(ts, ';') {
      WrapPlain(Exec(words), rs);
    } else {
      assert TokOk(ts[0]);
      RedirsPlain(rs, ts[1..]);
      var more := PRedirs(rs, ts[1..]);
      ArgsPlain(words + [ts[0].text], more.rs, more.rest);
    }
  }

  lemma {:induction false} BacksPlain(t: Tree, ts: seq<Tok>)
    requires Plain(t) && ToksOk(ts)
    ensures Plain(PBacks(t, ts).0) && ToksOk(PBacks(t, ts).1)
    decreases |ts|
  {
    if Starts(ts, '&') { BacksPlain(Back(t), ts[1..]); }
  }

  lemma {:induction false} ElementPlain(ts: seq<Tok>)
    requires ToksOk(ts) && PExec(ts).Ok?
    ensures Plain(PExec(ts).t) && ToksOk(PExec(ts).rest)
    decreases |ts|, 0
  {
    hide PLine, PRedirs, PArgs, Wrap;
    if Starts(ts, '(') {
      LinePlain(ts[1..]);
      var line := PLine(ts[1..]);
      RedirsPlain([], line.rest[1..]);
      WrapPlain(line.t, PRedirs([], line.rest[1..]).rs);
    } else {
      RedirsPlain([], ts);
      ArgsPlain([], PRedirs([], ts).rs, PRedirs([], ts).rest);
    }
  }

  lemma {:induction false} PipePlain(ts: seq<Tok>)
    requires ToksOk(ts) && PPipe(ts).Ok?
    ensures Plain(PPipe(ts).t) && ToksOk(PPipe(ts).rest)
    decreases |ts|, 1
  {
    hide PExec;
    ElementPlain(ts);
    if Starts(PExec(ts).rest, '|') { PipePlain(PExec(ts).rest[1..]); }
  }

  lemma {:induction false} LinePlain(ts: seq<Tok>)
    requires ToksOk(ts) && PLine(ts).Ok?
    ensures Plain(PLine(ts).t) && ToksOk(PLine(ts).rest)
    decreases |ts|, 2
  {
    hide PPipe, PBacks;
    PipePlain(ts);
    BacksPlain(PPipe(ts).t, PPipe(ts).rest);
    var rest := PBacks(PPipe(ts).t, PPipe(ts).rest).1;
    if Starts(rest, ';') { LinePlain(rest[1..]); }
  }

  /** The trees that lines are parsed into are exactly those that fit and can be read back: each is the parse of
      its own printed text. */
  lemma {:induction false} ParsedIff(t: Tree)
    ensures Plain(t) <==> exists s :: NoNul(s) && Parse(Tokens(s)) == Ok(t, [])
  {
    hide Plain, Tokens, Parse, NoNul;
    if Plain(t) {
      Printed(t);
      assert Parse(Tokens(Print(t))) == Ok(t, []);
    }
    if s :| NoNul(s) && Parse(Tokens(s)) == Ok(t, []) { ParsedPlain(s, t); }
  }

  lemma {:induction false} Printed(t: Tree)
    requires Plain(t)
    ensures NoNul(Print(t)) && Parse(Tokens(Print(t))) == Ok(t, [])
  {
    hide Parse, Tokens, Pr, Join;
    RoundTrip(t);
    PrReadable(t, 3);
    JoinNoNul(Pr(t, 3));
  }

  lemma {:induction false} JoinNoNul(ts: seq<Tok>)
    requires ToksOk(ts)
    ensures NoNul(Join(ts))
  {
    if ts != [] {
      JoinNoNul(ts[1..]);
      assert TokOk(ts[0]) && NoNul(Spell(ts[0]));
    }
  }

  /** What a line parses into can be printed, and the printed line parses into the same. */
  lemma {:induction false} ParsedPlain(s: string, t: Tree)
    requires NoNul(s) && Parse(Tokens(s)) == Ok(t, [])
    ensures Plain(t) && Parse(Tokens(Print(t))) == Parse(Tokens(s))
  {
    hide Tokens, PLine, Plain;
    TokensOk(s);
    LinePlain(Tokens(s));
    PlainParts(t);
    RoundTrip(t);
  }

  lemma {:induction false} PlainParts(t: Tree)
    requires Plain(t)
    ensures Fits(t) && Readable(t)
  {
  }

  /** The first token, seen from the first character that is not a space, and the rest. */
  lemma {:induction false} LexFirst(s: string)
    requires s != "" && !IsSpace(s[0])
    ensures s[0] == '>' && |s| >= 2 && s[1] == '>' ==> Tokens(s) == [S('+')] + Tokens(s[2..])
    ensures IsSymbol(s[0]) && !(s[0] == '>' && |s| >= 2 && s[1] == '>') ==> Tokens(s) == [S(s[0])] + Tokens(s[1..])
    ensures !IsSymbol(s[0]) ==> WordLen(s) > 0 && Tokens(s) == [W(s[..WordLen(s)])] + Tokens(s[WordLen(s)..])
  {
  }

  lemma {:induction false} LexEnd()
    ensures Tokens("") == []
  {
  }
}

module Shell {
  import opened Options
  import opened ShellSyntax

  /** A word in the input line: its first character and the one after its last. */
  datatype Span = Span(q: nat, eq: nat)
  datatype Cmd =
    | CExec(args: seq<Span>) | CRedir(cmd: Cmd, file: Span, mode: Mode)
    | CPipe(left: Cmd, right: Cmd) | CList(left: Cmd, right: Cmd) | CBack(cmd: Cmd)

  /** A whole word: nothing but word characters, and none after it. */
  predicate IsWord(s: string, w: Span) {
    w.q < w.eq <= |s| && (forall i | w.q <= i < w.eq :: IsWordChar(s[i])) && (w.eq < |s| ==> !IsWordChar(s[w.eq]))
  }

  predicate WordsIn(s: string, c: Cmd) {
    match c
    case CExec(args) => forall k | 0 <= k < |args| :: IsWord(s, args[k])
    case CRedir(d, f, m) => WordsIn(s, d) && IsWord(s, f)
    case CPipe(l, r) => WordsIn(s, l) && WordsIn(s, r)
    case CList(l, r) => WordsIn(s, l) && WordsIn(s, r)
    case CBack(d) => WordsIn(s, d)
  }

  function Texts(s: string, ws: seq<Span>): (r: seq<string>)
    requires forall k | 0 <= k < |ws| :: IsWord(s, ws[k])
    ensures |r| == |ws|
  {
    if ws == [] then []
    else
      assert IsWord(s, ws[|ws| - 1]);
      Texts(s, ws[..|ws| - 1]) + [s[ws[|ws| - 1].q..ws[|ws| - 1].eq]]
  }

  /** The tree that a command with its words in s stands for. */
  function Text(s: string, c: Cmd): Tree
    requires WordsIn(s, c)
  {
    match c
    case CExec(args) => Exec(Texts(s, args))
    case CRedir(d, f, m) => Redir(Text(s, d), s[f.q..f.eq], m)
    case CPipe(l, r) => Pipe(Text(s, l), Text(s, r))
    case CList(l, r) => List(Text(s, l), Text(s, r))
    case CBack(d) => Back(Text(s, d))
  }

  predicate RedirsIn(s: string, rs: seq<(Span, Mode)>) { forall k | 0 <= k < |rs| :: IsWord(s, rs[k].0) }

  function RTexts(s: string, rs: seq<(Span, Mode)>): (r: seq<(string, Mode)>)
    requires RedirsIn(s, rs)
    ensures |r| == |rs|
  {
    if rs == [] then [] else RTexts(s, rs[..|rs| - 1]) + [(s[rs[|rs| - 1].0.q..rs[|rs| - 1].0.eq], rs[|rs| - 1].1)]
  }

  /** The command with the redirections around it, the first innermost. */
  function Around(c: Cmd, rs: seq<(Span, Mode)>): Cmd {
    if rs == [] then c else CRedir(Around(c, rs[..|rs| - 1]), rs[|rs| - 1].0, rs[|rs| - 1].1)
  }

  lemma {:induction false} AroundText(s: string, c: Cmd, rs: seq<(Span, Mode)>)
    requires WordsIn(s, c) && RedirsIn(s, rs)
    ensures WordsIn(s, Around(c, rs)) && Text(s, Around(c, rs)) == Wrap(Text(s, c), RTexts(s, rs))
    decreases |rs|
  {
    if rs != [] {
      AroundText(s, c, rs[..|rs| - 1]);
      assert RTexts(s, rs)[..|rs| - 1] == RTexts(s, rs[..|rs| - 1]);
    }
  }

  lemma {:induction false} RTextsAdd(s: string, rs: seq<(Span, Mode)>, w: Span, m: Mode)
    requires RedirsIn(s, rs) && IsWord(s, w)
    ensures RedirsIn(s, rs + [(w, m)]) && RTexts(s, rs + [(w, m)]) == RTexts(s, rs) + [(s[w.q..w.eq], m)]
  {
    assert (rs + [(w, m)])[..|rs|] == rs;
  }

  lemma {:induction false} TextsAdd(s: string, ws: seq<Span>, w: Span)
    requires (forall k | 0 <= k < |ws| :: IsWord(s, ws[k])) && IsWord(s, w)
    ensures Texts(s, ws + [w]) == Texts(s, ws) + [s[w.q..w.eq]]
  {
    assert (ws + [w])[..|ws|] == ws;
  }

  /** The cursor *ps over the line s, which ends at es. */
  class Parser {
    const s: string
    var pos: nat

    constructor (s: string)
      ensures this.s == s && pos == 0
    {
      this.s, pos := s, 0;
    }

    /** The tokens still to be read. */
    ghost function Left(): seq<Tok>
      reads this
      requires pos <= |s|
    {
      Tokens(s[pos..])
    }

    /** Skips white space. */
    method Skip()
      requires pos <= |s|
      modifies this
      ensures old(pos) <= pos <= |s| && Left() == old(Left()) && (pos < |s| ==> !IsSpace(s[pos]))
    {
      while pos < |s| && IsSpace(s[pos])
        invariant old(pos) <= pos <= |s| && Left() == old(Left())
      {
        assert s[pos..][1..] == s[pos + 1..];
        pos := pos + 1;
      }
    }

    /** Whether the next character that is not white space is one of toks. */
    method Peek(toks: string) returns (r: bool)
      requires pos <= |s|
      modifies this
      ensures old(pos) <= pos <= |s| && Left() == old(Left()) && (pos < |s| ==> !IsSpace(s[pos]))
      ensures r <==> pos < |s| && s[pos] in toks
    {
      Skip();
      r := pos < |s| && s[pos] in toks;
    }

    /** The word at pos, which is neither blank nor symbol. */
    method ScanWord()
      requires pos < |s| && !IsSpace(s[pos]) && !IsSymbol(s[pos])
      modifies this`pos
      ensures old(pos) < pos <= |s| && IsWord(s, Span(old(pos), pos))
      ensures Tokens(s[old(pos)..]) == [W(s[old(pos)..pos])] + Left()
    {
      hide Tokens, WordLen;
      ghost var q, t := pos, s[pos..];
      while pos < |s| && !IsSpace(s[pos]) && !IsSymbol(s[pos])
        invariant q <= pos <= |s| && forall i | q <= i < pos :: IsWordChar(s[i])
      {
        pos := pos + 1;
      }
      SpanLen(s, q, pos);
      LexFirst(t);
      assert t[pos - q..] == s[pos..] && t[..pos - q] == s[q..pos];
    }

    /** The next token: NUL at the end of the line, 'a' for the word from q to eq, '+' for >>, or the symbol. */
    method GetToken() returns (ret: char, q: nat, eq: nat)
      requires pos <= |s| && forall i | 0 <= i < |s| :: s[i] != '\0'
      modifies this
      ensures pos <= |s|
      ensures ret == '\0' <==> old(Left()) == []
      ensures ret == '\0' ==> Left() == []
      ensures ret != '\0' ==> Left() == old(Left())[1..] && |Left()| < |old(Left())|
      ensures ret == 'a' ==> IsWord(s, Span(q, eq)) && old(Left())[0] == W(s[q..eq])
      ensures ret != 'a' && ret != '\0' ==> old(Left())[0] == S(ret)
    {
      hide Tokens, WordLen;
      Skip();
      q := pos;
      ghost var t := s[pos..];
      if pos == |s| { LexEnd(); return '\0', q, pos; }
      LexFirst(t);
      ret := s[pos];
      if ret == '|' || ret == '(' || ret == ')' || ret == ';' || ret == '&' || ret == '<' {
        assert t[1..] == s[pos + 1..];
        pos := pos + 1;
      } else if ret == '>' {
        assert t[1..] == s[pos + 1..];
        pos := pos + 1;
        if pos < |s| && s[pos] == '>' {
          assert t[2..] == s[pos + 1..];
          ret := '+';
          pos := pos + 1;
        }
      } else {
        ret := 'a';
        ScanWord();
      }
      eq := pos;
      Skip();
    }

    /** Redirections, added to acc; !ok is "missing file for redirection". */
    method ParseRedirs(acc: seq<(Span, Mode)>) returns (ok: bool, rs: seq<(Span, Mode)>)
      requires pos <= |s| && NoNul(s) && RedirsIn(s, acc)
      modifies this
      ensures pos <= |s| && RedirsIn(s, rs)
      ensures (if ok then Found(RTexts(s, rs), Left()) else Missing) == PRedirs(RTexts(s, acc), old(Left()))
    {
      hide Tokens;
      rs := acc;
      var more := Peek("<>");
      FirstChar(s[pos..]);
      while more
        invariant pos <= |s| && RedirsIn(s, rs)
        invariant PRedirs(RTexts(s, rs), Left()) == PRedirs(RTexts(s, acc), old(Left()))
        invariant more <==> Starts(Left(), '<') || Starts(Left(), '>') || Starts(Left(), '+')
        decreases |Left()|
      {
        ghost var ts := Left();
        var tok, _, _ := GetToken();
        var word, q, eq := GetToken();
        if word != 'a' { return false, rs; }
        assert ts[1] == W(s[q..eq]) && ts[0] == S(tok) && Left() == ts[2..];
        RTextsAdd(s, rs, Span(q, eq), ModeOf(tok));
        rs := rs + [(Span(q, eq), ModeOf(tok))];
        more := Peek("<>");
        FirstChar(s[pos..]);
      }
      ok := true;
    }

    /** The words of one command, with redirections around and between them; None is a panic. */
    method ParseWords() returns (r: Option<Cmd>)
      requires pos <= |s| && NoNul(s) && !Starts(Left(), '(')
      modifies this
      ensures pos <= |s| && Agrees(s, r, PExec(old(Left())), Left())
    {
      hide Tokens, IsWord, Wrap, PRedirs;
      var words: seq<Span> := [];
      var ok, rs := ParseRedirs([]);
      if !ok { return None; }
      var stop := Peek("|)&;");
      FirstChar(s[pos..]);
      while !stop
        invariant pos <= |s| && RedirsIn(s, rs) && |words| < MAXARGS
        invariant (forall k | 0 <= k < |words| :: IsWord(s, words[k]))
        invariant PArgs(Texts(s, words), RTexts(s, rs), Left()) == PExec(old(Left()))
        invariant stop <==> Starts(Left(), '|') || Starts(Left(), ')') || Starts(Left(), '&') || Starts(Left(), ';')
        decreases !stop, |Left()|
      {
        var tok, q, eq := GetToken();
        if tok == '\0' { break; }
        if tok != 'a' { return None; }
        TextsAdd(s, words, Span(q, eq));
        words := words + [Span(q, eq)];
        if |words| >= MAXARGS { return None; }
        ok, rs := ParseRedirs(rs);
        if !ok { return None; }
        stop := Peek("|)&;");
        FirstChar(s[pos..]);
      }
      AroundText(s, CExec(words), rs);
      r := Some(Around(CExec(words), rs));
    }

    /** parseexec */
    method ParseExec() returns (r: Option<Cmd>)
      requires pos <= |s| && NoNul(s)
      modifies this
      ensures pos <= |s| && Agrees(s, r, PExec(old(Left())), Left())
      decreases |Left()|, 0
    {
      hide Tokens, IsWord, Wrap, PRedirs, Text, WordsIn;
      var block := Peek("(");
      FirstChar(s[pos..]);
      if block {
        r := ParseBlock();
      } else {
        r := ParseWords();
      }
    }

    /** parseblock */
    method ParseBlock() returns (r: Option<Cmd>)
      requires pos <= |s| && NoNul(s) && Starts(Left(), '(')
      modifies this
      ensures pos <= |s| && Agrees(s, r, PExec(old(Left())), Left())
      decreases |Left()|, 0, 0
    {
      hide Tokens, IsWord, Wrap, PRedirs, Text, WordsIn, PLine;
      var _, _, _ := GetToken();
      var line := ParseLine();
      if line == None { return None; }
      var close := Peek(")");
      FirstChar(s[pos..]);
      if !close { return None; }
      var _, _, _ := GetToken();
      var ok, rs := ParseRedirs([]);
      if !ok { return None; }
      AroundText(s, line.value, rs);
      r := Some(Around(line.value, rs));
    }

    /** parsepipe */
    method ParsePipe() returns (r: Option<Cmd>)
      requires pos <= |s| && NoNul(s)
      modifies this
      ensures pos <= |s| && Agrees(s, r, PPipe(old(Left())), Left())
      decreases |Left()|, 1
    {
      hide Tokens, IsWord, PExec;
      r := ParseExec();
      if r == None { return; }
      var bar := Peek("|");
      FirstChar(s[pos..]);
      if bar {
        var _, _, _ := GetToken();
        var right := ParsePipe();
        if right == None { return None; }
        r := Some(CPipe(r.value, right.value));
      }
    }

    /** parseline */
    method ParseLine() returns (r: Option<Cmd>)
      requires pos <= |s| && NoNul(s)
      modifies this
      ensures pos <= |s| && Agrees(s, r, PLine(old(Left())), Left())
      decreases |Left()|, 2
    {
      hide Tokens, IsWord, PPipe;
      r := ParsePipe();
      if r == None { return; }
      ghost var t, rest := Text(s, r.value), Left();
      var amp := Peek("&");
      FirstChar(s[pos..]);
      while amp
        invariant pos <= |s| && r.Some? && WordsIn(s, r.value) && PBacks(Text(s, r.value), Left()) == PBacks(t, rest)
        invariant (amp <==> Starts(Left(), '&')) && |Left()| <= |rest|
        decreases |Left()|
      {
        var _, _, _ := GetToken();
        r := Some(CBack(r.value));
        amp := Peek("&");
        FirstChar(s[pos..]);
      }
      var semi := Peek(";");
      FirstChar(s[pos..]);
      if semi {
        var _, _, _ := GetToken();
        var next := ParseLine();
        if next == None { return None; }
        r := Some(CList(r.value, next.value));
      }
    }
  }

  /** parsecmd up to nulterminate: None is a panic, also for leftovers. */
  method ParseAll(s: string) returns (r: Option<Cmd>)
    requires NoNul(s)
    ensures Agrees(s, r, Parse(Tokens(s)), [])
    ensures forall t | Fits(t) && Readable(t) && Print(t) == s ::
              r.Some? && WordsIn(s, r.value) && Text(s, r.value) == t
  {
    hide Tokens, PLine, Text, WordsIn, Print, Fits, Readable;
    forall t | Fits(t) && Readable(t) && Print(t) == s ensures Parse(Tokens(s)) == Ok(t, []) { RoundTrip(t); }
    var p := new Parser(s);
    assert s[0..] == s;
    r := p.ParseLine();
    if r == None { return; }
    var _ := p.Peek("");
    FirstChar(s[p.pos..]);
    if p.pos != |s| { return None; }
  }

  /** The words of a command. */
  function WordSet(c: Cmd): set<Span> {
    match c
    case CExec(args) => set w | w in args
    case CRedir(d, f, m) => WordSet(d) + {f}
    case CPipe(l, r) => WordSet(l) + WordSet(r)
    case CList(l, r) => WordSet(l) + WordSet(r)
    case CBack(d) => WordSet(d)
  }

  /** Position i is where a word of c ends. */
  ghost predicate IsEnd(c: Cmd, i: nat) { exists w | w in WordSet(c) :: w.eq == i }

  lemma {:induction false} WordsAre(s: string, c: Cmd, w: Span)
    requires WordsIn(s, c) && w in WordSet(c)
    ensures IsWord(s, w)
  {
    match c
    case CExec(args) =>
    case CRedir(d, f, m) => if w != f { WordsAre(s, d, w); }
    case CPipe(l, r) => if w in WordSet(l) { WordsAre(s, l, w); } else { WordsAre(s, r, w); }
    case CList(l, r) => if w in WordSet(l) { WordsAre(s, l, w); } else { WordsAre(s, r, w); }
    case CBack(d) => WordsAre(s, d, w);
  }

  /** Writes NUL at the end of every word of c and nowhere else. */
  method NulTerminate(buf: array<char>, s: string, c: Cmd)
    requires buf.Length == |s| + 1 && WordsIn(s, c)
    modifies buf
    ensures forall i: nat | i <= |s| :: buf[i] == if IsEnd(c, i) then '\0' else old(buf[i])
    decreases c
  {
    match c
    case CExec(args) =>
      var k := 0;
      while k < |args|
        invariant 0 <= k <= |args|
        invariant forall i: nat | i <= |s| :: buf[i] == if EndsWithin(args[..k], i) then '\0' else old(buf[i])
      {
        assert IsWord(s, args[k]);
        forall i: nat
          ensures EndsWithin(args[..k + 1], i) <==> EndsWithin(args[..k], i) || i == args[k].eq
        {
          EndsMore(args, k, i);
        }
        buf[args[k].eq] := '\0';
        k := k + 1;
      }
      assert args[..k] == args;
      forall i: nat ensures IsEnd(c, i) <==> EndsWithin(args, i) { ExecEnds(args, i); }
    case CRedir(d, f, m) =>
      NulTerminate(buf, s, d);
      buf[f.eq] := '\0';
      forall i: nat ensures IsEnd(c, i) <==> IsEnd(d, i) || i == f.eq { if i == f.eq { assert f in WordSet(c); } }
    case CPipe(l, r) =>
      NulTerminate(buf, s, l);
      NulTerminate(buf, s, r);
      forall i: nat ensures IsEnd(c, i) <==> IsEnd(l, i) || IsEnd(r, i) { }
    case CList(l, r) =>
      NulTerminate(buf, s, l);
      NulTerminate(buf, s, r);
      forall i: nat ensures IsEnd(c, i) <==> IsEnd(l, i) || IsEnd(r, i) { }
    case CBack(d) =>
      NulTerminate(buf, s, d);
  }

  ghost predicate EndsWithin(ws: seq<Span>, i: nat) { exists k | 0 <= k < |ws| :: ws[k].eq == i }

  lemma {:induction false} EndsMore(ws: seq<Span>, k: nat, i: nat)
    requires k < |ws|
    ensures EndsWithin(ws[..k + 1], i) <==> EndsWithin(ws[..k], i) || i == ws[k].eq
  {
    if EndsWithin(ws[..k], i) {
      var j :| 0 <= j < k && ws[..k][j].eq == i;
      assert ws[..k + 1][j].eq == i;
    }
    assert ws[..k + 1][k] == ws[k];
    if EndsWithin(ws[..k + 1], i) {
      var j :| 0 <= j < k + 1 && ws[..k + 1][j].eq == i;
      if j < k { assert ws[..k][j].eq == i; }
    }
  }

  lemma {:induction false} ExecEnds(args: seq<Span>, i: nat)
    ensures IsEnd(CExec(args), i) <==> EndsWithin(args, i)
  {
    if EndsWithin(args, i) {
      var k :| 0 <= k < |args| && args[k].eq == i;
      assert args[k] in WordSet(CExec(args));
    }
  }

  /** After nulterminate every word is a C string of its own: its characters are as in the line, and a NUL
      follows them. */
  lemma {:induction false} WordsIntact(s: string, c: Cmd, before: seq<char>, after: seq<char>, w: Span)
    requires WordsIn(s, c) && w in WordSet(c) && before == s + ['\0'] && |after| == |before|
    requires forall i: nat | i <= |s| :: after[i] == if IsEnd(c, i) then '\0' else before[i]
    ensures IsWord(s, w) && after[w.q..w.eq] == s[w.q..w.eq] && after[w.eq] == '\0'
  {
    WordsAre(s, c, w);
    assert IsEnd(c, w.eq);
    forall i: nat | w.q <= i < w.eq ensures !IsEnd(c, i) {
      forall v | v in WordSet(c) ensures v.eq != i { WordsAre(s, c, v); }
    }
  }

  /** The C string at q. */
  function CString(mem: seq<char>, q: nat): string
    decreases |mem| - q
  {
    if q >= |mem| || mem[q] == '\0' then "" else [mem[q]] + CString(mem, q + 1)
  }

  function CStrings(mem: seq<char>, ws: seq<Span>): seq<string> {
    if ws == [] then [] else CStrings(mem, ws[..|ws| - 1]) + [CString(mem, ws[|ws| - 1].q)]
  }

  /** The tree as runcmd reads it: every word is the C string at its first character. */
  function CTree(mem: seq<char>, c: Cmd): Tree {
    match c
    case CExec(args) => Exec(CStrings(mem, args))
    case CRedir(d, f, m) => Redir(CTree(mem, d), CString(mem, f.q), m)
    case CPipe(l, r) => Pipe(CTree(mem, l), CTree(mem, r))
    case CList(l, r) => List(CTree(mem, l), CTree(mem, r))
    case CBack(d) => Back(CTree(mem, d))
  }

  /** Word w of the line s is the C string at its place. */
  predicate Reads(mem: seq<char>, s: string, w: Span) { w.q < w.eq <= |s| && CString(mem, w.q) == s[w.q..w.eq] }

  lemma {:induction false} CStringIs(mem: seq<char>, s: string, q: nat, eq: nat)
    requires q <= eq < |mem| && eq <= |s| && NoNul(s) && mem[eq] == '\0' && mem[q..eq] == s[q..eq]
    ensures CString(mem, q) == s[q..eq]
    decreases eq - q
  {
    if q < eq {
      assert mem[q] == mem[q..eq][0] == s[q..eq][0] == s[q];
      assert mem[q + 1..eq] == mem[q..eq][1..] == s[q..eq][1..] == s[q + 1..eq];
      CStringIs(mem, s, q + 1, eq);
    }
  }

  lemma {:induction false} CStringsAre(mem: seq<char>, s: string, ws: seq<Span>)
    requires forall k | 0 <= k < |ws| :: IsWord(s, ws[k]) && Reads(mem, s, ws[k])
    ensures CStrings(mem, ws) == Texts(s, ws)
    decreases |ws|
  {
    if ws != [] {
      assert Reads(mem, s, ws[|ws| - 1]) && IsWord(s, ws[|ws| - 1]);
      CStringsAre(mem, s, ws[..|ws| - 1]);
    }
  }

  lemma {:induction false} CTreeIs(mem: seq<char>, s: string, c: Cmd)
    requires WordsIn(s, c) && forall w | w in WordSet(c) :: Reads(mem, s, w)
    ensures CTree(mem, c) == Text(s, c)
  {
    match c
    case CExec(args) =>
      forall k | 0 <= k < |args| ensures Reads(mem, s, args[k]) { assert args[k] in WordSet(c); }
      CStringsAre(mem, s, args);
    case CRedir(d, f, m) => assert f in WordSet(c); CTreeIs(mem, s, d);
    case CPipe(l, r) => CTreeIs(mem, s, l); CTreeIs(mem, s, r);
    case CList(l, r) => CTreeIs(mem, s, l); CTreeIs(mem, s, r);
    case CBack(d) => CTreeIs(mem, s, d);
  }

  /** parsecmd on a line in a buffer: it panics exactly when the grammar has no parse of the whole
      line; else the tree it returns, its words read as C strings in the buffer, is the one parsed. */
  method ParseCmd(buf: array<char>, s: string) returns (r: Option<Cmd>)
    requires NoNul(s) && buf[..] == s + ['\0']
    modifies buf
    ensures r == None <==> Parse(Tokens(s)) == Panic
    ensures r.Some? ==> Parse(Tokens(s)) == Ok(CTree(buf[..], r.value), [])
    ensures forall t | Fits(t) && Readable(t) && Print(t) == s :: r.Some? && CTree(buf[..], r.value) == t
  {
    hide Tokens, Parse, Print, Fits, Readable, Text, WordSet, CTree, IsWord;
    r := ParseAll(s);
    if r == None { return; }
    NulTerminate(buf, s, r.value);
    forall w | w in WordSet(r.value) ensures Reads(buf[..], s, w) {
      WordsIntact(s, r.value, s + ['\0'], buf[..], w);
      WordSpan(s, w);
      CStringIs(buf[..], s, w.q, w.eq);
    }
    CTreeIs(buf[..], s, r.value);
  }

  lemma {:induction false} WordSpan(s: string, w: Span)
    requires IsWord(s, w)
    ensures w.q < w.eq <= |s|
  {
  }

  /** The code's result and the tokens it left are those of the grammar. */
  ghost predicate Agrees(s: string, r: Option<Cmd>, g: Res, left: seq<Tok>) {
    if r == None then g == Panic else WordsIn(s, r.value) && g == Ok(Text(s, r.value), left)
  }

  /** What peek finds out about the next token. */
  lemma {:induction false} FirstChar(t: string)
    requires t == "" || !IsSpace(t[0])
    ensures Tokens(t) == [] <==> t == ""
    ensures Starts(Tokens(t), '|') <==> t != "" && t[0] == '|'
    ensures Starts(Tokens(t), '(') <==> t != "" && t[0] == '('
    ensures Starts(Tokens(t), ')') <==> t != "" && t[0] == ')'
    ensures Starts(Tokens(t), '&') <==> t != "" && t[0] == '&'
    ensures Starts(Tokens(t), ';') <==> t != "" && t[0] == ';'
    ensures Starts(Tokens(t), '<') || Starts(Tokens(t), '>') || Starts(Tokens(t), '+') <==>
        t != "" && (t[0] == '<' || t[0] == '>')
  {
    if t != "" { LexFirst(t); }
  }

  lemma {:induction false} SpanLen(s: string, q: nat, eq: nat)
    requires q < eq <= |s| && (forall i | q <= i < eq :: IsWordChar(s[i])) && (eq < |s| ==> !IsWordChar(s[eq]))
    ensures WordLen(s[q..]) == eq - q
  {
    assert s[q..] == s[q..eq] + s[eq..];
    WordLenIs(s[q..eq], s[eq..]);
  }
}
