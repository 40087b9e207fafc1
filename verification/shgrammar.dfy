/** The shell's language, stated without its parser: what a line may be, what it means, and that the parser accepts
    exactly these lines and gives each its meaning. */
module ShellGrammar {
  import opened ShellSyntax

  // ---- the language ----

  /** A word or a redirection of a command; they come in any order. */
  datatype Item = Word(text: string) | Redirection(file: string, mode: Mode)

  /** A command, or a line in parentheses with redirections after it. */
  datatype Element = Simple(items: seq<Item>) | Group(line: Line, rs: seq<(string, Mode)>)
  datatype Pipeline = One(e: Element) | Piped(e: Element, next: Pipeline)
  /** A pipeline with a number of & after it, and perhaps a semicolon and another line. */
  datatype Line = Last(p: Pipeline, ands: nat) | Then(p: Pipeline, ands: nat, next: Line)

  function ItemToks(items: seq<Item>): seq<Tok> {
    if items == [] then []
    else (if items[0].Word? then [W(items[0].text)] else [ModeTok(items[0].mode), W(items[0].file)])
         + ItemToks(items[1..])
  }

  function Amps(n: nat): seq<Tok> { if n == 0 then [] else [S('&')] + Amps(n - 1) }

  function ElementToks(e: Element): seq<Tok> {
    match e
    case Simple(items) => ItemToks(items)
    case Group(line, rs) => [S('(')] + LineToks(line) + [S(')')] + RedirToks(rs)
  }

  function PipelineToks(p: Pipeline): seq<Tok> {
    match p
    case One(e) => ElementToks(e)
    case Piped(e, next) => ElementToks(e) + [S('|')] + PipelineToks(next)
  }

  function LineToks(l: Line): seq<Tok> {
    match l
    case Last(p, n) => PipelineToks(p) + Amps(n)
    case Then(p, n, next) => PipelineToks(p) + Amps(n) + [S(';')] + LineToks(next)
  }

  /** The words and the redirections of a command, each in the order they are written. */
  function WordsOf(items: seq<Item>): seq<string> {
    if items == [] then [] else (if items[0].Word? then [items[0].text] else []) + WordsOf(items[1..])
  }

  function RedirsOf(items: seq<Item>): seq<(string, Mode)> {
    if items == [] then []
    else (if items[0].Word? then [] else [(items[0].file, items[0].mode)]) + RedirsOf(items[1..])
  }

  function Backs(t: Tree, n: nat): Tree { if n == 0 then t else Back(Backs(t, n - 1)) }

  function ElementTree(e: Element): Tree {
    match e
    case Simple(items) => Wrap(Exec(WordsOf(items)), RedirsOf(items))
    case Group(line, rs) => Wrap(LineTree(line), rs)
  }

  function PipelineTree(p: Pipeline): Tree {
    match p
    case One(e) => ElementTree(e)
    case Piped(e, next) => ShellSyntax.Pipe(ElementTree(e), PipelineTree(next))
  }

  function LineTree(l: Line): Tree {
    match l
    case Last(p, n) => Backs(PipelineTree(p), n)
    case Then(p, n, next) => List(Backs(PipelineTree(p), n), LineTree(next))
  }

  /** Fewer than MAXARGS words to a command. */
  predicate ElementFits(e: Element) {
    match e
    case Simple(items) => |WordsOf(items)| < MAXARGS
    case Group(line, rs) => LineFits(line)
  }

  predicate PipelineFits(p: Pipeline) { ElementFits(p.e) && (p.Piped? ==> PipelineFits(p.next)) }

  predicate LineFits(l: Line) { PipelineFits(l.p) && (l.Then? ==> LineFits(l.next)) }

  // ---- every such line is parsed, into what it means ----

  /** The parser at work on a command, with words and redirections read already: it reads the items and leaves rest. */
  ghost predicate ReadsItems(words: seq<string>, rs: seq<(string, Mode)>, ts: seq<Tok>, items: seq<Item>,
                             rest: seq<Tok>)
  {
    var found := PRedirs(rs, ts);
    && found.Found?
    && PArgs(words, found.rs, found.rest) == Ok(Wrap(Exec(words + WordsOf(items)), rs + RedirsOf(items)), rest)
  }

  lemma {:induction false} ItemFirst(i: Item, items: seq<Item>)
    ensures ItemToks([i] + items) ==
              (if i.Word? then [W(i.text)] else [ModeTok(i.mode), W(i.file)]) + ItemToks(items)
    ensures WordsOf([i] + items) == (if i.Word? then [i.text] else []) + WordsOf(items)
    ensures RedirsOf([i] + items) == (if i.Word? then [] else [(i.file, i.mode)]) + RedirsOf(items)
  {
    assert ([i] + items)[1..] == items;
  }

  /** A word first. */
  lemma {:induction false} ReadsWord(words: seq<string>, rs: seq<(string, Mode)>, w: string, tail: seq<Tok>,
                                     items: seq<Item>, rest: seq<Tok>)
    requires |words| + 1 < MAXARGS
    ensures ReadsItems(words + [w], rs, tail, items, rest)
            <==> ReadsItems(words, rs, [W(w)] + tail, [Word(w)] + items, rest)
  {
    hide Wrap, WordsOf, RedirsOf, ItemToks;
    var ts := [W(w)] + tail;
    assert ts[1..] == tail;
    RedirsNone(rs, ts);
    ItemFirst(Word(w), items);
    assert words + [w] + WordsOf(items) == words + WordsOf([Word(w)] + items);
    assert RedirsOf([Word(w)] + items) == RedirsOf(items);
  }

  /** A redirection first. */
  lemma {:induction false} ReadsRedir(words: seq<string>, rs: seq<(string, Mode)>, f: string, m: Mode, tail: seq<Tok>,
                                      items: seq<Item>, rest: seq<Tok>)
    ensures ReadsItems(words, rs + [(f, m)], tail, items, rest)
            <==> ReadsItems(words, rs, [ModeTok(m), W(f)] + tail, [Redirection(f, m)] + items, rest)
  {
    hide Wrap, WordsOf, RedirsOf, ItemToks, PArgs;
    var ts := [ModeTok(m), W(f)] + tail;
    assert ts[2..] == tail && ModeOf(ts[0].c) == m;
    ItemFirst(Redirection(f, m), items);
    assert rs + [(f, m)] + RedirsOf(items) == rs + RedirsOf([Redirection(f, m)] + items);
    assert WordsOf([Redirection(f, m)] + items) == WordsOf(items);
  }

  lemma {:induction false} ReadsNone(words: seq<string>, rs: seq<(string, Mode)>, rest: seq<Tok>)
    requires After(rest, 0)
    ensures ReadsItems(words, rs, rest, [], rest)
  {
    assert words + [] == words && rs + [] == rs;
  }

  lemma {:induction false} ItemsParsed(words: seq<string>, rs: seq<(string, Mode)>, items: seq<Item>, rest: seq<Tok>)
    requires After(rest, 0) && |words| + |WordsOf(items)| < MAXARGS
    ensures ReadsItems(words, rs, ItemToks(items) + rest, items, rest)
    decreases |items|
  {
    hide ReadsItems;
    if items == [] {
      assert ItemToks(items) + rest == rest;
      ReadsNone(words, rs, rest);
    } else {
      var i, more := items[0], items[1..];
      hide ItemToks, WordsOf;
      assert items == [i] + more;
      ItemFirst(i, more);
      if i.Word? {
        ItemsParsed(words + [i.text], rs, more, rest);
        ReadsWord(words, rs, i.text, ItemToks(more) + rest, more, rest);
        assert ItemToks(items) + rest == [W(i.text)] + (ItemToks(more) + rest);
      } else {
        ItemsParsed(words, rs + [(i.file, i.mode)], more, rest);
        ReadsRedir(words, rs, i.file, i.mode, ItemToks(more) + rest, more, rest);
        assert ItemToks(items) + rest == [ModeTok(i.mode), W(i.file)] + (ItemToks(more) + rest);
      }
    }
  }

  /** A command with its redirections before, between and after its words. */
  lemma {:induction false} SimpleParsed(items: seq<Item>, rest: seq<Tok>)
    requires After(rest, 0) && |WordsOf(items)| < MAXARGS
    ensures PExec(ItemToks(items) + rest) == Ok(Wrap(Exec(WordsOf(items)), RedirsOf(items)), rest)
  {
    hide Wrap, PLine, PArgs, PRedirs;
    var ts := ItemToks(items) + rest;
    assert !Starts(ts, '(') by {
      if items != [] { assert ts[0] == ItemToks(items)[0]; } else { assert ts == rest; }
    }
    ItemsParsed([], [], items, rest);
    assert [] + WordsOf(items) == WordsOf(items) && [] + RedirsOf(items) == RedirsOf(items);
  }

  lemma {:induction false} ElementRead(e: Element, rest: seq<Tok>)
    requires ElementFits(e) && After(rest, 0)
    ensures PExec(ElementToks(e) + rest) == Ok(ElementTree(e), rest)
    decreases e, 0
  {
    hide PExec, PLine, Wrap;
    match e
    case Simple(items) => SimpleParsed(items, rest);
    case Group(line, rs) =>
      var tail := [S(')')] + (RedirToks(rs) + rest);
      assert ElementToks(e) + rest == [S('(')] + (LineToks(line) + tail);
      LineRead(line, tail);
      BlockParsed(LineTree(line), LineToks(line), rs, rest);
  }

  lemma {:induction false} PipelineRead(p: Pipeline, rest: seq<Tok>)
    requires PipelineFits(p) && After(rest, 1)
    ensures PPipe(PipelineToks(p) + rest) == Ok(PipelineTree(p), rest)
    decreases p, 0
  {
    hide PExec;
    match p
    case One(e) => ElementRead(e, rest);
    case Piped(e, next) =>
      var tail := [S('|')] + (PipelineToks(next) + rest);
      assert PipelineToks(p) + rest == ElementToks(e) + tail;
      ElementRead(e, tail);
      assert tail[1..] == PipelineToks(next) + rest;
      PipelineRead(next, rest);
  }

  lemma {:induction false} BacksOut(t: Tree, n: nat)
    requires n > 0
    ensures Backs(t, n) == Backs(Back(t), n - 1)
  {
    if n > 1 { BacksOut(t, n - 1); }
  }

  lemma {:induction false} AmpsRead(t: Tree, n: nat, rest: seq<Tok>)
    requires !Starts(rest, '&')
    ensures PBacks(t, Amps(n) + rest) == (Backs(t, n), rest)
    decreases n
  {
    if n == 0 {
      assert Amps(n) + rest == rest;
    } else {
      assert (Amps(n) + rest)[1..] == Amps(n - 1) + rest;
      AmpsRead(Back(t), n - 1, rest);
      BacksOut(t, n);
    }
  }

  lemma {:induction false} AmpsFollow(n: nat, rest: seq<Tok>)
    requires After(rest, 3) || Starts(rest, ';')
    ensures After(Amps(n) + rest, 1)
  {
    if n == 0 { assert Amps(n) + rest == rest; } else { assert (Amps(n) + rest)[0] == S('&'); }
  }

  lemma {:induction false} LineRead(l: Line, rest: seq<Tok>)
    requires LineFits(l) && After(rest, 3)
    ensures PLine(LineToks(l) + rest) == Ok(LineTree(l), rest)
    decreases l, 1
  {
    hide PPipe, PBacks;
    var tail := if l.Then? then [S(';')] + (LineToks(l.next) + rest) else rest;
    assert LineToks(l) + rest == PipelineToks(l.p) + (Amps(l.ands) + tail);
    AmpsFollow(l.ands, tail);
    PipelineRead(l.p, Amps(l.ands) + tail);
    AmpsRead(PipelineTree(l.p), l.ands, tail);
    if l.Then? {
      assert tail[1..] == LineToks(l.next) + rest;
      LineRead(l.next, rest);
    }
  }

  // ---- nothing else is ----

  predicate StartsRedir(ts: seq<Tok>) { Starts(ts, '<') || Starts(ts, '>') || Starts(ts, '+') }

  /** A redirection at the start of the tokens, and what follows. */
  lemma {:induction false} RedirFirst(rs: seq<(string, Mode)>, ts: seq<Tok>)
    requires StartsRedir(ts) && PRedirs(rs, ts).Found?
    ensures |ts| >= 2 && ts[0].S? && ts[1].W?
    ensures var r := (ts[1].text, ModeOf(ts[0].c));
            PRedirs(rs, ts) == PRedirs(rs + [r], ts[2..]) && ts == [ModeTok(r.1), W(r.0)] + ts[2..]
  {
    assert ts == ts[..2] + ts[2..];
  }

  lemma {:induction false} RedirToksFirst(r: (string, Mode), rs: seq<(string, Mode)>)
    ensures RedirToks([r] + rs) == [ModeTok(r.1), W(r.0)] + RedirToks(rs)
  {
    assert ([r] + rs)[1..] == rs;
  }

  lemma {:induction false} RedirsSplit(rs: seq<(string, Mode)>, ts: seq<Tok>) returns (more: seq<(string, Mode)>)
    requires PRedirs(rs, ts).Found?
    ensures PRedirs(rs, ts).rs == rs + more && ts == RedirToks(more) + PRedirs(rs, ts).rest
    decreases |ts|
  {
    if StartsRedir(ts) {
      hide PRedirs, ModeOf, ModeTok, RedirToks, Starts;
      RedirFirst(rs, ts);
      var r := (ts[1].text, ModeOf(ts[0].c));
      var tail := RedirsSplit(rs + [r], ts[2..]);
      more := [r] + tail;
      RedirToksFirst(r, tail);
      assert rs + [r] + tail == rs + more;
    } else {
      more := [];
      assert rs + [] == rs && [] + ts == ts;
    }
  }

  /** The parser at a word. */
  lemma {:induction false} WordFirst(words: seq<string>, rs: seq<(string, Mode)>, ts: seq<Tok>)
    requires !StartsRedir(ts) && !After(ts, 0) && PArgs(words, rs, ts).Ok?
    ensures PRedirs(rs, ts) == Found(rs, ts) && ts[0].W? && |words| + 1 < MAXARGS && PRedirs(rs, ts[1..]).Found?
    ensures var found := PRedirs(rs, ts[1..]); PArgs(words, rs, ts) == PArgs(words + [ts[0].text], found.rs, found.rest)
  {
  }

  lemma {:induction false} ItemsEnd(words: seq<string>, rs: seq<(string, Mode)>, ts: seq<Tok>)
    requires !StartsRedir(ts)
    ensures PRedirs(rs, ts) == Found(rs, ts)
    ensures After(ts, 0) ==> PArgs(words, rs, ts).Ok? && PArgs(words, rs, ts).rest == ts
  {
  }

  lemma {:induction false} ItemsSplit(words: seq<string>, rs: seq<(string, Mode)>, ts: seq<Tok>, rest: seq<Tok>)
    returns (items: seq<Item>)
    requires |words| < MAXARGS && PRedirs(rs, ts).Found?
    requires PArgs(words, PRedirs(rs, ts).rs, PRedirs(rs, ts).rest).Ok?
    requires PArgs(words, PRedirs(rs, ts).rs, PRedirs(rs, ts).rest).rest == rest
    ensures ReadsItems(words, rs, ts, items, rest) && ts == ItemToks(items) + rest
    ensures |words| + |WordsOf(items)| < MAXARGS
    decreases |ts|
  {
    hide ReadsItems, ItemToks, WordsOf, ModeOf, ModeTok, PRedirs, PArgs, StartsRedir;
    if StartsRedir(ts) {
      RedirFirst(rs, ts);
      var f, m := ts[1].text, ModeOf(ts[0].c);
      var tail := ItemsSplit(words, rs + [(f, m)], ts[2..], rest);
      items := [Redirection(f, m)] + tail;
      ItemFirst(items[0], tail);
      ReadsRedir(words, rs, f, m, ts[2..], tail, rest);
    } else {
      ItemsEnd(words, rs, ts);
      if After(ts, 0) {
        items := [];
        NoItems();
        assert [] + rest == rest;
        ReadsNone(words, rs, rest);
      } else {
        WordFirst(words, rs, ts);
        var w := ts[0].text;
        var tail := ItemsSplit(words + [w], rs, ts[1..], rest);
        items := [Word(w)] + tail;
        ItemFirst(items[0], tail);
        assert ts == [W(w)] + ts[1..];
        ReadsWord(words, rs, w, ts[1..], tail, rest);
      }
    }
  }

  lemma {:induction false} NoItems()
    ensures ItemToks([]) == [] && WordsOf([]) == []
  {
  }

  lemma {:induction false} ElementSplit(ts: seq<Tok>) returns (e: Element)
    requires PExec(ts).Ok?
    ensures PExec(ts).t == ElementTree(e) && ts == ElementToks(e) + PExec(ts).rest && ElementFits(e)
    decreases |ts|, 0
  {
    hide PLine, PRedirs, PArgs, Wrap;
    if Starts(ts, '(') {
      var inner := PLine(ts[1..]);
      var line := LineSplit(ts[1..]);
      var rs := RedirsSplit([], inner.rest[1..]);
      e := Group(line, rs);
      assert [] + rs == rs && ts == [S('(')] + ts[1..] && inner.rest == [S(')')] + inner.rest[1..];
      assert ts == ElementToks(e) + PExec(ts).rest;
    } else {
      var items := ItemsSplit([], [], ts, PExec(ts).rest);
      e := Simple(items);
      assert [] + WordsOf(items) == WordsOf(items) && [] + RedirsOf(items) == RedirsOf(items);
    }
  }

  lemma {:induction false} PipelineSplit(ts: seq<Tok>) returns (p: Pipeline)
    requires PPipe(ts).Ok?
    ensures PPipe(ts).t == PipelineTree(p) && ts == PipelineToks(p) + PPipe(ts).rest && PipelineFits(p)
    decreases |ts|, 1
  {
    hide PExec;
    var e := ElementSplit(ts);
    var rest := PExec(ts).rest;
    if Starts(rest, '|') {
      var next := PipelineSplit(rest[1..]);
      p := Piped(e, next);
      assert rest == [S('|')] + rest[1..];
      assert ts == PipelineToks(p) + PPipe(ts).rest;
    } else {
      p := One(e);
    }
  }

  lemma {:induction false} AmpsSplit(t: Tree, ts: seq<Tok>) returns (n: nat)
    ensures PBacks(t, ts).0 == Backs(t, n) && ts == Amps(n) + PBacks(t, ts).1
    decreases |ts|
  {
    if Starts(ts, '&') {
      var m := AmpsSplit(Back(t), ts[1..]);
      n := m + 1;
      BacksOut(t, n);
      var rest := PBacks(t, ts).1;
      assert ts == [S('&')] + ts[1..] && [S('&')] + (Amps(m) + rest) == Amps(n) + rest;
    } else {
      n := 0;
      assert [] + ts == ts;
    }
  }

  lemma {:induction false} LineSplit(ts: seq<Tok>) returns (l: Line)
    requires PLine(ts).Ok?
    ensures PLine(ts).t == LineTree(l) && ts == LineToks(l) + PLine(ts).rest && LineFits(l)
    decreases |ts|, 2
  {
    hide PPipe, PBacks;
    var p := PipelineSplit(ts);
    var n := AmpsSplit(PPipe(ts).t, PPipe(ts).rest);
    var rest := PBacks(PPipe(ts).t, PPipe(ts).rest).1;
    if Starts(rest, ';') {
      var next := LineSplit(rest[1..]);
      l := Then(p, n, next);
      assert rest == [S(';')] + rest[1..];
      assert ts == LineToks(l) + PLine(ts).rest;
    } else {
      l := Last(p, n);
      assert ts == LineToks(l) + PLine(ts).rest;
    }
  }

  /** Line l is written ts and means t. */
  ghost predicate Means(ts: seq<Tok>, t: Tree, l: Line) { LineFits(l) && LineToks(l) == ts && LineTree(l) == t }

  /** The parser accepts exactly the lines of the language and gives each its meaning; so no line has two. */
  lemma {:induction false} ParsesExactly(ts: seq<Tok>, t: Tree)
    ensures Parse(ts) == Ok(t, []) <==> exists l :: Means(ts, t, l)
    ensures Parse(ts) == Panic <==> forall l, u :: !Means(ts, u, l)
  {
    hide PLine, LineTree, LineFits, LineToks;
    forall l, u | Means(ts, u, l) ensures Parse(ts) == Ok(u, []) {
      LineRead(l, []);
      assert ts + [] == ts;
    }
    if Parse(ts).Ok? {
      var l := LineSplit(ts);
      assert ts == LineToks(l) + [];
      assert Means(ts, Parse(ts).t, l);
    }
  }

  // ---- tokens and text ----

  predicate Blank(g: string) { forall i | 0 <= i < |g| :: IsSpace(g[i]) }

  /** A word of word characters, or a symbol. */
  predicate IsTok(tok: Tok) {
    if tok.W? then tok.text != "" && forall i | 0 <= i < |tok.text| :: IsWordChar(tok.text[i])
    else IsSymbol(tok.c) || tok.c == '+'
  }

  /** Tokens that need white space between them: two words, and > before > or >>. */
  predicate Clash(a: Tok, b: Tok) { (a.W? && b.W?) || (a == S('>') && (b == S('>') || b == S('+'))) }

  /** Text: the tokens with white space before, between and after them. */
  function Render(gaps: seq<string>, ts: seq<Tok>): string
    requires |gaps| == |ts| + 1
  {
    if ts == [] then gaps[0] else gaps[0] + Spell(ts[0]) + Render(gaps[1..], ts[1..])
  }

  ghost predicate Spaced(gaps: seq<string>, ts: seq<Tok>) {
    && |gaps| == |ts| + 1 && (forall k | 0 <= k < |gaps| :: Blank(gaps[k]))
    && (forall k | 0 <= k < |ts| :: IsTok(ts[k]))
    && forall k | 0 < k < |ts| :: gaps[k] != "" || !Clash(ts[k - 1], ts[k])
  }

  /** The text after tok does not go on with it. */
  predicate Ends(tok: Tok, rest: string) {
    rest == "" || if tok.W? then !IsWordChar(rest[0]) else !(tok.c == '>' && rest[0] == '>')
  }

  lemma {:induction false} GapLexed(g: string, rest: string)
    requires Blank(g)
    ensures Tokens(g + rest) == Tokens(rest)
    decreases |g|
  {
    if g == "" {
      assert g + rest == rest;
    } else {
      assert (g + rest)[1..] == g[1..] + rest;
      GapLexed(g[1..], rest);
    }
  }

  lemma {:induction false} TokLexed(tok: Tok, rest: string)
    requires IsTok(tok) && Ends(tok, rest)
    ensures Tokens(Spell(tok) + rest) == [tok] + Tokens(rest)
  {
    var s := Spell(tok) + rest;
    if tok.W? {
      assert s[0] == tok.text[0];
      WordLenIs(tok.text, rest);
      assert s[..|tok.text|] == tok.text && s[|tok.text|..] == rest;
    } else if tok.c == '+' {
      assert s[0] == '>' && s[1] == '>' && s[2..] == rest;
    } else {
      assert s[0] == tok.c && s[1..] == rest;
      if |s| >= 2 { assert s[1] == rest[0]; }
    }
  }

  lemma {:induction false} RenderEnds(tok: Tok, gaps: seq<string>, ts: seq<Tok>)
    requires Spaced(gaps, ts) && IsTok(tok) && (ts != [] && gaps[0] == "" ==> !Clash(tok, ts[0]))
    ensures Ends(tok, Render(gaps, ts))
  {
    var r := Render(gaps, ts);
    if gaps[0] != "" {
      assert r[0] == gaps[0][0];
      assert IsSpace(gaps[0][0]);
    } else if ts != [] {
      assert IsTok(ts[0]) && r[0] == Spell(ts[0])[0];
    }
  }

  lemma {:induction false} RenderLexed(gaps: seq<string>, ts: seq<Tok>)
    requires Spaced(gaps, ts)
    ensures Tokens(Render(gaps, ts)) == ts
    decreases |ts|
  {
    hide Tokens;
    if ts == [] {
      GapLexed(gaps[0], "");
      assert gaps[0] + "" == gaps[0];
      assert Tokens("") == [] by { LexEnd(); }
    } else {
      var rest := Render(gaps[1..], ts[1..]);
      assert gaps[0] + Spell(ts[0]) + rest == gaps[0] + (Spell(ts[0]) + rest);
      GapLexed(gaps[0], Spell(ts[0]) + rest);
      SpacedTail(gaps, ts);
      RenderEnds(ts[0], gaps[1..], ts[1..]);
      TokLexed(ts[0], rest);
      RenderLexed(gaps[1..], ts[1..]);
    }
  }

  lemma {:induction false} SpacedTail(gaps: seq<string>, ts: seq<Tok>)
    requires Spaced(gaps, ts) && ts != []
    ensures Spaced(gaps[1..], ts[1..]) && IsTok(ts[0]) && (|ts| > 1 && gaps[1] == "" ==> !Clash(ts[0], ts[1]))
  {
    forall k | 0 < k < |ts| - 1 ensures gaps[1..][k] != "" || !Clash(ts[1..][k - 1], ts[1..][k]) {
      assert gaps[k + 1] != "" || !Clash(ts[k + 1 - 1], ts[k + 1]);
    }
    if |ts| > 1 { assert gaps[1] != "" || !Clash(ts[1 - 1], ts[1]); }
  }

  /** One more token in front. */
  lemma {:induction false} SpacedMore(tok: Tok, gaps: seq<string>, ts: seq<Tok>)
    requires Spaced(gaps, ts) && IsTok(tok) && Ends(tok, Render(gaps, ts))
    ensures Spaced([""] + gaps, [tok] + ts) && Render([""] + gaps, [tok] + ts) == Spell(tok) + Render(gaps, ts)
  {
    var gs, us := [""] + gaps, [tok] + ts;
    assert gs[1..] == gaps && us[1..] == ts && "" + Spell(tok) == Spell(tok);
    forall k | 0 < k < |us| ensures gs[k] != "" || !Clash(us[k - 1], us[k]) {
      if k > 1 {
        assert gaps[k - 1] != "" || !Clash(ts[k - 1 - 1], ts[k - 1]);
      } else if gaps[0] == "" {
        assert IsTok(ts[0]) && Render(gaps, ts)[0] == Spell(ts[0])[0];
      }
    }
  }

  /** More white space in front. */
  lemma {:induction false} SpacedGap(c: char, gaps: seq<string>, ts: seq<Tok>)
    requires Spaced(gaps, ts) && IsSpace(c)
    ensures var gs := gaps[0 := [c] + gaps[0]]; Spaced(gs, ts) && Render(gs, ts) == [c] + Render(gaps, ts)
  {
    var gs := gaps[0 := [c] + gaps[0]];
    assert gs[1..] == gaps[1..];
    assert Blank(gs[0]);
    if ts != [] {
      var rest := Render(gaps[1..], ts[1..]);
      assert [c] + gaps[0] + Spell(ts[0]) + rest == [c] + (gaps[0] + Spell(ts[0]) + rest);
    }
  }

  /** The length of the first token's text. */
  function TokLen(s: string): nat
    requires s != "" && !IsSpace(s[0])
  {
    if s[0] == '>' && |s| >= 2 && s[1] == '>' then 2 else if IsSymbol(s[0]) then 1 else WordLen(s)
  }

  lemma {:induction false} FirstTok(s: string) returns (tok: Tok)
    requires s != "" && !IsSpace(s[0])
    ensures 0 < TokLen(s) <= |s| && Spell(tok) == s[..TokLen(s)] && IsTok(tok) && Ends(tok, s[TokLen(s)..])
    ensures Tokens(s) == [tok] + Tokens(s[TokLen(s)..])
  {
    LexFirst(s);
    tok := Tokens(s)[0];
  }

  lemma {:induction false} TextSplit(s: string) returns (gaps: seq<string>)
    ensures Spaced(gaps, Tokens(s)) && Render(gaps, Tokens(s)) == s
    decreases |s|
  {
    hide Spaced, Render, TokLen;
    if s == "" {
      gaps := [""];
      EmptyText();
    } else if IsSpace(s[0]) {
      gaps := TextSplit(s[1..]);
      assert |gaps| > 0 by { SpacedSize(gaps, Tokens(s[1..])); }
      SpacedGap(s[0], gaps, Tokens(s[1..]));
      gaps := gaps[0 := [s[0]] + gaps[0]];
      assert s == [s[0]] + s[1..];
    } else {
      hide Tokens;
      var tok := FirstTok(s);
      var n := TokLen(s);
      gaps := TextSplit(s[n..]);
      SpacedMore(tok, gaps, Tokens(s[n..]));
      gaps := [""] + gaps;
      assert s == s[..n] + s[n..];
    }
  }

  lemma {:induction false} EmptyText()
    ensures Spaced([""], Tokens("")) && Render([""], Tokens("")) == ""
  {
  }

  lemma {:induction false} SpacedSize(gaps: seq<string>, ts: seq<Tok>)
    requires Spaced(gaps, ts)
    ensures |gaps| == |ts| + 1
  {
  }

  /** The text s is ts with this white space. */
  ghost predicate Spells(s: string, ts: seq<Tok>, gaps: seq<string>) { Spaced(gaps, ts) && Render(gaps, ts) == s }

  /** A text has exactly one reading as tokens: the one with white space where words, or > and >, would run together. */
  lemma {:induction false} LexesExactly(s: string, ts: seq<Tok>)
    ensures Tokens(s) == ts <==> exists gaps :: Spells(s, ts, gaps)
  {
    hide Spaced, Render, Tokens;
    if gaps :| Spells(s, ts, gaps) { RenderLexed(gaps, ts); }
    if Tokens(s) == ts {
      var gaps := TextSplit(s);
      assert Spells(s, ts, gaps);
    }
  }
}
