/** user/grep.c. A C string is a sequence without NUL; reading past its end gives NUL. */
module Grep {
  const BUFSIZE := 1024

  // ---- what a pattern means ----

  /** One character, any number of one character, or the end of the text. */
  datatype Item = One(c: char) | Star(c: char) | End

  function Items(re: string): seq<Item> {
    if re == "" then []
    else if |re| >= 2 && re[1] == '*' then [Star(re[0])] + Items(re[2..])
    else if re == "$" then [End]
    else [One(re[0])] + Items(re[1..])
  }

  predicate Fits(c: char, x: char) { c == '.' || c == x }

  /** Item it matches the part of text from i to j. */
  predicate Covers(it: Item, text: string, i: nat, j: nat)
    requires i <= j <= |text|
  {
    match it
    case One(c) => j == i + 1 && Fits(c, text[i])
    case Star(c) => forall k | i <= k < j :: Fits(c, text[k])
    case End => i == j == |text|
  }

  /** cuts divides a stretch of text from cuts[0] on into parts that the items match one by one. */
  ghost predicate Cuts(its: seq<Item>, text: string, cuts: seq<nat>) {
    && |cuts| == |its| + 1 && (forall k | 0 <= k < |cuts| :: cuts[k] <= |text|)
    && forall k | 0 <= k < |its| :: cuts[k] <= cuts[k + 1] && Covers(its[k], text, cuts[k], cuts[k + 1])
  }

  /** The pattern re matches text from position i on. */
  ghost predicate MatchesAt(re: string, text: string, i: nat) {
    exists cuts :: Cuts(Items(re), text, cuts) && cuts[0] == i
  }

  /** The meaning of a whole pattern: with ^ at the start of the text only, otherwise anywhere. */
  ghost predicate Matches(re: string, text: string) {
    if re != "" && re[0] == '^' then MatchesAt(re[1..], text, 0)
    else exists i | 0 <= i <= |text| :: MatchesAt(re, text, i)
  }

  lemma {:induction false} MatchEmpty(text: string, i: nat)
    requires i <= |text|
    ensures MatchesAt("", text, i)
  {
    assert Cuts(Items(""), text, [i]);
  }

  /** A pattern that starts with item it matches at i iff it covers i..j for some j from which the rest matches. */
  lemma {:induction false} MatchFirst(re: string, it: Item, rest: string, text: string, i: nat)
    requires i <= |text| && Items(re) == [it] + Items(rest)
    ensures MatchesAt(re, text, i) <==>
        exists j | i <= j <= |text| :: Covers(it, text, i, j) && MatchesAt(rest, text, j)
  {
    if MatchesAt(re, text, i) {
      var cuts :| Cuts(Items(re), text, cuts) && cuts[0] == i;
      MatchTail(it, Items(rest), text, cuts);
      assert Covers(it, text, i, cuts[1]) && MatchesAt(rest, text, cuts[1]);
    }
    if exists j | i <= j <= |text| :: Covers(it, text, i, j) && MatchesAt(rest, text, j) {
      var j :| i <= j <= |text| && Covers(it, text, i, j) && MatchesAt(rest, text, j);
      var cuts :| Cuts(Items(rest), text, cuts) && cuts[0] == j;
      MatchCons(it, Items(rest), text, i, cuts);
    }
  }

  lemma {:induction false} MatchTail(it: Item, its: seq<Item>, text: string, cuts: seq<nat>)
    requires Cuts([it] + its, text, cuts)
    ensures Cuts(its, text, cuts[1..]) && cuts[0] <= cuts[1] <= |text| && Covers(it, text, cuts[0], cuts[1])
  {
    var c := cuts[1..];
    forall k | 0 <= k < |its| ensures c[k] <= c[k + 1] && Covers(its[k], text, c[k], c[k + 1]) {
      assert ([it] + its)[k + 1] == its[k] && cuts[k + 1] <= cuts[k + 2];
    }
    assert ([it] + its)[0] == it;
  }

  lemma {:induction false} MatchCons(it: Item, its: seq<Item>, text: string, i: nat, cuts: seq<nat>)
    requires Cuts(its, text, cuts) && i <= cuts[0] && Covers(it, text, i, cuts[0])
    ensures Cuts([it] + its, text, [i] + cuts)
  {
    var js, c := [it] + its, [i] + cuts;
    forall k | 0 <= k < |js| ensures c[k] <= c[k + 1] && Covers(js[k], text, c[k], c[k + 1]) {
      if k > 0 { assert js[k] == its[k - 1] && c[k] == cuts[k - 1] && cuts[k - 1] <= cuts[k]; }
    }
  }

  /** The four forms of a pattern: the empty one matches everywhere; c* matches any number of characters that c matches
      and then the rest; a final $ matches at the end of the text; any other c matches one character, any one if it is a
      dot. */
  lemma {:induction false} PatternMeans(c: char, re: string, text: string, i: nat)
    requires i <= |text|
    ensures MatchesAt("", text, i)
    ensures MatchesAt("$", text, i) <==> i == |text|
    ensures MatchesAt([c, '*'] + re, text, i) <==>
              exists j | i <= j <= |text| :: Run(c, text, i, j) && MatchesAt(re, text, j)
    ensures (re == "" || re[0] != '*') && !(c == '$' && re == "") ==>
              (MatchesAt([c] + re, text, i) <==>
               i < |text| && (c == '.' || c == text[i]) && MatchesAt(re, text, i + 1))
    ensures Matches("^" + re, text) <==> MatchesAt(re, text, 0)
  {
    MatchEmpty(text, i);
    assert Items("$") == [End] + Items("");
    MatchFirst("$", End, "", text, i);
    assert i == |text| ==> Covers(End, text, i, i);
    var star := [c, '*'] + re;
    assert star[2..] == re && Items(star) == [Star(c)] + Items(re);
    MatchFirst(star, Star(c), re, text, i);
    assert forall j | i <= j <= |text| :: Covers(Star(c), text, i, j) <==> Run(c, text, i, j);
    if (re == "" || re[0] != '*') && !(c == '$' && re == "") {
      assert ([c] + re)[1..] == re && Items([c] + re) == [One(c)] + Items(re);
      MatchFirst([c] + re, One(c), re, text, i);
      assert i < |text| ==> (Covers(One(c), text, i, i + 1) <==> Fits(c, text[i]));
    }
    assert ("^" + re)[1..] == re;
  }

  /** The characters from i to j are all c, or any if c is a dot. */
  predicate Run(c: char, text: string, i: nat, j: nat)
    requires i <= j <= |text|
  {
    forall k | i <= k < j :: c == '.' || text[k] == c
  }

  // ---- the matcher ----

  /** matchhere(re, text + i) */
  method MatchHere(re: string, text: string, i: nat) returns (r: bool)
    requires i <= |text|
    ensures r <==> MatchesAt(re, text, i)
    decreases |re|, 0, 0
  {
    if re == "" {
      MatchEmpty(text, i);
      return true;
    }
    if |re| >= 2 && re[1] == '*' {
      MatchFirst(re, Star(re[0]), re[2..], text, i);
      r := MatchStar(re[0], re[2..], text, i);
      return;
    }
    if re == "$" {
      MatchFirst(re, End, "", text, i);
      MatchEmpty(text, i);
      assert i == |text| ==> Covers(End, text, i, i);
      return i == |text|;
    }
    MatchFirst(re, One(re[0]), re[1..], text, i);
    if i < |text| && (re[0] == '.' || re[0] == text[i]) {
      assert Covers(One(re[0]), text, i, i + 1);
      r := MatchHere(re[1..], text, i + 1);
      return;
    }
    return false;
  }

  /** matchstar(c, re, text + i) */
  method MatchStar(c: char, re: string, text: string, i: nat) returns (r: bool)
    requires i <= |text|
    ensures r <==> exists j | i <= j <= |text| :: Covers(Star(c), text, i, j) && MatchesAt(re, text, j)
    decreases |re|, 1, 0
  {
    var k := i;
    while true
      invariant i <= k <= |text| && Covers(Star(c), text, i, k) && forall j | i <= j < k :: !MatchesAt(re, text, j)
      decreases |text| - k
    {
      var here := MatchHere(re, text, k);
      if here { return true; }
      if !(k < |text| && (text[k] == c || c == '.')) { break; }
      k := k + 1;
    }
    forall j | i <= j <= |text| && Covers(Star(c), text, i, j) ensures !MatchesAt(re, text, j) {
      assert j > k ==> Fits(c, text[k]);
    }
    return false;
  }

  method Match(re: string, text: string) returns (r: bool)
    ensures r <==> Matches(re, text)
  {
    if re != "" && re[0] == '^' {
      r := MatchHere(re[1..], text, 0);
      return;
    }
    var i := 0;
    while true
      invariant 0 <= i <= |text| && forall j | 0 <= j < i :: !MatchesAt(re, text, j)
      decreases |text| - i
    {
      var here := MatchHere(re, text, i);
      if here { return true; }
      if i == |text| { break; }
      i := i + 1;
    }
    return false;
  }

  // ---- the lines ----

  const NUL := '\0'

  /** Position of the first newline, |s| if there is none. */
  function NewlineAt(s: string): (k: nat)
    ensures k <= |s| && (forall i | 0 <= i < k :: s[i] != '\n') && (k < |s| ==> s[k] == '\n')
  {
    if s == "" || s[0] == '\n' then 0 else 1 + NewlineAt(s[1..])
  }

  /** The terminated lines of s that match, with their newlines, in order. */
  ghost function Output(re: string, s: string): string {
    var k := NewlineAt(s);
    if k == |s| then "" else (if Matches(re, s[..k]) then s[..k + 1] else "") + Output(re, s[k + 1..])
  }

  /** The first line of s is terminated, fits in the buffer with its newline and the final NUL, and holds no NUL. */
  predicate Sound(s: string) {
    var k := NewlineAt(s);
    k < |s| && k + 1 <= BUFSIZE - 1 && NUL !in s[..k]
  }

  /** How far grep gets: to the first line that is not sound. */
  function Reach(s: string): (n: nat)
    ensures n <= |s|
  {
    if Sound(s) then NewlineAt(s) + 1 + Reach(s[NewlineAt(s) + 1..]) else 0
  }

  lemma {:induction false} NewlineUnique(s: string, k: nat)
    requires k <= |s| && (forall i | 0 <= i < k :: s[i] != '\n') && (k < |s| ==> s[k] == '\n')
    ensures NewlineAt(s) == k
  {
  }

  /** The output for what grep reaches of s. */
  ghost function Printed(re: string, s: string): string { Output(re, s[..Reach(s)]) }

  /** The first line of what is in the buffer and beyond. */
  lemma {:induction false} FirstLine(re: string, line: string, rest: string, s: string)
    requires s == line + "\n" + rest && forall i | 0 <= i < |line| :: line[i] != '\n'
    ensures Output(re, s) == (if Matches(re, line) then line + "\n" else "") + Output(re, rest)
  {
    NewlineUnique(s, |line|);
    assert s[..|line|] == line && s[..|line| + 1] == line + "\n" && s[|line| + 1..] == rest;
  }

  lemma {:induction false} FirstPrinted(re: string, line: string, rest: string, s: string)
    requires s == line + "\n" + rest && |line| + 1 <= BUFSIZE - 1
    requires forall i | 0 <= i < |line| :: line[i] != '\n' && line[i] != NUL
    ensures Printed(re, s) == (if Matches(re, line) then line + "\n" else "") + Printed(re, rest)
  {
    hide Matches, Output;
    NewlineUnique(s, |line|);
    assert s[..|line|] == line && s[|line| + 1..] == rest;
    assert Reach(s) == |line| + 1 + Reach(rest);
    assert s[..Reach(s)] == line + "\n" + rest[..Reach(rest)];
    FirstLine(re, line, rest[..Reach(rest)], s[..Reach(s)]);
  }

  /** Held bytes in which strchr sees no newline. */
  predicate Stuck(held: string) { forall i | 0 <= i < |held| && held[i] == '\n' :: NUL in held[..i] }

  /** At the end of the input, or with a full buffer, no newline in sight means that grep gets no further. */
  lemma {:induction false} NoMore(re: string, held: string, rest: string)
    requires Stuck(held) && (|held| == BUFSIZE - 1 || rest == "")
    ensures Printed(re, held + rest) == ""
  {
    var s := held + rest;
    var k := NewlineAt(s);
    assert k < |held| ==> s[..k] == held[..k] && NUL in held[..k];
    assert s[..0] == "" && NewlineAt("") == 0;
  }

  // ---- what is lost ----

  /** s[a..b] is a terminated line of s. */
  ghost predicate IsLine(s: string, a: nat, b: nat) {
    a <= b < |s| && s[b] == '\n' && (a == 0 || s[a - 1] == '\n') && forall i | a <= i < b :: s[i] != '\n'
  }

  /** No terminated line of s matches. */
  ghost predicate NoHit(re: string, s: string) { forall a: nat, b: nat | IsLine(s, a, b) :: !Matches(re, s[a..b]) }

  /** A line is the first or a line of what follows the first newline. */
  lemma {:induction false} LineOf(s: string, a: nat, b: nat)
    requires IsLine(s, a, b)
    ensures NewlineAt(s) < |s|
    ensures var k, rest := NewlineAt(s), s[NewlineAt(s) + 1..];
      (a == 0 && b == k) || (k < a && IsLine(rest, a - k - 1, b - k - 1) && s[a..b] == rest[a - k - 1..b - k - 1])
  {
    hide NewlineAt;
    var k := NewlineAt(s);
    assert k <= b && (a <= k ==> k == b);
    assert a > 0 ==> k <= a - 1;
    if k < a {
      var rest := s[k + 1..];
      assert forall i | k + 1 <= i < |s| :: rest[i - k - 1] == s[i];
      assert a > k + 1 ==> rest[a - k - 2] == s[a - 1];
      assert rest[b - k - 1] == s[b] && s[a..b] == rest[a - k - 1..b - k - 1];
    }
  }

  lemma {:induction false} LineBack(s: string, a: nat, b: nat)
    requires NewlineAt(s) < |s| && IsLine(s[NewlineAt(s) + 1..], a, b)
    ensures var k := NewlineAt(s); IsLine(s, k + 1 + a, k + 1 + b) && s[k + 1 + a..k + 1 + b] == s[k + 1..][a..b]
  {
    hide NewlineAt;
    var k, rest := NewlineAt(s), s[NewlineAt(s) + 1..];
    assert a > 0 ==> s[k + a] == rest[a - 1];
    assert forall i | k + 1 + a <= i < k + 1 + b :: s[i] == rest[i - k - 1];
  }

  lemma {:induction false} NoHitFirst(re: string, s: string)
    ensures NewlineAt(s) == |s| ==> NoHit(re, s)
    ensures var k := NewlineAt(s); k < |s| ==> (NoHit(re, s) <==> !Matches(re, s[..k]) && NoHit(re, s[k + 1..]))
  {
    hide Matches, NewlineAt;
    var k := NewlineAt(s);
    if k < |s| {
      var rest := s[k + 1..];
      assert IsLine(s, 0, k) && s[0..k] == s[..k] by { LineFirst(s); }
      if NoHit(re, s) {
        forall a: nat, b: nat | IsLine(rest, a, b) ensures !Matches(re, rest[a..b]) { LineBack(s, a, b); }
      }
      if !Matches(re, s[..k]) && NoHit(re, rest) {
        forall a: nat, b: nat | IsLine(s, a, b) ensures !Matches(re, s[a..b]) { LineOf(s, a, b); }
      }
    } else {
      forall a: nat, b: nat | IsLine(s, a, b) ensures false { LineOf(s, a, b); }
    }
  }

  lemma {:induction false} LineFirst(s: string)
    requires NewlineAt(s) < |s|
    ensures IsLine(s, 0, NewlineAt(s)) && s[0..NewlineAt(s)] == s[..NewlineAt(s)]
  {
  }

  /** The output is empty exactly if no terminated line matches. */
  lemma {:induction false} OutputEmpty(re: string, s: string)
    ensures Output(re, s) == "" <==> NoHit(re, s)
    decreases |s|
  {
    hide Matches, NoHit;
    NoHitFirst(re, s);
    if NewlineAt(s) < |s| { OutputEmpty(re, s[NewlineAt(s) + 1..]); }
  }

  lemma {:induction false} Unsound(re: string, s: string)
    requires !Sound(s)
    ensures Reach(s) == 0 && Printed(re, s) == ""
  {
    assert s[..0] == "" && NewlineAt("") == 0;
  }

  lemma {:induction false} SoundLine(s: string)
    requires Sound(s)
    ensures var k := NewlineAt(s);
      && k < |s| && k + 1 <= BUFSIZE - 1 && (forall i | 0 <= i < |s[..k]| :: s[..k][i] != '\n' && s[..k][i] != NUL)
      && s == s[..k] + "\n" + s[k + 1..] && Reach(s) == k + 1 + Reach(s[k + 1..])
      && s[Reach(s)..] == s[k + 1..][Reach(s[k + 1..])..]
  {
    hide NewlineAt;
    var k := NewlineAt(s);
    forall i | 0 <= i < k ensures s[..k][i] != NUL { assert s[..k][i] in s[..k]; }
  }

  lemma {:induction false} OutputSplit(re: string, s: string)
    ensures Output(re, s) == Printed(re, s) + Output(re, s[Reach(s)..])
    decreases |s|
  {
    hide Matches, Output, Printed, NewlineAt, Reach, Sound;
    if Sound(s) {
      SoundLine(s);
      var k := NewlineAt(s);
      var line, rest := s[..k], s[k + 1..];
      OutputSplit(re, rest);
      FirstLine(re, line, rest, s);
      FirstPrinted(re, line, rest, s);
      var x, y, z := if Matches(re, line) then line + "\n" else "", Printed(re, rest), Output(re, rest[Reach(rest)..]);
      assert (x + y) + z == x + (y + z);
    } else {
      Unsound(re, s);
      assert s[0..] == s;
    }
  }

  /** grep prints all it should exactly if no terminated line matches from the first unsound line on. */
  lemma {:induction false} NothingLost(re: string, s: string)
    ensures Output(re, s[..Reach(s)]) == Output(re, s) <==> NoHit(re, s[Reach(s)..])
  {
    hide Matches, Output, Reach, NoHit;
    OutputSplit(re, s);
    OutputEmpty(re, s[Reach(s)..]);
  }

  /** A line that holds a NUL hides the lines after it. */
  lemma {:induction false} LineHidden()
    ensures var s := [NUL, '\n', 'a', '\n']; Output("a", s[..Reach(s)]) != Output("a", s)
  {
    hide Output, Matches;
    var s := [NUL, '\n', 'a', '\n'];
    NewlineUnique(s, 1);
    assert s[..1][0] == NUL;
    assert Reach(s) == 0 && s[0..] == s && IsLine(s, 2, 3) && s[2..3] == "a";
    assert Matches("a", "a") by {
      assert Items("a") == [One('a')] + Items("");
      assert Cuts(Items("a"), "a", [0, 1]);
      assert MatchesAt("a", "a", 0);
      MatchesFrom("a", "a", 0);
    }
    NothingLost("a", s);
  }

  lemma {:induction false} MatchesFrom(re: string, text: string, i: nat)
    requires re != "" && re[0] != '^' && i <= |text| && MatchesAt(re, text, i)
    ensures Matches(re, text)
  {
  }

  // ---- the buffer ----

  /** strchr(buf + p, '\n'): -1 if a NUL comes first. */
  method Strchr(buf: array<char>, p: nat, ghost m: nat) returns (q: int)
    requires p <= m < buf.Length && buf[m] == NUL
    ensures q == -1 || p <= q < m
    ensures q == -1 ==> Stuck(buf[p..m])
    ensures q >= 0 ==> buf[q] == '\n' && forall i | p <= i < q :: buf[i] != '\n' && buf[i] != NUL
  {
    var s := p;
    while buf[s] != NUL
      invariant p <= s <= m && forall i | p <= i < s :: buf[i] != '\n' && buf[i] != NUL
      decreases m - s
    {
      if buf[s] == '\n' { return s; }
      s := s + 1;
    }
    ghost var held := buf[p..m];
    forall i | 0 <= i < |held| && held[i] == '\n' ensures NUL in held[..i] { assert held[..i][s - p] == NUL; }
    return -1;
  }

  /** The inner loop: the lines of buf[..m]. `rest` is the input that follows. */
  method DoLines(pattern: string, buf: array<char>, m: nat, ghost rest: string) returns (p: nat, out: string)
    requires m < buf.Length == BUFSIZE && buf[m] == NUL
    modifies buf
    ensures p <= m && (forall i | p <= i < m :: buf[i] == old(buf[i])) && buf[m] == NUL && Stuck(buf[p..m])
    ensures out + Printed(pattern, buf[p..m] + rest) == old(Printed(pattern, buf[..m] + rest))
  {
    hide Matches, Printed, Stuck;
    p, out := 0, "";
    assert buf[0..m] == buf[..m];
    while true
      invariant p <= m && buf[m] == NUL && forall i | p <= i < m :: buf[i] == old(buf[i])
      invariant out + Printed(pattern, buf[p..m] + rest) == old(Printed(pattern, buf[..m] + rest))
      decreases m - p
    {
      var q := Strchr(buf, p, m);
      if q < 0 { break; }
      ghost var line, more := buf[p..q], buf[q + 1..m] + rest;
      assert buf[p..m] + rest == line + "\n" + more;
      FirstPrinted(pattern, line, more, buf[p..m] + rest);
      buf[q] := NUL;
      assert buf[p..q] == line;
      var hit := Match(pattern, buf[p..q]);
      if hit {
        buf[q] := '\n';
        assert buf[p..q + 1] == line + "\n";
        out := out + buf[p..q + 1];
      }
      p := q + 1;
      assert buf[p..m] + rest == more;
    }
  }

  /** read(fd, buf + m, ..) returning n bytes, and the NUL after them. */
  method ReadInto(buf: array<char>, m: nat, input: string, pos: nat, n: nat)
    requires m + n < buf.Length && pos + n <= |input|
    modifies buf
    ensures buf[..m + n] == old(buf[..m]) + input[pos..pos + n] && buf[m + n] == NUL
  {
    forall i | 0 <= i < n { buf[m + i] := input[pos + i]; }
    buf[m + n] := NUL;
  }

  /** memmove(buf, buf + p, n) */
  method Shift(buf: array<char>, p: nat, n: nat)
    requires p + n <= buf.Length
    modifies buf
    ensures buf[..n] == old(buf[p..p + n])
  {
    forall i | 0 <= i < n { buf[i] := buf[p + i]; }
  }

  /** One round of the outer loop: n bytes are read and the lines now in the buffer are done. */
  method Round(pattern: string, buf: array<char>, m: nat, input: string, pos: nat, n: nat)
    returns (left: nat, out: string)
    requires buf.Length == BUFSIZE && m + n < BUFSIZE && pos + n <= |input|
    modifies buf
    ensures left <= m + n && Stuck(buf[..left])
    ensures out + Printed(pattern, buf[..left] + input[pos + n..]) == old(Printed(pattern, buf[..m] + input[pos..]))
  {
    hide Matches, Printed, Stuck;
    ghost var held, rest := buf[..m], input[pos + n..];
    ReadInto(buf, m, input, pos, n);
    assert held + input[pos..] == buf[..m + n] + rest;
    var p;
    p, out := DoLines(pattern, buf, m + n, rest);
    left := m + n - p;
    Shift(buf, p, left);
  }

  /** grep(pattern, fd) on the given input, whatever it is. `size` decides how many bytes each read returns:
      at least one, and at most what fits and what is left. */
  method GrepFile(pattern: string, input: string, size: nat -> nat) returns (out: string)
    ensures out == Output(pattern, input[..Reach(input)])
  {
    hide Matches, Printed, Stuck;
    var buf := new char[BUFSIZE];
    var m, pos, k := 0, 0, 0;
    out := "";
    assert buf[..m] + input[pos..] == input;
    assert Stuck(buf[..m]) by { StuckNone(); }
    while true
      invariant 0 <= m < BUFSIZE && 0 <= pos <= |input| && Stuck(buf[..m])
      invariant out + Printed(pattern, buf[..m] + input[pos..]) == Printed(pattern, input)
      decreases |input| - pos
    {
      var room, left := BUFSIZE - m - 1, |input| - pos;
      var most := if room < left then room else left;
      if most == 0 { break; }
      var n := 1 + size(k) % most;
      var o;
      m, o := Round(pattern, buf, m, input, pos, n);
      out := out + o;
      pos, k := pos + n, k + 1;
    }
    NoMore(pattern, buf[..m], input[pos..]);
    PrintedIs(pattern, input);
  }

  lemma {:induction false} StuckNone()
    ensures Stuck("")
  {
  }

  lemma {:induction false} PrintedIs(re: string, s: string)
    ensures Printed(re, s) == Output(re, s[..Reach(s)])
  {
  }
}
