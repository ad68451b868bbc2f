/** The matcher of user/grep.c against the language its patterns denote.  C strings are
    sequences without the terminating zero. */
module Grep {

  datatype Item = One(c: char) | Star(c: char)
  datatype Pattern = Pattern(items: seq<Item>, atEnd: bool)

  /** '.' stands for any character. */
  predicate Fits(c: char, x: char) { c == '.' || c == x }

  /** The words an item stands for. */
  predicate ItemWord(t: Item, w: string) {
    match t
    case One(c) => |w| == 1 && Fits(c, w[0])
    case Star(c) => forall i :: 0 <= i < |w| ==> Fits(c, w[i])
  }

  /** Reading a pattern: c* first, then a lone final $, then a single character. */
  function Parse(re: string): Pattern {
    if re == "" then Pattern([], false)
    else if |re| >= 2 && re[1] == '*' then
      var p := Parse(re[2..]); p.(items := [Star(re[0])] + p.items)
    else if re == "$" then Pattern([], true)
    else
      var p := Parse(re[1..]); p.(items := [One(re[0])] + p.items)
  }

  function Concat(pieces: seq<string>): string {
    if pieces == [] then "" else pieces[0] + Concat(pieces[1..])
  }

  /** One word for each item, in order. */
  predicate Spells(items: seq<Item>, pieces: seq<string>) {
    |pieces| == |items| && forall k :: 0 <= k < |items| ==> ItemWord(items[k], pieces[k])
  }

  /** w is a concatenation of words, one for each item. */
  ghost predicate Word(items: seq<Item>, w: string) {
    exists pieces :: Spells(items, pieces) && Concat(pieces) == w
  }

  /** Some prefix of the text is denoted; all of it, when the pattern ends in $. */
  ghost predicate Here(p: Pattern, text: string) {
    exists n :: 0 <= n <= |text| && Word(p.items, text[..n]) && (p.atEnd ==> n == |text|)
  }

  /** Some substring is denoted; a leading ^ ties it to the start. */
  ghost predicate Denotes(re: string, text: string) {
    if re != "" && re[0] == '^' then Here(Parse(re[1..]), text)
    else exists i :: 0 <= i <= |text| && Here(Parse(re), text[i..])
  }

  // ---- the language, item by item ------------------------------------------------------------

  lemma WordNil(w: string)
    ensures Word([], w) <==> w == ""
  {
    if w == "" { assert Spells([], []) && Concat([]) == w; }
  }

  lemma WordCons(t: Item, items: seq<Item>, w: string, m: nat)
    requires m <= |w| && ItemWord(t, w[..m]) && Word(items, w[m..])
    ensures Word([t] + items, w)
  {
    var pieces :| Spells(items, pieces) && Concat(pieces) == w[m..];
    var all := [w[..m]] + pieces;
    assert all[1..] == pieces && Concat(all) == w;
    assert Spells([t] + items, all);
  }

  lemma WordUncons(t: Item, items: seq<Item>, w: string) returns (m: nat)
    requires Word([t] + items, w)
    ensures m <= |w| && ItemWord(t, w[..m]) && Word(items, w[m..])
  {
    var all :| Spells([t] + items, all) && Concat(all) == w;
    m := |all[0]|;
    assert w[..m] == all[0] && w[m..] == Concat(all[1..]);
    assert ItemWord(([t] + items)[0], all[0]);
    forall k | 0 <= k < |items|
      ensures ItemWord(items[k], all[1..][k])
    {
      assert ItemWord(([t] + items)[k + 1], all[k + 1]);
    }
    assert Spells(items, all[1..]);
  }

  // ---- what the three functions compute --------------------------------------------------------

  lemma HereNil(text: string)
    ensures Here(Pattern([], false), text)
    ensures Here(Pattern([], true), text) <==> text == ""
  {
    WordNil("");
    assert text[..0] == "";
    forall n | 0 <= n <= |text|
      ensures Word([], text[..n]) <==> n == 0
    {
      WordNil(text[..n]);
    }
  }

  /** An item in front: it takes some prefix, and the rest of the pattern goes on from there. */
  lemma HereCons(t: Item, p: Pattern, text: string)
    ensures Here(p.(items := [t] + p.items), text)
       <==> exists m :: 0 <= m <= |text| && ItemWord(t, text[..m]) && Here(p, text[m..])
  {
    var q := p.(items := [t] + p.items);
    if Here(q, text) {
      var n :| 0 <= n <= |text| && Word(q.items, text[..n]) && (p.atEnd ==> n == |text|);
      var m := WordUncons(t, p.items, text[..n]);
      assert text[..n][..m] == text[..m] && text[..n][m..] == text[m..][..n - m];
      assert Here(p, text[m..]);
    }
    if m :| 0 <= m <= |text| && ItemWord(t, text[..m]) && Here(p, text[m..]) {
      var n :| 0 <= n <= |text[m..]| && Word(p.items, text[m..][..n]) && (p.atEnd ==> n == |text[m..]|);
      assert text[..n + m][..m] == text[..m] && text[..n + m][m..] == text[m..][..n];
      WordCons(t, p.items, text[..n + m], m);
    }
  }

  lemma HereOne(c: char, p: Pattern, text: string)
    ensures Here(p.(items := [One(c)] + p.items), text)
       <==> text != "" && Fits(c, text[0]) && Here(p, text[1..])
  {
    HereCons(One(c), p, text);
    if text != "" && Fits(c, text[0]) && Here(p, text[1..]) {
      assert ItemWord(One(c), text[..1]);
    }
  }

  /** matchhere() */
  method MatchHere(re: string, text: string) returns (r: bool)
    ensures r <==> Here(Parse(re), text)
    decreases |re|, 0
  {
    HereNil(text);
    if re == "" {
      return true;
    }
    if |re| >= 2 && re[1] == '*' {
      r := MatchStar(re[0], re[2..], text);
      return;
    }
    if re == "$" {
      return text == "";
    }
    HereOne(re[0], Parse(re[1..]), text);
    if text != "" && (re[0] == '.' || re[0] == text[0]) {
      r := MatchHere(re[1..], text[1..]);
      return;
    }
    return false;
  }

  /** matchstar() */
  method MatchStar(c: char, re: string, text: string) returns (r: bool)
    ensures r <==> Here(Parse(re).(items := [Star(c)] + Parse(re).items), text)
    decreases |re|, 1
  {
    var i := 0;
    HereCons(Star(c), Parse(re), text);
    while true
      invariant 0 <= i <= |text| && ItemWord(Star(c), text[..i])
      invariant forall m :: 0 <= m < i ==> !Here(Parse(re), text[m..])
      decreases |text| - i
    {
      r := MatchHere(re, text[i..]);
      if r {
        return true;
      }
      if !(i < |text| && (text[i] == c || c == '.')) {
        break;
      }
      i := i + 1;
    }
    forall m | 0 <= m <= |text| && ItemWord(Star(c), text[..m])
      ensures m <= i
    {
    }
    return false;
  }

  /** match(): 1 exactly when some substring is in the language of the pattern. */
  method Match(re: string, text: string) returns (r: bool)
    ensures r <==> Denotes(re, text)
  {
    if re != "" && re[0] == '^' {
      r := MatchHere(re[1..], text);
      return;
    }
    var i := 0;
    while true
      invariant 0 <= i <= |text|
      invariant forall m :: 0 <= m < i ==> !Here(Parse(re), text[m..])
      decreases |text| - i
    {
      r := MatchHere(re, text[i..]);
      if r {
        return true;
      }
      if i == |text| {
        break;
      }
      i := i + 1;
    }
    return false;
  }

  // ---- grep(): matching lines out of any sequence of reads -------------------------------------

  const BUFSIZE: nat := 1024

  predicate NoNewline(s: string, i: nat, q: nat)
    requires q <= |s|
  {
    forall k :: i <= k < q ==> s[k] != '\n'
  }

  /** The first newline at or after position i, or the length of s. */
  function Newline(s: string, i: nat): (q: nat)
    requires i <= |s|
    ensures i <= q <= |s| && NoNewline(s, i, q) && (q < |s| ==> s[q] == '\n')
    decreases |s| - i
  {
    if i == |s| || s[i] == '\n' then i else Newline(s, i + 1)
  }

  ghost function Hits(re: string): string -> bool { line => Denotes(re, line) }

  ghost predicate AgreesAt(hit: string -> bool, re: string, line: string) { hit(line) <==> Denotes(re, line) }

  /** `hit` tells the matching lines; named so that proofs about lines need not unfold matching. */
  ghost predicate Agrees(hit: string -> bool, re: string) {
    forall line {:trigger AgreesAt(hit, re, line)} :: AgreesAt(hit, re, line)
  }

  /** The lines of s that match, newlines included; an unfinished last line is not a line. */
  ghost function MatchingLines(hit: string -> bool, s: string): string
    decreases |s|
  {
    var q := Newline(s, 0);
    if q == |s| then "" else
      (if hit(s[..q]) then s[..q + 1] else "") + MatchingLines(hit, s[q + 1..])
  }

  predicate WholeLines(s: string) { s == "" || s[|s| - 1] == '\n' }

  lemma NewlineIs(s: string, i: nat, q: nat)
    requires i <= q <= |s| && NoNewline(s, i, q) && (q < |s| ==> s[q] == '\n')
    ensures Newline(s, i) == q
  {
    var r := Newline(s, i);
    assert r < |s| ==> s[r] == '\n';
  }

  /** The first line, if it matches. */
  ghost function FirstLine(hit: string -> bool, s: string, q: nat): string
    requires q < |s|
  {
    if hit(s[..q]) then s[..q + 1] else ""
  }

  lemma LinesFirst(hit: string -> bool, s: string, q: nat)
    requires q < |s| && NoNewline(s, 0, q) && s[q] == '\n'
    ensures MatchingLines(hit, s) == FirstLine(hit, s, q) + MatchingLines(hit, s[q + 1..])
  {
    NewlineIs(s, 0, q);
  }

  lemma Glue(ab: string, first: string, rb: string, r: string, b: string, a: string)
    requires ab == first + rb && rb == r + b && a == first + r
    ensures ab == a + b
  {
  }

  lemma {:induction false} LinesAppend(hit: string -> bool, a: string, b: string)
    requires WholeLines(a)
    ensures MatchingLines(hit, a + b) == MatchingLines(hit, a) + MatchingLines(hit, b)
    decreases |a|
  {
    if a == "" {
      assert a + b == b;
    } else {
      var q := Newline(a, 0);
      assert q < |a| && NoNewline(a, 0, q) && a[q] == '\n';
      LinesAppend(hit, a[q + 1..], b);
      OneLineMore(hit, a, b, q);
    }
  }

  lemma OneLineMore(hit: string -> bool, a: string, b: string, q: nat)
    requires q < |a| && NoNewline(a, 0, q) && a[q] == '\n'
    requires MatchingLines(hit, a[q + 1..] + b) == MatchingLines(hit, a[q + 1..]) + MatchingLines(hit, b)
    ensures MatchingLines(hit, a + b) == MatchingLines(hit, a) + MatchingLines(hit, b)
  {
    LinesFirst(hit, a, q);
    AppendFirst(hit, a, b, q);
    Glue(MatchingLines(hit, a + b), FirstLine(hit, a, q), MatchingLines(hit, a[q + 1..] + b),
         MatchingLines(hit, a[q + 1..]), MatchingLines(hit, b), MatchingLines(hit, a));
  }

  lemma AppendFirst(hit: string -> bool, a: string, b: string, q: nat)
    requires q < |a| && NoNewline(a, 0, q) && a[q] == '\n'
    ensures MatchingLines(hit, a + b) == FirstLine(hit, a, q) + MatchingLines(hit, a[q + 1..] + b)
  {
    var w := a + b;
    assert w[..q] == a[..q] && w[..q + 1] == a[..q + 1] && w[q + 1..] == a[q + 1..] + b;
    LinesFirst(hit, w, q);
  }

  lemma OneLine(hit: string -> bool, line: string)
    requires NoNewline(line, 0, |line|)
    ensures MatchingLines(hit, line + "\n") == if hit(line) then line + "\n" else ""
    ensures MatchingLines(hit, line) == ""
  {
    var s := line + "\n";
    NewlineIs(s, 0, |line|);
    NewlineIs(line, 0, |line|);
    assert s[..|line|] == line && s[..|line| + 1] == s && s[|line| + 1..] == "";
  }

  /** What is written for the lines up to p, when text[p..q] and its newline follow. */
  lemma NextLine(hit: string -> bool, text: string, p: nat, q: nat)
    requires p <= q < |text| && WholeLines(text[..p]) && NoNewline(text, p, q) && text[q] == '\n'
    ensures WholeLines(text[..q + 1])
    ensures MatchingLines(hit, text[..q + 1])
         == MatchingLines(hit, text[..p]) + if hit(text[p..q]) then text[p..q] + "\n" else ""
  {
    var line := text[p..q];
    assert text[..q + 1] == text[..p] + (line + "\n");
    LinesAppend(hit, text[..p], line + "\n");
    OneLine(hit, line);
  }

  /** An unfinished line adds nothing. */
  lemma LastLine(hit: string -> bool, text: string, p: nat, q: nat)
    requires p <= q <= |text| && WholeLines(text[..p]) && NoNewline(text, p, q)
    ensures MatchingLines(hit, text[..q]) == MatchingLines(hit, text[..p])
  {
    var line := text[p..q];
    assert text[..q] == text[..p] + line;
    LinesAppend(hit, text[..p], line);
    OneLine(hit, line);
  }

  /** strchr(buf + p, '\n') on a buffer that holds m characters. */
  method FindNewline(buf: array<char>, p: nat, m: nat) returns (q: nat)
    requires p <= m <= buf.Length
    ensures p <= q <= m && (q < m ==> buf[q] == '\n')
    ensures forall k :: p <= k < q ==> buf[k] != '\n'
  {
    q := p;
    while q < m && buf[q] != '\n'
      invariant p <= q <= m
      invariant forall k :: p <= k < q ==> buf[k] != '\n'
    {
      q := q + 1;
    }
  }

  /** One complete line buf[p..q]: printed if it matches. */
  method PrintOne(re: string, ghost hit: string -> bool, buf: array<char>, p: nat, q: nat) returns (out: string)
    requires Agrees(hit, re) && p <= q < buf.Length && buf[q] == '\n'
    modifies buf
    ensures forall k :: 0 <= k < buf.Length && k != q ==> buf[k] == old(buf[k])
    ensures out == if hit(old(buf[p..q])) then old(buf[p..q]) + "\n" else ""
  {
    var line := buf[p..q];
    buf[q] := '\0';
    assert AgreesAt(hit, re, line);
    var matched := Match(re, line);
    if matched {
      buf[q] := '\n';
      assert buf[p..q + 1] == line + "\n";
      return buf[p..q + 1];
    }
    return "";
  }

  /** The inner loop of grep(): print the matching lines among the first m characters. */
  method PrintLines(re: string, ghost hit: string -> bool, buf: array<char>, m: nat, ghost text: string)
      returns (out: string, p: nat)
    requires Agrees(hit, re) && m < buf.Length && |text| == m && forall k :: 0 <= k < m ==> buf[k] == text[k]
    modifies buf
    ensures p <= m && forall k :: p <= k < m ==> buf[k] == text[k] && text[k] != '\n'
    ensures WholeLines(text[..p]) && out == MatchingLines(hit, text[..p])
  {
    p, out := 0, "";
    while true
      invariant 0 <= p <= m && WholeLines(text[..p])
      invariant forall k :: p <= k < m ==> buf[k] == text[k]
      invariant out == MatchingLines(hit, text[..p])
      decreases m - p
    {
      var q := FindNewline(buf, p, m);
      if q == m {
        break;
      }
      var s := PrintNext(re, hit, buf, p, q, m, text);
      out := out + s;
      p := q + 1;
    }
  }

  /** One turn of that loop. */
  method PrintNext(re: string, ghost hit: string -> bool, buf: array<char>, p: nat, q: nat, m: nat, ghost text: string)
      returns (s: string)
    requires Agrees(hit, re) && p <= q < m < buf.Length && |text| == m && WholeLines(text[..p])
    requires forall k :: p <= k < m ==> buf[k] == text[k]
    requires buf[q] == '\n' && forall k :: p <= k < q ==> buf[k] != '\n'
    modifies buf
    ensures forall k :: q < k < m ==> buf[k] == text[k]
    ensures WholeLines(text[..q + 1]) && MatchingLines(hit, text[..q + 1]) == MatchingLines(hit, text[..p]) + s
  {
    assert buf[p..q] == text[p..q];
    NextLine(hit, text, p, q);
    s := PrintOne(re, hit, buf, p, q);
  }

  /** read(): the next n characters go behind the m already there. */
  method Read(buf: array<char>, m: nat, input: string, pos: nat, n: nat)
    requires m + n < buf.Length && pos + n <= |input|
    modifies buf
    ensures forall k :: 0 <= k < m ==> buf[k] == old(buf[k])
    ensures forall k :: m <= k < m + n ==> buf[k] == input[pos + k - m]
  {
    for i := 0 to n
      invariant forall k :: 0 <= k < m ==> buf[k] == old(buf[k])
      invariant forall k :: m <= k < m + i ==> buf[k] == input[pos + k - m]
    {
      buf[m + i] := input[pos + i];
    }
    buf[m + n] := '\0';
  }

  /** memmove(buf, buf + p, n) */
  method Shift(buf: array<char>, p: nat, n: nat)
    requires p + n <= buf.Length
    modifies buf
    ensures forall k :: 0 <= k < n ==> buf[k] == old(buf[p + k])
  {
    for i := 0 to n
      invariant forall k :: 0 <= k < i ==> buf[k] == old(buf[p + k])
      invariant forall k :: i <= k < buf.Length && p + i <= k ==> buf[k] == old(buf[k])
    {
      buf[i] := buf[p + i];
    }
  }

  predicate CharsAt(buf: seq<char>, m: nat, input: string, start: nat) {
    && m <= |buf| && start + m <= |input|
    && forall k :: 0 <= k < m ==> buf[k] == input[start + k] && buf[k] != '\n'
  }

  /** buf[..m] is the unfinished line, which begins at `start` in the input. */
  ghost predicate Tail(input: string, start: nat, m: nat, buf: seq<char>) {
    CharsAt(buf, m, input, start) && WholeLines(input[..start])
  }

  method ReadMore(buf: array<char>, m: nat, input: string, pos: nat, n: nat, ghost start: nat, ghost text: string)
    requires m + n < buf.Length && pos == start + m && pos + n <= |input|
    requires CharsAt(buf[..], m, input, start) && text == input[start..pos + n]
    modifies buf
    ensures forall k :: 0 <= k < m + n ==> buf[k] == text[k]
  {
    assert forall k :: 0 <= k < m ==> buf[k] == buf[..][k];
    Read(buf, m, input, pos, n);
  }

  method KeepTail(buf: array<char>, p: nat, m: nat, ghost input: string, ghost start: nat, ghost text: string)
    requires p + m == |text| < buf.Length && start + |text| <= |input| && text == input[start..start + |text|]
    requires forall k :: p <= k < |text| ==> buf[k] == text[k] && text[k] != '\n'
    modifies buf
    ensures CharsAt(buf[..], m, input, start + p)
  {
    Shift(buf, p, m);
    forall k | 0 <= k < m ensures buf[..][k] == input[start + p + k] && buf[..][k] != '\n' {
      assert buf[k] == text[p + k];
    }
  }

  /** A line starts at s that fills the whole buffer, and the input goes on. */
  predicate TooLongAt(input: string, s: nat) {
    s + BUFSIZE - 1 < |input| && WholeLines(input[..s]) && NoNewline(input, s, s + BUFSIZE - 1)
  }

  ghost predicate TooLong(input: string) { exists s: nat :: TooLongAt(input, s) }

  /** The unfinished line that begins at `start` does not begin behind a line that is too long. */
  ghost predicate NotPast(input: string, start: nat) { forall s: nat :: TooLongAt(input, s) ==> start <= s }

  lemma StillNotPast(input: string, start: nat, next: nat)
    requires NotPast(input, start) && start <= next <= start + BUFSIZE - 1 && next <= |input|
             && WholeLines(input[..next])
    ensures NotPast(input, next)
  {
    forall s: nat | TooLongAt(input, s) ensures next <= s {
      assert next > 0 ==> input[..next][next - 1] == input[next - 1];
    }
  }

  /** Nothing behind a line that is too long is found: here a line that matches. */
  lemma LongLineHides(hit: string -> bool, line: string)
    requires |line| < BUFSIZE - 1 && hit(line) && NoNewline(line, 0, |line|) && !hit(seq(BUFSIZE, _ => 'x'))
    ensures var input := seq(BUFSIZE, _ => 'x') + "\n" + line + "\n";
            && (forall s: nat :: TooLongAt(input, s) <==> s == 0)
            && MatchingLines(hit, input[..BUFSIZE - 1]) == "" && MatchingLines(hit, input) == line + "\n"
  {
    var xs := seq(BUFSIZE, _ => 'x');
    var input := xs + "\n" + line + "\n";
    forall s: nat | 0 < s <= |input| ensures WholeLines(input[..s]) ==> input[s - 1] == '\n' {
      assert input[..s][s - 1] == input[s - 1];
    }
    assert input[..0] == "" && input[..BUFSIZE] == xs;
    LastLine(hit, input, 0, BUFSIZE - 1);
    NextLine(hit, input, 0, BUFSIZE);
    assert input[BUFSIZE + 1..|input| - 1] == line && input[..|input|] == input;
    NextLine(hit, input, BUFSIZE + 1, |input| - 1);
  }

  lemma MoreLines(hit: string -> bool, input: string, start: nat, text: string, p: nat)
    requires start + |text| <= |input| && text == input[start..start + |text|] && p <= |text|
    requires WholeLines(input[..start]) && WholeLines(text[..p])
    ensures WholeLines(input[..start + p])
    ensures MatchingLines(hit, input[..start + p])
         == MatchingLines(hit, input[..start]) + MatchingLines(hit, text[..p])
  {
    Longer(input, start, text, p);
    LinesAppend(hit, input[..start], text[..p]);
  }

  lemma Longer(input: string, start: nat, text: string, p: nat)
    requires start + |text| <= |input| && text == input[start..start + |text|] && p <= |text|
    ensures input[..start] + text[..p] == input[..start + p]
  {
    forall k | 0 <= k < start + p ensures (input[..start] + text[..p])[k] == input[..start + p][k] {}
  }

  /** One round of grep(): n more characters come in, the p characters of complete lines go. */
  method Round(re: string, ghost hit: string -> bool, buf: array<char>, m: nat, input: string, pos: nat, n: nat,
               ghost start: nat)
    returns (out: string, m': nat, ghost p: nat)
    requires Agrees(hit, re) && m + n < buf.Length == BUFSIZE && pos == start + m && pos + n <= |input|
    requires Tail(input, start, m, buf[..]) && NotPast(input, start)
    modifies buf
    ensures m' + p == m + n && Tail(input, start + p, m', buf[..]) && NotPast(input, start + p)
    ensures MatchingLines(hit, input[..start + p]) == MatchingLines(hit, input[..start]) + out
  {
    ghost var text := input[start..pos + n];
    ReadMore(buf, m, input, pos, n, start, text);
    var q;
    out, q := PrintLines(re, hit, buf, m + n, text);
    p, m' := q, m + n - q;
    KeepTail(buf, q, m', input, start, text);
    MoreLines(hit, input, start, text, p);
    StillNotPast(input, start, start + p);
  }

  lemma Ended(hit: string -> bool, input: string, start: nat, m: nat, buf: seq<char>)
    requires Tail(input, start, m, buf) && NotPast(input, start) && m < BUFSIZE
    ensures MatchingLines(hit, input[..start + m]) == MatchingLines(hit, input[..start])
    ensures TooLong(input) ==> start + m < |input|
    ensures m == BUFSIZE - 1 && start + m < |input| ==> TooLongAt(input, start)
  {
    assert forall i :: start <= i < start + m ==> buf[i - start] == input[i];
    LastLine(hit, input, start, start + m);
  }

  /** The loop of grep(). */
  method GrepLoop(re: string, ghost hit: string -> bool, input: string, chunks: seq<nat>)
      returns (out: string, pos: nat)
    requires Agrees(hit, re)
    ensures pos <= |input| && out == MatchingLines(hit, input[..pos])
    ensures TooLong(input) ==> pos < |input|
    ensures pos < |input| && 0 !in chunks && |chunks| > |input| ==>
              pos >= BUFSIZE - 1 && TooLongAt(input, pos - (BUFSIZE - 1))
  {
    var buf := new char[BUFSIZE];
    var m: nat, k := 0, 0;
    out, pos := "", 0;
    ghost var start: nat := 0;
    assert input[..0] == "";
    while true
      invariant 0 <= m < BUFSIZE && 0 <= k <= |chunks| && k <= pos == start + m
      invariant NotPast(input, start) && Tail(input, start, m, buf[..]) && out == MatchingLines(hit, input[..start])
      decreases |chunks| - k
    {
      var n := if k == |chunks| then 0 else Min(chunks[k], Min(BUFSIZE - m - 1, |input| - pos));
      if n == 0 {
        break;
      }
      ghost var p;
      var more;
      more, m, p := Round(re, hit, buf, m, input, pos, n, start);
      out, pos, k, start := out + more, pos + n, k + 1, start + p;
    }
    Ended(hit, input, start, m, buf[..]);
  }

  /** grep() on an input delivered by reads of any sizes: read k asks for at most chunks[k]
      characters, and a read of nothing ends the loop. */
  method GrepFile(re: string, input: string, chunks: seq<nat>) returns (out: string, pos: nat)
    requires '\0' !in input
    ensures pos <= |input| && out == MatchingLines(Hits(re), input[..pos])
    ensures 0 !in chunks && |chunks| > |input| ==> (pos < |input| <==> TooLong(input))
    ensures pos < |input| && 0 !in chunks && |chunks| > |input| ==>
              pos >= BUFSIZE - 1 && TooLongAt(input, pos - (BUFSIZE - 1))
  {
    out, pos := GrepLoop(re, Hits(re), input, chunks);
  }

  function Min(a: nat, b: nat): nat { if a < b then a else b }
}
