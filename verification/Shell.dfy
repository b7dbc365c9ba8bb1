/**
 The line buffer and the in-place tokenizer of kernel/shell.c.
 */
module Shell {

  import opened Common

  const BUFFER_SIZE := 256
  const MAX_ARGS := 16
  const NUL := '\0'
  const BACKSPACE := 8 as char

  predicate Blank(c: char) {
    c == ' ' || c == '\t'
  }

  // ------------------------------------------------------------------- words

  /** The first position from i on that is not blank, or the end. */
  function Skip(t: seq<char>, i: nat): (j: nat)
    requires i <= |t|
    ensures i <= j <= |t| && (j < |t| ==> !Blank(t[j]))
    ensures forall k :: i <= k < j ==> Blank(t[k])
    decreases |t| - i
  {
    if i == |t| || !Blank(t[i]) then i else Skip(t, i + 1)
  }

  /** The first position from i on that is blank, or the end. */
  function End(t: seq<char>, i: nat): (j: nat)
    requires i <= |t|
    ensures i <= j <= |t| && (j < |t| ==> Blank(t[j]))
    ensures forall k :: i <= k < j ==> !Blank(t[k])
    decreases |t| - i
  {
    if i == |t| || Blank(t[i]) then i else End(t, i + 1)
  }

  /** The blank-separated words of t from position i on. */
  function Words(t: seq<char>, i: nat): seq<seq<char>>
    requires i <= |t|
    decreases |t| - i
  {
    var a := Skip(t, i);
    if a == |t| then [] else [t[a..End(t, a)]] + Words(t, End(t, a))
  }

  function Joined(ws: seq<seq<char>>): seq<char> {
    if ws == [] then [] else ws[0] + Joined(ws[1..])
  }

  function Squeezed(t: seq<char>): seq<char> {
    if t == [] then [] else (if Blank(t[0]) then [] else [t[0]]) + Squeezed(t[1..])
  }

  lemma {:induction false} SqueezedBlanks(t: seq<char>, i: nat)
    requires i <= |t| && forall k :: 0 <= k < i ==> Blank(t[k])
    ensures Squeezed(t) == Squeezed(t[i..])
  {
    if i > 0 {
      SqueezedBlanks(t[1..], i - 1);
      assert t[1..][i-1..] == t[i..];
    }
  }

  lemma {:induction false} SqueezedWord(t: seq<char>, i: nat)
    requires i <= |t| && forall k :: 0 <= k < i ==> !Blank(t[k])
    ensures Squeezed(t) == t[..i] + Squeezed(t[i..])
  {
    if i > 0 {
      SqueezedWord(t[1..], i - 1);
      assert t[1..][i-1..] == t[i..] && t[..i] == [t[0]] + t[1..][..i-1];
    }
  }

  predicate IsWord(w: seq<char>) {
    w != [] && forall j :: 0 <= j < |w| ==> !Blank(w[j])
  }

  /** No word is empty or holds a blank. */
  lemma {:induction false} WordsAreWords(t: seq<char>, i: nat)
    requires i <= |t|
    ensures forall k :: 0 <= k < |Words(t, i)| ==> IsWord(Words(t, i)[k])
    decreases |t| - i
  {
    var a := Skip(t, i);
    if a < |t| {
      WordsAreWords(t, End(t, a));
      assert IsWord(t[a..End(t, a)]);
    }
  }

  /** The words in a row are what is left of the line without its blanks. */
  lemma {:induction false} WordsAreTheText(t: seq<char>, i: nat)
    requires i <= |t|
    ensures Joined(Words(t, i)) == Squeezed(t[i..])
    decreases |t| - i
  {
    var a := Skip(t, i);
    SqueezedBlanks(t[i..], a - i);
    assert t[i..][a-i..] == t[a..];
    if a < |t| {
      var b := End(t, a);
      WordsAreTheText(t, b);
      WordFirst(t, a, b);
      assert Words(t, i)[1..] == Words(t, b);
    }
  }

  lemma WordFirst(t: seq<char>, a: nat, b: nat)
    requires a <= b <= |t| && forall k :: a <= k < b ==> !Blank(t[k])
    ensures Squeezed(t[a..]) == t[a..b] + Squeezed(t[b..])
  {
    SqueezedWord(t[a..], b - a);
    assert t[a..][..b-a] == t[a..b] && t[a..][b-a..] == t[b..];
  }

  /** Positions a .. b-1 are not blank, and neither side could be longer. */
  predicate IsRun(t: seq<char>, a: nat, b: nat) {
    && a < b <= |t| && (forall k :: a <= k < b ==> !Blank(t[k]))
    && (a == 0 || Blank(t[a-1])) && (b == |t| || Blank(t[b]))
  }

  /** The word lies at this span of the text. */
  predicate WordOf(t: seq<char>, w: seq<char>, span: (nat, nat)) {
    IsRun(t, span.0, span.1) && w == t[span.0..span.1]
  }

  ghost predicate Spanned(spans: seq<(nat, nat)>, p: nat) {
    exists k :: 0 <= k < |spans| && spans[k].0 <= p < spans[k].1
  }

  ghost predicate InOrder(spans: seq<(nat, nat)>) {
    forall k, l :: 0 <= k < l < |spans| ==> spans[k].1 <= spans[l].0
  }

  ghost predicate AllSpanned(t: seq<char>, i: nat, spans: seq<(nat, nat)>) {
    forall p :: i <= p < |t| && !Blank(t[p]) ==> Spanned(spans, p)
  }

  ghost predicate From(spans: seq<(nat, nat)>, i: nat) {
    forall k :: 0 <= k < |spans| ==> i <= spans[k].0
  }

  ghost predicate AllWords(t: seq<char>, ws: seq<seq<char>>, spans: seq<(nat, nat)>) {
    |spans| == |ws| && forall k :: 0 <= k < |spans| ==> WordOf(t, ws[k], spans[k])
  }

  /** The spans lie from i on, in order, at these words, and leave out no position that is not blank. */
  ghost predicate WordSpans(t: seq<char>, i: nat, ws: seq<seq<char>>, spans: seq<(nat, nat)>) {
    AllWords(t, ws, spans) && From(spans, i) && InOrder(spans) && AllSpanned(t, i, spans)
  }

  lemma FirstInOrder(i: nat, a: nat, b: nat, rest: seq<(nat, nat)>)
    requires i <= a <= b && From(rest, b) && InOrder(rest)
    ensures From([(a, b)] + rest, i) && InOrder([(a, b)] + rest)
  {
  }

  lemma FirstSpans(t: seq<char>, i: nat, a: nat, b: nat, rest: seq<(nat, nat)>)
    requires (forall k :: i <= k < a && k < |t| ==> Blank(t[k])) && AllSpanned(t, b, rest)
    ensures AllSpanned(t, i, [(a, b)] + rest)
  {
    var spans := [(a, b)] + rest;
    assert spans[0] == (a, b);
    forall p | i <= p < |t| && !Blank(t[p]) ensures Spanned(spans, p) {
      if p >= b {
        assert Spanned(rest, p);
        var k :| 0 <= k < |rest| && rest[k].0 <= p < rest[k].1;
        assert spans[k+1] == rest[k];
      }
    }
  }

  lemma FirstSpan(t: seq<char>, i: nat, a: nat, b: nat, ws: seq<seq<char>>, rest: seq<(nat, nat)>)
    requires i <= a && IsRun(t, a, b) && (forall k :: i <= k < a ==> Blank(t[k])) && WordSpans(t, b, ws, rest)
    ensures WordSpans(t, i, [t[a..b]] + ws, [(a, b)] + rest)
  {
    FirstInOrder(i, a, b, rest);
    FirstSpans(t, i, a, b, rest);
    assert WordOf(t, t[a..b], (a, b));
  }

  /** The words are the longest stretches without blanks, from left to right, and none is left out. */
  lemma {:induction false} WordsAreRuns(t: seq<char>, i: nat) returns (spans: seq<(nat, nat)>)
    requires i <= |t| && (i == 0 || i == |t| || Blank(t[i]))
    ensures WordSpans(t, i, Words(t, i), spans)
    decreases |t| - i
  {
    var a := Skip(t, i);
    spans := [];
    if a < |t| {
      var b := End(t, a);
      var rest := WordsAreRuns(t, b);
      FirstSpan(t, i, a, b, Words(t, b), rest);
      spans := [(a, b)] + rest;
    }
  }

  // --------------------------------------------------------------- tokenizer

  /** A NUL-terminated copy of w at position p. */
  ghost predicate PointsTo(line: seq<char>, p: nat, w: seq<char>) {
    p + |w| < |line| && line[p..p+|w|] == w && line[p+|w|] == NUL && NUL !in w
  }

  ghost predicate AllPointTo(line: seq<char>, starts: seq<nat>, ws: seq<seq<char>>, bound: nat) {
    && |starts| == |ws|
    && forall k :: 0 <= k < |ws| ==> PointsTo(line, starts[k], ws[k]) && starts[k] + |ws[k]| < bound
  }

  function Take(s: seq<nat>): seq<nat> {
    if |s| <= MAX_ARGS then s else s[..MAX_ARGS]
  }

  /** Copies that end before bound do not notice a store from there on. */
  lemma StoreAfter(line: seq<char>, p: nat, starts: seq<nat>, ws: seq<seq<char>>, bound: nat)
    requires AllPointTo(line, starts, ws, bound) && bound <= p < |line|
    ensures AllPointTo(line[p := NUL], starts, ws, bound)
  {
    forall k | 0 <= k < |ws| ensures PointsTo(line[p := NUL], starts[k], ws[k]) && starts[k] + |ws[k]| < bound {
      assert PointsTo(line, starts[k], ws[k]);
      assert line[p := NUL][starts[k]..starts[k]+|ws[k]|] == line[starts[k]..starts[k]+|ws[k]|];
    }
  }

  lemma OneMore(line: seq<char>, starts: seq<nat>, ws: seq<seq<char>>, bound: nat, a: nat, w: seq<char>)
    requires AllPointTo(line, starts, ws, bound) && PointsTo(line, a, w) && bound <= a
    ensures AllPointTo(line, starts + [a], ws + [w], a + |w| + 1)
  {
  }

  /** line holds the text t followed by a NUL. */
  ghost predicate IsLine(line: seq<char>, t: seq<char>) {
    |t| < |line| && line[..|t|] == t && line[|t|] == NUL && NUL !in t
  }

  /** The state of the loop: the words in `done` are cut off, the current one began at a, and from there
      on the line is as it was. */
  ghost predicate Parsing(line: seq<char>, t: seq<char>, starts: seq<nat>, done: seq<seq<char>>, a: nat, p: nat) {
    && a <= p <= |t| < |line| && a < |t| && NUL !in t
    && (forall k :: a <= k < p ==> !Blank(t[k])) && !Blank(t[a])
    && (forall k :: a <= k < |t| ==> line[k] == t[k]) && line[|t|] == NUL
    && AllPointTo(line, starts, done, a)
  }

  /** The words of t are those in done and those from position i on. */
  ghost predicate Left(t: seq<char>, done: seq<seq<char>>, i: nat) {
    i <= |t| && Words(t, 0) == done + Words(t, i)
  }

  lemma EndAt(t: seq<char>, a: nat, p: nat)
    requires a <= p <= |t| && (forall k :: a <= k < p ==> !Blank(t[k])) && (p == |t| || Blank(t[p]))
    ensures End(t, a) == p
  {
  }

  lemma SkipSame(t: seq<char>, i: nat)
    requires i < |t| && Blank(t[i])
    ensures Words(t, i) == Words(t, Skip(t, i + 1)) && Skip(t, i) == Skip(t, i + 1)
  {
    var q := Skip(t, i + 1);
    assert Skip(t, q) == q;
  }

  lemma WordAt(t: seq<char>, a: nat, p: nat)
    requires a < p < |t| && (forall k :: a <= k < p ==> !Blank(t[k])) && Blank(t[p])
    ensures Words(t, a) == [t[a..p]] + Words(t, Skip(t, p + 1))
  {
    EndAt(t, a, p);
    SkipSame(t, p);
  }

  lemma LastWord(t: seq<char>, a: nat)
    requires a < |t| && (forall k :: a <= k < |t| ==> !Blank(t[k]))
    ensures Words(t, a) == [t[a..]]
  {
    EndAt(t, a, |t|);
    assert t[a..|t|] == t[a..];
  }

  lemma CutCopy(line: seq<char>, t: seq<char>, starts: seq<nat>, done: seq<seq<char>>, a: nat, p: nat)
    requires a <= p < |line| && p <= |t| && NUL !in t && AllPointTo(line, starts, done, a)
    requires forall k :: a <= k < p ==> line[k] == t[k]
    ensures AllPointTo(line[p := NUL], starts + [a], done + [t[a..p]], p + 1)
  {
    StoreAfter(line, p, starts, done, a);
    assert line[p := NUL][a..p] == t[a..p];
    OneMore(line[p := NUL], starts, done, a, a, t[a..p]);
  }

  lemma Regroup(ws: seq<seq<char>>, done: seq<seq<char>>, w: seq<char>, rest: seq<seq<char>>)
    requires ws == done + ([w] + rest)
    ensures ws == done + [w] + rest
  {
  }

  lemma WordDone(t: seq<char>, done: seq<seq<char>>, a: nat, p: nat)
    requires Left(t, done, a) && a < p < |t| && (forall k :: a <= k < p ==> !Blank(t[k])) && Blank(t[p])
    ensures Left(t, done + [t[a..p]], Skip(t, p + 1))
  {
    WordAt(t, a, p);
    Regroup(Words(t, 0), done, t[a..p], Words(t, Skip(t, p + 1)));
  }

  /** A blank ends the current word. */
  lemma EndsWord(line: seq<char>, t: seq<char>, starts: seq<nat>, done: seq<seq<char>>, a: nat, p: nat)
    requires Parsing(line, t, starts, done, a, p) && p < |t| && Blank(t[p]) && Left(t, done, a)
    ensures AllPointTo(line[p := NUL], starts + [a], done + [t[a..p]], p + 1)
    ensures Left(t, done + [t[a..p]], Skip(t, p + 1))
  {
    CutCopy(line, t, starts, done, a, p);
    WordDone(t, done, a, p);
  }

  /** The word after it becomes the current one. */
  lemma NextWord(line: seq<char>, t: seq<char>, starts: seq<nat>, done: seq<seq<char>>, p: nat, q: nat)
    requires p <= |t| < |line| && NUL !in t && line[|t|] == NUL && (forall k :: p <= k < |t| ==> line[k] == t[k])
    requires AllPointTo(line, starts, done, p) && q == Skip(t, p) && q < |t|
    ensures Parsing(line, t, starts, done, q, q)
  {
  }

  /** The end of the line ends the last word. */
  lemma EndsLine(line: seq<char>, t: seq<char>, starts: seq<nat>, done: seq<seq<char>>, a: nat)
    requires Parsing(line, t, starts, done, a, |t|) && Left(t, done, a)
    ensures AllPointTo(line, starts + [a], Words(t, 0), |t| + 1)
  {
    LastWord(t, a);
    CutCopy(line, t, starts, done, a, |t|);
    assert line[|t| := NUL] == line && t[a..|t|] == t[a..];
  }

  lemma NoMoreWords(t: seq<char>, done: seq<seq<char>>)
    requires Left(t, done, |t|)
    ensures Words(t, 0) == done
  {
  }

  lemma FirstWord(t: seq<char>)
    ensures Left(t, [], Skip(t, 0))
    ensures Skip(t, 0) == |t| ==> Words(t, 0) == []
  {
    assert Skip(t, Skip(t, 0)) == Skip(t, 0);
  }

  lemma TakeMore(s: seq<nat>, p: nat)
    ensures Take(s + [p]) == if |Take(s)| < MAX_ARGS then Take(s) + [p] else Take(s)
  {
  }

  /** argv points at NUL-terminated copies of the first 16 words. */
  ghost predicate Tokenized(line: seq<char>, argv: seq<nat>, ws: seq<seq<char>>) {
    && |argv| == (if |ws| <= MAX_ARGS then |ws| else MAX_ARGS)
    && forall k :: 0 <= k < |argv| ==> PointsTo(line, argv[k], ws[k])
  }

  lemma Promised(line: seq<char>, starts: seq<nat>, ws: seq<seq<char>>, bound: nat)
    requires AllPointTo(line, starts, ws, bound)
    ensures Tokenized(line, Take(starts), ws)
  {
  }

  method SkipBlanks(line: array<char>, from: nat, ghost t: seq<char>) returns (p: nat)
    requires from <= |t| < line.Length && line[|t|] == NUL
    requires forall i :: from <= i < |t| ==> line[i] == t[i]
    ensures p == Skip(t, from)
  {
    p := from;
    while Blank(line[p])
      invariant from <= p <= |t| && Skip(t, from) == Skip(t, p)
      decreases |t| - p
    {
      p := p + 1;
    }
  }

  /** End the current word at the blank p and go on to the next. */
  method CutWord(line: array<char>, p: nat, ghost t: seq<char>, ghost starts: seq<nat>, ghost done: seq<seq<char>>,
                 ghost a: nat)
    returns (q: nat)
    requires Parsing(line[..], t, starts, done, a, p) && Left(t, done, a) && p < |t| && Blank(t[p])
    modifies line
    ensures p < q <= |t| && Left(t, done + [t[a..p]], q) && line[|t|] == NUL && (q < |t| ==> line[q] == t[q])
    ensures q == |t| ==> AllPointTo(line[..], starts + [a], Words(t, 0), p + 1)
    ensures q < |t| ==> Parsing(line[..], t, starts + [a], done + [t[a..p]], q, q)
  {
    ghost var before := line[..];
    EndsWord(before, t, starts, done, a, p);
    line[p] := NUL;
    assert line[..] == before[p := NUL];
    q := SkipBlanks(line, p + 1, t);
    if q < |t| {
      NextWord(line[..], t, starts + [a], done + [t[a..p]], p + 1, q);
    } else {
      NoMoreWords(t, done + [t[a..p]]);
    }
  }

  /** The argument loop of shell_parse on a line with text t.  Each entry of argv points at a
      NUL-terminated copy of the word of that number, and there are as many as words, up to 16. */
  method Parse(line: array<char>, ghost t: seq<char>) returns (argv: seq<nat>)
    requires IsLine(line[..], t)
    modifies line
    ensures Tokenized(line[..], argv, Words(t, 0))
  {
    assert forall i :: 0 <= i < |t| ==> line[i] == line[..][..|t|][i];
    var p := SkipBlanks(line, 0, t);
    FirstWord(t);
    if line[p] == NUL {
      return [];
    }
    NextWord(line[..], t, [], [], 0, p);
    argv := ParseWords(line, p, t);
  }

  method ParseWords(line: array<char>, first: nat, ghost t: seq<char>) returns (argv: seq<nat>)
    requires Parsing(line[..], t, [], [], first, first) && Left(t, [], first)
    modifies line
    ensures Tokenized(line[..], argv, Words(t, 0))
  {
    var p: nat := first;
    ghost var a: nat, starts: seq<nat>, done: seq<seq<char>> := p, [], [];
    argv := [p];
    while line[p] != NUL
      invariant Parsing(line[..], t, starts, done, a, p) && Left(t, done, a) && argv == Take(starts + [a])
      decreases |t| - p
    {
      if Blank(line[p]) {
        ghost var w, end := t[a..p], p + 1;
        p := CutWord(line, p, t, starts, done, a);
        starts, done := starts + [a], done + [w];
        if line[p] == NUL {
          Promised(line[..], starts, Words(t, 0), end);
          return;
        }
        TakeMore(starts, p);
        if |argv| < MAX_ARGS {
          argv := argv + [p];
        }
        a := p;
      } else {
        p := p + 1;
      }
    }
    EndsLine(line[..], t, starts, done, a);
    Promised(line[..], starts + [a], Words(t, 0), |t| + 1);
  }

  // ------------------------------------------------------------- line buffer

  predicate Printable(c: char) {
    ' ' <= c <= '~'
  }

  /** The line as the user sees it after typing c: one character is kept free for the NUL. */
  function Edit(text: seq<char>, c: char): seq<char> {
    if c == '\n' then []
    else if c == BACKSPACE then (if text == [] then [] else text[..|text|-1])
    else if Printable(c) && |text| < BUFFER_SIZE - 1 then text + [c]
    else text
  }

  /** The line after typing cs. */
  function EditAll(text: seq<char>, cs: seq<char>): seq<char>
    decreases |cs|
  {
    if cs == [] then text else EditAll(Edit(text, cs[0]), cs[1..])
  }

  /** Printable characters are appended to the line, up to its 255th. */
  lemma {:induction false} TypedIsLine(text: seq<char>, cs: seq<char>)
    requires |text| <= BUFFER_SIZE - 1 && forall i :: 0 <= i < |cs| ==> Printable(cs[i])
    ensures var all := text + cs;
            EditAll(text, cs) == if |all| <= BUFFER_SIZE - 1 then all else all[..BUFFER_SIZE-1]
    decreases |cs|
  {
    if cs == [] {
      assert text + cs == text;
    } else {
      TypedIsLine(Edit(text, cs[0]), cs[1..]);
      if |text| < BUFFER_SIZE - 1 {
        assert text + cs == text + [cs[0]] + cs[1..];
      } else {
        assert (text + cs[1..])[..BUFFER_SIZE-1] == text == (text + cs)[..BUFFER_SIZE-1];
      }
    }
  }

  /** A backspace takes back the character typed before it if and only if the line had room for that. */
  lemma BackspaceUndoesIffRoom(text: seq<char>, c: char)
    requires |text| <= BUFFER_SIZE - 1 && Printable(c)
    ensures Edit(Edit(text, c), BACKSPACE) == text <==> |text| < BUFFER_SIZE - 1
  {
    if |text| < BUFFER_SIZE - 1 {
      assert (text + [c])[..|text|] == text;
    }
  }

  class LineBuffer {
    const buffer: array<char>
    var pos: nat

    ghost predicate Valid()
      reads this, buffer
    {
      buffer.Length == BUFFER_SIZE && pos < BUFFER_SIZE && forall i :: 0 <= i < pos ==> Printable(buffer[i])
    }

    ghost function Typed(): seq<char>
      requires Valid()
      reads this, buffer
    {
      buffer[..pos]
    }

    constructor ()
      ensures Valid() && fresh(buffer) && Typed() == []
    {
      buffer := new char[BUFFER_SIZE](_ => NUL);
      pos := 0;
    }

    /** shell_process_char: the buffer holds the edited line, and a newline hands exactly the words of
        the line typed so far to the command. */
    method ProcessChar(c: char) returns (argv: Option<seq<nat>>)
      requires Valid()
      modifies this, buffer
      ensures Valid() && Typed() == Edit(old(Typed()), c)
      ensures argv.Some? <==> c == '\n'
      ensures argv.Some? ==> Tokenized(buffer[..], argv.value, Words(old(Typed()), 0))
    {
      argv := None;
      if c == '\n' {
        ghost var text := Typed();
        buffer[pos] := NUL;
        assert buffer[..pos] == text;
        var words := Parse(buffer, text);
        argv := Some(words);
        pos := 0;
      } else if c == BACKSPACE {
        if pos > 0 {
          pos := pos - 1;
        }
      } else if Printable(c) {
        if pos < BUFFER_SIZE - 1 {
          buffer[pos] := c;
          pos := pos + 1;
        }
      }
    }
  }
}
