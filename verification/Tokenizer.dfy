/** Splitting a command line into tokens: what `tokenize_line` returns for every line, and when that is
    all of the line's words. */
module Tokenizer {
  import opened StringArrayClass

  const INITIAL_TOKENS_CAPACITY: nat := 8

  /** `isspace` in the C locale. */
  predicate IsSpace(c: char) {
    c == ' ' || 9 <= c as int <= 13
  }

  predicate Blank(s: string) {
    forall i :: 0 <= i < |s| ==> IsSpace(s[i])
  }

  predicate Solid(s: string) {
    forall i :: 0 <= i < |s| ==> !IsSpace(s[i])
  }

  /** The tokens completed so far and the run of characters that is still open. */
  datatype Scan = Scan(tokens: seq<string>, open: string)

  function Next(s: Scan, c: char): Scan {
    if !IsSpace(c) then Scan(s.tokens, s.open + [c])
    else if s.open != [] then Scan(s.tokens + [s.open], [])
    else s
  }

  function ScanFrom(s: Scan, text: string): Scan
    decreases text
  {
    if text == [] then s else ScanFrom(Next(s, text[0]), text[1..])
  }

  const START := Scan([], [])

  function Tokens(text: string): seq<string> {
    ScanFrom(START, text).tokens
  }

  lemma {:induction false} ScanConcat(s: Scan, a: string, b: string)
    ensures ScanFrom(s, a + b) == ScanFrom(ScanFrom(s, a), b)
    decreases a
  {
    if a == [] {
      assert a + b == b;
    } else {
      ScanConcat(Next(s, a[0]), a[1..], b);
      assert (a + b)[1..] == a[1..] + b;
    }
  }

  lemma ScanSnoc(s: Scan, text: string, c: char)
    ensures ScanFrom(s, text + [c]) == Next(ScanFrom(s, text), c)
  {
    ScanConcat(s, text, [c]);
    assert [c][1..] == [];
  }

  // ----- tokens are the terminated maximal runs -----

  /** A maximal run of non-whitespace that a whitespace character follows. */
  predicate IsTerminatedRun(text: string, i: nat, j: nat) {
    && i < j < |text|
    && Solid(text[i..j])
    && IsSpace(text[j])
    && (i == 0 || IsSpace(text[i - 1]))
  }

  /** The spans list, from left to right, exactly the terminated runs of the text. */
  ghost predicate ListsRuns(text: string, spans: seq<(nat, nat)>) {
    && (forall k :: 0 <= k < |spans| ==> IsTerminatedRun(text, spans[k].0, spans[k].1))
    && (forall k, l :: 0 <= k < l < |spans| ==> spans[k].1 < spans[l].0)
    && (forall i: nat, j: nat :: IsTerminatedRun(text, i, j) ==> (i, j) in spans)
  }

  /** The open run is the maximal unterminated one at the end of the text. */
  predicate IsOpenRun(text: string, open: string) {
    && |open| <= |text|
    && open == text[|text| - |open|..]
    && Solid(open)
    && (|open| == |text| || IsSpace(text[|text| - |open| - 1]))
  }

  /** The scan has found exactly the terminated runs, in order, and holds the unterminated one open. */
  ghost predicate ScanFinds(text: string, s: Scan, spans: seq<(nat, nat)>) {
    && ListsRuns(text, spans)
    && |spans| == |s.tokens|
    && (forall k :: 0 <= k < |spans| ==> s.tokens[k] == text[spans[k].0..spans[k].1])
    && IsOpenRun(text, s.open)
  }

  /** The tokens are exactly the terminated runs, in order; an unterminated run at the end stays open. */
  lemma {:induction false} TokensAreTerminatedRuns(text: string) returns (spans: seq<(nat, nat)>)
    ensures ScanFinds(text, ScanFrom(START, text), spans)
  {
    if text == [] {
      spans := [];
      NothingToFind(text);
    } else {
      var before := TokensAreTerminatedRuns(text[..|text| - 1]);
      spans := ScanFindsLast(text, before);
    }
  }

  lemma NothingToFind(text: string)
    requires |text| == 0
    ensures ScanFinds(text, ScanFrom(START, text), [])
  {
    assert ScanFrom(START, text) == START;
    assert forall i: nat, j: nat :: !IsTerminatedRun(text, i, j);
  }

  lemma ScanFindsLast(text: string, before: seq<(nat, nat)>) returns (spans: seq<(nat, nat)>)
    requires text != [] && ScanFinds(text[..|text| - 1], ScanFrom(START, text[..|text| - 1]), before)
    ensures ScanFinds(text, ScanFrom(START, text), spans)
  {
    var front, c := text[..|text| - 1], text[|text| - 1];
    var s := ScanFrom(START, front);
    spans := ScanFindsNext(front, c, s, before);
    assert text == front + [c];
    ScanSnoc(START, front, c);
  }

  lemma ScanFindsNext(front: string, c: char, s: Scan, before: seq<(nat, nat)>) returns (spans: seq<(nat, nat)>)
    requires ScanFinds(front, s, before)
    ensures ScanFinds(front + [c], Next(s, c), spans)
  {
    spans := RunsAfter(front, c, s.open, before);
    OpenRunAfter(front, c, s);
    TokensAfter(front, c, s, before, spans);
  }

  lemma TokensAfter(front: string, c: char, s: Scan, before: seq<(nat, nat)>, spans: seq<(nat, nat)>)
    requires ScanFinds(front, s, before)
    requires spans == if IsSpace(c) && s.open != [] then before + [(|front| - |s.open|, |front|)] else before
    ensures |spans| == |Next(s, c).tokens|
    ensures forall k :: 0 <= k < |spans| ==>
              && spans[k].0 <= spans[k].1 <= |front|
              && Next(s, c).tokens[k] == (front + [c])[spans[k].0..spans[k].1]
  {
    TokensStay(front, c, s, before);
    ClosedToken(front, c, s.open);
  }

  lemma ClosedToken(front: string, c: char, open: string)
    requires IsOpenRun(front, open)
    ensures (front + [c])[|front| - |open|..|front|] == open
  {
  }

  lemma TokensStay(front: string, c: char, s: Scan, before: seq<(nat, nat)>)
    requires ScanFinds(front, s, before)
    ensures forall k :: 0 <= k < |before| ==>
              && before[k].0 <= before[k].1 <= |front|
              && (front + [c])[before[k].0..before[k].1] == s.tokens[k]
  {
    forall k | 0 <= k < |before|
      ensures before[k].0 <= before[k].1 <= |front| && (front + [c])[before[k].0..before[k].1] == s.tokens[k]
    {
      assert IsTerminatedRun(front, before[k].0, before[k].1);
    }
  }

  lemma OpenRunAfter(front: string, c: char, s: Scan)
    requires IsOpenRun(front, s.open)
    ensures IsOpenRun(front + [c], Next(s, c).open)
  {
  }

  lemma RunsAfter(front: string, c: char, open: string, before: seq<(nat, nat)>) returns (spans: seq<(nat, nat)>)
    requires IsOpenRun(front, open) && ListsRuns(front, before)
    ensures ListsRuns(front + [c], spans)
    ensures spans == if IsSpace(c) && open != [] then before + [(|front| - |open|, |front|)] else before
  {
    RunsOfExtension(front, c);
    if IsSpace(c) && open != [] {
      spans := before + [(|front| - |open|, |front|)];
      NewRun(front, c, open);
      forall k | 0 <= k < |before| ensures before[k].1 < |front| - |open| {
        RunBeforeOpen(front, open, before[k].0, before[k].1);
      }
    } else {
      spans := before;
      NoNewRun(front, c, open);
    }
  }

  lemma RunBeforeOpen(front: string, open: string, i: nat, j: nat)
    requires IsOpenRun(front, open) && IsTerminatedRun(front, i, j)
    ensures j < |front| - |open|
  {
    var s := |front| - |open|;
    assert forall k :: s <= k < |front| ==> front[k] == open[k - s];
  }

  /** Appending a character keeps the runs that ended before it. */
  lemma RunsOfExtension(front: string, c: char)
    ensures forall i: nat, j: nat :: j < |front| ==>
              (IsTerminatedRun(front + [c], i, j) <==> IsTerminatedRun(front, i, j))
    ensures forall i: nat, j: nat :: IsTerminatedRun(front + [c], i, j) ==> j <= |front|
  {
    var text := front + [c];
    forall i: nat, j: nat | j < |front|
      ensures IsTerminatedRun(text, i, j) <==> IsTerminatedRun(front, i, j)
    {
      if i < j {
        assert text[i..j] == front[i..j];
      }
    }
  }

  lemma NewRun(front: string, c: char, open: string)
    requires IsOpenRun(front, open) && open != [] && IsSpace(c)
    ensures IsTerminatedRun(front + [c], |front| - |open|, |front|)
    ensures forall i: nat :: IsTerminatedRun(front + [c], i, |front|) ==> i == |front| - |open|
  {
    var text, n := front + [c], |front|;
    var s := n - |open|;
    assert text[s..n] == open;
    assert s > 0 ==> IsSpace(text[s - 1]);
    assert forall k :: s <= k < n ==> text[k] == open[k - s];
    forall i: nat | IsTerminatedRun(text, i, n) ensures i == s {
      assert forall k :: i <= k < n ==> text[k] == text[i..n][k - i];
    }
  }

  lemma NoNewRun(front: string, c: char, open: string)
    requires IsOpenRun(front, open) && (open == [] || !IsSpace(c))
    ensures forall i: nat :: !IsTerminatedRun(front + [c], i, |front|)
  {
    var text, n := front + [c], |front|;
    forall i: nat ensures !IsTerminatedRun(text, i, n) {
      if open == [] && i < n {
        assert text[i..n][n - 1 - i] == text[n - 1];
      }
    }
  }

  // ----- round trip -----

  /** A token and the whitespace after it. */
  datatype Piece = Piece(token: string, gap: string) {
    predicate Ok() {
      token != [] && Solid(token) && gap != [] && Blank(gap)
    }
  }

  function Joined(pieces: seq<Piece>): string {
    if pieces == [] then [] else pieces[0].token + pieces[0].gap + Joined(pieces[1..])
  }

  function TokensOf(pieces: seq<Piece>): (ts: seq<string>)
    ensures |ts| == |pieces| && forall i :: 0 <= i < |ts| ==> ts[i] == pieces[i].token
  {
    seq(|pieces|, i requires 0 <= i < |pieces| => pieces[i].token)
  }

  lemma {:induction false} ScanSolid(s: Scan, t: string)
    requires Solid(t)
    ensures ScanFrom(s, t) == Scan(s.tokens, s.open + t)
    decreases t
  {
    if t != [] {
      ScanSolid(Next(s, t[0]), t[1..]);
      assert s.open + t == (s.open + [t[0]]) + t[1..];
    }
  }

  lemma {:induction false} ScanBlank(tokens: seq<string>, g: string)
    requires Blank(g)
    ensures ScanFrom(Scan(tokens, []), g) == Scan(tokens, [])
  {
    if g != [] {
      ScanBlank(tokens, g[1..]);
    }
  }

  lemma {:induction false} ScanPieces(tokens: seq<string>, pieces: seq<Piece>)
    requires forall i :: 0 <= i < |pieces| ==> pieces[i].Ok()
    ensures ScanFrom(Scan(tokens, []), Joined(pieces)) == Scan(tokens + TokensOf(pieces), [])
    decreases pieces
  {
    if pieces == [] {
      assert tokens + TokensOf(pieces) == tokens;
    } else {
      var p, rest := pieces[0], pieces[1..];
      ScanPiece(tokens, p, Joined(rest));
      ScanPieces(tokens + [p.token], rest);
      assert TokensOf(pieces) == [p.token] + TokensOf(rest);
      assert (tokens + [p.token]) + TokensOf(rest) == tokens + ([p.token] + TokensOf(rest));
    }
  }

  lemma ScanPiece(tokens: seq<string>, p: Piece, later: string)
    requires p.Ok()
    ensures ScanFrom(Scan(tokens, []), p.token + p.gap + later) == ScanFrom(Scan(tokens + [p.token], []), later)
  {
    var s := Scan(tokens, []);
    ScanConcat(s, p.token + p.gap, later);
    ScanConcat(s, p.token, p.gap);
    ScanSolid(s, p.token);
    assert [] + p.token == p.token;
    ScanBlank(tokens + [p.token], p.gap[1..]);
  }

  /** Tokens joined with whitespace, in a line ending in whitespace, come back from tokenizing; an
      unterminated run after them is dropped. */
  lemma RoundTrip(lead: string, pieces: seq<Piece>, tail: string)
    requires Blank(lead) && Solid(tail)
    requires forall i :: 0 <= i < |pieces| ==> pieces[i].Ok()
    ensures Tokens(lead + Joined(pieces) + tail) == TokensOf(pieces)
  {
    ScanConcat(START, lead + Joined(pieces), tail);
    ScanConcat(START, lead, Joined(pieces));
    ScanBlank([], lead);
    ScanPieces([], pieces);
    assert [] + TokensOf(pieces) == TokensOf(pieces);
    ScanSolid(Scan(TokensOf(pieces), []), tail);
  }

  // ----- which characters separate -----

  /** Space, tab, line feed, vertical tab, form feed and carriage return. */
  const SEPARATORS: set<char> := {' ', '\t', '\n', 11 as char, 12 as char, '\r'}

  /** At least one character, and none of the six separators. */
  predicate IsWord(s: string) {
    s != [] && forall i :: 0 <= i < |s| ==>
      s[i] != ' ' && s[i] != '\t' && s[i] != '\n' && s[i] as int != 11 && s[i] as int != 12 && s[i] != '\r'
  }

  lemma SixSeparators(c: char)
    ensures IsSpace(c) <==> c in SEPARATORS
  {
  }

  /** Between two words exactly the six separators separate; any other character joins them. */
  lemma WordsSeparated(a: string, c: char, b: string)
    requires IsWord(a) && IsWord(b)
    ensures Tokens(a + [c] + b + ['\n'])
            == if c == ' ' || c == '\t' || c == '\n' || c as int == 11 || c as int == 12 || c == '\r' then [a, b]
               else [a + [c] + b]
    ensures Tokens(a + [c] + b + ['\n']) == [a, b] <==> c in SEPARATORS
  {
    SixSeparators(c);
    if IsSpace(c) {
      var pieces := [Piece(a, [c]), Piece(b, ['\n'])];
      JoinedTwo(Piece(a, [c]), Piece(b, ['\n']));
      assert [] + Joined(pieces) + [] == a + [c] + b + ['\n'];
      RoundTrip([], pieces, []);
      assert TokensOf(pieces) == [a, b];
    } else {
      var pieces := [Piece(a + [c] + b, ['\n'])];
      assert pieces[1..] == [];
      assert [] + Joined(pieces) + [] == a + [c] + b + ['\n'];
      RoundTrip([], pieces, []);
      assert TokensOf(pieces) == [a + [c] + b];
    }
  }

  lemma JoinedTwo(p: Piece, q: Piece)
    ensures Joined([p, q]) == p.token + p.gap + (q.token + q.gap)
  {
    assert [p, q][1..] == [q] && [q][1..] == [];
    assert q.token + q.gap + Joined([]) == q.token + q.gap;
  }

  // ----- splitting by whitespace -----

  /** The first run of non-whitespace of a text that begins with one. */
  function FirstWord(text: string): (w: string)
    ensures |w| <= |text| && w == text[..|w|] && Solid(w)
    ensures |w| < |text| ==> IsSpace(text[|w|])
    ensures text != [] && !IsSpace(text[0]) ==> w != []
  {
    if text == [] || IsSpace(text[0]) then [] else [text[0]] + FirstWord(text[1..])
  }

  /** The text split by whitespace, as the header promises: all its words. */
  function Words(text: string): seq<string>
    decreases |text|
  {
    if text == [] then []
    else if IsSpace(text[0]) then Words(text[1..])
    else [FirstWord(text)] + Words(text[|FirstWord(text)|..])
  }

  lemma {:induction false} WordsOfScan(tokens: seq<string>, text: string)
    ensures var s := ScanFrom(Scan(tokens, []), text);
            s.tokens + (if s.open == [] then [] else [s.open]) == tokens + Words(text)
    decreases |text|
  {
    if text == [] {
      assert tokens + [] == tokens;
    } else if IsSpace(text[0]) {
      WordsOfScan(tokens, text[1..]);
    } else {
      var w := FirstWord(text);
      var rest := text[|w|..];
      assert text == w + rest;
      var s := Scan(tokens, []);
      ScanConcat(s, w, rest);
      ScanSolid(s, w);
      assert [] + w == w;
      if rest != [] {
        WordsOfScan(tokens + [w], rest[1..]);
        assert Words(rest) == Words(rest[1..]);
        assert tokens + [w] + Words(rest) == tokens + ([w] + Words(rest));
      }
    }
  }

  /** `tokenize_line` returns all the words of a line exactly when the line is empty or ends in
      whitespace; otherwise it loses the last one. */
  lemma AllWordsIffTerminated(text: string)
    ensures Tokens(text) == Words(text) <==> text == [] || IsSpace(text[|text| - 1])
    ensures Tokens(text) != Words(text) ==> Words(text) != [] && Tokens(text) == Words(text)[..|Words(text)| - 1]
  {
    var s := ScanFrom(START, text);
    WordsOfScan([], text);
    assert [] + Words(text) == Words(text);
    var spans := TokensAreTerminatedRuns(text);
    if s.open == [] {
      assert s.tokens + [] == s.tokens;
    } else {
      assert Words(text) == s.tokens + [s.open];
      assert text[|text| - 1] == s.open[|s.open| - 1];
    }
  }

  /** The shortest line that loses its word. */
  lemma UnterminatedWordIsLost()
    ensures Tokens("ls") == [] && Words("ls") == ["ls"]
  {
    AllWordsIffTerminated("ls");
    assert "ls"[1..] == "s" && "s"[1..] == [];
    assert FirstWord("s") == "s";
    assert FirstWord("ls") == "ls";
    assert Words("ls"[2..]) == [];
  }

  // ----- the loop -----

  /** Where the loop stands at position pos of the text. */
  ghost predicate ScannedTo(text: string, pos: nat, start: nat, size: nat, tokens: seq<string>) {
    && pos <= |text|
    && var s := ScanFrom(START, text[..pos]);
       && tokens == s.tokens
       && size == |s.open| <= pos
       && (size > 0 ==> start == pos - size && s.open == text[start..pos])
  }

  lemma ScanStep(text: string, pos: nat, start: nat, size: nat, tokens: seq<string>)
    requires ScannedTo(text, pos, start, size, tokens) && pos < |text|
    ensures var c := text[pos];
            if !IsSpace(c) then ScannedTo(text, pos + 1, if size == 0 then pos else start, size + 1, tokens)
            else if size > 0 then ScannedTo(text, pos + 1, start, 0, tokens + [text[start..start + size]])
            else ScannedTo(text, pos + 1, start, 0, tokens)
  {
    assert text[..pos + 1] == text[..pos] + [text[pos]];
    ScanSnoc(START, text[..pos], text[pos]);
  }

  /** The cost of adding that many tokens, one by one, to a new array. */
  ghost predicate WithinCost(g: Growth) {
    g == AddMany(INITIAL_TOKENS_CAPACITY, g.size)
  }

  method AddToken(tokens: StringArray, line: seq<char>, start: nat, size: nat)
    requires tokens.Valid() && WithinCost(tokens.Cost()) && start + size <= |TextOf(line)|
    modifies tokens, tokens.strings
    ensures tokens.Valid() && (tokens.strings == old(tokens.strings) || fresh(tokens.strings))
    ensures tokens.contents == old(tokens.contents) + [TextOf(line)[start..start + size]]
    ensures WithinCost(tokens.Cost())
  {
    CopiedToken(line, start, size);
    tokens.AddString(line[start..], size);
  }

  /** The body of the loop: one character. */
  method Advance(tokens: StringArray, line: seq<char>, pos: nat, start: nat, size: nat)
    returns (tokenStart: nat, tokenSize: nat)
    requires tokens.Valid() && WithinCost(tokens.Cost()) && pos < |TextOf(line)|
    requires ScannedTo(TextOf(line), pos, start, size, tokens.contents)
    modifies tokens, tokens.strings
    ensures tokens.Valid() && (tokens.strings == old(tokens.strings) || fresh(tokens.strings))
    ensures WithinCost(tokens.Cost())
    ensures ScannedTo(TextOf(line), pos + 1, tokenStart, tokenSize, tokens.contents)
  {
    ScanStep(TextOf(line), pos, start, size, tokens.contents);
    tokenStart, tokenSize := start, size;
    if IsSpace(line[pos]) {
      if tokenSize > 0 {
        AddToken(tokens, line, tokenStart, tokenSize);
        tokenSize := 0;
      }
    } else {
      if tokenSize == 0 {
        tokenStart := pos;
      }
      tokenSize := tokenSize + 1;
    }
  }

  /** Walks the line up to its null character, adding each run when the whitespace after it is met. */
  method TokenizeLine(line: seq<char>) returns (tokens: StringArray)
    requires NUL in line
    ensures fresh(tokens) && tokens.Valid()
    ensures tokens.contents == Tokens(TextOf(line))
    ensures forall a: string, c: char, b: string {:trigger a + [c] + b + ['\n']} ::
              IsWord(a) && IsWord(b) && TextOf(line) == a + [c] + b + ['\n'] ==>
                (tokens.contents == [a, b] <==> c in SEPARATORS)
    ensures WithinCost(tokens.Cost())
  {
    tokens := new StringArray(INITIAL_TOKENS_CAPACITY);
    ghost var text := TextOf(line);
    var tokenStart, tokenSize, pos := 0, 0, 0;
    while line[pos] != NUL
      invariant 0 <= pos <= |text| < |line|
      invariant fresh(tokens) && fresh(tokens.strings) && tokens.Valid()
      invariant ScannedTo(text, pos, tokenStart, tokenSize, tokens.contents)
      invariant WithinCost(tokens.Cost())
      decreases |line| - pos
    {
      tokenStart, tokenSize := Advance(tokens, line, pos, tokenStart, tokenSize);
      pos := pos + 1;
    }
    assert text[..pos] == text;
    forall a: string, c: char, b: string {:trigger a + [c] + b + ['\n']}
      | IsWord(a) && IsWord(b) && text == a + [c] + b + ['\n']
      ensures Tokens(text) == [a, b] <==> c in SEPARATORS
    {
      WordsSeparated(a, c, b);
    }
  }

  lemma CopiedToken(line: seq<char>, start: nat, size: nat)
    requires start + size <= |TextOf(line)|
    ensures start + size <= |line| && Copied(line[start..], size) == TextOf(line)[start..start + size]
  {
    var w := TextOf(line)[start..start + size];
    assert w == line[start..][..size];
    TextOfIsFirst(line[start..][..size], w);
  }

  /** What that cost means: at most half of a grown array is unused, and each token was moved at most
      twice on average. */
  lemma TokenizerCost(g: Growth)
    requires WithinCost(g)
    ensures g.size <= g.capacity && (g.capacity == 8 || g.capacity <= 2 * g.size)
    ensures g.moved <= 2 * g.size
  {
    GrowthIsAmortised(INITIAL_TOKENS_CAPACITY, g.size);
  }
}
