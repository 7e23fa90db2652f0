/** The guardrail's source scanner: matching a call's closing parenthesis and cutting its arguments,
    with quotes and escapes respected. */
module Scanner {
  import opened Text

  /** The mutable quote state: the open quote, if any, and whether the last character was a backslash. */
  datatype QuoteState = QuoteState(quote: Option<char>, escaped: bool)

  const CODE := QuoteState(None, false)

  predicate IsQuote(c: char) {
    c == '\'' || c == '"' || c == '`'
  }

  // ---------- What the text means, independently of the scanner ----------

  /** The quote state after a text that starts as code: quotes open at a quote character in code, close at
      the next equal one that is not escaped, and a backslash inside quotes escapes one character. */
  function After(s: string): QuoteState {
    if s == "" then CODE
    else
      var before := After(s[..|s| - 1]);
      var c := s[|s| - 1];
      if before.quote.None? then
        if IsQuote(c) then QuoteState(Some(c), before.escaped) else before
      else if before.escaped then before.(escaped := false)
      else if c == '\\' then before.(escaped := true)
      else if Some(c) == before.quote then before.(quote := None)
      else before
  }

  /** Character `i` is code: it is outside quotes and does not open one. */
  predicate IsCode(s: string, i: int)
    requires 0 <= i < |s|
  {
    After(s[..i]).quote.None? && !IsQuote(s[i])
  }

  /** How often `c` occurs as code. */
  function Count(s: string, c: char): nat {
    if s == "" then 0
    else Count(s[..|s| - 1], c) + (if s[|s| - 1] == c && IsCode(s, |s| - 1) then 1 else 0)
  }

  /** Opening minus closing brackets of one kind, counted in code only. */
  function Balance(s: string, open: char, close: char): int {
    Count(s, open) - Count(s, close)
  }

  /** In code, the state never carries a pending escape. */
  lemma {:induction false} CodeIsNotEscaped(s: string)
    ensures After(s).quote.None? ==> !After(s).escaped
  {
    if s != "" {
      CodeIsNotEscaped(s[..|s| - 1]);
    }
  }

  // ---------- The scanner ----------

  class QuoteScanState {
    var quote: Option<char>
    var escaped: bool

    constructor ()
      ensures State() == CODE
    {
      quote, escaped := None, false;
    }

    function State(): QuoteState
      reads this
    {
      QuoteState(quote, escaped)
    }

    method BeginQuotedSection(ch: char) returns (begun: bool)
      modifies this
      ensures begun <==> ch == '\'' || ch == '"' || ch == '`'
      ensures State() == if begun then QuoteState(Some(ch), old(escaped)) else old(State())
    {
      if ch != '\'' && ch != '"' && ch != '`' {
        return false;
      }
      quote := Some(ch);
      return true;
    }

    /** Inside quotes, takes the state from that of a text to that of the text with `ch` added. */
    method ConsumeQuotedChar(ch: char, ghost read: string) returns (consumed: bool)
      requires State() == After(read)
      modifies this
      ensures consumed == old(quote).Some?
      ensures consumed ==> escaped == (!old(escaped) && ch == '\\')
      ensures consumed ==> quote == if !old(escaped) && ch != '\\' && Some(ch) == old(quote) then None else old(quote)
      ensures State() == if consumed then After(read + [ch]) else old(State())
    {
      assert (read + [ch])[..|read + [ch]| - 1] == read;
      if quote.None? {
        return false;
      }
      if escaped {
        escaped := false;
        return true;
      }
      if ch == '\\' {
        escaped := true;
        return true;
      }
      if Some(ch) == quote {
        quote := None;
      }
      return true;
    }
  }

  /** `i` closes the parenthesis opened at `open`: it is a `)` in code, and the parentheses in the code in
      between are balanced. */
  predicate Closes(source: string, open: nat, i: int)
    requires open < |source|
  {
    && open < i < |source|
    && source[i] == ')'
    && IsCode(source[open + 1..], i - open - 1)
    && Balance(source[open + 1..i], '(', ')') == 0
  }

  method FindMatchingParen(source: string, openIndex: nat) returns (r: int)
    requires openIndex < |source|
    ensures r == -1 <==> forall i :: !Closes(source, openIndex, i)
    ensures r != -1 ==> Closes(source, openIndex, r) && forall i :: Closes(source, openIndex, i) ==> r <= i
  {
    var depth := 1;
    var quoteState := new QuoteScanState();
    var i := openIndex + 1;
    while i < |source|
      invariant openIndex < i <= |source|
      invariant quoteState.State() == After(source[openIndex + 1..i])
      invariant depth == 1 + Balance(source[openIndex + 1..i], '(', ')') && depth >= 1
      invariant NoneClosesBefore(source, openIndex, i)
    {
      var ch := source[i];
      ghost var read := source[openIndex + 1..i];
      NextParen(source, openIndex, i);
      ReadParen(read, ch);
      var consumed := quoteState.ConsumeQuotedChar(ch, read);
      if consumed {
        i := i + 1;
        continue;
      }
      var begun := quoteState.BeginQuotedSection(ch);
      if begun {
        i := i + 1;
        continue;
      }
      if ch == '(' {
        depth := depth + 1;
      } else if ch == ')' {
        depth := depth - 1;
        if depth == 0 {
          return i;
        }
      }
      i := i + 1;
    }
    r := -1;
  }

  ghost predicate NoneClosesBefore(source: string, open: nat, i: int)
    requires open < |source|
  {
    forall j | j < i :: !Closes(source, open, j)
  }

  lemma {:induction false} ClosesIff(source: string, open: nat, i: nat)
    requires open < i < |source|
    ensures var read := source[open + 1..i];
            Closes(source, open, i) <==> source[i] == ')' && After(read).quote.None? && Balance(read, '(', ')') == 0
  {
    assert source[open + 1..][..i - open - 1] == source[open + 1..i];
    assert source[open + 1..][i - open - 1] == source[i];
  }

  /** The next character closes the parenthesis, or the search goes on. */
  lemma {:induction false} NextParen(source: string, open: nat, i: nat)
    requires open < i < |source|
    ensures var read := source[open + 1..i];
            && source[open + 1..i + 1] == read + [source[i]]
            && (Closes(source, open, i) <==>
                source[i] == ')' && After(read).quote.None? && Balance(read, '(', ')') == 0)
    ensures NoneClosesBefore(source, open, i) && !Closes(source, open, i) ==> NoneClosesBefore(source, open, i + 1)
  {
    ClosesIff(source, open, i);
  }

  /** What one more character does to the quote state in code, and to the balance of parentheses. */
  lemma {:induction false} ReadParen(read: string, ch: char)
    ensures After(read).quote.None? ==>
              !After(read).escaped && After(read + [ch]) == if IsQuote(ch) then QuoteState(Some(ch), false) else CODE
    ensures Balance(read + [ch], '(', ')') == Balance(read, '(', ')') +
              if After(read).quote.Some? || IsQuote(ch) then 0 else if ch == '(' then 1 else if ch == ')' then -1 else 0
  {
    CodeIsNotEscaped(read);
    assert (read + [ch])[..|read|] == read;
  }

  // ---------- Cutting arguments ----------

  /** The nesting level the scanner keeps for one kind of bracket; a stray closing bracket is ignored. */
  function Level(s: string, open: char, close: char): nat {
    if s == "" then 0
    else
      var before := Level(s[..|s| - 1], open, close);
      var c := s[|s| - 1];
      if !IsCode(s, |s| - 1) then before
      else if c == open then before + 1
      else if c == close && before > 0 then before - 1
      else before
  }

  /** A comma in code outside brackets of every kind. */
  predicate IsCut(s: string, i: int)
    requires 0 <= i < |s|
  {
    && s[i] == ',' && IsCode(s, i)
    && Level(s[..i], '(', ')') == 0 && Level(s[..i], '[', ']') == 0 && Level(s[..i], '{', '}') == 0
  }

  /** The positions of the cuts, in order. */
  function Cuts(s: string): seq<nat> {
    if s == "" then []
    else Cuts(s[..|s| - 1]) + (if IsCut(s, |s| - 1) then [|s| - 1] else [])
  }

  /** The text before the first cut, between cuts, and after the last. */
  function Pieces(s: string, cuts: seq<nat>): seq<string>
    requires Increasing(cuts, |s|)
  {
    if cuts == [] then [s]
    else
      var last := cuts[|cuts| - 1];
      Pieces(s[..last], cuts[..|cuts| - 1]) + [s[last + 1..]]
  }

  predicate Increasing(cuts: seq<nat>, bound: nat) {
    && (forall k | 0 <= k < |cuts| :: cuts[k] < bound)
    && (forall j, k | 0 <= j < k < |cuts| :: cuts[j] < cuts[k])
  }

  function TrimAll(pieces: seq<string>): seq<string> {
    seq(|pieces|, i requires 0 <= i < |pieces| => Trim(pieces[i]))
  }

  /** Trimmed, and without the last piece if that is blank. */
  function Arguments(pieces: seq<string>): seq<string>
    requires pieces != []
  {
    var last := pieces[|pieces| - 1];
    if IsBlank(last) then TrimAll(pieces[..|pieces| - 1]) else TrimAll(pieces)
  }

  /** The arguments are the trimmed pieces, of which only a blank last one is left out. */
  lemma {:induction false} ArgumentsAreTrimmed(pieces: seq<string>, k: nat)
    requires pieces != []
    ensures |Arguments(pieces)| == |pieces| - (if Trim(pieces[|pieces| - 1]) == "" then 1 else 0)
    ensures k < |Arguments(pieces)| ==> Arguments(pieces)[k] == Trim(pieces[k])
  {
    TrimIsEmptyIffBlank(pieces[|pieces| - 1]);
  }

  lemma {:induction false} PrefixOfPrefix(s: string, i: nat, j: nat)
    requires i <= j <= |s|
    ensures s[..j][..i] == s[..i]
  {
  }

  /** The cuts are exactly the top-level commas. */
  lemma {:induction false} CutsAreTopLevelCommas(s: string)
    ensures Increasing(Cuts(s), |s|)
    ensures forall i | 0 <= i < |s| :: i in Cuts(s) <==> IsCut(s, i)
  {
    if s != "" {
      var init := s[..|s| - 1];
      CutsAreTopLevelCommas(init);
      forall i | 0 <= i < |init|
        ensures IsCut(init, i) <==> IsCut(s, i)
      {
        PrefixOfPrefix(s, i, |init|);
      }
    }
  }

  function JoinWithCommas(pieces: seq<string>): string
    requires pieces != []
  {
    if |pieces| == 1 then pieces[0] else JoinWithCommas(pieces[..|pieces| - 1]) + "," + pieces[|pieces| - 1]
  }

  /** The pieces put back together with commas are the text. */
  lemma {:induction false} PiecesRejoin(s: string, cuts: seq<nat>)
    requires Increasing(cuts, |s|) && forall i | i in cuts :: s[i] == ','
    ensures |Pieces(s, cuts)| == |cuts| + 1
    ensures JoinWithCommas(Pieces(s, cuts)) == s
  {
    if cuts != [] {
      var n := |cuts| - 1;
      var last := cuts[n];
      assert last in cuts;
      forall i | i in cuts[..n] ensures s[..last][i] == ',' {
        assert i in cuts;
      }
      PiecesRejoin(s[..last], cuts[..n]);
      LastPieceRejoins(s, last, Pieces(s[..last], cuts[..n]));
    }
  }

  lemma {:induction false} LastPieceRejoins(s: string, last: nat, pieces: seq<string>)
    requires last < |s| && s[last] == ',' && pieces != [] && JoinWithCommas(pieces) == s[..last]
    ensures JoinWithCommas(pieces + [s[last + 1..]]) == s
  {
    assert (pieces + [s[last + 1..]])[..|pieces|] == pieces;
    assert s == s[..last] + [s[last]] + s[last + 1..];
  }

  /** Each piece is the text between two cuts. */
  lemma {:induction false} PieceAt(s: string, cuts: seq<nat>, k: nat)
    requires Increasing(cuts, |s|) && k <= |cuts|
    ensures |Pieces(s, cuts)| == |cuts| + 1
    ensures var from := if k == 0 then 0 else cuts[k - 1] + 1;
            var to := if k == |cuts| then |s| else cuts[k];
            from <= to <= |s| && Pieces(s, cuts)[k] == s[from..to]
  {
    if cuts != [] {
      var n := |cuts| - 1;
      var last := cuts[n];
      PieceAt(s[..last], cuts[..n], if k <= n then k else 0);
    }
  }

  /** The untrimmed arguments, put back together with commas, are the text. */
  lemma {:induction false} ArgumentPiecesRejoin(s: string)
    ensures Increasing(Cuts(s), |s|) && |Pieces(s, Cuts(s))| == |Cuts(s)| + 1
    ensures JoinWithCommas(Pieces(s, Cuts(s))) == s
  {
    CutsAreTopLevelCommas(s);
    forall i | i in Cuts(s)
      ensures s[i] == ','
    {
      assert IsCut(s, i);
    }
    PiecesRejoin(s, Cuts(s));
  }

  method SplitTopLevelArguments(source: string) returns (out: seq<string>)
    ensures Increasing(Cuts(source), |source|)
    ensures out == Arguments(Pieces(source, Cuts(source)))
  {
    CutsAreTopLevelCommas(source);
    out := [];
    var current := "";
    var parenDepth, bracketDepth, braceDepth := 0, 0, 0;
    var quoteState := new QuoteScanState();
    for i := 0 to |source|
      invariant quoteState.State() == After(source[..i])
      invariant parenDepth == Level(source[..i], '(', ')')
      invariant bracketDepth == Level(source[..i], '[', ']')
      invariant braceDepth == Level(source[..i], '{', '}')
      invariant Collected(source[..i], out, current)
    {
      var ch := source[i];
      ghost var read := source[..i];
      OneMore(source, i);
      Quoting(read, ch);
      Collect(read, ch, out, current);
      if quoteState.quote.Some? {
        current := current + [ch];
        var _ := quoteState.ConsumeQuotedChar(ch, read);
        continue;
      }
      var begun := quoteState.BeginQuotedSection(ch);
      if begun {
        current := current + [ch];
        continue;
      }
      var cut: bool;
      parenDepth, bracketDepth, braceDepth, cut := ReadCode(ch, read, parenDepth, bracketDepth, braceDepth);
      if cut {
        out := out + [Trim(current)];
        current := "";
      } else {
        current := current + [ch];
      }
    }
    assert source[..|source|] == source;
    CollectedIsArguments(source, out, current);
    if Trim(current) != "" {
      out := out + [Trim(current)];
    }
  }

  lemma {:induction false} OneMore(source: string, i: nat)
    requires i < |source|
    ensures source[..i + 1] == source[..i] + [source[i]]
  {
  }

  /** A character that is no code moves no level and cuts nothing; in code it opens a quotation or changes nothing. */
  lemma {:induction false} Quoting(read: string, ch: char)
    ensures After(read).quote.Some? || IsQuote(ch) ==>
      && Level(read + [ch], '(', ')') == Level(read, '(', ')')
      && Level(read + [ch], '[', ']') == Level(read, '[', ']')
      && Level(read + [ch], '{', '}') == Level(read, '{', '}')
      && !IsCut(read + [ch], |read|)
    ensures After(read).quote.None? ==>
      After(read + [ch]) == if IsQuote(ch) then QuoteState(Some(ch), After(read).escaped) else After(read)
  {
    assert (read + [ch])[..|read|] == read;
  }

  /** The bracket bookkeeping for one character of code. */
  method ReadCode(ch: char, ghost read: string, paren: nat, bracket: nat, brace: nat)
    returns (parenDepth: nat, bracketDepth: nat, braceDepth: nat, cut: bool)
    requires After(read).quote.None? && !IsQuote(ch)
    requires paren == Level(read, '(', ')') && bracket == Level(read, '[', ']') && brace == Level(read, '{', '}')
    ensures parenDepth == Level(read + [ch], '(', ')')
    ensures bracketDepth == Level(read + [ch], '[', ']')
    ensures braceDepth == Level(read + [ch], '{', '}')
    ensures cut == IsCut(read + [ch], |read|)
  {
    parenDepth, bracketDepth, braceDepth, cut := paren, bracket, brace, false;
    assert (read + [ch])[..|read + [ch]| - 1] == read;
    if ch == '(' {
      parenDepth := parenDepth + 1;
    } else if ch == ')' {
      if parenDepth > 0 {
        parenDepth := parenDepth - 1;
      }
    } else if ch == '[' {
      bracketDepth := bracketDepth + 1;
    } else if ch == ']' {
      if bracketDepth > 0 {
        bracketDepth := bracketDepth - 1;
      }
    } else if ch == '{' {
      braceDepth := braceDepth + 1;
    } else if ch == '}' {
      if braceDepth > 0 {
        braceDepth := braceDepth - 1;
      }
    } else if ch == ',' && parenDepth == 0 && bracketDepth == 0 && braceDepth == 0 {
      cut := true;
    }
  }

  /** What the loop holds after reading `s`: the trimmed finished pieces and the piece being read. */
  ghost predicate Collected(s: string, out: seq<string>, current: string) {
    && Increasing(Cuts(s), |s|)
    && var pieces := Pieces(s, Cuts(s));
       |pieces| == |out| + 1 && out == TrimAll(pieces[..|out|]) && pieces[|out|] == current
  }

  lemma {:induction false} Collect(s: string, c: char, out: seq<string>, current: string)
    requires Collected(s, out, current)
    ensures if IsCut(s + [c], |s|) then Collected(s + [c], out + [Trim(current)], "")
            else Collected(s + [c], out, current + [c])
  {
    GrowPieces(s, c);
    CollectPiece(Pieces(s, Cuts(s)), out, current, c);
  }

  lemma {:induction false} CollectPiece(pieces: seq<string>, out: seq<string>, current: string, c: char)
    requires |pieces| == |out| + 1 && out == TrimAll(pieces[..|out|]) && pieces[|out|] == current
    ensures TrimAll((pieces + [""])[..|out| + 1]) == out + [Trim(current)]
    ensures TrimAll((pieces[..|out|] + [current + [c]])[..|out|]) == out
  {
    assert (pieces + [""])[..|out| + 1] == pieces;
    assert (pieces[..|out|] + [current + [c]])[..|out|] == pieces[..|out|];
  }

  lemma {:induction false} CollectedIsArguments(s: string, out: seq<string>, current: string)
    requires Collected(s, out, current)
    ensures Arguments(Pieces(s, Cuts(s))) == if Trim(current) != "" then out + [Trim(current)] else out
  {
    TrimIsEmptyIffBlank(current);
    var pieces := Pieces(s, Cuts(s));
    assert pieces == pieces[..|out|] + [current];
    assert TrimAll(pieces) == TrimAll(pieces[..|out|]) + [Trim(current)];
  }

  /** Reading one more character either starts a new piece or extends the last one. */
  lemma {:induction false} GrowPieces(s: string, c: char)
    requires Increasing(Cuts(s), |s|)
    ensures Increasing(Cuts(s + [c]), |s| + 1)
    ensures var pieces := Pieces(s, Cuts(s));
            && pieces != []
            && Pieces(s + [c], Cuts(s + [c])) ==
               if IsCut(s + [c], |s|) then pieces + [""]
               else pieces[..|pieces| - 1] + [pieces[|pieces| - 1] + [c]]
  {
    CutsGrow(s, c);
    if IsCut(s + [c], |s|) {
      PiecesOfNewCut(s, c, Cuts(s));
    } else {
      PiecesOfLonger(s, c, Cuts(s));
    }
  }

  lemma {:induction false} CutsGrow(s: string, c: char)
    ensures Cuts(s + [c]) == if IsCut(s + [c], |s|) then Cuts(s) + [|s|] else Cuts(s)
  {
    assert (s + [c])[..|s|] == s;
  }

  lemma {:induction false} PiecesOfNewCut(s: string, c: char, cuts: seq<nat>)
    requires Increasing(cuts, |s|)
    ensures Increasing(cuts + [|s|], |s| + 1)
    ensures Pieces(s + [c], cuts + [|s|]) == Pieces(s, cuts) + [""]
  {
    assert (s + [c])[..|s|] == s && (s + [c])[|s| + 1..] == "";
    assert (cuts + [|s|])[..|cuts|] == cuts;
  }

  lemma {:induction false} PiecesOfLonger(s: string, c: char, cuts: seq<nat>)
    requires Increasing(cuts, |s|)
    ensures var pieces := Pieces(s, cuts);
            pieces != [] && Pieces(s + [c], cuts) == pieces[..|pieces| - 1] + [pieces[|pieces| - 1] + [c]]
  {
    var t, pieces := s + [c], Pieces(s, cuts);
    if cuts == [] {
      assert pieces[..|pieces| - 1] == [];
    } else {
      var n := |cuts| - 1;
      var last := cuts[n];
      assert t[..last] == s[..last] && t[last + 1..] == s[last + 1..] + [c];
      assert pieces[..|pieces| - 1] == Pieces(s[..last], cuts[..n]);
    }
  }

  // ---------- Quoted text, in terms of its characters ----------

  /** No character of the text is one of the three quotes. */
  predicate NoQuotes(s: string) {
    forall i | 0 <= i < |s| :: s[i] != '\'' && s[i] != '"' && s[i] != '`'
  }

  /** Text that does not end a quotation begun with `q`: every `q` in it is escaped by a backslash, and so is the
      character that follows it. */
  predicate Unbroken(body: string, q: char) {
    || body == ""
    || (body[0] == '\\' && |body| >= 2 && Unbroken(body[2..], q))
    || (body[0] != '\\' && body[0] != q && Unbroken(body[1..], q))
  }

  lemma {:induction false} PlainBodyIsUnbroken(body: string, q: char)
    requires q !in body && '\\' !in body
    ensures Unbroken(body, q)
  {
    if body != "" {
      PlainBodyIsUnbroken(body[1..], q);
    }
  }

  lemma {:induction false} EscapedQuoteIsUnbroken(before: string, q: char, after: string)
    requires q !in before && '\\' !in before && q !in after && '\\' !in after
    ensures Unbroken(before + ['\\', q] + after, q)
  {
    var body := before + ['\\', q] + after;
    if before == "" {
      PlainBodyIsUnbroken(after, q);
      assert body[0] == '\\' && body[2..] == after;
    } else {
      EscapedQuoteIsUnbroken(before[1..], q, after);
      assert body[1..] == before[1..] + ['\\', q] + after;
    }
  }

  lemma {:induction false} AfterOne(s: string, c: char)
    ensures (s + [c])[..|s|] == s && (s + [c])[|s|] == c
    ensures After(s + [c]) ==
            var before := After(s);
            if before.quote.None? then if IsQuote(c) then QuoteState(Some(c), before.escaped) else before
            else if before.escaped then before.(escaped := false)
            else if c == '\\' then before.(escaped := true)
            else if Some(c) == before.quote then before.(quote := None)
            else before
  {
    assert (s + [c])[..|s|] == s;
  }

  /** Such text starts with an escaped character or another one that the quotation survives. */
  lemma {:induction false} QuotedStep(s: string, q: char, body: string) returns (step: nat)
    requires After(s) == QuoteState(Some(q), false) && Unbroken(body, q) && body != ""
    ensures 1 <= step <= 2 && step <= |body| && Unbroken(body[step..], q)
    ensures After(s + body[..step]) == QuoteState(Some(q), false)
    ensures step == 2 ==> After(s + body[..1]).quote == Some(q)
  {
    AfterOne(s, body[0]);
    assert s + body[..1] == s + [body[0]];
    if body[0] == '\\' {
      step := 2;
      AfterOne(s + [body[0]], body[1]);
      assert s + body[..2] == s + [body[0]] + [body[1]];
    } else {
      step := 1;
    }
  }

  /** Reading such text inside the quotation stays inside it throughout. */
  lemma {:induction false} StaysQuoted(s: string, q: char, body: string, n: nat)
    requires After(s) == QuoteState(Some(q), false) && Unbroken(body, q) && n <= |body|
    ensures n == |body| ==> After(s + body) == QuoteState(Some(q), false)
    ensures After(s + body[..n]).quote == Some(q)
    decreases |body|
  {
    if n == 0 {
      assert s + body[..0] == s;
      assert body == "" ==> s + body == s;
    } else {
      var step := QuotedStep(s, q, body);
      if n >= step {
        StaysQuoted(s + body[..step], q, body[step..], n - step);
        Regrouped(s, body, step, n);
      }
    }
  }

  lemma {:induction false} Regrouped(s: string, body: string, step: nat, n: nat)
    requires step <= n <= |body|
    ensures s + body[..n] == s + body[..step] + body[step..][..n - step]
    ensures s + body == s + body[..step] + body[step..]
  {
  }

  /** In code, a quotation begun with any of the three quotes is no code from its opening to its closing quote, and
      the text after it starts as code again. */
  lemma {:induction false} QuotedPartIsNotCode(s: string, q: char, body: string, rest: string, i: nat)
    requires After(s).quote.None? && (q == '\'' || q == '"' || q == '`') && Unbroken(body, q)
    requires |s| <= i < |s| + |body| + 2
    ensures !IsCode(s + [q] + body + [q] + rest, i)
  {
    QuotedPlaces(s, q, body, rest, i);
    CodeIsNotEscaped(s);
    AfterOne(s, q);
    if i > |s| {
      StaysQuoted(s + [q], q, body, i - |s| - 1);
    }
  }

  lemma {:induction false} QuotedPlaces(s: string, q: char, body: string, rest: string, i: nat)
    requires |s| <= i < |s| + |body| + 2
    ensures var text := s + [q] + body + [q] + rest;
            if i == |s| then text[i] == q else text[..i] == s + [q] + body[..i - |s| - 1]
  {
  }

  lemma {:induction false} CodeAfterQuotation(s: string, q: char, body: string)
    requires After(s).quote.None? && (q == '\'' || q == '"' || q == '`') && Unbroken(body, q)
    ensures After(s + [q] + body + [q]) == CODE
  {
    CodeIsNotEscaped(s);
    AfterOne(s, q);
    StaysQuoted(s + [q], q, body, |body|);
    AfterOne(s + [q] + body, q);
  }

  /** Without quotes everything is code. */
  lemma {:induction false} WithoutQuotesAllIsCode(s: string)
    requires NoQuotes(s)
    ensures After(s) == CODE && forall i | 0 <= i < |s| :: IsCode(s, i)
  {
    if s != "" {
      var init := s[..|s| - 1];
      WithoutQuotesAllIsCode(init);
      forall i | 0 <= i < |s|
        ensures IsCode(s, i)
      {
        if i < |init| {
          assert IsCode(init, i);
          PrefixOfPrefix(s, i, |init|);
        }
      }
    }
  }

  /** Code is made of characters other than quotes and of finished quotations. */
  datatype Chunk = Plain(c: char) | Quotation(q: char, body: string)

  predicate IsChunk(chunk: Chunk) {
    match chunk
    case Plain(c) => c != '\'' && c != '"' && c != '`'
    case Quotation(q, body) => (q == '\'' || q == '"' || q == '`') && Unbroken(body, q)
  }

  function TextOf(chunks: seq<Chunk>): string {
    if chunks == [] then ""
    else
      TextOf(chunks[..|chunks| - 1]) + TextOfChunk(chunks[|chunks| - 1])
  }

  function TextOfChunk(chunk: Chunk): string {
    match chunk
    case Plain(c) => [c]
    case Quotation(q, body) => [q] + body + [q]
  }

  lemma {:induction false} ChunkKeepsCode(s: string, chunk: Chunk)
    requires After(s) == CODE && IsChunk(chunk)
    ensures After(s + TextOfChunk(chunk)) == CODE
  {
    match chunk
    case Plain(c) => AfterOne(s, c);
    case Quotation(q, body) =>
      CodeAfterQuotation(s, q, body);
      assert s + [q] + body + [q] == s + ([q] + body + [q]);
  }

  lemma {:induction false} ChunksAreCode(chunks: seq<Chunk>)
    requires forall i | 0 <= i < |chunks| :: IsChunk(chunks[i])
    ensures After(TextOf(chunks)) == CODE
  {
    if chunks != [] {
      var init, last := chunks[..|chunks| - 1], chunks[|chunks| - 1];
      ChunksAreCode(init);
      assert IsChunk(last);
      ChunkKeepsCode(TextOf(init), last);
    }
  }

  /** After any code, a quotation is inert: no comma in it cuts and no parenthesis in it closes. */
  lemma {:induction false} QuotationIsInert(source: string, open: nat, chunks: seq<Chunk>, q: char, body: string,
                                            rest: string, i: nat)
    requires open < |source| && source[open + 1..] == TextOf(chunks) + [q] + body + [q] + rest
    requires (forall j | 0 <= j < |chunks| :: IsChunk(chunks[j])) && IsChunk(Quotation(q, body))
    requires |TextOf(chunks)| <= i < |TextOf(chunks)| + |body| + 2
    ensures !IsCut(source[open + 1..], i) && !Closes(source, open, open + 1 + i)
  {
    ChunksAreCode(chunks);
    QuotedPartIsNotCode(TextOf(chunks), q, body, rest, i);
  }

  /** Any other character after code is code. */
  lemma {:induction false} PlainIsCode(chunks: seq<Chunk>, c: char, rest: string)
    requires (forall j | 0 <= j < |chunks| :: IsChunk(chunks[j])) && IsChunk(Plain(c))
    ensures IsCode(TextOf(chunks) + [c] + rest, |TextOf(chunks)|)
  {
    ChunksAreCode(chunks);
    var text := TextOf(chunks) + [c] + rest;
    assert text[..|TextOf(chunks)|] == TextOf(chunks);
  }

  lemma {:induction false} QuotedIsNotCounted(s: string, q: char, body: string, c: char, n: nat)
    requires After(s).quote.None? && IsChunk(Quotation(q, body)) && n <= |body| + 2
    ensures Count((s + [q] + body + [q])[..|s| + n], c) == Count(s, c)
  {
    var text := s + [q] + body + [q];
    if n == 0 {
      assert text[..|s|] == s;
    } else {
      QuotedIsNotCounted(s, q, body, c, n - 1);
      QuotedPartIsNotCode(s, q, body, "", |s| + n - 1);
      assert s + [q] + body + [q] + "" == text;
      var longer := text[..|s| + n];
      assert longer[..|longer| - 1] == text[..|s| + n - 1];
    }
  }

  lemma {:induction false} CountOfPlain(s: string, d: char, c: char)
    requires After(s).quote.None? && IsChunk(Plain(d))
    ensures Count(s + [d], c) == Count(s, c) + (if d == c then 1 else 0)
  {
    assert (s + [d])[..|s|] == s;
  }

  lemma {:induction false} CountOfQuotation(s: string, q: char, body: string, c: char)
    requires After(s).quote.None? && IsChunk(Quotation(q, body))
    ensures Count(s + ([q] + body + [q]), c) == Count(s, c)
  {
    QuotedIsNotCounted(s, q, body, c, |body| + 2);
    WholeQuotation(s, q, body);
  }

  lemma {:induction false} WholeQuotation(s: string, q: char, body: string)
    ensures (s + [q] + body + [q])[..|s| + |body| + 2] == s + ([q] + body + [q])
  {
  }

  lemma {:induction false} CountOfChunk(s: string, chunk: Chunk, c: char)
    requires After(s).quote.None? && IsChunk(chunk) && IsChunk(Plain(c))
    ensures Count(s + TextOfChunk(chunk), c) == Count(s, c) + (if chunk == Plain(c) then 1 else 0)
  {
    match chunk
    case Plain(d) => CountOfPlain(s, d, c);
    case Quotation(q, body) => CountOfQuotation(s, q, body, c);
  }

  lemma {:induction false} CountOfChunks(chunks: seq<Chunk>, c: char)
    requires (forall i | 0 <= i < |chunks| :: IsChunk(chunks[i])) && IsChunk(Plain(c))
    ensures Count(TextOf(chunks), c) == multiset(chunks)[Plain(c)]
  {
    if chunks != [] {
      var init, last := chunks[..|chunks| - 1], chunks[|chunks| - 1];
      assert chunks == init + [last];
      CountOfChunks(init, c);
      ChunksAreCode(init);
      CountOfChunk(TextOf(init), last, c);
    }
  }

  /** A parenthesis after code closes exactly when as many were opened as closed there, outside of quotations. */
  lemma {:induction false} ClosesWhenBalanced(source: string, open: nat, i: int, chunks: seq<Chunk>)
    requires open < i < |source| && source[open + 1..i] == TextOf(chunks)
    requires forall j | 0 <= j < |chunks| :: IsChunk(chunks[j])
    ensures Closes(source, open, i) <==>
            source[i] == ')' && multiset(chunks)[Plain('(')] == multiset(chunks)[Plain(')')]
  {
    ChunksAreCode(chunks);
    ClosesIff(source, open, i);
    CountOfChunks(chunks, '(');
    CountOfChunks(chunks, ')');
  }

  predicate NoBrackets(s: string) {
    forall i | 0 <= i < |s| :: s[i] != '(' && s[i] != ')' && s[i] != '[' && s[i] != ']' && s[i] != '{' && s[i] != '}'
  }

  predicate IsPair(open: char, close: char) {
    (open == '(' && close == ')') || (open == '[' && close == ']') || (open == '{' && close == '}')
  }

  lemma {:induction false} LevelStays(s: string, more: string, open: char, close: char)
    requires open !in more && close !in more
    ensures Level(s + more, open, close) == Level(s, open, close)
  {
    if more == "" {
      assert s + more == s;
    } else {
      var text, init := s + more, more[..|more| - 1];
      assert text[..|text| - 1] == s + init;
      LevelStays(s, init, open, close);
    }
  }

  lemma {:induction false} LevelMoves(s: string, c: char, open: char, close: char)
    requires NoQuotes(s) && NoQuotes([c])
    ensures Level(s + [c], open, close) ==
            if c == open then Level(s, open, close) + 1
            else if c == close && Level(s, open, close) > 0 then Level(s, open, close) - 1
            else Level(s, open, close)
  {
    WithoutQuotesAllIsCode(s);
    assert NoQuotes([c]) ==> [c][0] == c;
    assert (s + [c])[..|s|] == s;
  }

  /** A pair of brackets of any kind keeps the commas inside from cutting, and only those. */
  lemma {:induction false} BracketsKeepCommas(a: string, open: char, b: string, close: char, c: string, i: nat)
    requires IsPair(open, close)
    requires NoQuotes(a) && NoQuotes(b) && NoQuotes(c) && NoBrackets(a) && NoBrackets(b) && NoBrackets(c)
    requires i < |a| + |b| + |c| + 2
    ensures var text := a + [open] + b + [close] + c;
            IsCut(text, i) <==> text[i] == ',' && !(|a| <= i <= |a| + 1 + |b|)
  {
    var text := a + [open] + b + [close] + c;
    assert NoQuotes(text);
    WithoutQuotesAllIsCode(text);
    LevelsInPair(a, open, b, close, c, i, '(', ')');
    LevelsInPair(a, open, b, close, c, i, '[', ']');
    LevelsInPair(a, open, b, close, c, i, '{', '}');
  }

  /** The levels in a text with one pair of brackets. */
  lemma {:induction false} LevelsInPair(a: string, open: char, b: string, close: char, c: string, i: nat,
                                        left: char, right: char)
    requires IsPair(open, close) && IsPair(left, right) && NoQuotes(a) && NoQuotes(b)
    requires NoBrackets(a) && NoBrackets(b) && NoBrackets(c) && i < |a| + |b| + |c| + 2
    ensures Level((a + [open] + b + [close] + c)[..i], left, right) ==
            if open == left && |a| < i <= |a| + 1 + |b| then 1 else 0
  {
    var text := a + [open] + b + [close] + c;
    if i <= |a| {
      assert text[..i] == "" + a[..i];
      LevelStays("", a[..i], left, right);
    } else {
      assert "" + a == a;
      LevelStays("", a, left, right);
      LevelMoves(a, open, left, right);
      if i <= |a| + 1 + |b| {
        assert text[..i] == a + [open] + b[..i - |a| - 1];
        LevelStays(a + [open], b[..i - |a| - 1], left, right);
      } else {
        LevelAfterPair(a + [open], b, close, c[..i - |a| - |b| - 2], left, right);
        assert text[..i] == a + [open] + b + [close] + c[..i - |a| - |b| - 2];
      }
    }
  }

  lemma {:induction false} LevelAfterPair(s: string, b: string, close: char, c: string, left: char, right: char)
    requires NoQuotes(s) && NoQuotes(b) && NoQuotes([close]) && NoBrackets(b) && NoBrackets(c) && IsPair(left, right)
    requires close != left && Level(s, left, right) <= 1
    requires Level(s, left, right) == 1 ==> close == right
    ensures Level(s + b + [close] + c, left, right) == 0
  {
    LevelStays(s, b, left, right);
    assert NoQuotes(s + b);
    LevelMoves(s + b, close, left, right);
    LevelStays(s + b + [close], c, left, right);
  }

  // ---------- The two together ----------

  /** No prefix of the span between matched parentheses closes more than it opened. */
  lemma {:induction false} SpanNeverDips(source: string, open: nat, close: int, n: nat)
    requires open < |source| && Closes(source, open, close)
    requires forall i :: Closes(source, open, i) ==> close <= i
    requires n <= close - open - 1
    ensures Balance(source[open + 1..close][..n], '(', ')') >= 0
  {
    var span := source[open + 1..close];
    if n > 0 {
      SpanNeverDips(source, open, close, n - 1);
      var i := open + n;
      SpanParts(source, open, close, n);
      ClosesIff(source, open, i);
      assert !Closes(source, open, i);
    }
  }

  lemma {:induction false} SpanParts(source: string, open: nat, close: int, n: nat)
    requires open < close <= |source| && 0 < n <= close - open - 1
    ensures var span := source[open + 1..close];
            span[..n][..n - 1] == span[..n - 1] == source[open + 1..open + n] && span[..n][n - 1] == source[open + n]
  {
  }

  lemma {:induction false} LevelIsBalance(s: string, open: char, close: char)
    requires open != close
    requires forall n | 0 <= n <= |s| :: Balance(s[..n], open, close) >= 0
    ensures Level(s, open, close) == Balance(s, open, close)
  {
    assert s[..|s|] == s;
    if s != "" {
      var init := s[..|s| - 1];
      forall n | 0 <= n <= |init|
        ensures Balance(init[..n], open, close) >= 0
      {
        PrefixOfPrefix(s, n, |init|);
      }
      LevelIsBalance(init, open, close);
      assert Balance(s, open, close) >= 0;
    }
  }

  /** On the span between matched parentheses the argument cutter never meets a stray `)`: its parenthesis
      level is the plain balance throughout, and it ends in code at level zero. */
  lemma {:induction false} SpanIsWellNested(source: string, open: nat, close: int, n: nat)
    requires open < |source| && Closes(source, open, close)
    requires forall i :: Closes(source, open, i) ==> close <= i
    requires n <= close - open - 1
    ensures var span := source[open + 1..close];
            && Level(span[..n], '(', ')') == Balance(span[..n], '(', ')')
            && After(span).quote.None? && Level(span, '(', ')') == 0
  {
    var span := source[open + 1..close];
    forall m | 0 <= m <= |span|
      ensures Balance(span[..m], '(', ')') >= 0
    {
      SpanNeverDips(source, open, close, m);
    }
    LevelIsBalance(span, '(', ')');
    forall m | 0 <= m <= |span[..n]|
      ensures Balance(span[..n][..m], '(', ')') >= 0
    {
      PrefixOfPrefix(span, m, n);
    }
    LevelIsBalance(span[..n], '(', ')');
    assert source[open + 1..][..close - open - 1] == span;
  }
}
