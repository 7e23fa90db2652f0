/** Rewriting the lines between two markers of a document. */
module MarkerBlock {
  import opened Text

  /** `text.lastIndexOf("\n", upTo)`. */
  function LastNewline(text: string, upTo: int): (r: int)
    ensures -1 <= r && (r <= upTo || r == -1)
    ensures r != -1 ==> r < |text| && text[r] == '\n'
    ensures forall i | r < i <= upTo && i < |text| :: text[i] != '\n'
    decreases upTo + 1
  {
    if upTo < 0 then -1
    else if upTo < |text| && text[upTo] == '\n' then upTo
    else LastNewline(text, upTo - 1)
  }

  /** `text.slice(from, to)`. */
  function Slice(text: string, from: nat, to: nat): string
    requires from <= |text| && to <= |text|
  {
    if from <= to then text[from..to] else ""
  }

  // ---------- The rewrite ----------

  datatype Parts = Parts(before: string, indent: string, after: string)

  /** What the rewrite keeps of a text: the lines before the start marker's, its indentation, and the lines
      after the end marker's. */
  function Locate(text: string, startMarker: string, endMarker: string): Result<Parts> {
    var startIndex := IndexOf(text, startMarker, 0);
    if startIndex == -1 then Err("Missing start marker: " + startMarker)
    else
      var endIndex := IndexOf(text, endMarker, startIndex);
      if endIndex == -1 then Err("Missing end marker: " + endMarker)
      else
        var startLineStartIndex := LastNewline(text, startIndex) + 1;
        var endLineEnd := IndexOf(text, "\n", endIndex);
        var endLineEndIndex := if endLineEnd == -1 then |text| else endLineEnd + 1;
        Ok(Parts(text[..startLineStartIndex], Slice(text, startLineStartIndex, startIndex), text[endLineEndIndex..]))
  }

  function Join(lines: seq<string>): string {
    if lines == [] then ""
    else if |lines| == 1 then lines[0]
    else lines[0] + "\n" + Join(lines[1..])
  }

  function Indented(indent: string, lines: seq<string>): (r: seq<string>)
    ensures |r| == |lines| && forall i | 0 <= i < |lines| :: r[i] == indent + lines[i]
  {
    if lines == [] then [] else [indent + lines[0]] + Indented(indent, lines[1..])
  }

  function Render(p: Parts, startMarker: string, endMarker: string, lines: seq<string>): string {
    var replacement := Join([p.indent + startMarker] + Indented(p.indent, lines) + [p.indent + endMarker]);
    if p.after == "" then p.before + replacement else p.before + replacement + "\n" + p.after
  }

  function ReplaceBlockLines(text: string, startMarker: string, endMarker: string, lines: seq<string>): Result<string> {
    var parts := Locate(text, startMarker, endMarker);
    if parts.Err? then Err(parts.error) else Ok(Render(parts.value, startMarker, endMarker, lines))
  }

  // ---------- What is kept ----------

  predicate WholeLines(s: string) {
    s == "" || s[|s| - 1] == '\n'
  }

  predicate AtNewline(text: string, i: nat) {
    i < |text| && text[i] == '\n'
  }

  /** The text is cut into the lines before the start marker's, the block, and the lines after the end marker's.
      The first start marker begins the block after its indentation; the first end marker from there on lies on
      the block's last line. A start marker that begins with a newline leaves that newline to the lines before. */
  ghost predicate IsCut(text: string, startMarker: string, endMarker: string, p: Parts, block: string, start: nat) {
    && start == IndexOf(text, startMarker, 0)
    && text == p.before + block + p.after
    && WholeLines(p.before)
    && '\n' !in p.indent
    && (if AtNewline(text, start) then p.indent == "" && start + 1 == |p.before| else start == |p.before| + |p.indent|)
    && ('\n' !in startMarker ==> p.indent + startMarker <= block)
    && LastLineHolds(text, endMarker, start, |p.before| + |block|)
  }

  /** The first end marker from `start` on lies on the line that ends at `stop`. */
  ghost predicate LastLineHolds(text: string, endMarker: string, start: nat, stop: nat) {
    IndexOf(text, endMarker, start) != -1 && EndsLine(text, IndexOf(text, endMarker, start), stop)
  }

  /** The line of a position ends at `stop`, its newline included. */
  predicate EndsLine(text: string, from: nat, stop: nat) {
    && stop <= |text|
    && (forall i | from <= i < stop - 1 :: text[i] != '\n')
    && ((from < stop && text[stop - 1] == '\n') || (stop == |text| && forall i | from <= i < stop :: text[i] != '\n'))
  }

  lemma {:induction false} NewlineAt(text: string, i: int)
    requires 0 <= i < |text|
    ensures OccursAt(text, "\n", i) <==> text[i] == '\n'
  {
    assert text[i..i + 1] == [text[i]];
  }

  /** Looking for a newline finds the first one. */
  lemma {:induction false} NewlineFound(text: string, from: nat)
    requires from <= |text|
    ensures var r := IndexOf(text, "\n", from);
            && (forall i | from <= i < (if r == -1 then |text| else r) :: text[i] != '\n')
            && (r != -1 ==> text[r] == '\n')
  {
    var r := IndexOf(text, "\n", from);
    IndexOfFinds(text, "\n", from);
    forall i | from <= i < |text| ensures OccursAt(text, "\n", i) <==> text[i] == '\n' {
      NewlineAt(text, i);
    }
  }

  lemma {:induction false} LineEnd(text: string, from: nat)
    requires from <= |text|
    ensures from <= StopOf(text, from) && EndsLine(text, from, StopOf(text, from))
    ensures from < |text| ==> from < StopOf(text, from)
  {
    NewlineFound(text, from);
  }

  predicate StartsPlainly(marker: string) {
    marker != "" && marker[0] != '\n'
  }

  lemma {:induction false} PlainStart(text: string, marker: string, at: nat)
    requires StartsPlainly(marker) && OccursAt(text, marker, at)
    ensures !AtNewline(text, at)
  {
    assert text[at] == text[at..at + |marker|][0] == marker[0];
  }

  /** The indentation is what stands before the marker on its line. */
  lemma {:induction false} IndentOf(text: string, startIndex: nat)
    requires startIndex <= |text| && !AtNewline(text, startIndex)
    ensures var lineStart := LastNewline(text, startIndex) + 1;
            && lineStart <= startIndex
            && text[..lineStart] + text[lineStart..startIndex] == text[..startIndex]
            && WholeLines(text[..lineStart])
            && '\n' !in text[lineStart..startIndex]
  {
    var lineStart := LastNewline(text, startIndex) + 1;
    forall c | c in text[lineStart..startIndex] ensures c != '\n' {
      var k :| 0 <= k < startIndex - lineStart && text[lineStart..startIndex][k] == c;
      assert text[lineStart + k] == c;
    }
  }

  /** Every text with both markers is cut this way, so only the block is rewritten. */
  lemma {:induction false} LocateCuts(text: string, startMarker: string, endMarker: string)
    returns (p: Parts, block: string, start: nat)
    requires Locate(text, startMarker, endMarker).Ok?
    ensures Locate(text, startMarker, endMarker) == Ok(p)
    ensures IsCut(text, startMarker, endMarker, p, block, start)
  {
    start := IndexOf(text, startMarker, 0);
    IndexOfFinds(text, startMarker, 0);
    var endIndex := IndexOf(text, endMarker, start);
    LineEnd(text, endIndex);
    var lineStart := LastNewline(text, start) + 1;
    var stop := StopOf(text, endIndex);
    p := Parts(text[..lineStart], Slice(text, lineStart, start), text[stop..]);
    block := if lineStart <= stop then text[lineStart..stop] else "";
    if AtNewline(text, start) {
      CutAfterNewline(text, startMarker, endMarker, p, block, start, endIndex, stop);
    } else {
      CutAt(text, startMarker, endMarker, p, block, lineStart, start, endIndex, stop);
    }
  }

  /** Where the line of a position ends. */
  function StopOf(text: string, from: nat): nat {
    var newline := IndexOf(text, "\n", from);
    if newline == -1 then |text| else newline + 1
  }

  lemma {:induction false} CutAt(text: string, startMarker: string, endMarker: string, p: Parts, block: string,
                                 lineStart: nat, start: nat, endIndex: nat, stop: nat)
    requires start == IndexOf(text, startMarker, 0) && !AtNewline(text, start)
             && lineStart == LastNewline(text, start) + 1
    requires endIndex == IndexOf(text, endMarker, start) && EndsLine(text, endIndex, stop) && start <= stop
    requires p == Parts(text[..lineStart], Slice(text, lineStart, start), text[stop..])
    requires block == if lineStart <= stop then text[lineStart..stop] else ""
    ensures IsCut(text, startMarker, endMarker, p, block, start)
  {
    IndentOf(text, start);
    IndexOfFinds(text, startMarker, 0);
    if '\n' !in startMarker {
      MarkerOnLine(text, startMarker, start, endIndex, stop);
      MarkerInBlock(text, startMarker, lineStart, start, stop);
    }
    ThreePieces(text, lineStart, stop);
    Assemble(text, startMarker, endMarker, p, block, start, stop);
  }

  lemma {:induction false} CutAfterNewline(text: string, startMarker: string, endMarker: string, p: Parts,
                                           block: string, start: nat, endIndex: nat, stop: nat)
    requires start == IndexOf(text, startMarker, 0) && AtNewline(text, start)
    requires endIndex == IndexOf(text, endMarker, start) && EndsLine(text, endIndex, stop) && start < stop
    requires p == Parts(text[..start + 1], "", text[stop..]) && block == text[start + 1..stop]
    ensures IsCut(text, startMarker, endMarker, p, block, start)
  {
    IndexOfFinds(text, startMarker, 0);
    if '\n' !in startMarker && startMarker != "" {
      PlainStart(text, startMarker, start);
    }
    ThreePieces(text, start + 1, stop);
    Assemble(text, startMarker, endMarker, p, block, start, stop);
  }

  lemma {:induction false} Assemble(text: string, startMarker: string, endMarker: string, p: Parts, block: string,
                                    start: nat, stop: nat)
    requires stop == |p.before| + |block|
    requires if AtNewline(text, start) then p.indent == "" && start + 1 == |p.before|
             else start == |p.before| + |p.indent|
    requires text == p.before + block + p.after && WholeLines(p.before) && '\n' !in p.indent
    requires IndexOf(text, startMarker, 0) == start
    requires '\n' !in startMarker ==> p.indent + startMarker <= block
    requires LastLineHolds(text, endMarker, start, stop)
    ensures IsCut(text, startMarker, endMarker, p, block, start)
  {
  }

  lemma {:induction false} ThreePieces(text: string, a: nat, b: nat)
    requires a <= b <= |text|
    ensures text == text[..a] + text[a..b] + text[b..]
  {
  }

  lemma {:induction false} MarkerOnLine(text: string, marker: string, at: nat, from: nat, stop: nat)
    requires OccursAt(text, marker, at) && '\n' !in marker && at <= from && EndsLine(text, from, stop)
    ensures at + |marker| <= stop
  {
    forall i | at <= i < at + |marker| ensures text[i] != '\n' {
      assert text[i] == text[at..at + |marker|][i - at] == marker[i - at];
    }
  }

  lemma {:induction false} MarkerInBlock(text: string, marker: string, from: nat, at: nat, stop: nat)
    requires from <= at && at + |marker| <= stop <= |text| && OccursAt(text, marker, at)
    ensures text[from..at] + marker <= text[from..stop]
  {
    assert text[from..at] + marker == text[from..at + |marker|];
    assert text[from..at + |marker|] == text[from..stop][..at + |marker| - from];
  }

  // ---------- Rewriting twice ----------

  /** The rendered block from its start marker on. */
  function Block(indent: string, startMarker: string, endMarker: string, lines: seq<string>): string {
    Join([startMarker] + Indented(indent, lines) + [indent + endMarker])
  }

  function Tail(after: string): string {
    if after == "" then "" else "\n" + after
  }

  predicate NoNewlineIn(text: string, from: nat, to: int)
    requires to <= |text|
  {
    forall i | from <= i < to :: text[i] != '\n'
  }

  /** The line of the block's first end marker ends with the block: no newline stands in between, except that
      a block at the end of the text may end in one. */
  predicate SettlesAtFirstMarker(block: string, endMarker: string, after: string) {
    var first := IndexOf(block, endMarker, 0);
    && 0 <= first < |block|
    && NoNewlineIn(block, first, if after == "" then |block| - 1 else |block|)
  }

  /** No line ends between the first end marker and the end of the block. */
  predicate EndsAtFirstMarker(block: string, endMarker: string) {
    var first := IndexOf(block, endMarker, 0);
    first != -1 && NoNewlineIn(block, first, |block|)
  }

  lemma {:induction false} JoinPrefix(prefix: string, first: string, rest: seq<string>)
    ensures Join([prefix + first] + rest) == prefix + Join([first] + rest)
  {
    if rest != [] {
      assert ([prefix + first] + rest)[1..] == rest && ([first] + rest)[1..] == rest;
    }
  }

  /** The block, line by line: each line on a line of its own, and each but the first indented. */
  lemma {:induction false} BlockLineByLine(indent: string, startMarker: string, endMarker: string, line: string,
                                           rest: seq<string>)
    ensures Block(indent, startMarker, endMarker, []) == startMarker + "\n" + (indent + endMarker)
    ensures Block(indent, startMarker, endMarker, [line] + rest) ==
            startMarker + "\n" + Block(indent, indent + line, endMarker, rest)
  {
    var tail := [indent + endMarker];
    assert [startMarker] + Indented(indent, []) + tail == [startMarker] + tail;
    JoinMore(startMarker, tail);
    var rest' := Indented(indent, rest) + tail;
    assert ([line] + rest)[1..] == rest;
    assert [startMarker] + Indented(indent, [line] + rest) + tail == [startMarker] + ([indent + line] + rest');
    JoinMore(startMarker, [indent + line] + rest');
    assert [indent + line] + Indented(indent, rest) + tail == [indent + line] + rest';
  }

  lemma {:induction false} JoinMore(first: string, rest: seq<string>)
    requires rest != []
    ensures Join([first] + rest) == first + "\n" + Join(rest)
  {
    assert ([first] + rest)[1..] == rest;
  }

  lemma {:induction false} RenderIsBlock(p: Parts, startMarker: string, endMarker: string, lines: seq<string>)
    ensures Render(p, startMarker, endMarker, lines) ==
            p.before + p.indent + Block(p.indent, startMarker, endMarker, lines) + Tail(p.after)
  {
    var rest := Indented(p.indent, lines) + [p.indent + endMarker];
    JoinPrefix(p.indent, startMarker, rest);
    assert [p.indent + startMarker] + Indented(p.indent, lines) + [p.indent + endMarker]
      == [p.indent + startMarker] + rest;
    assert [startMarker] + Indented(p.indent, lines) + [p.indent + endMarker] == [startMarker] + rest;
  }

  /** A joined list starts with its first line and ends with its last. */
  lemma {:induction false} JoinEnds(lines: seq<string>)
    requires lines != []
    ensures var joined := Join(lines); var first, last := lines[0], lines[|lines| - 1];
            && |joined| >= |first| && joined[..|first|] == first
            && |joined| >= |last| && joined[|joined| - |last|..] == last
            && (|lines| > 1 ==> |joined| > |first| + |last|)
  {
    if |lines| > 1 {
      JoinEnds(lines[1..]);
      var rest := Join(lines[1..]);
      var last := lines[|lines| - 1];
      assert Join(lines) == lines[0] + "\n" + rest;
      assert Join(lines)[|Join(lines)| - |last|..] == rest[|rest| - |last|..];
    }
  }

  lemma {:induction false} BlockEnds(indent: string, startMarker: string, endMarker: string, lines: seq<string>)
    ensures var block := Block(indent, startMarker, endMarker, lines);
            && |block| >= |startMarker| && block[..|startMarker|] == startMarker
            && |block| >= |endMarker| && OccursAt(block, endMarker, |block| - |endMarker|)
  {
    var all := [startMarker] + Indented(indent, lines) + [indent + endMarker];
    JoinEnds(all);
    var block, last := Join(all), indent + endMarker;
    assert all[|all| - 1] == last;
    assert block[|block| - |endMarker|..] == last[|indent|..] by {
      assert block[|block| - |last|..][|indent|..] == block[|block| - |endMarker|..];
    }
    assert last[|indent|..] == endMarker;
    assert block[|block| - |endMarker|..|block|] == block[|block| - |endMarker|..];
  }

  /** Where a needle first occurs depends only on the text up to that place. */
  lemma {:induction false} FirstStays(text: string, other: string, needle: string, from: nat, at: nat)
    requires IndexOf(text, needle, from) == at
    requires at + |needle| <= |other| && text[..at + |needle|] == other[..at + |needle|]
    ensures IndexOf(other, needle, from) == at
  {
    IndexIsFirst(text, needle, from, at);
    SameFirst(text, other, needle, from, at);
    IndexIsFirst(other, needle, from, at);
  }

  lemma {:induction false} SameFirst(text: string, other: string, needle: string, from: nat, at: nat)
    requires IsFirst(text, needle, from, at)
    requires at + |needle| <= |other| && text[..at + |needle|] == other[..at + |needle|]
    ensures IsFirst(other, needle, from, at)
  {
    forall i | from <= i <= at ensures OccursAt(other, needle, i) <==> OccursAt(text, needle, i) {
      SameSlice(text, other, at + |needle|, i, i + |needle|);
    }
  }

  lemma {:induction false} SameSlice(text: string, other: string, stop: nat, a: nat, b: nat)
    requires a <= b <= stop <= |text| && stop <= |other| && text[..stop] == other[..stop]
    ensures text[a..b] == other[a..b]
  {
    TakeThenSlice(text, stop, a, b);
    TakeThenSlice(other, stop, a, b);
  }

  lemma {:induction false} TakeThenSlice(text: string, stop: nat, a: nat, b: nat)
    requires a <= b <= stop <= |text|
    ensures text[..stop][a..b] == text[a..b]
  {
  }

  lemma {:induction false} LastNewlineStays(text: string, other: string, upTo: int)
    requires -1 <= upTo < |text| && upTo < |other| && text[..upTo + 1] == other[..upTo + 1]
    ensures LastNewline(other, upTo) == LastNewline(text, upTo)
    decreases upTo + 1
  {
    if upTo >= 0 {
      assert text[upTo] == text[..upTo + 1][upTo] && other[upTo] == other[..upTo + 1][upTo];
      assert text[..upTo] == text[..upTo + 1][..upTo] && other[..upTo] == other[..upTo + 1][..upTo];
      LastNewlineStays(text, other, upTo - 1);
    }
  }

  /** The text holds the block from `start` on. */
  predicate HoldsAt(text: string, block: string, start: nat) {
    start + |block| <= |text| && forall j | start <= j < start + |block| :: text[j] == block[j - start]
  }

  /** From `stop` on the text goes on with what follows the block. */
  predicate GoesOn(text: string, stop: nat, after: string) {
    if after == "" then stop == |text| else stop < |text| && text[stop] == '\n' && text[stop + 1..] == after
  }

  lemma {:induction false} Layout(text: string, head: string, block: string, after: string)
    requires text == head + block + Tail(after)
    ensures |head| <= |text| && text[..|head|] == head
    ensures HoldsAt(text, block, |head|) && GoesOn(text, |head| + |block|, after)
  {
    HeldIn(head, block, Tail(after));
    if after != "" {
      DropHead(head + block, after);
    }
  }

  lemma {:induction false} HeldIn(head: string, block: string, tail: string)
    ensures HoldsAt(head + block + tail, block, |head|)
    ensures (head + block + tail)[..|head|] == head
  {
  }

  lemma {:induction false} DropHead(head: string, after: string)
    ensures (head + ("\n" + after))[|head| + 1..] == after
  {
  }

  lemma {:induction false} HeldSlice(text: string, block: string, start: nat, a: nat, b: nat)
    requires HoldsAt(text, block, start) && a <= b <= |block|
    ensures text[start + a..start + b] == block[a..b]
  {
    forall i | 0 <= i < b - a ensures text[start + a..start + b][i] == block[a..b][i] {
      assert text[start + a + i] == block[a + i];
    }
  }

  /** A needle that occurs in a held block occurs there first if the search starts where the block does. */
  lemma {:induction false} FirstInBlock(text: string, block: string, start: nat, needle: string, k: nat)
    requires HoldsAt(text, block, start) && IndexOf(block, needle, 0) == k
    ensures IndexOf(text, needle, start) == start + k
  {
    IndexOfFinds(block, needle, 0);
    forall i | start <= i <= start + k ensures OccursAt(text, needle, i) <==> OccursAt(block, needle, i - start) {
      HeldSlice(text, block, start, i - start, i - start + |needle|);
    }
    IndexIsFirst(text, needle, start, start + k);
  }

  function AfterLine(text: string, from: nat): string {
    var newline := IndexOf(text, "\n", from);
    if newline == -1 then "" else text[newline + 1..]
  }

  lemma {:induction false} FirstNewline(text: string, from: nat, at: nat)
    requires from <= at < |text| && text[at] == '\n' && NoNewlineIn(text, from, at)
    ensures AfterLine(text, from) == text[at + 1..]
  {
    forall i | from <= i <= at ensures OccursAt(text, "\n", i) <==> i == at {
      NewlineAt(text, i);
    }
    IndexIsFirst(text, "\n", from, at);
  }

  lemma {:induction false} NoNewline(text: string, from: nat)
    requires from <= |text| && NoNewlineIn(text, from, |text|)
    ensures AfterLine(text, from) == ""
  {
    NewlineFound(text, from);
  }

  /** What follows the line of the first end marker in a rendered text. */
  lemma {:induction false} AfterFirstMarker(text: string, block: string, after: string, start: nat, k: nat)
    requires HoldsAt(text, block, start) && GoesOn(text, start + |block|, after) && k < |block|
    ensures var rest := AfterLine(text, start + k);
            if NoNewlineIn(block, k, if after == "" then |block| - 1 else |block|) then rest == after
            else |Tail(rest)| > |Tail(after)|
  {
    if NoNewlineIn(block, k, |block|) {
      LastLine(text, block, after, start, k);
    } else {
      var j := FirstNewlineIn(block, k);
      EarlierLine(text, block, after, start, k, j);
    }
  }

  lemma {:induction false} LastLine(text: string, block: string, after: string, start: nat, k: nat)
    requires HoldsAt(text, block, start) && GoesOn(text, start + |block|, after)
    requires k < |block| && NoNewlineIn(block, k, |block|)
    ensures AfterLine(text, start + k) == after
  {
    assert NoNewlineIn(text, start + k, start + |block|);
    if after == "" {
      NoNewline(text, start + k);
    } else {
      FirstNewline(text, start + k, start + |block|);
    }
  }

  lemma {:induction false} EarlierLine(text: string, block: string, after: string, start: nat, k: nat, j: nat)
    requires HoldsAt(text, block, start) && GoesOn(text, start + |block|, after)
    requires k <= j < |block| && block[j] == '\n' && NoNewlineIn(block, k, j)
    ensures var rest := AfterLine(text, start + k);
            if after == "" && j == |block| - 1 then rest == "" else |Tail(rest)| > |Tail(after)|
  {
    assert text[start + j] == '\n' && NoNewlineIn(text, start + k, start + j);
    FirstNewline(text, start + k, start + j);
    assert |text| == start + |block| + |Tail(after)|;
  }

  lemma {:induction false} FirstNewlineIn(block: string, k: nat) returns (j: nat)
    requires k <= |block| && !NoNewlineIn(block, k, |block|)
    ensures k <= j < |block| && block[j] == '\n' && NoNewlineIn(block, k, j)
    decreases |block| - k
  {
    if block[k] == '\n' {
      j := k;
    } else {
      j := FirstNewlineIn(block, k + 1);
    }
  }

  predicate OneLine(marker: string) {
    marker != "" && '\n' !in marker
  }

  lemma {:induction false} BlockEndsOnMarker(indent: string, startMarker: string, endMarker: string, lines: seq<string>)
    requires OneLine(endMarker)
    ensures var block := Block(indent, startMarker, endMarker, lines);
            && IndexOf(block, endMarker, 0) != -1
            && IndexOf(block, endMarker, 0) < |block|
            && block[|block| - 1] != '\n'
  {
    BlockEnds(indent, startMarker, endMarker, lines);
    var block := Block(indent, startMarker, endMarker, lines);
    FoundBy(block, endMarker, 0, |block| - |endMarker|);
    assert block[|block| - 1] == block[|block| - |endMarker|..|block|][|endMarker| - 1];
  }

  lemma {:induction false} BlockHasMarker(indent: string, startMarker: string, endMarker: string, lines: seq<string>)
    requires startMarker != ""
    ensures var block := Block(indent, startMarker, endMarker, lines);
            0 <= IndexOf(block, endMarker, 0) < |block|
  {
    BlockEnds(indent, startMarker, endMarker, lines);
    var block := Block(indent, startMarker, endMarker, lines);
    FoundBy(block, endMarker, 0, if endMarker == "" then 0 else |block| - |endMarker|);
  }

  lemma {:induction false} StartStays(text: string, result: string, marker: string, start: nat)
    requires marker != "" && IndexOf(text, marker, 0) == start
    requires start + |marker| <= |result| && text[..start + |marker|] == result[..start + |marker|]
    ensures IndexOf(result, marker, 0) == start && LastNewline(result, start) == LastNewline(text, start)
  {
    FirstStays(text, result, marker, 0, start);
    SameSlice(text, result, start + |marker|, 0, start + 1);
    LastNewlineStays(text, result, start);
  }

  lemma {:induction false} HeadOf(text: string, startMarker: string, endMarker: string)
    requires StartsPlainly(startMarker) && Locate(text, startMarker, endMarker).Ok?
    ensures var p := Locate(text, startMarker, endMarker).value;
            var start := IndexOf(text, startMarker, 0);
            && p.before == text[..LastNewline(text, start) + 1]
            && p.before + p.indent == text[..start]
            && p.after == AfterLine(text, IndexOf(text, endMarker, start))
  {
    IndexOfFinds(text, startMarker, 0);
    PlainStart(text, startMarker, IndexOf(text, startMarker, 0));
    IndentOf(text, IndexOf(text, startMarker, 0));
  }

  /** A rewritten text is cut where it was before: the lines before and the indentation are the same. The lines
      after are the same when the line of the block's first end marker ends with it, and more otherwise. */
  lemma {:induction false} LocateRewritten(text: string, startMarker: string, endMarker: string, lines: seq<string>)
    requires StartsPlainly(startMarker) && Locate(text, startMarker, endMarker).Ok?
    ensures var p := Locate(text, startMarker, endMarker).value;
            var again := Locate(Render(p, startMarker, endMarker, lines), startMarker, endMarker);
            && again.Ok? && again.value.before == p.before && again.value.indent == p.indent
            && if SettlesAtFirstMarker(Block(p.indent, startMarker, endMarker, lines), endMarker, p.after)
               then again.value.after == p.after
               else |Tail(again.value.after)| > |Tail(p.after)|
  {
    var p := Locate(text, startMarker, endMarker).value;
    var rest := Relocate(text, startMarker, endMarker, lines, p);
  }

  lemma {:induction false} Relocate(text: string, startMarker: string, endMarker: string, lines: seq<string>,
                                    p: Parts) returns (rest: string)
    requires StartsPlainly(startMarker) && Locate(text, startMarker, endMarker) == Ok(p)
    ensures Locate(Render(p, startMarker, endMarker, lines), startMarker, endMarker)
            == Ok(Parts(p.before, p.indent, rest))
    ensures if SettlesAtFirstMarker(Block(p.indent, startMarker, endMarker, lines), endMarker, p.after)
            then rest == p.after
            else |Tail(rest)| > |Tail(p.after)|
  {
    var block := Block(p.indent, startMarker, endMarker, lines);
    HeadOf(text, startMarker, endMarker);
    RenderIsBlock(p, startMarker, endMarker, lines);
    BlockEnds(p.indent, startMarker, endMarker, lines);
    BlockHasMarker(p.indent, startMarker, endMarker, lines);
    var k := IndexOf(block, endMarker, 0);
    var start := IndexOf(text, startMarker, 0);
    var result := Render(p, startMarker, endMarker, lines);
    Layout(result, text[..start], block, p.after);
    RenderedStart(text, startMarker, block, start, result);
    rest := LocateRendered(startMarker, endMarker, p, block, start, k, result);
  }

  lemma {:induction false} LocateRendered(startMarker: string, endMarker: string, p: Parts, block: string, start: nat,
                                          k: nat, result: string) returns (rest: string)
    requires start == |p.before| + |p.indent| && start <= |result| && result[..start] == p.before + p.indent
    requires IndexOf(result, startMarker, 0) == start && LastNewline(result, start) + 1 == |p.before|
    requires IndexOf(block, endMarker, 0) == k < |block|
    requires HoldsAt(result, block, start) && GoesOn(result, start + |block|, p.after)
    ensures Locate(result, startMarker, endMarker) == Ok(Parts(p.before, p.indent, rest))
    ensures if SettlesAtFirstMarker(block, endMarker, p.after) then rest == p.after else |Tail(rest)| > |Tail(p.after)|
  {
    rest := RenderedEnd(result, block, p.after, endMarker, start, k);
    LocateFrom(result, startMarker, endMarker, p.before, p.indent, start, start + k);
  }

  lemma {:induction false} RenderedEnd(text: string, block: string, after: string, endMarker: string, start: nat,
                                       k: nat) returns (rest: string)
    requires IndexOf(block, endMarker, 0) == k < |block|
    requires HoldsAt(text, block, start) && GoesOn(text, start + |block|, after)
    ensures IndexOf(text, endMarker, start) == start + k && rest == AfterLine(text, start + k)
    ensures if SettlesAtFirstMarker(block, endMarker, after) then rest == after else |Tail(rest)| > |Tail(after)|
  {
    rest := AfterLine(text, start + k);
    FirstInBlock(text, block, start, endMarker, k);
    AfterFirstMarker(text, block, after, start, k);
  }

  lemma {:induction false} RenderedStart(text: string, startMarker: string, block: string, start: nat, result: string)
    requires startMarker != "" && IndexOf(text, startMarker, 0) == start
    requires start <= |result| && text[..start] == result[..start] && HoldsAt(result, block, start)
    requires |startMarker| <= |block| && block[..|startMarker|] == startMarker
    ensures IndexOf(result, startMarker, 0) == start && LastNewline(result, start) == LastNewline(text, start)
  {
    IndexOfFinds(text, startMarker, 0);
    HeldSlice(result, block, start, 0, |startMarker|);
    SamePrefix(text, result, start, start + |startMarker|);
    StartStays(text, result, startMarker, start);
  }

  lemma {:induction false} SamePrefix(a: string, b: string, n: nat, m: nat)
    requires n <= m <= |a| && m <= |b| && a[..n] == b[..n] && a[n..m] == b[n..m]
    ensures a[..m] == b[..m]
  {
    assert a[..m] == a[..n] + a[n..m] && b[..m] == b[..n] + b[n..m];
  }

  lemma {:induction false} LocateFrom(text: string, startMarker: string, endMarker: string, before: string,
                                      indent: string, start: nat, end: nat)
    requires start == |before| + |indent| && start <= |text| && text[..start] == before + indent
    requires IndexOf(text, startMarker, 0) == start && IndexOf(text, endMarker, start) == end
    requires LastNewline(text, start) + 1 == |before|
    ensures Locate(text, startMarker, endMarker) == Ok(Parts(before, indent, AfterLine(text, end)))
  {
    TwoPieces(text, before, indent, start);
    assert text[|text|..] == "";
  }

  lemma {:induction false} TwoPieces(text: string, before: string, indent: string, start: nat)
    requires start == |before| + |indent| && start <= |text| && text[..start] == before + indent
    ensures text[..|before|] == before && text[|before|..start] == indent
  {
    TakeThenSlice(text, start, 0, |before|);
    TakeThenSlice(text, start, |before|, start);
  }

  /** After a rewrite whose block settles at its first end marker, only the last rewrite counts: the
      earlier lines leave no trace. */
  lemma {:induction false} LastRewriteWins(text: string, startMarker: string, endMarker: string, first: seq<string>,
                                           last: seq<string>)
    requires StartsPlainly(startMarker)
    requires ReplaceBlockLines(text, startMarker, endMarker, first).Ok?
    requires var p := Locate(text, startMarker, endMarker).value;
             SettlesAtFirstMarker(Block(p.indent, startMarker, endMarker, first), endMarker, p.after)
    ensures ReplaceBlockLines(
              ReplaceBlockLines(text, startMarker, endMarker, first).value, startMarker, endMarker, last)
         == ReplaceBlockLines(text, startMarker, endMarker, last)
  {
    LocateRewritten(text, startMarker, endMarker, first);
  }

  /** Rewriting twice with the same lines is the same as rewriting once exactly when the line of the rendered
      block's first end marker ends with the block; otherwise the text grows. */
  lemma {:induction false} IdempotentIffBlockSettles(text: string, startMarker: string, endMarker: string,
                                                     lines: seq<string>)
    requires StartsPlainly(startMarker)
    requires ReplaceBlockLines(text, startMarker, endMarker, lines).Ok?
    ensures var once := ReplaceBlockLines(text, startMarker, endMarker, lines);
            var twice := ReplaceBlockLines(once.value, startMarker, endMarker, lines);
            var p := Locate(text, startMarker, endMarker).value;
            var block := Block(p.indent, startMarker, endMarker, lines);
            && twice.Ok?
            && (twice == once <==> SettlesAtFirstMarker(block, endMarker, p.after))
            && (twice != once ==> |twice.value| > |once.value|)
  {
    var p := Locate(text, startMarker, endMarker).value;
    LocateRewritten(text, startMarker, endMarker, lines);
    var again := Locate(Render(p, startMarker, endMarker, lines), startMarker, endMarker).value;
    RenderIsBlock(p, startMarker, endMarker, lines);
    RenderIsBlock(again, startMarker, endMarker, lines);
  }

  /** For markers and lines without newlines, that is the case exactly when no end marker stands in the start
      marker or in an indented line. */
  lemma {:induction false} IdempotentIffNoEarlierEndMarker(text: string, startMarker: string, endMarker: string,
                                                           lines: seq<string>)
    requires OneLine(startMarker) && OneLine(endMarker) && forall line | line in lines :: '\n' !in line
    requires ReplaceBlockLines(text, startMarker, endMarker, lines).Ok?
    ensures var once := ReplaceBlockLines(text, startMarker, endMarker, lines);
            var indent := Locate(text, startMarker, endMarker).value.indent;
            ReplaceBlockLines(once.value, startMarker, endMarker, lines) == once <==>
            !Contains(startMarker, endMarker) && forall line | line in lines :: !Contains(indent + line, endMarker)
  {
    IdempotentIffBlockSettles(text, startMarker, endMarker, lines);
    var startIndex := IndexOf(text, startMarker, 0);
    IndexOfFinds(text, startMarker, 0);
    PlainStart(text, startMarker, startIndex);
    IndentOf(text, startIndex);
    var p := Locate(text, startMarker, endMarker).value;
    BlockWithoutNewlines(p.indent, startMarker, endMarker, lines);
    BlockEndsOnMarker(p.indent, startMarker, endMarker, lines);
    SettlesIffEnds(Block(p.indent, startMarker, endMarker, lines), endMarker, p.after);
  }

  lemma {:induction false} SettlesIffEnds(block: string, endMarker: string, after: string)
    requires 0 <= IndexOf(block, endMarker, 0) < |block| && block[|block| - 1] != '\n'
    ensures SettlesAtFirstMarker(block, endMarker, after) <==> EndsAtFirstMarker(block, endMarker)
  {
  }

  /** A line that is the end marker itself makes the text of two marked lines grow with every rewrite. */
  lemma {:induction false} EndMarkerAsLineGrows(startMarker: string, endMarker: string)
    requires OneLine(startMarker) && OneLine(endMarker) && !Contains(startMarker, endMarker)
    ensures var text := startMarker + "\n" + (endMarker + "\n");
            var once := ReplaceBlockLines(text, startMarker, endMarker, [endMarker]);
            && once.Ok?
            && var twice := ReplaceBlockLines(once.value, startMarker, endMarker, [endMarker]);
            && twice.Ok? && |twice.value| > |once.value|
  {
    var text := startMarker + "\n" + (endMarker + "\n");
    TwoLinesLocated(startMarker, endMarker);
    assert StartsPlainly(startMarker);
    IdempotentIffBlockSettles(text, startMarker, endMarker, [endMarker]);
    IdempotentIffNoEarlierEndMarker(text, startMarker, endMarker, [endMarker]);
    assert "" + endMarker == endMarker;
    FoundBy(endMarker, endMarker, 0, 0);
    assert [endMarker][0] == endMarker;
  }

  predicate NoneContains(lines: seq<string>, endMarker: string) {
    forall i | 0 <= i < |lines| :: !Contains(lines[i], endMarker)
  }

  predicate AllOneLine(lines: seq<string>) {
    forall i | 0 <= i < |lines| :: '\n' !in lines[i]
  }

  lemma {:induction false} BlockWithoutNewlines(indent: string, startMarker: string, endMarker: string,
                                                lines: seq<string>)
    requires '\n' !in indent && '\n' !in startMarker && OneLine(endMarker)
             && forall line | line in lines :: '\n' !in line
    ensures EndsAtFirstMarker(Block(indent, startMarker, endMarker, lines), endMarker) <==>
            !Contains(startMarker, endMarker) && forall line | line in lines :: !Contains(indent + line, endMarker)
  {
    var earlier := [startMarker] + Indented(indent, lines);
    var last := indent + endMarker;
    assert last[|indent|..|last|] == endMarker;
    FoundBy(last, endMarker, 0, |indent|);
    JoinEndsAtFirst(earlier, last, endMarker);
    assert earlier[0] == startMarker;
    assert forall i | 0 <= i < |lines| :: earlier[i + 1] == indent + lines[i];
    if NoneContains(earlier, endMarker) {
      forall line | line in lines ensures !Contains(indent + line, endMarker) {
        var i :| 0 <= i < |lines| && lines[i] == line;
        assert earlier[i + 1] == indent + line;
      }
    }
    if !Contains(startMarker, endMarker) && forall line | line in lines :: !Contains(indent + line, endMarker) {
      forall i | 0 <= i < |earlier| ensures !Contains(earlier[i], endMarker) {
        assert i > 0 ==> earlier[i] == indent + lines[i - 1] && lines[i - 1] in lines;
      }
    }
  }

  lemma {:induction false} JoinEndsAtFirst(earlier: seq<string>, last: string, endMarker: string)
    requires AllOneLine(earlier) && '\n' !in last && OneLine(endMarker) && Contains(last, endMarker)
    ensures EndsAtFirstMarker(Join(earlier + [last]), endMarker) <==> NoneContains(earlier, endMarker)
  {
    if earlier == [] {
      assert earlier + [last] == [last];
    } else {
      JoinEndsAtFirst(earlier[1..], last, endMarker);
      var rest := Join(earlier[1..] + [last]);
      assert (earlier + [last])[1..] == earlier[1..] + [last];
      assert Join(earlier + [last]) == earlier[0] + "\n" + rest;
      JoinContainsLast(earlier[1..], last, endMarker);
      FirstLineOrRest(earlier[0], rest, endMarker);
      assert NoneContains(earlier, endMarker)
        <==> !Contains(earlier[0], endMarker) && NoneContains(earlier[1..], endMarker) by {
        assert earlier == [earlier[0]] + earlier[1..];
      }
    }
  }

  lemma {:induction false} JoinContainsLast(earlier: seq<string>, last: string, endMarker: string)
    requires Contains(last, endMarker)
    ensures Contains(Join(earlier + [last]), endMarker)
  {
    JoinEnds(earlier + [last]);
    var joined := Join(earlier + [last]);
    var at := IndexOf(last, endMarker, 0);
    var offset := |joined| - |last|;
    IndexOfFinds(last, endMarker, 0);
    assert (earlier + [last])[|earlier|] == last;
    assert joined[offset + at..offset + at + |endMarker|] == joined[offset..][at..at + |endMarker|];
    FoundBy(joined, endMarker, 0, offset + at);
  }

  lemma {:induction false} FirstLineOrRest(line: string, rest: string, endMarker: string)
    requires '\n' !in line && OneLine(endMarker) && Contains(rest, endMarker)
    ensures EndsAtFirstMarker(line + "\n" + rest, endMarker)
            <==> !Contains(line, endMarker) && EndsAtFirstMarker(rest, endMarker)
  {
    var text := line + "\n" + rest;
    if Contains(line, endMarker) {
      var at := IndexOf(line, endMarker, 0);
      assert text[..at + |endMarker|] == line[..at + |endMarker|];
      FirstStays(line, text, endMarker, 0, at);
      assert text[|line|] == '\n';
    } else {
      var at := IndexOf(rest, endMarker, 0);
      FirstInRest(line, rest, endMarker, at);
      assert HoldsAt(text, rest, |line| + 1);
      assert forall i | at <= i < |rest| :: rest[i] == text[|line| + 1 + i];
    }
  }

  lemma {:induction false} FirstInRest(line: string, rest: string, endMarker: string, at: nat)
    requires '\n' !in line && OneLine(endMarker) && !Contains(line, endMarker) && IndexOf(rest, endMarker, 0) == at
    ensures IndexOf(line + "\n" + rest, endMarker, 0) == |line| + 1 + at
  {
    var text := line + "\n" + rest;
    IndexOfFinds(rest, endMarker, 0);
    forall i | 0 <= i <= |line| ensures !OccursAt(text, endMarker, i) {
      NotAcross(line, rest, endMarker, i);
    }
    assert HoldsAt(text, rest, |line| + 1);
    forall i | |line| < i <= |line| + 1 + at
      ensures OccursAt(text, endMarker, i) <==> OccursAt(rest, endMarker, i - |line| - 1)
    {
      HeldSlice(text, rest, |line| + 1, i - |line| - 1, i - |line| - 1 + |endMarker|);
    }
    IndexIsFirst(text, endMarker, 0, |line| + 1 + at);
  }

  lemma {:induction false} NotAcross(line: string, rest: string, endMarker: string, i: nat)
    requires OneLine(endMarker) && !Contains(line, endMarker) && i <= |line|
    ensures !OccursAt(line + "\n" + rest, endMarker, i)
  {
    var text := line + "\n" + rest;
    if i + |endMarker| <= |line| {
      assert text[i..i + |endMarker|] == line[i..i + |endMarker|];
      IndexOfFinds(line, endMarker, 0);
      assert !OccursAt(line, endMarker, i);
    } else if i + |endMarker| <= |text| {
      assert text[i..i + |endMarker|][|line| - i] == '\n';
      assert endMarker[|line| - i] != '\n';
    }
  }

  /** The rewrite fails exactly when a marker is missing: the start marker anywhere, or the end marker from the
      first start marker on. */
  lemma {:induction false} FailsIffAMarkerIsMissing(text: string, startMarker: string, endMarker: string,
                                                    lines: seq<string>)
    ensures ReplaceBlockLines(text, startMarker, endMarker, lines).Err? <==>
            forall s: int, e: int | OccursAt(text, startMarker, s) && s <= e :: !OccursAt(text, endMarker, e)
  {
    IndexOfFinds(text, startMarker, 0);
    var s := IndexOf(text, startMarker, 0);
    if s != -1 {
      IndexOfFinds(text, endMarker, s);
    }
    forall s': int, e': int | OccursAt(text, startMarker, s') && s' <= e' && OccursAt(text, endMarker, e')
      ensures s != -1 && IndexOf(text, endMarker, s) != -1
    {
      FoundBy(text, startMarker, 0, s');
      FoundBy(text, endMarker, s, e');
    }
  }

  // ---------- The end of the text ----------

  predicate EndsInNewline(text: string) {
    text != "" && text[|text| - 1] == '\n'
  }

  /** A final newline survives the rewrite exactly when something follows the end marker's line: if that line is
      the last one, its newline is dropped. */
  lemma {:induction false} FinalNewlineKeptIffSomethingFollows(text: string, startMarker: string, endMarker: string,
          lines: seq<string>)
    requires OneLine(endMarker) && ReplaceBlockLines(text, startMarker, endMarker, lines).Ok?
    ensures EndsInNewline(ReplaceBlockLines(text, startMarker, endMarker, lines).value) <==>
            EndsInNewline(text) && Locate(text, startMarker, endMarker).value.after != ""
  {
    var p := Locate(text, startMarker, endMarker).value;
    var stop := StopOf(text, IndexOf(text, endMarker, IndexOf(text, startMarker, 0)));
    assert p.after == text[stop..];
    RenderedEndsLike(p, startMarker, endMarker, lines);
    LastOfSuffix(text, stop);
  }

  lemma {:induction false} RenderedEndsLike(p: Parts, startMarker: string, endMarker: string, lines: seq<string>)
    requires OneLine(endMarker)
    ensures EndsInNewline(Render(p, startMarker, endMarker, lines)) <==> EndsInNewline(p.after)
  {
    var block := Block(p.indent, startMarker, endMarker, lines);
    RenderIsBlock(p, startMarker, endMarker, lines);
    BlockEndsOnMarker(p.indent, startMarker, endMarker, lines);
    LastOfRendered(p.before + p.indent, block, p.after);
  }

  lemma {:induction false} LastOfRendered(head: string, block: string, after: string)
    requires block != "" && block[|block| - 1] != '\n'
    ensures EndsInNewline(head + block + Tail(after)) <==> EndsInNewline(after)
  {
  }

  lemma {:induction false} LastOfSuffix(text: string, stop: nat)
    requires stop <= |text|
    ensures text[stop..] != "" ==> (EndsInNewline(text[stop..]) <==> EndsInNewline(text))
  {
  }

  /** A text of two marked lines loses its final newline. */
  lemma {:induction false} FinalNewlineCanBeLost(startMarker: string, endMarker: string)
    requires OneLine(startMarker) && OneLine(endMarker) && !Contains(startMarker, endMarker)
    ensures ReplaceBlockLines(startMarker + "\n" + (endMarker + "\n"), startMarker, endMarker, [])
         == Ok(startMarker + "\n" + endMarker)
  {
    TwoLinesLocated(startMarker, endMarker);
    TwoLinesRendered(Parts("", "", ""), startMarker, endMarker);
  }

  lemma {:induction false} TwoLinesRendered(p: Parts, startMarker: string, endMarker: string)
    requires p.before == p.indent == p.after == ""
    ensures Render(p, startMarker, endMarker, []) == startMarker + "\n" + endMarker
  {
    var lines := [p.indent + startMarker] + Indented(p.indent, []) + [p.indent + endMarker];
    assert p.indent + startMarker == startMarker;
    assert p.indent + endMarker == endMarker;
    assert lines[1..] == [endMarker];
    assert p.before + Join(lines) == Join(lines);
  }

  lemma {:induction false} TwoLinesLocated(startMarker: string, endMarker: string)
    requires OneLine(startMarker) && OneLine(endMarker) && !Contains(startMarker, endMarker)
    ensures Locate(startMarker + "\n" + (endMarker + "\n"), startMarker, endMarker) == Ok(Parts("", "", ""))
  {
    var rest := endMarker + "\n";
    var text := startMarker + "\n" + rest;
    TwoLinesIndexed(startMarker, endMarker, rest, text);
    LocateFrom(text, startMarker, endMarker, "", "", 0, |startMarker| + 1);
  }

  lemma {:induction false} TwoLinesIndexed(startMarker: string, endMarker: string, rest: string, text: string)
    requires OneLine(startMarker) && OneLine(endMarker) && !Contains(startMarker, endMarker)
    requires rest == endMarker + "\n" && text == startMarker + "\n" + rest
    ensures IndexOf(text, startMarker, 0) == 0 && LastNewline(text, 0) == -1
    ensures IndexOf(text, endMarker, 0) == |startMarker| + 1 && AfterLine(text, |startMarker| + 1) == ""
  {
    FirstAtHead(startMarker, "\n" + rest);
    assert text == startMarker + ("\n" + rest);
    FirstAtHead(endMarker, "\n");
    FirstInRest(startMarker, rest, endMarker, 0);
    assert text[0] == startMarker[0];
    LineOfMarker(startMarker + "\n", endMarker, text);
  }

  lemma {:induction false} FirstAtHead(marker: string, rest: string)
    ensures IndexOf(marker + rest, marker, 0) == 0
  {
    assert (marker + rest)[0..|marker|] == marker;
    IndexIsFirst(marker + rest, marker, 0, 0);
  }

  lemma {:induction false} LineOfMarker(head: string, marker: string, text: string)
    requires '\n' !in marker && text == head + (marker + "\n")
    ensures AfterLine(text, |head|) == ""
  {
    assert HoldsAt(text, marker, |head|);
    assert NoNewlineIn(text, |head|, |text| - 1);
    FirstNewline(text, |head|, |text| - 1);
  }
}
