/** Quoting words for a POSIX shell, against a reader for the quoting rules of sections 2.2.1 to 2.2.3 of the
    POSIX.1-2017 Shell Command Language. */
module ShellQuote {
  import opened Text

  // ---------- The reader ----------

  datatype Mode = Unquoted | SingleQuoted | DoubleQuoted

  /** Characters that stand for themselves without quoting; the others are quoting characters, separators,
      operators, or may be expanded. */
  predicate IsPlain(c: char) {
    !IsQuoting(c) && !IsOperator(c) && !IsExpanded(c)
  }

  predicate IsQuoting(c: char) {
    c == '\\' || c == '"' || c == '\''
  }

  predicate IsOperator(c: char) {
    || c == '|' || c == '&' || c == ';' || c == '<' || c == '>' || c == '(' || c == ')'
    || c == ' ' || c == '\t' || c == '\n'
  }

  predicate IsExpanded(c: char) {
    c == '$' || c == '`' || c == '*' || c == '?' || c == '[' || c == '#' || c == '~' || c == '=' || c == '%'
  }

  /** The characters a backslash escapes between double quotes, besides the newline. */
  predicate IsEscapable(c: char) {
    c == '$' || c == '`' || c == '"' || c == '\\'
  }

  function Letters(current: Option<string>): string {
    if current.Some? then current.value else ""
  }

  function Add(current: Option<string>, c: char): Option<string> {
    Some(Letters(current) + [c])
  }

  function EndWord(current: Option<string>, done: seq<string>): seq<string> {
    if current.Some? then done + [current.value] else done
  }

  /** The words of a command line, or an error for an unfinished quotation and for anything that is more than
      a list of words. Quotes begin a word even when nothing is inside them. */
  function Scan(s: string, mode: Mode, current: Option<string>, done: seq<string>): Result<seq<string>>
    decreases |s|
  {
    if s == "" then
      if mode == Unquoted then Ok(EndWord(current, done)) else Err("unfinished quotation")
    else
      match mode
      case SingleQuoted =>
        if s[0] == '\'' then Scan(s[1..], Unquoted, current, done)
        else Scan(s[1..], SingleQuoted, Add(current, s[0]), done)
      case DoubleQuoted =>
        if s[0] == '"' then Scan(s[1..], Unquoted, current, done)
        else if s[0] == '$' || s[0] == '`' then Err("expansion")
        else if s[0] == '\\' && |s| > 1 && s[1] == '\n' then Scan(s[2..], DoubleQuoted, current, done)
        else if s[0] == '\\' && |s| > 1 && IsEscapable(s[1]) then Scan(s[2..], DoubleQuoted, Add(current, s[1]), done)
        else Scan(s[1..], DoubleQuoted, Add(current, s[0]), done)
      case Unquoted =>
        if s[0] == '\'' then Scan(s[1..], SingleQuoted, Some(Letters(current)), done)
        else if s[0] == '"' then Scan(s[1..], DoubleQuoted, Some(Letters(current)), done)
        else if s[0] == '\\' then
          if |s| == 1 then Err("unfinished escape")
          else if s[1] == '\n' then Scan(s[2..], Unquoted, current, done)
          else Scan(s[2..], Unquoted, Add(current, s[1]), done)
        else if s[0] == ' ' || s[0] == '\t' then Scan(s[1..], Unquoted, None, EndWord(current, done))
        else if IsPlain(s[0]) then Scan(s[1..], Unquoted, Add(current, s[0]), done)
        else Err("not a list of words")
  }

  function Read(s: string): Result<seq<string>> {
    Scan(s, Unquoted, None, [])
  }

  // ---------- Lists of commands ----------

  function Shift(place: Option<nat>, n: nat): Option<nat> {
    if place.Some? then Some(place.value + n) else None
  }

  /** Where the first semicolon outside quotes stands. */
  function NextSemicolon(s: string, mode: Mode): (place: Option<nat>)
    ensures place.Some? ==> place.value < |s|
    decreases |s|
  {
    if s == "" then None
    else
      match mode
      case SingleQuoted => Shift(NextSemicolon(s[1..], if s[0] == '\'' then Unquoted else SingleQuoted), 1)
      case DoubleQuoted =>
        if s[0] == '"' then Shift(NextSemicolon(s[1..], Unquoted), 1)
        else if s[0] == '\\' && |s| > 1 && (s[1] == '\n' || IsEscapable(s[1]))
        then Shift(NextSemicolon(s[2..], DoubleQuoted), 2)
        else Shift(NextSemicolon(s[1..], DoubleQuoted), 1)
      case Unquoted =>
        if s[0] == ';' then Some(0)
        else if s[0] == '\'' then Shift(NextSemicolon(s[1..], SingleQuoted), 1)
        else if s[0] == '"' then Shift(NextSemicolon(s[1..], DoubleQuoted), 1)
        else if s[0] == '\\' && |s| > 1 then Shift(NextSemicolon(s[2..], Unquoted), 2)
        else Shift(NextSemicolon(s[1..], Unquoted), 1)
  }

  /** The commands of a list, which unquoted semicolons separate. */
  function CommandsOf(s: string): seq<string>
    decreases |s|
  {
    var place := NextSemicolon(s, Unquoted);
    if place.None? then [s] else [s[..place.value]] + CommandsOf(s[place.value + 1..])
  }

  /** A text that reads as a list of words is a single command. */
  lemma {:induction false} WordsAreOneCommand(s: string, mode: Mode, current: Option<string>, done: seq<string>)
    requires Scan(s, mode, current, done).Ok?
    ensures NextSemicolon(s, mode).None?
    decreases |s|
  {
    if s != "" {
      match mode
      case SingleQuoted =>
        if s[0] == '\'' {
          WordsAreOneCommand(s[1..], Unquoted, current, done);
        } else {
          WordsAreOneCommand(s[1..], SingleQuoted, Add(current, s[0]), done);
        }
      case DoubleQuoted =>
        if s[0] == '"' {
          WordsAreOneCommand(s[1..], Unquoted, current, done);
        } else if s[0] == '\\' && |s| > 1 && s[1] == '\n' {
          WordsAreOneCommand(s[2..], DoubleQuoted, current, done);
        } else if s[0] == '\\' && |s| > 1 && IsEscapable(s[1]) {
          WordsAreOneCommand(s[2..], DoubleQuoted, Add(current, s[1]), done);
        } else {
          WordsAreOneCommand(s[1..], DoubleQuoted, Add(current, s[0]), done);
        }
      case Unquoted =>
        if s[0] == '\'' {
          WordsAreOneCommand(s[1..], SingleQuoted, Some(Letters(current)), done);
        } else if s[0] == '"' {
          WordsAreOneCommand(s[1..], DoubleQuoted, Some(Letters(current)), done);
        } else if s[0] == '\\' {
          WordsAreOneCommand(s[2..], Unquoted, if s[1] == '\n' then current else Add(current, s[1]), done);
        } else if s[0] == ' ' || s[0] == '\t' {
          WordsAreOneCommand(s[1..], Unquoted, None, EndWord(current, done));
        } else {
          WordsAreOneCommand(s[1..], Unquoted, Add(current, s[0]), done);
        }
    }
  }

  /** Characters that neither quote nor end a command. */
  predicate IsInert(c: char) {
    !IsQuoting(c) && c != ';'
  }

  predicate AllInert(text: string) {
    forall i | 0 <= i < |text| :: IsInert(text[i])
  }

  lemma {:induction false} InertIsSkipped(text: string, rest: string)
    requires AllInert(text)
    ensures NextSemicolon(text + rest, Unquoted) == Shift(NextSemicolon(rest, Unquoted), |text|)
  {
    if text == "" {
      assert text + rest == rest;
    } else {
      InertIsSkipped(text[1..], rest);
      assert (text + rest)[1..] == text[1..] + rest;
    }
  }

  lemma {:induction false} QuotedIsSkipped(text: string, rest: string)
    requires AllInert(text)
    ensures NextSemicolon(text + ("\"" + rest), DoubleQuoted) == Shift(NextSemicolon(rest, Unquoted), |text| + 1)
  {
    if text == "" {
      assert text + ("\"" + rest) == "\"" + rest;
      assert ("\"" + rest)[1..] == rest;
    } else {
      QuotedIsSkipped(text[1..], rest);
      assert (text + ("\"" + rest))[1..] == text[1..] + ("\"" + rest);
    }
  }

  /** An inert text up to a semicolon is a command. */
  lemma {:induction false} InertCommand(text: string, rest: string)
    requires AllInert(text)
    ensures CommandsOf(text + (";" + rest)) == [text] + CommandsOf(rest)
  {
    SemicolonAfter(text, rest);
    CutAt(text, rest);
  }

  lemma {:induction false} CutAt(text: string, rest: string)
    requires NextSemicolon(text + (";" + rest), Unquoted) == Some(|text|)
    ensures CommandsOf(text + (";" + rest)) == [text] + CommandsOf(rest)
  {
    AroundSemicolon(text, rest);
    FirstCommand(text + (";" + rest), |text|);
  }

  lemma {:induction false} AroundSemicolon(text: string, rest: string)
    ensures |text + (";" + rest)| > |text|
    ensures (text + (";" + rest))[..|text|] == text && (text + (";" + rest))[|text| + 1..] == rest
  {
  }

  lemma {:induction false} FirstCommand(s: string, place: nat)
    requires place < |s| && NextSemicolon(s, Unquoted) == Some(place)
    ensures CommandsOf(s) == [s[..place]] + CommandsOf(s[place + 1..])
  {
  }

  /** So is one with a quoted part in it. */
  lemma {:induction false} InertCommandWithQuotes(before: string, quoted: string, after: string, rest: string)
    requires AllInert(before) && AllInert(quoted) && AllInert(after)
    ensures CommandsOf(before + ("\"" + (quoted + ("\"" + after))) + (";" + rest))
         == [before + ("\"" + (quoted + ("\"" + after)))] + CommandsOf(rest)
  {
    var end := after + (";" + rest);
    var text := before + ("\"" + (quoted + ("\"" + after)));
    SemicolonAfter(after, rest);
    QuotesAreSkipped(before, quoted, end);
    EndsWithSemicolon(before, quoted, after, rest);
    CutAt(text, rest);
  }

  lemma {:induction false} SemicolonAfter(text: string, rest: string)
    requires AllInert(text)
    ensures NextSemicolon(text + (";" + rest), Unquoted) == Some(|text|)
  {
    InertIsSkipped(text, ";" + rest);
  }

  lemma {:induction false} QuotesAreSkipped(before: string, quoted: string, end: string)
    requires AllInert(before) && AllInert(quoted)
    ensures NextSemicolon(before + ("\"" + (quoted + ("\"" + end))), Unquoted)
         == Shift(NextSemicolon(end, Unquoted), |before| + |quoted| + 2)
  {
    var inside := quoted + ("\"" + end);
    QuotedIsSkipped(quoted, end);
    QuoteOpens(inside);
    InertIsSkipped(before, "\"" + inside);
  }

  lemma {:induction false} QuoteOpens(rest: string)
    ensures NextSemicolon("\"" + rest, Unquoted) == Shift(NextSemicolon(rest, DoubleQuoted), 1)
  {
    First('"', rest);
  }

  lemma {:induction false} EndsWithSemicolon(before: string, quoted: string, after: string, rest: string)
    ensures before + ("\"" + (quoted + ("\"" + after))) + (";" + rest)
         == before + ("\"" + (quoted + ("\"" + (after + (";" + rest)))))
  {
  }

  // ---------- The printers ----------

  /** `value.replace(/'/g, replacement)`. */
  function ReplaceQuotes(value: string, replacement: string): string {
    if value == "" then ""
    else (if value[0] == '\'' then replacement else [value[0]]) + ReplaceQuotes(value[1..], replacement)
  }

  function ShellQuote(value: string): string {
    "'" + ReplaceQuotes(value, "'\\''") + "'"
  }

  function ShellEscapeForSh(value: string): string {
    ReplaceQuotes(value, "'\"'\"'")
  }

  /** Text without single quotes is kept, and each single quote becomes its replacement. */
  lemma {:induction false} EscapedForms(a: string, b: string)
    requires '\'' !in a
    ensures ShellQuote(a) == "'" + a + "'" && ShellEscapeForSh(a) == a
    ensures ShellQuote(a + ("'" + b)) == "'" + (a + ("'\\''" + ReplaceQuotes(b, "'\\''"))) + "'"
    ensures ShellEscapeForSh(a + ("'" + b)) == a + ("'\"'\"'" + ShellEscapeForSh(b))
  {
    WithoutQuotesIsKept(a, "'\\''");
    WithoutQuotesIsKept(a, "'\"'\"'");
    QuoteBetween(a, b, "'\\''");
    QuoteBetween(a, b, "'\"'\"'");
  }

  lemma {:induction false} WithoutQuotesIsKept(a: string, replacement: string)
    requires '\'' !in a
    ensures ReplaceQuotes(a, replacement) == a
  {
    if a != "" {
      WithoutQuotesIsKept(a[1..], replacement);
      assert a == [a[0]] + a[1..];
    }
  }

  lemma {:induction false} QuoteBetween(a: string, b: string, replacement: string)
    requires '\'' !in a
    ensures ReplaceQuotes(a + ("'" + b), replacement) == a + (replacement + ReplaceQuotes(b, replacement))
  {
    var text, rest := a + ("'" + b), replacement + ReplaceQuotes(b, replacement);
    if a == "" {
      First('\'', b);
      assert text == "'" + b && a + rest == rest;
    } else {
      QuoteBetween(a[1..], b, replacement);
      assert text[0] == a[0] && text[1..] == a[1..] + ("'" + b);
      assert [a[0]] + (a[1..] + rest) == a + rest;
    }
  }

  /** A word of a command line: bare, quoted, or escaped inside single quotes of the surrounding text. */
  datatype Word = Bare(text: string) | Quoted(text: string) | Escaped(text: string)

  function PrintWord(w: Word): string {
    match w
    case Bare(text) => text
    case Quoted(text) => ShellQuote(text)
    case Escaped(text) => "'" + ShellEscapeForSh(text) + "'"
  }

  predicate AllPlain(text: string) {
    forall i | 0 <= i < |text| :: IsPlain(text[i])
  }

  predicate IsPlainWord(text: string) {
    text != "" && AllPlain(text)
  }

  predicate Printable(words: seq<Word>) {
    forall i | 0 <= i < |words| :: words[i].Bare? ==> IsPlainWord(words[i].text)
  }

  function Print(words: seq<Word>): string {
    if words == [] then ""
    else if |words| == 1 then PrintWord(words[0])
    else PrintWord(words[0]) + " " + Print(words[1..])
  }

  function Texts(words: seq<Word>): seq<string> {
    if words == [] then [] else [words[0].text] + Texts(words[1..])
  }

  // ---------- Reading back ----------

  lemma {:induction false} First(c: char, rest: string)
    ensures ([c] + rest)[0] == c && ([c] + rest)[1..] == rest
  {
  }

  /** One way of writing a single quote inside single quotes reads as that quote, wherever it stands. */
  predicate IsQuoteForm(replacement: string) {
    replacement == "'\\''" || replacement == "'\"'\"'"
  }

  lemma {:induction false} QuoteFormReads(replacement: string, rest: string, cur: string, done: seq<string>)
    requires IsQuoteForm(replacement)
    ensures Scan(replacement + rest, SingleQuoted, Some(cur), done) == Scan(rest, SingleQuoted, Some(cur + "'"), done)
  {
    if replacement == "'\\''" {
      var s2 := ['\''] + rest;
      var s1 := ['\\', '\''] + s2;
      assert replacement + rest == ['\''] + s1;
      First('\'', s1);
      assert s1[0] == '\\' && s1[1] == '\'' && s1[2..] == s2;
      First('\'', rest);
      assert Scan(s2, Unquoted, Some(cur + "'"), done) == Scan(rest, SingleQuoted, Some(cur + "'"), done);
      assert Add(Some(cur), '\'') == Some(cur + "'");
      assert Scan(s1, Unquoted, Some(cur), done) == Scan(s2, Unquoted, Some(cur + "'"), done);
    } else {
      var s4 := ['\''] + rest;
      var s3 := ['"'] + s4;
      var s2 := ['\''] + s3;
      var s1 := ['"'] + s2;
      assert replacement + rest == ['\''] + s1;
      First('\'', s1);
      First('"', s2);
      First('\'', s3);
      First('"', s4);
      First('\'', rest);
      assert Scan(s3, DoubleQuoted, Some(cur + "'"), done) == Scan(rest, SingleQuoted, Some(cur + "'"), done);
      assert Scan(s1, Unquoted, Some(cur), done) == Scan(s3, DoubleQuoted, Some(cur + "'"), done);
    }
  }

  lemma {:induction false} QuotedBodyReads(value: string, replacement: string, rest: string, cur: string,
                                           done: seq<string>)
    requires IsQuoteForm(replacement)
    ensures Scan(ReplaceQuotes(value, replacement) + "'" + rest, SingleQuoted, Some(cur), done)
         == Scan(rest, Unquoted, Some(cur + value), done)
  {
    if value == "" {
      First('\'', rest);
      assert "" + "'" + rest == ['\''] + rest;
      assert cur + value == cur;
    } else {
      var tail := ReplaceQuotes(value[1..], replacement) + "'" + rest;
      var first := if value[0] == '\'' then replacement else [value[0]];
      assert ReplaceQuotes(value, replacement) + "'" + rest == first + tail;
      QuotedBodyReads(value[1..], replacement, rest, cur + [value[0]], done);
      assert cur + [value[0]] + value[1..] == cur + value;
      if value[0] == '\'' {
        QuoteFormReads(replacement, tail, cur, done);
      } else {
        LetterReads(value[0], tail, cur, done);
      }
    }
  }

  lemma {:induction false} LetterReads(c: char, tail: string, cur: string, done: seq<string>)
    requires c != '\''
    ensures Scan([c] + tail, SingleQuoted, Some(cur), done) == Scan(tail, SingleQuoted, Some(cur + [c]), done)
  {
    First(c, tail);
  }

  lemma {:induction false} PlainReads(text: string, rest: string, current: Option<string>, done: seq<string>)
    requires AllPlain(text)
    ensures Scan(text + rest, Unquoted, current, done)
         == Scan(rest, Unquoted, if text == "" then current else Some(Letters(current) + text), done)
  {
    if text == "" {
      assert text + rest == rest;
    } else {
      assert (text + rest)[1..] == text[1..] + rest;
      PlainReads(text[1..], rest, Add(current, text[0]), done);
      assert Letters(current) + [text[0]] + text[1..] == Letters(current) + text;
      assert text[1..] == "" ==> text == [text[0]];
    }
  }

  /** A printed word reads as its text, whatever follows it. */
  lemma {:induction false} WordReads(w: Word, rest: string, done: seq<string>)
    requires w.Bare? ==> IsPlainWord(w.text)
    ensures Scan(PrintWord(w) + rest, Unquoted, None, done) == Scan(rest, Unquoted, Some(w.text), done)
  {
    if w.Bare? {
      PlainReads(w.text, rest, None, done);
      assert Letters(None) + w.text == w.text;
    } else {
      var replacement := if w.Quoted? then "'\\''" else "'\"'\"'";
      var body := ReplaceQuotes(w.text, replacement);
      var tail := body + "'" + rest;
      assert PrintWord(w) + rest == ['\''] + tail;
      First('\'', tail);
      QuotedBodyReads(w.text, replacement, rest, Letters(None), done);
      assert Letters(None) + w.text == w.text;
    }
  }

  lemma {:induction false} WordThenSpaceReads(w: Word, rest: string, done: seq<string>)
    requires w.Bare? ==> IsPlainWord(w.text)
    ensures Scan(PrintWord(w) + " " + rest, Unquoted, None, done) == Scan(rest, Unquoted, None, done + [w.text])
  {
    WordReads(w, " " + rest, done);
    assert PrintWord(w) + " " + rest == PrintWord(w) + (" " + rest);
    First(' ', rest);
  }

  lemma {:induction false} WordsRead(words: seq<Word>, done: seq<string>)
    requires Printable(words)
    ensures Scan(Print(words), Unquoted, None, done) == Ok(done + Texts(words))
  {
    if words == [] {
      assert done + Texts(words) == done;
    } else if |words| == 1 {
      WordReads(words[0], "", done);
      assert PrintWord(words[0]) + "" == Print(words);
      assert Texts(words[1..]) == [] && Texts(words) == [words[0].text];
    } else {
      WordThenSpaceReads(words[0], Print(words[1..]), done);
      WordsRead(words[1..], done + [words[0].text]);
      assert done + [words[0].text] + Texts(words[1..]) == done + Texts(words);
    }
  }

  /** The shell reads a printed command line as exactly the words that were printed, the empty ones included. */
  lemma {:induction false} ReadUndoesPrint(words: seq<Word>)
    requires Printable(words)
    ensures Read(Print(words)) == Ok(Texts(words))
  {
    WordsRead(words, []);
    assert [] + Texts(words) == Texts(words);
  }

  // ---------- The command lines ----------

  function QuotedAll(values: seq<string>): (r: seq<Word>)
    ensures |r| == |values| && forall i | 0 <= i < |values| :: r[i] == Quoted(values[i])
  {
    if values == [] then [] else [Quoted(values[0])] + QuotedAll(values[1..])
  }

  const SET_EXPORT := "set -a"
  const UNSET_EXPORT := " set +a"
  const BEFORE_PROFILE := " source "
  const PROFILE := "$HOME/.profile"
  const AFTER_PROFILE := " >/dev/null 2>&1 || true"

  function SourceProfile(): string {
    BEFORE_PROFILE + ("\"" + (PROFILE + ("\"" + AFTER_PROFILE)))
  }

  /** What the Parallels smoke run runs after its preamble: the timeout program, its options, and the forwarded
      arguments. */
  function ParallelsWords(timeoutBin: string, forwarded: seq<string>): string {
    Print([Bare("exec"), Quoted(timeoutBin), Bare("--foreground"), Bare("150m")] + QuotedAll(forwarded))
  }

  function ParallelsCommand(timeoutBin: string, forwarded: seq<string>): string {
    SET_EXPORT + (";" +
      (SourceProfile() + (";" + (UNSET_EXPORT + (";" + (" " + ParallelsWords(timeoutBin, forwarded)))))))
  }

  lemma {:induction false} TextAt(words: seq<Word>, i: nat)
    requires i < |words|
    ensures |Texts(words)| == |words| && Texts(words)[i] == words[i].text
  {
    if |words| > 1 {
      TextAt(words[1..], if i > 0 then i - 1 else 0);
    } else {
      assert words[1..] == [];
    }
  }

  lemma {:induction false} TextsAre(words: seq<Word>, texts: seq<string>)
    requires words != [] && |words| == |texts| && forall i | 0 <= i < |words| :: words[i].text == texts[i]
    ensures Texts(words) == texts
  {
    TextAt(words, 0);
    forall i | 0 <= i < |words| ensures Texts(words)[i] == texts[i] {
      TextAt(words, i);
    }
  }

  /** A command line of some words and then quoted ones reads as the words' texts and then the quoted values. */
  lemma {:induction false} HeadThenQuotedReads(head: seq<Word>, texts: seq<string>, values: seq<string>)
    requires head != [] && Printable(head)
    requires |texts| == |head| && forall i | 0 <= i < |head| :: head[i].text == texts[i]
    ensures Read(Print(head + QuotedAll(values))) == Ok(texts + values)
  {
    var quoted := QuotedAll(values);
    Appended(head, texts, quoted, values);
    ReadUndoesPrint(head + quoted);
    TextsAre(head + quoted, texts + values);
  }

  lemma {:induction false} Appended(a: seq<Word>, texts: seq<string>, b: seq<Word>, values: seq<string>)
    requires |a| == |texts| && |b| == |values| && Printable(a)
    requires forall i | 0 <= i < |a| :: a[i].text == texts[i]
    requires forall i | 0 <= i < |b| :: b[i] == Quoted(values[i])
    ensures Printable(a + b) && forall i | 0 <= i < |a + b| :: (a + b)[i].text == (texts + values)[i]
  {
    forall i | 0 <= i < |a + b|
      ensures (a + b)[i].text == (texts + values)[i] && ((a + b)[i].Bare? ==> IsPlainWord((a + b)[i].text))
    {
      if i >= |a| {
        assert (a + b)[i] == b[i - |a|];
      }
    }
  }

  lemma {:induction false} PlainOptions()
    ensures IsPlainWord("exec") && IsPlainWord("--foreground") && IsPlainWord("150m")
  {
  }

  lemma {:induction false} ParallelsWordsRead(timeoutBin: string, forwarded: seq<string>)
    ensures Read(ParallelsWords(timeoutBin, forwarded)) == Ok(["exec", timeoutBin, "--foreground", "150m"] + forwarded)
  {
    PlainOptions();
    HeadThenQuotedReads([Bare("exec"), Quoted(timeoutBin), Bare("--foreground"), Bare("150m")],
                        ["exec", timeoutBin, "--foreground", "150m"], forwarded);
  }

  lemma {:induction false} InertPreamble()
    ensures AllInert(SET_EXPORT) && AllInert(UNSET_EXPORT)
    ensures AllInert(BEFORE_PROFILE) && AllInert(PROFILE) && AllInert(AFTER_PROFILE)
  {
  }

  /** The command is a list of four, the last of which reads as the intended words whatever they are: no argument
      can end it or add another. */
  lemma {:induction false} ParallelsCommandReads(timeoutBin: string, forwarded: seq<string>)
    ensures var last := " " + ParallelsWords(timeoutBin, forwarded);
            && CommandsOf(ParallelsCommand(timeoutBin, forwarded)) == ["set -a", SourceProfile(), " set +a", last]
            && SourceProfile() == " source " + ("\"" + ("$HOME/.profile" + ("\"" + " >/dev/null 2>&1 || true")))
            && Read(last) == Ok(["exec", timeoutBin, "--foreground", "150m"] + forwarded)
  {
    var last := " " + ParallelsWords(timeoutBin, forwarded);
    ParallelsWordsRead(timeoutBin, forwarded);
    First(' ', ParallelsWords(timeoutBin, forwarded));
    WordsAreOneCommand(last, Unquoted, None, []);
    InertPreamble();
    InertCommand(UNSET_EXPORT, last);
    InertCommandWithQuotes(BEFORE_PROFILE, PROFILE, AFTER_PROFILE, UNSET_EXPORT + (";" + last));
    InertCommand(SET_EXPORT, SourceProfile() + (";" + (UNSET_EXPORT + (";" + last))));
  }

  /** The installer's two commands, on either side of its pipe. */
  function CurlCommand(installerUrl: string): string {
    "curl -fsSL '" + ShellEscapeForSh(installerUrl) + "'"
  }

  function BashCommand(installTarget: string): string {
    "bash -s -- --version '" + ShellEscapeForSh(installTarget) + "' --no-onboard"
  }

  lemma {:induction false} PrintFirst(w: Word, rest: seq<Word>)
    requires rest != []
    ensures Print([w] + rest) == PrintWord(w) + " " + Print(rest)
  {
    assert ([w] + rest)[1..] == rest;
  }

  function CurlWords(installerUrl: string): seq<Word> {
    [Bare("curl")] + ([Bare("-fsSL")] + [Escaped(installerUrl)])
  }

  lemma {:induction false} CurlCommandPrints(installerUrl: string)
    ensures Print(CurlWords(installerUrl)) == CurlCommand(installerUrl)
  {
    PrintFirst(Bare("-fsSL"), [Escaped(installerUrl)]);
    PrintFirst(Bare("curl"), [Bare("-fsSL")] + [Escaped(installerUrl)]);
    CurlPrefix(ShellEscapeForSh(installerUrl) + "'");
  }

  lemma {:induction false} CurlPrefix(tail: string)
    ensures "curl" + " " + ("-fsSL" + " " + ("'" + tail)) == "curl -fsSL '" + tail
  {
  }

  lemma {:induction false} CurlCommandReads(installerUrl: string)
    ensures Read(CurlCommand(installerUrl)) == Ok(["curl", "-fsSL", installerUrl])
  {
    CurlCommandPrints(installerUrl);
    CurlTexts(installerUrl);
    ReadUndoesPrint(CurlWords(installerUrl));
  }

  lemma {:induction false} PlainCurlWords()
    ensures IsPlainWord("curl") && IsPlainWord("-fsSL")
  {
  }

  lemma {:induction false} CurlTexts(installerUrl: string)
    ensures Printable(CurlWords(installerUrl))
    ensures Texts(CurlWords(installerUrl)) == ["curl", "-fsSL", installerUrl]
  {
    PlainCurlWords();
    TextsAre(CurlWords(installerUrl), ["curl", "-fsSL", installerUrl]);
  }

  function BashWords(installTarget: string): seq<Word> {
    [Bare("bash")] + ([Bare("-s")]
      + ([Bare("--")] + ([Bare("--version")] + ([Escaped(installTarget)] + [Bare("--no-onboard")]))))
  }

  lemma {:induction false} BashCommandPrints(installTarget: string)
    ensures Print(BashWords(installTarget)) == BashCommand(installTarget)
  {
    var end := [Escaped(installTarget)] + [Bare("--no-onboard")];
    LastOptionPrints(installTarget);
    PrintFirst(Bare("--version"), end);
    PrintFirst(Bare("--"), [Bare("--version")] + end);
    PrintFirst(Bare("-s"), [Bare("--")] + ([Bare("--version")] + end));
    PrintFirst(Bare("bash"), [Bare("-s")] + ([Bare("--")] + ([Bare("--version")] + end)));
    BashPrefix(Print(end), ShellEscapeForSh(installTarget) + "' --no-onboard");
  }

  lemma {:induction false} LastOptionPrints(installTarget: string)
    ensures Print([Escaped(installTarget)] + [Bare("--no-onboard")])
            == "'" + (ShellEscapeForSh(installTarget) + "' --no-onboard")
  {
    PrintFirst(Escaped(installTarget), [Bare("--no-onboard")]);
    LastOptionSuffix(ShellEscapeForSh(installTarget));
  }

  lemma {:induction false} LastOptionSuffix(body: string)
    ensures ("'" + body + "'") + " " + "--no-onboard" == "'" + (body + "' --no-onboard")
  {
  }

  lemma {:induction false} BashPrefix(end: string, tail: string)
    requires end == "'" + tail
    ensures "bash" + " " + ("-s" + " " + ("--" + " " + ("--version" + " " + end))) == "bash -s -- --version '" + tail
  {
    assert "--" + " " + ("--version" + " " + end) == "-- --version '" + tail;
    assert "bash" + " " + ("-s" + " " + ("-- --version '" + tail)) == "bash -s -- --version '" + tail;
  }

  lemma {:induction false} PlainBashWords()
    ensures IsPlainWord("bash") && IsPlainWord("-s") && IsPlainWord("--") && IsPlainWord("--version")
            && IsPlainWord("--no-onboard")
  {
  }

  lemma {:induction false} BashCommandReads(installTarget: string)
    ensures Read(BashCommand(installTarget)) == Ok(["bash", "-s", "--", "--version", installTarget, "--no-onboard"])
  {
    BashCommandPrints(installTarget);
    BashTexts(installTarget);
    ReadUndoesPrint(BashWords(installTarget));
  }

  lemma {:induction false} BashTexts(installTarget: string)
    ensures Printable(BashWords(installTarget))
    ensures Texts(BashWords(installTarget)) == ["bash", "-s", "--", "--version", installTarget, "--no-onboard"]
  {
    PlainBashWords();
    TextsAre(BashWords(installTarget), ["bash", "-s", "--", "--version", installTarget, "--no-onboard"]);
  }

  // ---------- Why quoting is needed ----------

  function Size(words: seq<string>): nat {
    if words == [] then 0 else Size(words[..|words| - 1]) + |words[|words| - 1]|
  }

  lemma {:induction false} SizeOfOne(text: string)
    ensures Size([text]) == |text|
  {
    assert [text][..0] == [];
  }

  lemma {:induction false} SizeOfEndWord(current: Option<string>, done: seq<string>)
    ensures Size(EndWord(current, done)) == Size(done) + |Letters(current)|
  {
    if current.Some? {
      assert (done + [current.value])[..|done|] == done;
    }
  }

  /** Reading never makes text longer, and every character that is not plain costs at least one. */
  lemma {:induction false} ReadingShrinks(s: string, mode: Mode, current: Option<string>, done: seq<string>)
    requires Scan(s, mode, current, done).Ok?
    ensures Size(Scan(s, mode, current, done).value) <= Size(done) + |Letters(current)| + |s|
    ensures mode != Unquoted || !AllPlain(s) ==>
            Size(Scan(s, mode, current, done).value) < Size(done) + |Letters(current)| + |s|
    decreases |s|, 1
  {
    SizeOfEndWord(current, done);
    if s != "" {
      match mode
      case SingleQuoted =>
        if s[0] == '\'' {
          ReadingShrinks(s[1..], Unquoted, current, done);
        } else {
          ReadingShrinks(s[1..], SingleQuoted, Add(current, s[0]), done);
        }
      case DoubleQuoted =>
        if s[0] == '"' {
          ReadingShrinks(s[1..], Unquoted, current, done);
        } else if s[0] == '\\' && |s| > 1 && s[1] == '\n' {
          ReadingShrinks(s[2..], DoubleQuoted, current, done);
        } else if s[0] == '\\' && |s| > 1 && IsEscapable(s[1]) {
          ReadingShrinks(s[2..], DoubleQuoted, Add(current, s[1]), done);
        } else {
          ReadingShrinks(s[1..], DoubleQuoted, Add(current, s[0]), done);
        }
      case Unquoted => UnquotedReadingShrinks(s, current, done);
    }
  }

  lemma {:induction false} UnquotedReadingShrinks(s: string, current: Option<string>, done: seq<string>)
    requires s != "" && Scan(s, Unquoted, current, done).Ok?
    ensures Size(Scan(s, Unquoted, current, done).value) <= Size(done) + |Letters(current)| + |s|
    ensures !AllPlain(s) ==> Size(Scan(s, Unquoted, current, done).value) < Size(done) + |Letters(current)| + |s|
    decreases |s|, 0
  {
    SizeOfEndWord(current, done);
    if s[0] == '\'' {
      ReadingShrinks(s[1..], SingleQuoted, Some(Letters(current)), done);
    } else if s[0] == '"' {
      ReadingShrinks(s[1..], DoubleQuoted, Some(Letters(current)), done);
    } else if s[0] == '\\' {
      ReadingShrinks(s[2..], Unquoted, if s[1] == '\n' then current else Add(current, s[1]), done);
    } else if s[0] == ' ' || s[0] == '\t' {
      ReadingShrinks(s[1..], Unquoted, None, EndWord(current, done));
    } else {
      ReadingShrinks(s[1..], Unquoted, Add(current, s[0]), done);
      assert IsPlain(s[0]) && AllPlain(s[1..]) ==> AllPlain(s) by {
        assert s == [s[0]] + s[1..];
      }
    }
  }

  /** Without quotes this reader takes a text as itself exactly when it is a non-empty word of plain characters. */
  lemma {:induction false} BareIffPlain(text: string)
    ensures Read(text) == Ok([text]) <==> IsPlainWord(text)
  {
    if IsPlainWord(text) {
      ReadUndoesPrint([Bare(text)]);
      TextsAre([Bare(text)], [text]);
    }
    if Read(text) == Ok([text]) {
      ReadingShrinks(text, Unquoted, None, []);
      SizeOfOne(text);
    }
  }

  /** Quotes around the bare text are enough exactly when the text holds no single quote. */
  lemma {:induction false} EscapingIsNeededIffQuoteInside(text: string)
    ensures Read("'" + text + "'") == Ok([text]) <==> '\'' !in text
  {
    assert ("'" + text + "'")[1..] == text + "'";
    if '\'' !in text {
      NothingToReplace(text, "'\\''");
      ReadUndoesPrint([Quoted(text)]);
      TextsAre([Quoted(text)], [text]);
    } else {
      var i := FirstQuote(text);
      NothingToReplace(text[..i], "'\\''");
      var rest := text[i + 1..] + "'";
      assert text + "'" == text[..i] + "'" + rest;
      QuotedBodyReads(text[..i], "'\\''", rest, "", []);
      if Scan(rest, Unquoted, Some("" + text[..i]), []).Ok? {
        ReadingShrinks(rest, Unquoted, Some("" + text[..i]), []);
        assert !IsPlain(rest[|rest| - 1]) && !AllPlain(rest);
      }
      SizeOfOne(text);
    }
  }

  lemma {:induction false} NothingToReplace(text: string, replacement: string)
    requires '\'' !in text
    ensures ReplaceQuotes(text, replacement) == text
  {
    if text != "" {
      NothingToReplace(text[1..], replacement);
      assert text == [text[0]] + text[1..];
    }
  }

  lemma {:induction false} FirstQuote(text: string) returns (i: nat)
    requires '\'' in text
    ensures i < |text| && text[i] == '\'' && '\'' !in text[..i]
  {
    if text[0] == '\'' {
      i := 0;
    } else {
      assert text == [text[0]] + text[1..];
      var j := FirstQuote(text[1..]);
      i := j + 1;
      assert text[..i] == [text[0]] + text[1..][..j];
    }
  }
}
