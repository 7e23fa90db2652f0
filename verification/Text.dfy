/** Small values shared by the models: optional values, results and JavaScript's notion of blank text. */
module Text {

  datatype Option<+T> = None | Some(value: T)

  datatype Result<+T> = Ok(value: T) | Err(error: string)

  /** The characters removed by `String.prototype.trim`. */
  predicate IsSpace(c: char) {
    || '\t' <= c <= '\r'
    || c == ' '
    || c == '\U{A0}'
    || c == '\U{1680}'
    || '\U{2000}' <= c <= '\U{200A}'
    || c == '\U{2028}'
    || c == '\U{2029}'
    || c == '\U{202F}'
    || c == '\U{205F}'
    || c == '\U{3000}'
    || c == '\U{FEFF}'
  }

  predicate IsBlank(s: string) {
    forall i | 0 <= i < |s| :: IsSpace(s[i])
  }

  /** White space and line ends of ECMAScript: U+0009 to U+000D, U+FEFF, and the space separators of Unicode. */
  lemma {:induction false} SpacesAre(c: char)
    ensures IsSpace(c) <==>
            c as int in {9, 10, 11, 12, 13, 0x20, 0xA0, 0x1680, 0x2000, 0x2001, 0x2002, 0x2003, 0x2004, 0x2005, 0x2006,
                         0x2007, 0x2008, 0x2009, 0x200A, 0x2028, 0x2029, 0x202F, 0x205F, 0x3000, 0xFEFF}
  {
  }

  function TrimStart(s: string): string {
    if s != [] && IsSpace(s[0]) then TrimStart(s[1..]) else s
  }

  function TrimEnd(s: string): string {
    if s != [] && IsSpace(s[|s| - 1]) then TrimEnd(s[..|s| - 1]) else s
  }

  function Trim(s: string): string {
    TrimEnd(TrimStart(s))
  }

  /** Trimming leaves nothing exactly when the text is blank, which is how the scripts test `!text.trim()`. */
  lemma {:induction false} TrimIsEmptyIffBlank(s: string)
    ensures Trim(s) == "" <==> IsBlank(s)
  {
    TrimStartIsEmptyIffBlank(s);
    TrimEndIsEmptyIffBlank(TrimStart(s));
    if TrimStart(s) != [] {
      assert !IsSpace(TrimStart(s)[0]) by { TrimStartStops(s); }
    }
  }

  lemma {:induction false} TrimStartIsEmptyIffBlank(s: string)
    ensures TrimStart(s) == "" <==> IsBlank(s)
  {
    if s != [] && IsSpace(s[0]) {
      TrimStartIsEmptyIffBlank(s[1..]);
      assert s == [s[0]] + s[1..];
    }
  }

  lemma {:induction false} TrimStartStops(s: string)
    ensures TrimStart(s) != [] ==> !IsSpace(TrimStart(s)[0])
  {
    if s != [] && IsSpace(s[0]) {
      TrimStartStops(s[1..]);
    }
  }

  lemma {:induction false} TrimEndIsEmptyIffBlank(s: string)
    ensures TrimEnd(s) == "" <==> IsBlank(s)
  {
    if s != [] && IsSpace(s[|s| - 1]) {
      TrimEndIsEmptyIffBlank(s[..|s| - 1]);
      assert s == s[..|s| - 1] + [s[|s| - 1]];
    }
  }

  /** Trimming takes off white space at both ends and nothing else, and leaves none there. */
  lemma {:induction false} TrimCuts(s: string) returns (before: string, after: string)
    ensures s == before + Trim(s) + after && IsBlank(before) && IsBlank(after)
    ensures Trim(s) != "" ==> !IsSpace(Trim(s)[0]) && !IsSpace(Trim(s)[|Trim(s)| - 1])
  {
    before := TrimStartCuts(s);
    after := TrimEndCuts(TrimStart(s));
    assert s == before + TrimStart(s) == before + (Trim(s) + after);
    TrimStartStops(s);
  }

  lemma {:induction false} TrimStartCuts(s: string) returns (before: string)
    ensures s == before + TrimStart(s) && IsBlank(before)
  {
    before := "";
    if s != [] && IsSpace(s[0]) {
      var rest := TrimStartCuts(s[1..]);
      before := [s[0]] + rest;
    }
  }

  lemma {:induction false} TrimEndCuts(s: string) returns (after: string)
    ensures s == TrimEnd(s) + after && IsBlank(after)
    ensures TrimEnd(s) != "" ==> !IsSpace(TrimEnd(s)[|TrimEnd(s)| - 1]) && TrimEnd(s)[0] == s[0]
  {
    after := "";
    if s != [] && IsSpace(s[|s| - 1]) {
      var rest := TrimEndCuts(s[..|s| - 1]);
      after := rest + [s[|s| - 1]];
    }
  }

  // ---------- Code units ----------

  /** `String.prototype.length`: characters beyond U+FFFF are two code units. */
  function JsLength(s: string): nat {
    if s == "" then 0 else JsLength(s[1..]) + (if s[0] as int < 0x1_0000 then 1 else 2)
  }

  /** Lengths add up, and a character counts once or, beyond U+FFFF, twice. */
  lemma {:induction false} JsLengthAdds(a: string, b: string)
    ensures JsLength(a + b) == JsLength(a) + JsLength(b)
    ensures JsLength("") == 0
    ensures forall c: char :: JsLength([c]) == if c as int <= 0xFFFF then 1 else 2
  {
    if a == "" {
      assert a + b == b;
    } else {
      JsLengthAdds(a[1..], b);
      assert (a + b)[1..] == a[1..] + b;
    }
  }

  /** The place of a character in the order of its UTF-16 code units, in which the characters beyond U+FFFF come
      before those from U+E000 on. */
  function CodeUnitRank(c: char): int {
    var n := c as int;
    if 0xE000 <= n < 0x1_0000 then n + 0x20_0000 else n
  }

  // ---------- Searching ----------

  predicate OccursAt(text: string, needle: string, i: int) {
    0 <= i && i + |needle| <= |text| && text[i..i + |needle|] == needle
  }

  /** `text.indexOf(needle, from)`. */
  function IndexOf(text: string, needle: string, from: nat): (r: int)
    ensures r == -1 || from <= r <= |text| - |needle|
    decreases |text| - from
  {
    if from + |needle| > |text| then -1
    else if OccursAt(text, needle, from) then from
    else if from < |text| then IndexOf(text, needle, from + 1)
    else -1
  }

  predicate IsFirst(text: string, needle: string, from: nat, at: int) {
    from <= at && OccursAt(text, needle, at) && forall i | from <= i < at :: !OccursAt(text, needle, i)
  }

  predicate Occurs(text: string, needle: string, from: nat) {
    exists i | from <= i <= |text| - |needle| :: OccursAt(text, needle, i)
  }

  /** The index found is that of the first occurrence, and none is found only if there is none. */
  lemma {:induction false} IndexOfFinds(text: string, needle: string, from: nat)
    ensures var r := IndexOf(text, needle, from);
            if r == -1 then !Occurs(text, needle, from) else IsFirst(text, needle, from, r)
    decreases |text| - from
  {
    if from + |needle| <= |text| && !OccursAt(text, needle, from) && from < |text| {
      IndexOfFinds(text, needle, from + 1);
    }
  }

  lemma {:induction false} IndexIsFirst(text: string, needle: string, from: nat, at: nat)
    ensures IsFirst(text, needle, from, at) <==> IndexOf(text, needle, from) == at
  {
    IndexOfFinds(text, needle, from);
  }

  lemma {:induction false} FoundBy(text: string, needle: string, from: nat, at: nat)
    requires from <= at && OccursAt(text, needle, at)
    ensures from <= IndexOf(text, needle, from) <= at
  {
    IndexOfFinds(text, needle, from);
  }

  /** `text.includes(needle)`. */
  predicate Contains(text: string, needle: string) {
    IndexOf(text, needle, 0) != -1
  }
}
