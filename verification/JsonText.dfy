/** JSON values, their canonical form up to key order, and their compact text. */
module JsonText {
  import opened Sorting
  import opened Text

  /** Numbers are kept as the numerals they print as. Objects keep their members in insertion order. */
  datatype Json =
    | Null
    | Bool(value: bool)
    | Num(numeral: string)
    | Str(text: string)
    | Arr(items: seq<Json>)
    | Obj(members: seq<Member>)
  datatype Member = Member(key: string, value: Json)

  // ---------- Well-formed values ----------

  predicate NumeralChar(c: char) {
    '0' <= c <= '9' || c == '-' || c == '+' || c == '.' || c == 'e'
  }

  predicate IsNumeral(s: string) {
    && s != "" && ('0' <= s[0] <= '9' || s[0] == '-')
    && forall i | 0 <= i < |s| :: NumeralChar(s[i])
  }

  /** An object has each key once; a number prints as a numeral. */
  predicate WellFormed(j: Json) {
    match j
    case Num(n) => IsNumeral(n)
    case Arr(items) => forall i | 0 <= i < |items| :: WellFormed(items[i])
    case Obj(ms) =>
      && (forall i | 0 <= i < |ms| :: WellFormed(ms[i].value))
      && NoDuplicates(Keys(ms))
    case _ => true
  }

  function Keys(ms: seq<Member>): seq<string> {
    seq(|ms|, i requires 0 <= i < |ms| => ms[i].key)
  }

  /** The position of a key that occurs. */
  function PlaceOf(ms: seq<Member>, key: string): (i: nat)
    requires key in Keys(ms)
    ensures i < |ms| && ms[i].key == key
  {
    if ms[0].key == key then 0
    else
      assert Keys(ms)[1..] == Keys(ms[1..]);
      1 + PlaceOf(ms[1..], key)
  }

  lemma {:induction false} PlaceOfOwn(ms: seq<Member>, i: nat)
    requires i < |ms| && NoDuplicates(Keys(ms))
    ensures Keys(ms)[i] == ms[i].key && ms[i].key in Keys(ms) && PlaceOf(ms, ms[i].key) == i
  {
    assert Keys(ms)[i] == ms[i].key;
    var k := PlaceOf(ms, ms[i].key);
    assert Keys(ms)[k] == Keys(ms)[i];
  }

  // ---------- Canonical form ----------

  /** The order of `toSorted`: lexicographic in UTF-16 code units. */
  predicate StringLeq(a: string, b: string) {
    a == "" || (b != "" && (CodeUnitRank(a[0]) < CodeUnitRank(b[0]) || (a[0] == b[0] && StringLeq(a[1..], b[1..]))))
  }

  lemma {:induction false} StringLeqTotal(a: string, b: string)
    ensures StringLeq(a, b) || StringLeq(b, a)
    ensures StringLeq(a, b) && StringLeq(b, a) ==> a == b
  {
    if a != "" && b != "" {
      StringLeqTotal(a[1..], b[1..]);
      assert a == [a[0]] + a[1..] && b == [b[0]] + b[1..];
    }
  }

  lemma {:induction false} StringLeqTransitive(a: string, b: string, c: string)
    requires StringLeq(a, b) && StringLeq(b, c)
    ensures StringLeq(a, c)
  {
    if a != "" && a[0] == b[0] == c[0] {
      StringLeqTransitive(a[1..], b[1..], c[1..]);
    }
  }

  lemma {:induction false} StringLeqIsTotalOrder()
    ensures TotalOrder(StringLeq)
  {
    forall a, b
      ensures StringLeq(a, b) || StringLeq(b, a)
      ensures StringLeq(a, b) && StringLeq(b, a) ==> a == b
    {
      StringLeqTotal(a, b);
    }
    forall a, b, c | StringLeq(a, b) && StringLeq(b, c)
      ensures StringLeq(a, c)
    {
      StringLeqTransitive(a, b, c);
    }
  }

  lemma {:induction false} SortKeepsElements(s: seq<string>)
    ensures |Sort(StringLeq, s)| == |s|
    ensures forall x :: x in Sort(StringLeq, s) <==> x in s
  {
    SortPermutes(StringLeq, s);
    var t := Sort(StringLeq, s);
    assert |multiset(t)| == |multiset(s)|;
    forall x
      ensures x in t <==> x in s
    {
      assert x in t <==> x in multiset(t);
      assert x in s <==> x in multiset(s);
    }
  }

  /** The members in the order of their sorted keys. */
  function Arrange(ms: seq<Member>): seq<Member> {
    var keys := Sort(StringLeq, Keys(ms));
    SortKeepsElements(Keys(ms));
    seq(|keys|, i requires 0 <= i < |keys| => assert keys[i] in keys; ms[PlaceOf(ms, keys[i])])
  }

  function Stable(j: Json): Json {
    match j
    case Arr(items) => Arr(seq(|items|, i requires 0 <= i < |items| => Stable(items[i])))
    case Obj(ms) => Obj(Arrange(seq(|ms|, i requires 0 <= i < |ms| => Member(ms[i].key, Stable(ms[i].value)))))
    case _ => j
  }

  /** Equal up to the order of object keys, at every depth. */
  predicate Same(a: Json, b: Json) {
    match (a, b)
    case (Arr(x), Arr(y)) => |x| == |y| && forall i | 0 <= i < |x| :: Same(x[i], y[i])
    case (Obj(x), Obj(y)) =>
      && |x| == |y|
      && (forall i | 0 <= i < |x| :: x[i].key in Keys(y) && Same(x[i].value, y[PlaceOf(y, x[i].key)].value))
    case _ => a == b
  }

  function StableMembers(ms: seq<Member>): seq<Member> {
    seq(|ms|, i requires 0 <= i < |ms| => Member(ms[i].key, Stable(ms[i].value)))
  }

  lemma {:induction false} StableMembersKeys(ms: seq<Member>)
    ensures Keys(StableMembers(ms)) == Keys(ms)
  {
  }

  lemma {:induction false} ArrangeAt(ms: seq<Member>, i: nat)
    requires NoDuplicates(Keys(ms)) && i < |ms|
    ensures ms[i] in Arrange(ms)
  {
    var keys := Sort(StringLeq, Keys(ms));
    SortKeepsElements(Keys(ms));
    PlaceOfOwn(ms, i);
    var k :| 0 <= k < |keys| && keys[k] == ms[i].key;
    assert Arrange(ms)[k] == ms[i];
  }

  lemma {:induction false} ArrangeFrom(ms: seq<Member>, m: Member)
    requires m in Arrange(ms)
    ensures m in ms
  {
  }

  lemma {:induction false} ArrangeKeys(ms: seq<Member>)
    ensures |Arrange(ms)| == |ms| && Keys(Arrange(ms)) == Sort(StringLeq, Keys(ms))
  {
    SortKeepsElements(Keys(ms));
  }

  /** Canonical member lists are equal exactly when the members agree key by key. */
  lemma {:induction false} ArrangeIsCanonical(x: seq<Member>, y: seq<Member>)
    requires NoDuplicates(Keys(x)) && NoDuplicates(Keys(y)) && |x| == |y|
    requires forall i | 0 <= i < |x| :: x[i].key in Keys(y) && y[PlaceOf(y, x[i].key)] == x[i]
    ensures Arrange(x) == Arrange(y)
  {
    forall k | k in Keys(x)
      ensures k in Keys(y)
    {
      var i :| 0 <= i < |x| && Keys(x)[i] == k;
      assert x[i].key == k;
    }
    SubsetOfSameSize(Keys(x), Keys(y));
    StringLeqIsTotalOrder();
    SameElementsSameMultiset(Keys(x), Keys(y));
    SortIsCanonical(StringLeq, Keys(x), Keys(y));
    ArrangeKeys(x);
    ArrangeKeys(y);
    var keys := Sort(StringLeq, Keys(x));
    SortKeepsElements(Keys(x));
    forall k | 0 <= k < |keys|
      ensures Arrange(x)[k] == Arrange(y)[k]
    {
      assert keys[k] in keys;
      var i := PlaceOf(x, keys[k]);
      assert x[i].key == keys[k];
    }
  }

  lemma {:induction false} SubsetOfSameSize(a: seq<string>, b: seq<string>)
    requires NoDuplicates(a) && NoDuplicates(b) && |a| == |b|
    requires forall k | k in a :: k in b
    ensures Elements(a) == Elements(b)
  {
    ElementsCount(a);
    ElementsCount(b);
    assert Elements(a) <= Elements(b);
    if Elements(a) != Elements(b) {
      var extra :| extra in Elements(b) && extra !in Elements(a);
      assert Elements(a) <= Elements(b) - {extra};
      SubsetSize(Elements(a), Elements(b) - {extra});
    }
  }

  lemma {:induction false} SubsetSize(a: set<string>, b: set<string>)
    requires a <= b
    ensures |a| <= |b|
  {
    assert b == a + (b - a);
  }

  /** Two values have the same canonical form exactly when they are equal up to key order at every depth. */
  lemma {:induction false} StableIffSame(a: Json, b: Json)
    requires WellFormed(a) && WellFormed(b)
    ensures Stable(a) == Stable(b) <==> Same(a, b)
    decreases a
  {
    match (a, b)
    case (Arr(x), Arr(y)) =>
      if |x| == |y| {
        forall i | 0 <= i < |x|
          ensures Stable(x[i]) == Stable(y[i]) <==> Same(x[i], y[i])
        {
          StableIffSame(x[i], y[i]);
        }
        if Stable(a) == Stable(b) {
          forall i | 0 <= i < |x|
            ensures Stable(x[i]) == Stable(y[i])
          {
            assert Stable(a).items[i] == Stable(b).items[i];
          }
        }
      } else {
        assert |Stable(a).items| != |Stable(b).items|;
      }
    case (Obj(x), Obj(y)) =>
      forall i | 0 <= i < |x| && x[i].key in Keys(y)
        ensures var v := y[PlaceOf(y, x[i].key)].value; Stable(x[i].value) == Stable(v) <==> Same(x[i].value, v)
      {
        StableIffSame(x[i].value, y[PlaceOf(y, x[i].key)].value);
      }
      StableObjects(x, y);
    case _ =>
  }

  lemma {:induction false} StableObjects(x: seq<Member>, y: seq<Member>)
    requires WellFormed(Obj(x)) && WellFormed(Obj(y))
    requires forall i | 0 <= i < |x| && x[i].key in Keys(y) ::
      var v := y[PlaceOf(y, x[i].key)].value; Stable(x[i].value) == Stable(v) <==> Same(x[i].value, v)
    ensures Stable(Obj(x)) == Stable(Obj(y)) <==> Same(Obj(x), Obj(y))
  {
    var sx, sy := StableMembers(x), StableMembers(y);
    StableMembersKeys(x);
    StableMembersKeys(y);
    assert Stable(Obj(x)) == Obj(Arrange(sx)) && Stable(Obj(y)) == Obj(Arrange(sy));
    if Same(Obj(x), Obj(y)) {
      forall i | 0 <= i < |sx|
        ensures sx[i].key in Keys(sy) && sy[PlaceOf(sy, sx[i].key)] == sx[i]
      {
        var k := PlaceOf(y, x[i].key);
        PlaceOfOwn(sy, k);
      }
      ArrangeIsCanonical(sx, sy);
    }
    if Arrange(sx) == Arrange(sy) {
      ArrangeKeys(sx);
      ArrangeKeys(sy);
      forall i | 0 <= i < |x|
        ensures x[i].key in Keys(y) && Same(x[i].value, y[PlaceOf(y, x[i].key)].value)
      {
        ArrangeAt(sx, i);
        ArrangeFrom(sy, sx[i]);
        var k :| 0 <= k < |sy| && sy[k] == sx[i];
        PlaceOfOwn(y, k);
        assert y[k].key == x[i].key;
      }
    }
  }

  // ---------- Compact text ----------

  function HexDigit(n: int): char
    requires 0 <= n < 16
  {
    if n < 10 then '0' + n as char else 'a' + (n - 10) as char
  }

  /** `JSON.stringify` escapes quotes, backslashes and control characters, some of them by a letter. */
  function EscapeChar(c: char): string {
    if c == '"' then "\\\""
    else if c == '\\' then "\\\\"
    else if c == '\U{8}' then "\\b"
    else if c == '\t' then "\\t"
    else if c == '\n' then "\\n"
    else if c == '\U{c}' then "\\f"
    else if c == '\r' then "\\r"
    else if c < ' ' then "\\u00" + [HexDigit(c as int / 16), HexDigit(c as int % 16)]
    else [c]
  }

  function Escape(s: string): string {
    if s == "" then "" else EscapeChar(s[0]) + Escape(s[1..])
  }

  function Quote(s: string): string {
    "\"" + Escape(s) + "\""
  }

  function Print(j: Json): string
    decreases j
  {
    match j
    case Null => "null"
    case Bool(b) => if b then "true" else "false"
    case Num(n) => n
    case Str(s) => Quote(s)
    case Arr(items) => "[" + PrintItems(items) + "]"
    case Obj(ms) => "{" + PrintMembers(ms) + "}"
  }

  function PrintItems(items: seq<Json>): string
    decreases items
  {
    if items == [] then ""
    else Print(items[0]) + (if |items| == 1 then "" else "," + PrintItems(items[1..]))
  }

  function PrintMembers(ms: seq<Member>): string
    decreases ms
  {
    if ms == [] then ""
    else
      var m := ms[0];
      Quote(m.key) + ":" + Print(m.value) + (if |ms| == 1 then "" else "," + PrintMembers(ms[1..]))
  }

  /** Numbers print as numerals, at every depth. */
  predicate Printable(j: Json) {
    match j
    case Num(n) => IsNumeral(n)
    case Arr(items) => forall i | 0 <= i < |items| :: Printable(items[i])
    case Obj(ms) => forall i | 0 <= i < |ms| :: Printable(ms[i].value)
    case _ => true
  }

  lemma {:induction false} StableIsPrintable(j: Json)
    requires WellFormed(j)
    ensures Printable(Stable(j))
    decreases j
  {
    match j
    case Arr(items) =>
      forall i | 0 <= i < |items|
        ensures Printable(Stable(items[i]))
      {
        StableIsPrintable(items[i]);
      }
    case Obj(ms) =>
      var sm := StableMembers(ms);
      forall i | 0 <= i < |ms|
        ensures Printable(sm[i].value)
      {
        StableIsPrintable(ms[i].value);
      }
      assert Stable(j) == Obj(Arrange(sm));
      forall k | 0 <= k < |Arrange(sm)|
        ensures Printable(Arrange(sm)[k].value)
      {
        assert Arrange(sm)[k] in Arrange(sm);
        ArrangeFrom(sm, Arrange(sm)[k]);
      }
    case _ =>
  }

  /** Escapes form a prefix code, and none of them starts with a quote. */
  lemma {:induction false} EscapeCharIsPrefixCode(c: char, d: char, u: string, v: string)
    ensures EscapeChar(c)[0] != '"'
    ensures EscapeChar(c) + u == EscapeChar(d) + v ==> c == d && u == v
  {
    var s, t := EscapeChar(c) + u, EscapeChar(d) + v;
    if s == t {
      assert s[0] == EscapeChar(c)[0] && t[0] == EscapeChar(d)[0];
      if s[0] == '\\' {
        assert s[1] == EscapeChar(c)[1] && t[1] == EscapeChar(d)[1];
        if s[1] == 'u' {
          assert s[4] == EscapeChar(c)[4] && t[4] == EscapeChar(d)[4];
          assert s[5] == EscapeChar(c)[5] && t[5] == EscapeChar(d)[5];
          HexDigitIsInjective(c as int / 16, d as int / 16);
          HexDigitIsInjective(c as int % 16, d as int % 16);
        }
      }
      assert c == d;
      assert u == s[|EscapeChar(c)|..] && v == t[|EscapeChar(d)|..];
    }
  }

  lemma {:induction false} HexDigitIsInjective(m: int, n: int)
    requires 0 <= m < 16 && 0 <= n < 16
    ensures HexDigit(m) == HexDigit(n) ==> m == n
  {
  }

  lemma {:induction false} EscapeHead(s: string)
    ensures s != "" ==> Escape(s) != "" && Escape(s)[0] != '"'
  {
    if s != "" {
      EscapeCharIsPrefixCode(s[0], s[0], "", "");
    }
  }

  lemma {:induction false} QuoteIsPrefixCode(s: string, t: string, x: string, y: string)
    requires Escape(s) + "\"" + x == Escape(t) + "\"" + y
    ensures s == t && x == y
  {
    QuoteEnds(s, x);
    QuoteEnds(t, y);
    if s != "" {
      var u, v := Escape(s[1..]) + "\"" + x, Escape(t[1..]) + "\"" + y;
      EscapeCharIsPrefixCode(s[0], t[0], u, v);
      QuoteIsPrefixCode(s[1..], t[1..], x, y);
      assert s == [s[0]] + s[1..] && t == [t[0]] + t[1..];
    }
  }

  /** A quoted text ends at once, or starts with its first character. */
  lemma {:induction false} QuoteEnds(s: string, x: string)
    ensures var quoted := Escape(s) + "\"" + x;
            && (s == "" <==> quoted[0] == '"')
            && (s == "" ==> quoted[1..] == x)
            && (s != "" ==> quoted == EscapeChar(s[0]) + (Escape(s[1..]) + "\"" + x))
  {
    EscapeHead(s);
  }

  /** What can follow a printed value. */
  predicate Stops(x: string) {
    x == "" || x[0] == ',' || x[0] == ']' || x[0] == '}'
  }

  /** How many numeral characters a text starts with. */
  function Span(s: string): nat {
    if s != "" && NumeralChar(s[0]) then 1 + Span(s[1..]) else 0
  }

  lemma {:induction false} SpanOfNumeral(m: string, x: string)
    requires Stops(x) && forall i | 0 <= i < |m| :: NumeralChar(m[i])
    ensures Span(m + x) == |m|
  {
    if m == "" {
      assert m + x == x;
    } else {
      SpanOfNumeral(m[1..], x);
      assert (m + x)[1..] == m[1..] + x;
    }
  }

  lemma {:induction false} NumeralIsMaximal(m: string, n: string, x: string, y: string)
    requires forall i | 0 <= i < |m| :: NumeralChar(m[i])
    requires forall i | 0 <= i < |n| :: NumeralChar(n[i])
    requires Stops(x) && Stops(y) && m + x == n + y
    ensures m == n && x == y
  {
    SpanOfNumeral(m, x);
    SpanOfNumeral(n, y);
    SplitAt(m, n, x, y);
  }

  lemma {:induction false} SplitAt(a: string, b: string, x: string, y: string)
    requires |a| == |b| && a + x == b + y
    ensures a == b && x == y
  {
    assert a == (a + x)[..|a|] && b == (b + y)[..|b|];
    assert x == (a + x)[|a|..] && y == (b + y)[|b|..];
  }

  /** The first character of a printed value tells its kind. */
  lemma {:induction false} Leads(j: Json, x: string)
    requires Printable(j)
    ensures Print(j) != ""
    ensures var c := (Print(j) + x)[0];
            && (j.Null? <==> c == 'n') && (j.Bool? <==> c == 't' || c == 'f')
            && (j.Str? <==> c == '"') && (j.Arr? <==> c == '[') && (j.Obj? <==> c == '{')
            && c != ',' && c != ']' && c != '}'
  {
  }

  /** Printing is injective, and even what follows a printed value can be told apart from it. */
  lemma {:induction false} PrintIsPrefixCode(a: Json, b: Json, x: string, y: string)
    requires Printable(a) && Printable(b) && Stops(x) && Stops(y)
    requires Print(a) + x == Print(b) + y
    ensures a == b && x == y
    decreases a
  {
    Leads(a, x);
    Leads(b, y);
    match a
    case Null =>
      SplitAt(Print(a), Print(b), x, y);
    case Bool(p) =>
      BoolIsPrefixCode(p, b.value, x, y);
    case Num(n) =>
      NumeralIsMaximal(n, b.numeral, x, y);
    case Str(q) =>
      SplitAt("\"", "\"", Escape(q) + "\"" + x, Escape(b.text) + "\"" + y) by {
        Regroup("\"", Escape(q), "\"", x);
        Regroup("\"", Escape(b.text), "\"", y);
      }
      QuoteIsPrefixCode(q, b.text, x, y);
    case Arr(items) =>
      SplitAt("[", "[", PrintItems(items) + "]" + x, PrintItems(b.items) + "]" + y) by {
        Regroup("[", PrintItems(items), "]", x);
        Regroup("[", PrintItems(b.items), "]", y);
      }
      ItemsArePrefixCode(items, b.items, x, y);
    case Obj(ms) =>
      SplitAt("{", "{", PrintMembers(ms) + "}" + x, PrintMembers(b.members) + "}" + y) by {
        Regroup("{", PrintMembers(ms), "}", x);
        Regroup("{", PrintMembers(b.members), "}", y);
      }
      MembersArePrefixCode(ms, b.members, x, y);
  }

  lemma {:induction false} Regroup(open: string, body: string, close: string, rest: string)
    ensures open + body + close + rest == open + (body + close + rest)
  {
  }

  lemma {:induction false} BoolIsPrefixCode(p: bool, q: bool, x: string, y: string)
    requires Print(Bool(p)) + x == Print(Bool(q)) + y
    ensures p == q && x == y
  {
    assert (Print(Bool(p)) + x)[0] == (if p then 't' else 'f');
    assert (Print(Bool(q)) + y)[0] == (if q then 't' else 'f');
    SplitAt(Print(Bool(p)), Print(Bool(q)), x, y);
  }

  /** What follows the first of several printed parts: the closing bracket, or a comma and the other parts. */
  function Rest(n: nat, others: string, close: char, x: string): string {
    if n == 1 then [close] + x else "," + (others + [close] + x)
  }

  lemma {:induction false} RestSplits(m: nat, n: nat, a: string, b: string, close: char, x: string, y: string)
    requires close != ',' && m > 0 && n > 0
    requires Rest(m, a, close, x) == Rest(n, b, close, y)
    ensures (m == 1 && n == 1 && x == y) || (m > 1 && n > 1 && a + [close] + x == b + [close] + y)
  {
    assert Rest(m, a, close, x)[0] == (if m == 1 then close else ',');
    assert Rest(n, b, close, y)[0] == (if n == 1 then close else ',');
    if m == 1 {
      SplitAt([close], [close], x, y);
    } else {
      SplitAt(",", ",", a + [close] + x, b + [close] + y);
    }
  }

  lemma {:induction false} JoinRest(first: string, n: nat, more: string, close: char, x: string)
    ensures first + (if n == 1 then "" else "," + more) + [close] + x == first + Rest(n, more, close, x)
  {
    if n != 1 {
      assert first + ("," + more) + [close] + x == first + ("," + (more + [close] + x));
    } else {
      assert first + "" + [close] + x == first + ([close] + x);
    }
  }

  lemma {:induction false} ItemsSplit(a: seq<Json>, x: string)
    ensures a == [] ==> PrintItems(a) + "]" + x == "]" + x
    ensures a != [] ==> PrintItems(a) + "]" + x == Print(a[0]) + Rest(|a|, PrintItems(a[1..]), ']', x)
  {
    if a != [] {
      JoinRest(Print(a[0]), |a|, PrintItems(a[1..]), ']', x);
    }
  }

  lemma {:induction false} ItemsHead(a: seq<Json>, x: string)
    requires forall i | 0 <= i < |a| :: Printable(a[i])
    ensures a == [] <==> (PrintItems(a) + "]" + x)[0] == ']'
  {
    ItemsSplit(a, x);
    if a != [] {
      Leads(a[0], Rest(|a|, PrintItems(a[1..]), ']', x));
    }
  }

  lemma {:induction false} ItemsArePrefixCode(a: seq<Json>, b: seq<Json>, x: string, y: string)
    requires forall i | 0 <= i < |a| :: Printable(a[i])
    requires forall i | 0 <= i < |b| :: Printable(b[i])
    requires PrintItems(a) + "]" + x == PrintItems(b) + "]" + y
    ensures a == b && x == y
    decreases a
  {
    ItemsSplit(a, x);
    ItemsSplit(b, y);
    ItemsHead(a, x);
    ItemsHead(b, y);
    if a == [] {
      SplitAt("]", "]", x, y);
    } else {
      var u, v := Rest(|a|, PrintItems(a[1..]), ']', x), Rest(|b|, PrintItems(b[1..]), ']', y);
      PrintIsPrefixCode(a[0], b[0], u, v);
      RestSplits(|a|, |b|, PrintItems(a[1..]), PrintItems(b[1..]), ']', x, y);
      if |a| > 1 {
        ItemsArePrefixCode(a[1..], b[1..], x, y);
      }
      assert a == [a[0]] + a[1..] && b == [b[0]] + b[1..];
    }
  }

  lemma {:induction false} MembersSplit(a: seq<Member>, x: string)
    ensures a == [] ==> PrintMembers(a) + "}" + x == "}" + x
    ensures a != [] ==>
      PrintMembers(a) + "}" + x == "\""
        + (Escape(a[0].key) + "\"" + (":" + (Print(a[0].value) + Rest(|a|, PrintMembers(a[1..]), '}', x))))
  {
    if a != [] {
      FirstMemberSplits(a[0], |a|, PrintMembers(a[1..]), x);
    }
  }

  lemma {:induction false} MembersHead(a: seq<Member>, x: string)
    ensures a == [] <==> (PrintMembers(a) + "}" + x)[0] == '}'
  {
    if a == [] {
      assert PrintMembers(a) + "}" + x == "}" + x;
    } else {
      FirstMemberSplits(a[0], |a|, PrintMembers(a[1..]), x);
    }
  }

  lemma {:induction false} FirstMemberSplits(m: Member, n: nat, more: string, x: string)
    ensures Quote(m.key) + ":" + Print(m.value) + (if n == 1 then "" else "," + more) + "}" + x
         == "\"" + (Escape(m.key) + "\"" + (":" + (Print(m.value) + Rest(n, more, '}', x))))
  {
    JoinRest(Quote(m.key) + ":" + Print(m.value), n, more, '}', x);
    RegroupMember(Escape(m.key), Print(m.value), Rest(n, more, '}', x));
  }

  lemma {:induction false} RegroupMember(k: string, v: string, rest: string)
    ensures "\"" + k + "\"" + ":" + v + rest == "\"" + (k + "\"" + (":" + (v + rest)))
  {
  }

  lemma {:induction false} MembersArePrefixCode(a: seq<Member>, b: seq<Member>, x: string, y: string)
    requires forall i | 0 <= i < |a| :: Printable(a[i].value)
    requires forall i | 0 <= i < |b| :: Printable(b[i].value)
    requires PrintMembers(a) + "}" + x == PrintMembers(b) + "}" + y
    ensures a == b && x == y
    decreases a
  {
    MembersHead(a, x);
    MembersHead(b, y);
    MembersSplit(a, x);
    MembersSplit(b, y);
    if a == [] {
      SplitAt("}", "}", x, y);
    } else {
      var u, v := Rest(|a|, PrintMembers(a[1..]), '}', x), Rest(|b|, PrintMembers(b[1..]), '}', y);
      var afterA, afterB := ":" + (Print(a[0].value) + u), ":" + (Print(b[0].value) + v);
      SplitAt("\"", "\"", Escape(a[0].key) + "\"" + afterA, Escape(b[0].key) + "\"" + afterB);
      QuoteIsPrefixCode(a[0].key, b[0].key, afterA, afterB);
      SplitAt(":", ":", Print(a[0].value) + u, Print(b[0].value) + v);
      PrintIsPrefixCode(a[0].value, b[0].value, u, v);
      RestSplits(|a|, |b|, PrintMembers(a[1..]), PrintMembers(b[1..]), '}', x, y);
      if |a| > 1 {
        MembersArePrefixCode(a[1..], b[1..], x, y);
      }
      SameHeadAndRest(a, b);
    }
  }

  lemma {:induction false} SameHeadAndRest(a: seq<Member>, b: seq<Member>)
    requires a != [] && b != [] && a[0] == b[0] && a[1..] == b[1..]
    ensures a == b
  {
    assert a == [a[0]] + a[1..] && b == [b[0]] + b[1..];
  }

  /** The signature of a schema: the text of its canonical form. */
  function Signature(j: Json): string {
    Print(Stable(j))
  }

  /** Two schemas have the same signature text exactly when they are equal up to key order at every depth. */
  lemma {:induction false} SignatureIffSame(a: Json, b: Json)
    requires WellFormed(a) && WellFormed(b)
    ensures Signature(a) == Signature(b) <==> Same(a, b)
  {
    StableIffSame(a, b);
    StableIsPrintable(a);
    StableIsPrintable(b);
    if Signature(a) == Signature(b) {
      assert Print(Stable(a)) + "" == Print(Stable(b)) + "";
      PrintIsPrefixCode(Stable(a), Stable(b), "", "");
    }
  }

  // ---------- What it comes to, without the canonical form ----------

  lemma {:induction false} PrintItemsGrows(items: seq<Json>, x: Json)
    ensures PrintItems(items + [x]) == PrintItems(items) + (if items == [] then "" else ",") + Print(x)
  {
    var more := items + [x];
    if items == [] {
      assert more == [x];
    } else {
      PrintItemsGrows(items[1..], x);
      assert more[0] == items[0] && more[1..] == items[1..] + [x];
    }
  }

  lemma {:induction false} PrintMembersGrows(ms: seq<Member>, m: Member)
    ensures PrintMembers(ms + [m]) ==
            PrintMembers(ms) + (if ms == [] then "" else ",") + (Quote(m.key) + ":" + Print(m.value))
  {
    var more := ms + [m];
    if ms == [] {
      assert more == [m];
    } else {
      PrintMembersGrows(ms[1..], m);
      assert more[0] == ms[0] && more[1..] == ms[1..] + [m];
    }
  }

  /** The compact text of a value, built up from its parts. */
  lemma {:induction false} PrintedForms(items: seq<Json>, x: Json, ms: seq<Member>, m: Member)
    ensures Print(Arr([])) == "[]" && Print(Obj([])) == "{}" && Print(Null) == "null"
    ensures Print(Bool(true)) == "true" && Print(Bool(false)) == "false"
    ensures Print(Arr(items + [x])) ==
            "[" + (PrintItems(items) + (if items == [] then "" else ",") + Print(x)) + "]"
    ensures Print(Obj(ms + [m])) ==
            "{" + (PrintMembers(ms) + (if ms == [] then "" else ",") + (Quote(m.key) + ":" + Print(m.value))) + "}"
  {
    PrintItemsGrows(items, x);
    PrintMembersGrows(ms, m);
  }

  /** A string without quotes, backslashes and control characters is printed between two quotes as it is. */
  lemma {:induction false} PlainTextIsKept(s: string)
    requires forall i | 0 <= i < |s| :: s[i] != '"' && s[i] != '\\' && s[i] >= ' '
    ensures Escape(s) == s && Print(Str(s)) == "\"" + s + "\""
  {
    if s != "" {
      PlainTextIsKept(s[1..]);
      assert s == [s[0]] + s[1..];
    }
  }

  /** Arrays have the same signature exactly when their items have, place by place. */
  lemma {:induction false} SignaturesOfArrays(x: seq<Json>, y: seq<Json>)
    requires WellFormed(Arr(x)) && WellFormed(Arr(y))
    ensures Signature(Arr(x)) == Signature(Arr(y)) <==>
            |x| == |y| && forall i | 0 <= i < |x| :: Signature(x[i]) == Signature(y[i])
  {
    SignatureIffSame(Arr(x), Arr(y));
    forall i | 0 <= i < |x| && i < |y|
      ensures Signature(x[i]) == Signature(y[i]) <==> Same(x[i], y[i])
    {
      SignatureIffSame(x[i], y[i]);
    }
  }

  predicate HasMember(ms: seq<Member>, key: string, signature: string) {
    exists j | 0 <= j < |ms| :: ms[j].key == key && Signature(ms[j].value) == signature
  }

  /** Objects have the same signature exactly when they have as many members and each member of one has a partner in
      the other, wherever it stands. */
  lemma {:induction false} SignaturesOfObjects(x: seq<Member>, y: seq<Member>)
    requires WellFormed(Obj(x)) && WellFormed(Obj(y))
    ensures Signature(Obj(x)) == Signature(Obj(y)) <==>
            |x| == |y| && forall i | 0 <= i < |x| :: HasMember(y, x[i].key, Signature(x[i].value))
  {
    SignatureIffSame(Obj(x), Obj(y));
    forall i | 0 <= i < |x|
      ensures HasMember(y, x[i].key, Signature(x[i].value)) <==>
              x[i].key in Keys(y) && Same(x[i].value, y[PlaceOf(y, x[i].key)].value)
    {
      MemberHasPartner(x[i], y);
    }
  }

  lemma {:induction false} MemberHasPartner(m: Member, y: seq<Member>)
    requires WellFormed(m.value) && WellFormed(Obj(y))
    ensures HasMember(y, m.key, Signature(m.value)) <==>
            m.key in Keys(y) && Same(m.value, y[PlaceOf(y, m.key)].value)
  {
    forall j | 0 <= j < |y|
      ensures Signature(m.value) == Signature(y[j].value) <==> Same(m.value, y[j].value)
      ensures y[j].key in Keys(y) && PlaceOf(y, y[j].key) == j
    {
      SignatureIffSame(m.value, y[j].value);
      PlaceOfOwn(y, j);
    }
  }

  /** All other values have the signature of no other value. */
  lemma {:induction false} SignaturesOfOthers(a: Json, b: Json)
    requires WellFormed(a) && WellFormed(b)
    requires !(a.Arr? && b.Arr?) && !(a.Obj? && b.Obj?)
    ensures Signature(a) == Signature(b) <==> a == b
  {
    SignatureIffSame(a, b);
  }
}
