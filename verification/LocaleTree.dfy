/** Locale files are trees of texts; the sync works on flat maps with dotted keys. This module models the
    two directions, `flattenTranslations` and `setNestedValue`, and proves when they are inverse. */
module LocaleTree {
  import opened Text

  /** A translation map keeps its entries in insertion order. */
  datatype Tree = Leaf(text: string) | Node(entries: seq<Entry>)
  datatype Entry = Entry(key: string, value: Tree)

  /** A dotted key with its text. */
  datatype Flat = Flat(key: string, text: string)

  function Find(es: seq<Entry>, key: string): Option<Tree> {
    if es == [] then None
    else if es[0].key == key then Some(es[0].value)
    else Find(es[1..], key)
  }

  /** Property assignment: an existing key keeps its place, a new one goes last. */
  function Put(es: seq<Entry>, key: string, value: Tree): seq<Entry> {
    if es == [] then [Entry(key, value)]
    else if es[0].key == key then [Entry(key, value)] + es[1..]
    else [es[0]] + Put(es[1..], key, value)
  }

  function FullKey(prefix: string, key: string): string {
    if prefix == "" then key else prefix + "." + key
  }

  function Flatten(es: seq<Entry>, prefix: string, out: map<string, string>): map<string, string>
    decreases es
  {
    if es == [] then out
    else
      var fullKey := FullKey(prefix, es[0].key);
      match es[0].value
      case Leaf(text) => Flatten(es[1..], prefix, out[fullKey := text])
      case Node(nested) => Flatten(es[1..], prefix, Flatten(nested, fullKey, out))
  }

  predicate DotFree(s: string) {
    '.' !in s
  }

  /** `dottedKey.split(".")`. */
  function Split(s: string): (parts: seq<string>)
    ensures |parts| > 0
    ensures forall i | 0 <= i < |parts| :: DotFree(parts[i])
  {
    if s == "" then [""]
    else
      var rest := Split(s[1..]);
      if s[0] == '.' then [""] + rest else [[s[0]] + rest[0]] + rest[1..]
  }

  function Join(parts: seq<string>): string
    requires |parts| > 0
  {
    if |parts| == 1 then parts[0] else parts[0] + "." + Join(parts[1..])
  }

  function Children(t: Option<Tree>): seq<Entry> {
    if t.Some? && t.value.Node? then t.value.entries else []
  }

  /** Walks down the parts, replacing whatever is not a map by a fresh one, and stores the text last. */
  function SetNested(es: seq<Entry>, parts: seq<string>, text: string): seq<Entry>
    requires |parts| > 0
    decreases |parts|
  {
    if |parts| == 1 then Put(es, parts[0], Leaf(text))
    else Put(es, parts[0], Node(SetNested(Children(Find(es, parts[0])), parts[1..], text)))
  }

  function Rebuild(flat: seq<Flat>): seq<Entry> {
    if flat == [] then []
    else
      var last := flat[|flat| - 1];
      SetNested(Rebuild(flat[..|flat| - 1]), Split(last.key), last.text)
  }

  /** The text at a path of keys, if the path leads to one. */
  function LeafAt(es: seq<Entry>, path: seq<string>): Option<string>
    requires |path| > 0
    decreases |path|
  {
    match Find(es, path[0])
    case None => None
    case Some(Leaf(text)) => if |path| == 1 then Some(text) else None
    case Some(Node(nested)) => if |path| == 1 then None else LeafAt(nested, path[1..])
  }

  // ---------- Splitting and joining ----------

  lemma {:induction false} JoinSplit(s: string)
    ensures Join(Split(s)) == s
  {
    if s != "" {
      JoinSplit(s[1..]);
      var rest := Split(s[1..]);
      if s[0] != '.' {
        var parts := [[s[0]] + rest[0]] + rest[1..];
        if |rest| > 1 {
          assert parts[1..] == rest[1..];
        }
      } else {
        assert ([""] + rest)[1..] == rest;
      }
    }
  }

  lemma {:induction false} SplitDotFree(s: string)
    requires DotFree(s)
    ensures Split(s) == [s]
  {
    if s != "" {
      SplitDotFree(s[1..]);
      assert [s[0]] + s[1..] == s;
    }
  }

  lemma {:induction false} SplitHead(a: string, b: string)
    requires DotFree(a)
    ensures Split(a + "." + b) == [a] + Split(b)
  {
    var s := a + "." + b;
    if a == "" {
      assert s[1..] == b;
    } else {
      SplitHead(a[1..], b);
      assert s[1..] == a[1..] + "." + b;
      assert [a[0]] + a[1..] == a;
    }
  }

  lemma {:induction false} SplitTail(s: string)
    ensures var parts := Split(s);
            if |parts| == 1 then s == parts[0]
            else
              && |s| > |parts[0]|
              && s == parts[0] + "." + s[|parts[0]| + 1..]
              && Split(s[|parts[0]| + 1..]) == parts[1..]
  {
    if s != "" {
      SplitTail(s[1..]);
      if s[0] == '.' {
        assert s[1..] == s[|""| + 1..];
      } else {
        var rest := Split(s[1..]);
        if |rest| > 1 {
          var n := |rest[0]|;
          assert s[1..][n + 1..] == s[n + 2..];
        }
      }
    }
  }

  // ---------- What one insertion does ----------

  lemma {:induction false} FindPut(es: seq<Entry>, key: string, value: Tree, other: string)
    ensures Find(Put(es, key, value), other) == if other == key then Some(value) else Find(es, other)
  {
    if es != [] {
      if es[0].key == key {
        assert Put(es, key, value)[1..] == es[1..];
      } else {
        FindPut(es[1..], key, value, other);
        assert Put(es, key, value)[1..] == Put(es[1..], key, value);
      }
    }
  }

  function KeyList(es: seq<Entry>): seq<string> {
    seq(|es|, i requires 0 <= i < |es| => es[i].key)
  }

  /** An existing key keeps its place, a new one goes last. */
  lemma {:induction false} PutKeepsOrder(es: seq<Entry>, key: string, value: Tree)
    ensures KeyList(Put(es, key, value)) == if key in KeyList(es) then KeyList(es) else KeyList(es) + [key]
  {
    if es != [] {
      assert KeyList(es) == [es[0].key] + KeyList(es[1..]);
      if es[0].key != key {
        PutKeepsOrder(es[1..], key, value);
        assert KeyList(Put(es, key, value)) == [es[0].key] + KeyList(Put(es[1..], key, value));
      }
    }
  }

  /** An insertion stores its own text, wipes out exactly the texts whose path conflicts with its own
      (one path continuing the other), and leaves every other text alone. */
  lemma {:induction false} LeafAtSetNested(es: seq<Entry>, parts: seq<string>, text: string, path: seq<string>)
    requires |parts| > 0 && |path| > 0
    ensures LeafAt(SetNested(es, parts, text), path) ==
            if path == parts then Some(text)
            else if path <= parts || parts <= path then None
            else LeafAt(es, path)
    decreases |parts|
  {
    if |parts| == 1 {
      FindPut(es, parts[0], Leaf(text), path[0]);
    } else {
      var nested := Children(Find(es, parts[0]));
      FindPut(es, parts[0], Node(SetNested(nested, parts[1..], text)), path[0]);
      if path[0] == parts[0] && |path| > 1 {
        LeafAtSetNested(nested, parts[1..], text, path[1..]);
        assert path == [path[0]] + path[1..] && parts == [parts[0]] + parts[1..];
        if Find(es, parts[0]).None? || Find(es, parts[0]).value.Leaf? {
          assert Find([], path[1]) == None;
        }
      }
    }
  }

  // ---------- Clean trees ----------

  /** Distinct, dot-free keys at every level. */
  predicate Clean(es: seq<Entry>) {
    && (forall i, j | 0 <= i < j < |es| :: es[i].key != es[j].key)
    && (forall i | 0 <= i < |es| :: DotFree(es[i].key))
    && (forall i | 0 <= i < |es| && es[i].value.Node? :: Clean(es[i].value.entries))
  }

  /** No map sits under the empty key, whose children would lose their prefix. */
  predicate NoEmptyRoot(es: seq<Entry>) {
    forall i | 0 <= i < |es| && es[i].value.Node? :: es[i].key != ""
  }

  /** What is left of a flat key below a prefix. */
  function Strip(prefix: string, k: string): Option<string> {
    if prefix == "" then Some(k)
    else if prefix + "." <= k then Some(k[|prefix| + 1..])
    else None
  }

  /** The path a flat key stands for below a prefix. */
  function Under(prefix: string, k: string): Option<seq<string>> {
    var s := Strip(prefix, k);
    if s.Some? then Some(Split(s.value)) else None
  }

  function Get(m: map<string, string>, k: string): Option<string> {
    if k in m then Some(m[k]) else None
  }

  function LeafUnder(es: seq<Entry>, prefix: string, k: string): Option<string> {
    var u := Under(prefix, k);
    if u.Some? then LeafAt(es, u.value) else None
  }

  lemma {:induction false} StripKey(prefix: string, key: string, k: string)
    ensures k == FullKey(prefix, key) <==> Strip(prefix, k) == Some(key)
  {
    if prefix != "" {
      assert FullKey(prefix, key)[|prefix| + 1..] == key;
      if prefix + "." <= k {
        assert k == k[..|prefix| + 1] + k[|prefix| + 1..];
      }
    }
  }

  lemma {:induction false} UnderKey(prefix: string, key: string, k: string)
    requires DotFree(key)
    ensures k == FullKey(prefix, key) <==> Under(prefix, k) == Some([key])
  {
    StripKey(prefix, key, k);
    SplitDotFree(key);
    if Strip(prefix, k).Some? {
      JoinSplit(Strip(prefix, k).value);
    }
  }

  lemma {:induction false} SplitBelow(key: string, s: string)
    requires DotFree(key)
    ensures key + "." <= s <==> |Split(s)| > 1 && Split(s)[0] == key
    ensures key + "." <= s ==> Split(s[|key| + 1..]) == Split(s)[1..]
  {
    SplitTail(s);
    if key + "." <= s {
      assert s == key + "." + s[|key| + 1..];
      SplitHead(key, s[|key| + 1..]);
    }
  }

  lemma {:induction false} StripBelow(prefix: string, key: string, k: string)
    requires FullKey(prefix, key) != ""
    ensures Strip(FullKey(prefix, key), k) ==
            var s := Strip(prefix, k);
            if s.Some? && key + "." <= s.value then Some(s.value[|key| + 1..]) else None
  {
    var full := FullKey(prefix, key);
    if prefix != "" {
      if prefix + "." <= k {
        var s := k[|prefix| + 1..];
        assert k == prefix + "." + s;
        assert full + "." == (prefix + ".") + (key + ".");
        if key + "." <= s {
          assert s == key + "." + s[|key| + 1..];
          assert k == full + "." + s[|key| + 1..];
        }
        if full + "." <= k {
          assert k[|prefix| + 1..][..|key| + 1] == (full + ".")[|prefix| + 1..] == key + ".";
        }
      }
    }
  }

  lemma {:induction false} UnderNested(prefix: string, key: string, k: string)
    requires DotFree(key) && FullKey(prefix, key) != ""
    ensures var u, v := Under(prefix, k), Under(FullKey(prefix, key), k);
            v == if u.Some? && |u.value| > 1 && u.value[0] == key then Some(u.value[1..]) else None
  {
    StripBelow(prefix, key, k);
    if Strip(prefix, k).Some? {
      SplitBelow(key, Strip(prefix, k).value);
    }
  }

  lemma {:induction false} FindAbsent(es: seq<Entry>, key: string)
    requires forall i | 0 <= i < |es| :: es[i].key != key
    ensures Find(es, key) == None
  {
    if es != [] {
      FindAbsent(es[1..], key);
    }
  }

  /** Flattening a clean tree lists exactly its texts, each under its dotted path. */
  lemma {:induction false} FlattenIsLeafAt(es: seq<Entry>, prefix: string, out: map<string, string>, k: string)
    requires Clean(es) && (prefix == "" ==> NoEmptyRoot(es))
    ensures Get(Flatten(es, prefix, out), k) ==
            if LeafUnder(es, prefix, k).Some? then LeafUnder(es, prefix, k) else Get(out, k)
    decreases es
  {
    if es == [] {
      return;
    }
    var key := es[0].key;
    var full := FullKey(prefix, key);
    var rest := es[1..];
    assert Clean(rest) && (prefix == "" ==> NoEmptyRoot(rest));
    FindAbsent(rest, key);
    UnderKey(prefix, key, k);
    var u := Under(prefix, k);
    assert u.Some? && |u.value| == 1 && u.value[0] == key ==> u.value == [key];
    match es[0].value
    case Leaf(text) =>
      FlattenIsLeafAt(rest, prefix, out[full := text], k);
    case Node(nested) =>
      assert full != "";
      assert Clean(nested);
      FlattenIsLeafAt(nested, full, out, k);
      FlattenIsLeafAt(rest, prefix, Flatten(nested, full, out), k);
      UnderNested(prefix, key, k);
  }

  /** Flattening never produces a key that starts with a dot. */
  lemma {:induction false} FlattenHasNoLeadingDot(es: seq<Entry>, prefix: string, out: map<string, string>, k: string)
    requires Clean(es) && !("." <= prefix)
    ensures k in Flatten(es, prefix, out) && "." <= k ==> k in out
    decreases es
  {
    if es == [] {
      return;
    }
    var full := FullKey(prefix, es[0].key);
    assert prefix == "" || full[0] == prefix[0];
    assert full == "" || full[0] != '.';
    assert !("." <= full);
    assert Clean(es[1..]);
    match es[0].value
    case Leaf(text) =>
      FlattenHasNoLeadingDot(es[1..], prefix, out[full := text], k);
    case Node(nested) =>
      assert Clean(nested);
      FlattenHasNoLeadingDot(nested, full, out, k);
      FlattenHasNoLeadingDot(es[1..], prefix, Flatten(nested, full, out), k);
  }

  // ---------- Rebuilding keeps trees clean ----------

  lemma {:induction false} PutPlace(es: seq<Entry>, key: string, value: Tree) returns (i: nat)
    ensures i <= |es|
    ensures forall j | 0 <= j < i :: es[j].key != key
    ensures i < |es| ==> es[i].key == key && Put(es, key, value) == es[i := Entry(key, value)]
    ensures i == |es| ==> Put(es, key, value) == es + [Entry(key, value)]
  {
    if es == [] || es[0].key == key {
      i := 0;
    } else {
      var below := PutPlace(es[1..], key, value);
      i := below + 1;
      forall j | 0 <= j < i
        ensures es[j].key != key
      {
        assert j > 0 ==> es[j] == es[1..][j - 1];
      }
    }
  }

  lemma {:induction false} PutIsClean(es: seq<Entry>, key: string, value: Tree)
    requires Clean(es) && DotFree(key) && (value.Node? ==> Clean(value.entries))
    ensures Clean(Put(es, key, value)) && Put(es, key, value) != []
    ensures NoEmptyRoot(es) && (value.Leaf? || key != "") ==> NoEmptyRoot(Put(es, key, value))
  {
    var i := PutPlace(es, key, value);
  }

  lemma {:induction false} FindIsEntry(es: seq<Entry>, key: string)
    ensures Find(es, key).Some? ==> exists i | 0 <= i < |es| :: es[i] == Entry(key, Find(es, key).value)
  {
    if es != [] && es[0].key != key {
      FindIsEntry(es[1..], key);
      if Find(es, key).Some? {
        var i :| 0 <= i < |es[1..]| && es[1..][i] == Entry(key, Find(es, key).value);
        assert es[i + 1] == Entry(key, Find(es, key).value);
      }
    } else if es != [] {
      assert es[0] == Entry(key, Find(es, key).value);
    }
  }

  lemma {:induction false} SetNestedIsClean(es: seq<Entry>, parts: seq<string>, text: string)
    requires Clean(es) && |parts| > 0 && forall i | 0 <= i < |parts| :: DotFree(parts[i])
    ensures Clean(SetNested(es, parts, text)) && SetNested(es, parts, text) != []
    ensures NoEmptyRoot(es) && (|parts| == 1 || parts[0] != "") ==> NoEmptyRoot(SetNested(es, parts, text))
    decreases |parts|
  {
    FindIsEntry(es, parts[0]);
    if |parts| == 1 {
      PutIsClean(es, parts[0], Leaf(text));
    } else {
      var nested := Children(Find(es, parts[0]));
      assert Clean(nested);
      SetNestedIsClean(nested, parts[1..], text);
      PutIsClean(es, parts[0], Node(SetNested(nested, parts[1..], text)));
    }
  }

  predicate LeadingDot(k: string) {
    "." <= k
  }

  lemma {:induction false} RebuildIsClean(flat: seq<Flat>)
    ensures Clean(Rebuild(flat))
    ensures (forall i | 0 <= i < |flat| :: !LeadingDot(flat[i].key)) ==> NoEmptyRoot(Rebuild(flat))
  {
    if flat != [] {
      var init, last := flat[..|flat| - 1], flat[|flat| - 1];
      RebuildIsClean(init);
      SetNestedIsClean(Rebuild(init), Split(last.key), last.text);
      SplitTail(last.key);
    }
  }

  // ---------- The two round trips ----------

  /** No key continues another, part by part; in particular no key occurs twice. */
  ghost predicate PrefixFree(flat: seq<Flat>) {
    forall i, j | 0 <= i < |flat| && 0 <= j < |flat| && i != j :: !(Split(flat[i].key) <= Split(flat[j].key))
  }

  /** Keys that a tree can be rebuilt from and flattened back to. */
  ghost predicate Rebuildable(flat: seq<Flat>) {
    PrefixFree(flat) && forall i | 0 <= i < |flat| :: !LeadingDot(flat[i].key)
  }

  function MapOf(flat: seq<Flat>): map<string, string> {
    if flat == [] then map[]
    else MapOf(flat[..|flat| - 1])[flat[|flat| - 1].key := flat[|flat| - 1].text]
  }

  lemma {:induction false} MapOfHas(flat: seq<Flat>, k: string)
    ensures k in MapOf(flat) <==> exists i | 0 <= i < |flat| :: flat[i].key == k
    ensures k in MapOf(flat) ==> exists i | 0 <= i < |flat| :: flat[i] == Flat(k, MapOf(flat)[k])
  {
    if flat != [] {
      var init := flat[..|flat| - 1];
      MapOfHas(init, k);
      assert flat == init + [flat[|flat| - 1]];
      if k == flat[|flat| - 1].key {
        assert flat[|flat| - 1] == Flat(k, MapOf(flat)[k]);
      } else if k in MapOf(init) {
        var i :| 0 <= i < |init| && init[i] == Flat(k, MapOf(init)[k]);
        assert flat[i] == Flat(k, MapOf(flat)[k]);
      }
    }
  }

  /** No insertion of a prefix-free list destroys an earlier one: after all of them the tree holds exactly
      the listed texts, wherever one looks. */
  lemma {:induction false} LeafAtRebuild(flat: seq<Flat>, path: seq<string>)
    requires PrefixFree(flat) && |path| > 0
    ensures LeafAt(Rebuild(flat), path) ==
            if Split(Join(path)) == path then Get(MapOf(flat), Join(path)) else None
  {
    if flat != [] {
      var init, last := flat[..|flat| - 1], flat[|flat| - 1];
      LeafAtRebuild(init, path);
      LeafAtSetNested(Rebuild(init), Split(last.key), last.text, path);
      JoinSplit(last.key);
      var k := Join(path);
      MapOfHas(init, k);
      if Split(k) == path && k in MapOf(init) {
        var i :| 0 <= i < |init| && init[i].key == k;
        assert flat[i].key == k;
      }
    }
  }

  /** Flattening undoes rebuilding, for a prefix-free list of keys, exactly when no key starts with a dot:
      such a key comes back without its dots. */
  lemma {:induction false} FlattenUndoesRebuild(flat: seq<Flat>)
    requires PrefixFree(flat)
    ensures Flatten(Rebuild(flat), "", map[]) == MapOf(flat) <==>
            forall i | 0 <= i < |flat| :: !LeadingDot(flat[i].key)
  {
    var es := Rebuild(flat);
    var back := Flatten(es, "", map[]);
    RebuildIsClean(flat);
    if forall i | 0 <= i < |flat| :: !LeadingDot(flat[i].key) {
      forall k
        ensures Get(back, k) == Get(MapOf(flat), k)
      {
        FlattenIsLeafAt(es, "", map[], k);
        LeafAtRebuild(flat, Split(k));
        JoinSplit(k);
      }
      SameGetsSameMap(back, MapOf(flat));
    } else {
      var i :| 0 <= i < |flat| && LeadingDot(flat[i].key);
      MapOfHas(flat, flat[i].key);
      FlattenHasNoLeadingDot(es, "", map[], flat[i].key);
    }
  }

  lemma {:induction false} SameGetsSameMap(a: map<string, string>, b: map<string, string>)
    requires forall k :: Get(a, k) == Get(b, k)
    ensures a == b
  {
    forall k
      ensures k in a <==> k in b
      ensures k in a ==> a[k] == b[k]
    {
      assert Get(a, k) == Get(b, k);
    }
  }

  /** Every map below the root is non-empty. */
  predicate Full(es: seq<Entry>) {
    forall i | 0 <= i < |es| && es[i].value.Node? :: es[i].value.entries != [] && Full(es[i].value.entries)
  }

  /** Equal up to the order of entries. */
  predicate SameTree(a: seq<Entry>, b: seq<Entry>)
    decreases a
  {
    && (forall i | 0 <= i < |a| :: Find(b, a[i].key).Some? && SameValue(a[i].value, Find(b, a[i].key).value))
    && (forall j | 0 <= j < |b| :: Find(a, b[j].key).Some?)
  }

  predicate SameValue(a: Tree, b: Tree)
    decreases a
  {
    match (a, b)
    case (Leaf(s), Leaf(t)) => s == t
    case (Node(x), Node(y)) => SameTree(x, y)
    case _ => false
  }

  lemma {:induction false} FindOwn(es: seq<Entry>, i: nat)
    requires Clean(es) && i < |es|
    ensures Find(es, es[i].key) == Some(es[i].value)
  {
    if i > 0 {
      assert Clean(es[1..]);
      FindOwn(es[1..], i - 1);
    }
  }

  /** A non-empty tree without empty maps holds a text below its first key. */
  lemma {:induction false} SomeLeaf(key: string, t: Tree) returns (path: seq<string>)
    requires t.Node? ==> t.entries != [] && Clean(t.entries) && Full(t.entries)
    ensures |path| > 0 && path[0] == key
    ensures forall es | Find(es, key) == Some(t) :: LeafAt(es, path).Some?
    decreases t
  {
    path := [key];
    if t.Node? {
      var e := t.entries[0];
      var below := SomeLeaf(e.key, e.value);
      FindOwn(t.entries, 0);
      path := [key] + below;
      assert path[1..] == below;
      assert LeafAt(t.entries, below).Some?;
    }
  }

  ghost predicate SameLeaves(a: seq<Entry>, b: seq<Entry>) {
    forall path: seq<string> | |path| > 0 :: LeafAt(a, path) == LeafAt(b, path)
  }

  lemma {:induction false} SameLeavesSameTree(a: seq<Entry>, b: seq<Entry>)
    requires Clean(a) && Full(a) && Clean(b) && Full(b) && SameLeaves(a, b)
    ensures SameTree(a, b)
    decreases a
  {
    forall i | 0 <= i < |a|
      ensures Find(b, a[i].key).Some? && SameValue(a[i].value, Find(b, a[i].key).value)
    {
      SameLeavesSameEntry(a, b, i);
    }
    forall j | 0 <= j < |b|
      ensures Find(a, b[j].key).Some?
    {
      FindOwn(b, j);
      var path := SomeLeaf(b[j].key, b[j].value);
      assert LeafAt(b, path).Some?;
    }
  }

  lemma {:induction false} SameLeavesSameEntry(a: seq<Entry>, b: seq<Entry>, i: nat)
    requires Clean(a) && Full(a) && Clean(b) && Full(b) && SameLeaves(a, b) && i < |a|
    ensures Find(b, a[i].key).Some? && SameValue(a[i].value, Find(b, a[i].key).value)
    decreases a, 0
  {
    var key, t := a[i].key, a[i].value;
    FindOwn(a, i);
    var path := SomeLeaf(key, t);
    assert LeafAt(a, path).Some?;
    FindIsEntry(b, key);
    if t.Leaf? {
      assert LeafAt(a, [key]) == LeafAt(b, [key]);
    } else {
      assert LeafAt(a, [key]) == LeafAt(b, [key]);
      var other := Find(b, key).value;
      assert other.Node?;
      forall below: seq<string> | |below| > 0
        ensures LeafAt(t.entries, below) == LeafAt(other.entries, below)
      {
        assert ([key] + below)[1..] == below;
        assert LeafAt(a, [key] + below) == LeafAt(b, [key] + below);
      }
      SameLeavesSameTree(t.entries, other.entries);
    }
  }

  lemma {:induction false} SetNestedIsFull(es: seq<Entry>, parts: seq<string>, text: string)
    requires Full(es) && |parts| > 0
    ensures Full(SetNested(es, parts, text)) && SetNested(es, parts, text) != []
    decreases |parts|
  {
    FindIsEntry(es, parts[0]);
    if |parts| == 1 {
      var i := PutPlace(es, parts[0], Leaf(text));
    } else {
      var nested := Children(Find(es, parts[0]));
      assert Full(nested);
      SetNestedIsFull(nested, parts[1..], text);
      var i := PutPlace(es, parts[0], Node(SetNested(nested, parts[1..], text)));
    }
  }

  lemma {:induction false} RebuildIsFull(flat: seq<Flat>)
    ensures Full(Rebuild(flat))
  {
    if flat != [] {
      RebuildIsFull(flat[..|flat| - 1]);
      SetNestedIsFull(Rebuild(flat[..|flat| - 1]), Split(flat[|flat| - 1].key), flat[|flat| - 1].text);
    }
  }

  /** A path to a text is neither a continuation of another such path nor continued by one. */
  lemma {:induction false} LeavesDoNotNest(es: seq<Entry>, p: seq<string>, q: seq<string>)
    requires |p| > 0 && p <= q && LeafAt(es, p).Some? && LeafAt(es, q).Some?
    ensures p == q
    decreases |p|
  {
    if |p| > 1 {
      LeavesDoNotNest(Find(es, p[0]).value.entries, p[1..], q[1..]);
      assert p == [p[0]] + p[1..] && q == [q[0]] + q[1..];
    }
  }

  lemma {:induction false} LeafPathsSplitBack(es: seq<Entry>, path: seq<string>)
    requires Clean(es) && |path| > 0 && LeafAt(es, path).Some?
    ensures Split(Join(path)) == path
    decreases |path|
  {
    FindIsEntry(es, path[0]);
    if |path| == 1 {
      SplitDotFree(path[0]);
    } else {
      LeafPathsSplitBack(Find(es, path[0]).value.entries, path[1..]);
      SplitHead(path[0], Join(path[1..]));
    }
  }

  predicate DistinctKeys(flat: seq<Flat>) {
    forall i, j | 0 <= i < j < |flat| :: flat[i].key != flat[j].key
  }

  /** `flat` lists the flattened tree, in whatever order. */
  predicate Lists(flat: seq<Flat>, es: seq<Entry>) {
    DistinctKeys(flat) && MapOf(flat) == Flatten(es, "", map[])
  }

  /** The keys of a flattened clean tree are prefix-free and do not start with a dot. */
  lemma {:induction false} FlattenedKeysArePrefixFree(es: seq<Entry>, flat: seq<Flat>)
    requires Clean(es) && NoEmptyRoot(es) && Lists(flat, es)
    ensures Rebuildable(flat)
  {
    forall i | 0 <= i < |flat|
      ensures !LeadingDot(flat[i].key) && LeafAt(es, Split(flat[i].key)).Some?
    {
      MapOfHas(flat, flat[i].key);
      FlattenHasNoLeadingDot(es, "", map[], flat[i].key);
      FlattenIsLeafAt(es, "", map[], flat[i].key);
    }
    forall i, j | 0 <= i < |flat| && 0 <= j < |flat| && i != j
      ensures !(Split(flat[i].key) <= Split(flat[j].key))
    {
      if Split(flat[i].key) <= Split(flat[j].key) {
        LeavesDoNotNest(es, Split(flat[i].key), Split(flat[j].key));
        JoinSplit(flat[i].key);
        JoinSplit(flat[j].key);
      }
    }
  }

  lemma {:induction false} SameTreeOfFull(a: seq<Entry>, b: seq<Entry>)
    requires SameTree(a, b) && Full(b)
    ensures Full(a)
    decreases a
  {
    forall i | 0 <= i < |a| && a[i].value.Node?
      ensures a[i].value.entries != [] && Full(a[i].value.entries)
    {
      var key := a[i].key;
      assert SameValue(a[i].value, Find(b, key).value);
      FindIsEntry(b, key);
      var x, y := a[i].value.entries, Find(b, key).value.entries;
      SameTreeOfFull(x, y);
      assert Find(x, y[0].key).Some?;
    }
  }

  /** Rebuilding from the flattened map, in any order, gives back a clean tree (up to entry order) exactly
      when it has no empty map below the root and no map under the empty key. */
  lemma {:induction false} RebuildUndoesFlatten(es: seq<Entry>, flat: seq<Flat>)
    requires Clean(es) && Lists(flat, es)
    ensures SameTree(es, Rebuild(flat)) <==> Full(es) && NoEmptyRoot(es)
  {
    var back := Rebuild(flat);
    RebuildIsClean(flat);
    RebuildIsFull(flat);
    if Full(es) && NoEmptyRoot(es) {
      FlattenedKeysArePrefixFree(es, flat);
      forall path: seq<string> | |path| > 0
        ensures LeafAt(es, path) == LeafAt(back, path)
      {
        LeafAtRebuild(flat, path);
        if Split(Join(path)) == path {
          FlattenIsLeafAt(es, "", map[], Join(path));
        } else if LeafAt(es, path).Some? {
          LeafPathsSplitBack(es, path);
        }
      }
      SameLeavesSameTree(es, back);
    } else if SameTree(es, back) {
      SameTreeOfFull(es, back);
      forall i | 0 <= i < |flat|
        ensures !LeadingDot(flat[i].key)
      {
        MapOfHas(flat, flat[i].key);
        FlattenHasNoLeadingDot(es, "", map[], flat[i].key);
      }
      FindIsEntry(back, "");
    }
  }

  // ---------- One nested text ----------

  /** A text in a map under a key has the two keys with a dot between them, and the other way round. */
  lemma {:induction false} NestedKeyIsDotted(outer: string, inner: string, text: string)
    requires outer != "" && '.' !in outer && '.' !in inner
    ensures var es := [Entry(outer, Node([Entry(inner, Leaf(text))]))];
            && Flatten(es, "", map[]) == map[outer + "." + inner := text]
            && Rebuild([Flat(outer + "." + inner, text)]) == es
  {
    var nested := [Entry(inner, Leaf(text))];
    var es := [Entry(outer, Node(nested))];
    var key := outer + "." + inner;
    assert nested[1..] == [] && es[1..] == [];
    assert Flatten(nested, outer, map[]) == Flatten([], outer, map[key := text]);
    SplitHead(outer, inner);
    SplitDotFree(inner);
    assert Split(key)[1..] == [inner] && Split(key)[0] == outer;
    assert [Flat(key, text)][..0] == [] && Rebuild([]) == [];
    assert Find([], outer) == None && Children(None) == [];
    assert SetNested([], [inner], text) == nested;
    assert SetNested([], Split(key), text) == Put([], outer, Node(nested)) == es;
  }

  // ---------- Where the round trips fail ----------

  /** A key that starts with a dot comes back without it. */
  lemma {:induction false} LeadingDotIsLost()
    ensures var flat := [Flat(".a", "x")];
            PrefixFree(flat) && Flatten(Rebuild(flat), "", map[]) != MapOf(flat)
  {
    var flat := [Flat(".a", "x")];
    assert LeadingDot(flat[0].key);
    FlattenUndoesRebuild(flat);
  }

  /** An empty map leaves nothing to rebuild it from. */
  lemma {:induction false} EmptyMapIsLost()
    ensures var es := [Entry("a", Node([]))];
            Clean(es) && Lists([], es) && !SameTree(es, Rebuild([]))
  {
    var es := [Entry("a", Node([]))];
    assert es[1..] == [];
    assert DotFree("a");
    assert Clean(es);
    assert es[0].value.Node? && es[0].value.entries == [];
    assert !Full(es);
    RebuildUndoesFlatten(es, []);
  }
}
