/** The sync of one locale: every source text is taken from the translation memory, from the existing
    locale file, from the provider, or falls back to English. */
module SyncLocale {
  import opened Text
  import opened LocaleTree
  import opened TranslateSession
  import opened Sorting

  const SOURCE_LOCALE := "en"
  const WORKFLOW := 1

  /** A line of the translation memory. */
  datatype Memo = Memo(
    cacheKey: string, model: string, provider: string, segmentId: string, sourcePath: string, srcLang: string,
    text: string, textHash: string, tgtLang: string, translated: string, updatedAt: string)

  datatype Meta = Meta(
    fallbackKeys: seq<string>, generatedAt: string, locale: string, model: string, provider: string,
    sourceHash: string, totalKeys: nat, translatedKeys: int, workflow: nat)

  /** What a sync depends on besides the files. The hash functions and the placeholder scan are taken as
      they come; `leq` is the order that sorts the fallback keys. */
  datatype Settings = Settings(
    locale: string, sourcePath: string, allowTranslate: bool, provider: string, model: string,
    force: bool, budget: int, sourceHash: string,
    hashText: string -> string, cacheKeyOf: (string, string) -> string,
    placeholders: string -> seq<string>, leq: (string, string) -> bool)

  /** The files a sync reads: the flattened source and locale, the metadata and the memory's lines. */
  datatype Input = Input(source: seq<Flat>, existing: map<string, string>, meta: Option<Meta>, lines: seq<Memo>)

  /** What a completed sync has decided. */
  datatype Output = Output(flat: map<string, string>, fallback: seq<string>, tm: map<string, Memo>, pending: seq<Item>)

  // ---------- The translation memory ----------

  predicate Kept(m: Memo) {
    m.cacheKey != "" && !IsBlank(m.translated)
  }

  /** Later lines replace earlier ones with the same cache key; blank translations are dropped. */
  function Load(lines: seq<Memo>): map<string, Memo> {
    if lines == [] then map[]
    else
      var m := lines[|lines| - 1];
      var before := Load(lines[..|lines| - 1]);
      if Kept(m) then before[m.cacheKey := m] else before
  }

  /** The cache keys in the order in which the loaded memory lists them. */
  function LoadOrder(lines: seq<Memo>): seq<string> {
    if lines == [] then []
    else
      var m := lines[|lines| - 1];
      var before := LoadOrder(lines[..|lines| - 1]);
      if Kept(m) && m.cacheKey !in before then before + [m.cacheKey] else before
  }

  lemma {:induction false} LoadFacts(lines: seq<Memo>)
    ensures TmOk(Load(lines))
    ensures forall k :: k in LoadOrder(lines) <==> k in Load(lines)
  {
    if lines != [] {
      LoadFacts(lines[..|lines| - 1]);
    }
  }

  predicate TmOk(tm: map<string, Memo>) {
    forall k | k in tm :: tm[k].cacheKey == k && Kept(tm[k])
  }

  predicate Usable(m: Memo, locale: string) {
    m.tgtLang == locale && m.textHash != "" && !IsBlank(m.translated)
  }

  /** The last usable entry with the given text hash. */
  function ByText(tm: map<string, Memo>, order: seq<string>, locale: string, hash: string): Option<Memo>
    requires forall k | k in order :: k in tm
  {
    if order == [] then None
    else
      var m := tm[order[|order| - 1]];
      if Usable(m, locale) && m.textHash == hash then Some(m) else ByText(tm, order[..|order| - 1], locale, hash)
  }

  method BuildMemoryByTextHash(tm: map<string, Memo>, order: seq<string>,
                               locale: string) returns (byHash: map<string, Memo>)
    requires forall k | k in order :: k in tm
    ensures forall h ::
              if h in byHash then ByText(tm, order, locale, h) == Some(byHash[h])
              else ByText(tm, order, locale, h) == None
  {
    byHash := map[];
    for i := 0 to |order|
      invariant forall h ::
                  if h in byHash then ByText(tm, order[..i], locale, h) == Some(byHash[h])
                  else ByText(tm, order[..i], locale, h) == None
    {
      assert order[..i + 1][..i] == order[..i];
      var m := tm[order[i]];
      if Usable(m, locale) {
        byHash := byHash[m.textHash := m];
      }
    }
    assert order[..|order|] == order;
  }

  lemma {:induction false} ByTextFinds(tm: map<string, Memo>, order: seq<string>, locale: string, hash: string)
    requires forall k | k in order :: k in tm
    ensures var r := ByText(tm, order, locale, hash);
            && (r.Some? <==> exists k | k in order :: Usable(tm[k], locale) && tm[k].textHash == hash)
            && (r.Some? ==> Usable(r.value, locale) && r.value.textHash == hash && r.value in tm.Values)
  {
    if order != [] {
      ByTextFinds(tm, order[..|order| - 1], locale, hash);
      assert order[|order| - 1] in order;
    }
  }

  // ---------- One key ----------

  function HashOf(s: Settings, f: Flat): string {
    s.hashText(f.text)
  }

  function CacheKeyOf(s: Settings, f: Flat): string {
    s.cacheKeyOf(f.key, HashOf(s, f))
  }

  /** No two source texts collide in the memory, and no digest is empty. */
  ghost predicate NoCollisions(s: Settings, source: seq<Flat>) {
    && (forall i, j | 0 <= i < j < |source| :: CacheKeyOf(s, source[i]) != CacheKeyOf(s, source[j]))
    && (forall i | 0 <= i < |source| :: CacheKeyOf(s, source[i]) != "")
  }

  function WasFallback(inp: Input, key: string): bool {
    inp.meta.Some? && key in inp.meta.value.fallbackKeys
  }

  datatype Decision = FromCache(memo: Memo) | FromText(memo: Memo) | FromExisting(text: string) | Translate

  /** The memory entry a text can reuse by its hash alone. */
  function TextMatch(locale: string, lines: seq<Memo>, hash: string): Option<Memo> {
    LoadFacts(lines);
    ByText(Load(lines), LoadOrder(lines), locale, hash)
  }

  ghost predicate HasText(tm: map<string, Memo>, locale: string, hash: string) {
    exists k | k in tm :: Usable(tm[k], locale) && tm[k].textHash == hash
  }

  lemma {:induction false} TextMatchFinds(locale: string, lines: seq<Memo>, hash: string)
    ensures var r := TextMatch(locale, lines, hash);
            && (r.Some? <==> HasText(Load(lines), locale, hash))
            && (r.Some? ==> Usable(r.value, locale) && r.value.textHash == hash && r.value in Load(lines).Values)
  {
    LoadFacts(lines);
    var tm, order := Load(lines), LoadOrder(lines);
    ByTextFinds(tm, order, locale, hash);
    if ByText(tm, order, locale, hash).Some? {
      var k :| k in order && Usable(tm[k], locale) && tm[k].textHash == hash;
      assert HasText(tm, locale, hash);
    }
  }

  function Decide(s: Settings, inp: Input, f: Flat): Decision {
    var tm := Load(inp.lines);
    var ck := CacheKeyOf(s, f);
    var refresh := WasFallback(inp, f.key);
    var byText := TextMatch(s.locale, inp.lines, HashOf(s, f));
    if ck in tm && !(s.allowTranslate && refresh) then FromCache(tm[ck])
    else if byText.Some? && (refresh || f.key !in inp.existing) then FromText(byText.value)
    else if f.key in inp.existing && !(s.allowTranslate && refresh) then FromExisting(inp.existing[f.key])
    else Translate
  }

  function Reused(s: Settings, f: Flat, m: Memo): Memo {
    m.(cacheKey := CacheKeyOf(s, f), segmentId := f.key, sourcePath := s.sourcePath)
  }

  function Fresh(s: Settings, f: Flat, value: string, at: string): Memo {
    Memo(CacheKeyOf(s, f), s.model, s.provider, f.key, s.sourcePath, SOURCE_LOCALE, f.text, HashOf(s, f), s.locale,
      value, at)
  }

  predicate SameAt(a: map<string, Memo>, b: map<string, Memo>, k: string) {
    if k in a then k in b && b[k] == a[k] else k !in b
  }

  /** The outcome for one source text: its value, whether it counts as a fallback, and its memory entry. */
  ghost predicate Settled(s: Settings, inp: Input, f: Flat, flat: map<string, string>, fallback: seq<string>,
                          tm: map<string, Memo>) {
    var tm0 := Load(inp.lines);
    var ck := CacheKeyOf(s, f);
    && f.key in flat
    && match Decide(s, inp, f)
       case FromCache(m) =>
         flat[f.key] == m.translated && (f.key in fallback <==> WasFallback(inp, f.key)) && SameAt(tm0, tm, ck)
       case FromText(m) =>
         flat[f.key] == m.translated && f.key !in fallback && ck in tm && tm[ck] == Reused(s, f, m)
       case FromExisting(text) =>
         flat[f.key] == text && (f.key in fallback <==> WasFallback(inp, f.key)) && SameAt(tm0, tm, ck)
       case Translate =>
         if s.allowTranslate then
           && !IsBlank(flat[f.key]) && f.key !in fallback
           && ck in tm && tm[ck] == Fresh(s, f, flat[f.key], tm[ck].updatedAt)
         else
           flat[f.key] == f.text && f.key in fallback && SameAt(tm0, tm, ck)
  }

  ghost predicate IsSourceKey(s: Settings, source: seq<Flat>, ck: string) {
    exists i | 0 <= i < |source| :: CacheKeyOf(s, source[i]) == ck
  }

  ghost predicate IsKey(source: seq<Flat>, key: string) {
    exists i | 0 <= i < |source| :: source[i].key == key
  }

  ghost predicate AllSettled(s: Settings, inp: Input, out: Output) {
    forall i | 0 <= i < |inp.source| :: Settled(s, inp, inp.source[i], out.flat, out.fallback, out.tm)
  }

  /** What every sync has decided when it comes to the placeholder check. The `force` option does not occur: it
      has no effect on the result. */
  ghost predicate Complete(s: Settings, inp: Input, out: Output) {
    && (forall k :: k in out.flat <==> IsKey(inp.source, k))
    && AllSettled(s, inp, out)
    && NoDuplicates(out.fallback)
    && (forall k | k in out.fallback :: IsKey(inp.source, k))
    && (forall ck | !IsSourceKey(s, inp.source, ck) :: SameAt(Load(inp.lines), out.tm, ck))
    && TmOk(out.tm)
    && out.pending == Pending(s, inp, inp.source)
  }

  predicate PlaceholdersMatch(s: Settings, source: seq<Flat>, flat: map<string, string>) {
    forall i | 0 <= i < |source| :: source[i].key in flat
      && s.placeholders(flat[source[i].key]) == s.placeholders(source[i].text)
  }

  /** What every completed sync does. */
  ghost predicate Synced(s: Settings, inp: Input, out: Output) {
    Complete(s, inp, out) && PlaceholdersMatch(s, inp.source, out.flat)
  }

  function ItemFor(s: Settings, f: Flat): Item {
    Item(CacheKeyOf(s, f), f.key, f.text, HashOf(s, f))
  }

  function Pending(s: Settings, inp: Input, source: seq<Flat>): seq<Item> {
    if source == [] then []
    else
      var f := source[|source| - 1];
      Pending(s, inp, source[..|source| - 1]) + (if Decide(s, inp, f).Translate? then [ItemFor(s, f)] else [])
  }

  // ---------- What a completed sync writes, case by case ----------

  /** Line `n` is a kept entry of the memory with this cache key. */
  predicate IsEntryAt(lines: seq<Memo>, key: string, n: nat) {
    n < |lines| && lines[n].cacheKey == key && key != "" && !IsBlank(lines[n].translated)
  }

  ghost predicate IsLastEntry(lines: seq<Memo>, key: string, n: nat) {
    IsEntryAt(lines, key, n) && forall l: nat | n < l < |lines| :: !IsEntryAt(lines, key, l)
  }

  ghost predicate IsFirstEntry(lines: seq<Memo>, key: string, n: nat) {
    IsEntryAt(lines, key, n) && forall l: nat | l < n :: !IsEntryAt(lines, key, l)
  }

  /** The loaded memory holds the last kept entry of each cache key. */
  lemma {:induction false} LoadKeepsLast(lines: seq<Memo>, key: string)
    ensures key in Load(lines) <==> exists n: nat :: IsLastEntry(lines, key, n)
    ensures forall n: nat | IsLastEntry(lines, key, n) :: key in Load(lines) && Load(lines)[key] == lines[n]
  {
    if lines != [] {
      var init := lines[..|lines| - 1];
      LoadKeepsLast(init, key);
      forall l: nat | l < |init|
        ensures IsEntryAt(init, key, l) <==> IsEntryAt(lines, key, l)
      {
      }
      if IsEntryAt(lines, key, |init|) {
        assert IsLastEntry(lines, key, |init|);
      } else {
        forall n: nat
          ensures IsLastEntry(init, key, n) <==> IsLastEntry(lines, key, n)
        {
        }
      }
    }
  }

  /** It lists the cache keys in the order of their first kept entries. */
  lemma {:induction false} LoadOrderIsFirstUse(lines: seq<Memo>, p: nat, q: nat, m: nat, n: nat)
    requires p < q < |LoadOrder(lines)|
    requires IsFirstEntry(lines, LoadOrder(lines)[p], m) && IsFirstEntry(lines, LoadOrder(lines)[q], n)
    ensures m < n
  {
    var init := lines[..|lines| - 1];
    var before := LoadOrder(init);
    if q < |before| {
      FirstEntryBefore(lines, before[p], m);
      FirstEntryBefore(lines, before[q], n);
      LoadOrderIsFirstUse(init, p, q, m, n);
    } else {
      FirstEntryBefore(lines, before[p], m);
      if n < |init| {
        EntryIsLoaded(init, LoadOrder(lines)[q], n);
        LoadFacts(init);
      }
    }
  }

  lemma {:induction false} EntryIsLoaded(lines: seq<Memo>, key: string, n: nat)
    requires IsEntryAt(lines, key, n)
    ensures key in Load(lines)
  {
    if n < |lines| - 1 {
      EntryIsLoaded(lines[..|lines| - 1], key, n);
    }
  }

  lemma {:induction false} FirstEntryBefore(lines: seq<Memo>, key: string, n: nat)
    requires lines != [] && IsFirstEntry(lines, key, n) && key in LoadOrder(lines[..|lines| - 1])
    ensures IsFirstEntry(lines[..|lines| - 1], key, n)
  {
    var init := lines[..|lines| - 1];
    LoadFacts(init);
    LoadKeepsLast(init, key);
    var l: nat :| IsLastEntry(init, key, l);
    assert IsEntryAt(lines, key, l);
    forall k: nat | k < |init|
      ensures IsEntryAt(init, key, k) <==> IsEntryAt(lines, key, k)
    {
    }
  }

  /** An entry that may be reused for another key with the same text hash. */
  predicate IsReusable(m: Memo, locale: string, hash: string) {
    m.tgtLang == locale && m.textHash == hash && hash != "" && !IsBlank(m.translated)
  }

  /** The last such entry in the order of the loaded memory. */
  ghost predicate IsLastReusable(lines: seq<Memo>, locale: string, hash: string, p: nat) {
    var tm, order := Load(lines), LoadOrder(lines);
    && p < |order| && order[p] in tm && IsReusable(tm[order[p]], locale, hash)
    && forall q: nat | p < q < |order| :: order[q] in tm && !IsReusable(tm[order[q]], locale, hash)
  }

  lemma {:induction false} ByTextIsLast(tm: map<string, Memo>, order: seq<string>, locale: string, hash: string)
    returns (p: nat)
    requires forall k | k in order :: k in tm
    requires ByText(tm, order, locale, hash).Some?
    ensures p < |order| && ByText(tm, order, locale, hash) == Some(tm[order[p]])
    ensures IsReusable(tm[order[p]], locale, hash)
    ensures forall q: nat | p < q < |order| :: !IsReusable(tm[order[q]], locale, hash)
  {
    p := |order| - 1;
    if !IsReusable(tm[order[p]], locale, hash) {
      p := ByTextIsLast(tm, order[..p], locale, hash);
    }
  }

  /** The entry that a text reuses by its hash is the last reusable one. */
  lemma {:induction false} TextMatchIsLast(locale: string, lines: seq<Memo>, hash: string)
    ensures TextMatch(locale, lines, hash).Some? <==>
            exists k | k in Load(lines) :: IsReusable(Load(lines)[k], locale, hash)
    ensures TextMatch(locale, lines, hash).Some? ==>
              exists p: nat :: IsLastReusable(lines, locale, hash, p)
                && TextMatch(locale, lines, hash) == Some(Load(lines)[LoadOrder(lines)[p]])
  {
    LoadFacts(lines);
    TextMatchFinds(locale, lines, hash);
    if TextMatch(locale, lines, hash).Some? {
      var p := ByTextIsLast(Load(lines), LoadOrder(lines), locale, hash);
      assert IsLastReusable(lines, locale, hash, p);
    }
    assert forall k | k in Load(lines) ::
      IsReusable(Load(lines)[k], locale, hash) <==> Usable(Load(lines)[k], locale) && Load(lines)[k].textHash == hash;
  }

  /** The value of one source text in every completed sync, told from the files the sync read. The memory entry of
      the key itself comes first, unless a fallback is to be refreshed by a provider. */
  lemma {:induction false} MemoryComesFirst(s: Settings, inp: Input, out: Output, i: nat)
    requires Complete(s, inp, out) && i < |inp.source|
    ensures var f := inp.source[i];
            var ck := s.cacheKeyOf(f.key, s.hashText(f.text));
            var was := inp.meta.Some? && f.key in inp.meta.value.fallbackKeys;
            ck in Load(inp.lines) && !(s.allowTranslate && was) ==>
              && f.key in out.flat && out.flat[f.key] == Load(inp.lines)[ck].translated
              && (f.key in out.fallback <==> was)
              && ck in out.tm && out.tm[ck] == Load(inp.lines)[ck]
  {
    assert Settled(s, inp, inp.source[i], out.flat, out.fallback, out.tm);
  }

  /** Then an entry with the hash of the text, copied under the key's own cache key, for a key that was a fallback or
      has no text in the locale file. */
  lemma {:induction false} SameTextComesSecond(s: Settings, inp: Input, out: Output, i: nat)
    requires Complete(s, inp, out) && i < |inp.source|
    ensures var f := inp.source[i];
            var hash := s.hashText(f.text);
            var ck := s.cacheKeyOf(f.key, hash);
            var was := inp.meta.Some? && f.key in inp.meta.value.fallbackKeys;
            var tm, order := Load(inp.lines), LoadOrder(inp.lines);
            && (ck !in tm || (s.allowTranslate && was)) && (was || f.key !in inp.existing)
            && (exists k | k in tm :: IsReusable(tm[k], s.locale, hash)) ==>
              exists p: nat :: IsLastReusable(inp.lines, s.locale, hash, p)
                && f.key in out.flat && out.flat[f.key] == tm[order[p]].translated
                && f.key !in out.fallback
                && ck in out.tm
                && out.tm[ck] == tm[order[p]].(cacheKey := ck, segmentId := f.key, sourcePath := s.sourcePath)
  {
    assert Settled(s, inp, inp.source[i], out.flat, out.fallback, out.tm);
    TextMatchIsLast(s.locale, inp.lines, s.hashText(inp.source[i].text));
  }

  /** Then the text in the locale file, unless a fallback is to be refreshed by a provider. */
  lemma {:induction false} ExistingComesThird(s: Settings, inp: Input, out: Output, i: nat)
    requires Complete(s, inp, out) && i < |inp.source|
    ensures var f := inp.source[i];
            var hash := s.hashText(f.text);
            var ck := s.cacheKeyOf(f.key, hash);
            var was := inp.meta.Some? && f.key in inp.meta.value.fallbackKeys;
            var tm := Load(inp.lines);
            && ck !in tm && f.key in inp.existing && !(s.allowTranslate && was)
            && !(was && exists k | k in tm :: IsReusable(tm[k], s.locale, hash)) ==>
              && f.key in out.flat && out.flat[f.key] == inp.existing[f.key]
              && (f.key in out.fallback <==> was)
              && ck !in out.tm
  {
    assert Settled(s, inp, inp.source[i], out.flat, out.fallback, out.tm);
    TextMatchIsLast(s.locale, inp.lines, s.hashText(inp.source[i].text));
  }

  /** All other keys are translated by the provider, or without one get the English text as recorded fallbacks. */
  lemma {:induction false} OthersAreTranslated(s: Settings, inp: Input, out: Output, i: nat)
    requires Complete(s, inp, out) && i < |inp.source|
    ensures var f := inp.source[i];
            var hash := s.hashText(f.text);
            var ck := s.cacheKeyOf(f.key, hash);
            var was := inp.meta.Some? && f.key in inp.meta.value.fallbackKeys;
            var refresh := s.allowTranslate && was;
            var tm := Load(inp.lines);
            && (ck !in tm || refresh)
            && !((was || f.key !in inp.existing) && exists k | k in tm :: IsReusable(tm[k], s.locale, hash))
            && (f.key !in inp.existing || refresh) ==>
              && Item(ck, f.key, f.text, hash) in out.pending
              && f.key in out.flat
              && if s.allowTranslate then
                   && !IsBlank(out.flat[f.key]) && f.key !in out.fallback && ck in out.tm
                   && out.tm[ck] == Memo(ck, s.model, s.provider, f.key, s.sourcePath, "en", f.text, hash, s.locale,
                        out.flat[f.key], out.tm[ck].updatedAt)
                 else
                   out.flat[f.key] == f.text && f.key in out.fallback && ck !in out.tm
  {
    assert Settled(s, inp, inp.source[i], out.flat, out.fallback, out.tm);
    TextMatchIsLast(s.locale, inp.lines, s.hashText(inp.source[i].text));
    if Decide(s, inp, inp.source[i]).Translate? {
      ItemIsPending(s, inp, inp.source, i);
    }
  }

  lemma {:induction false} ItemIsPending(s: Settings, inp: Input, source: seq<Flat>, i: nat)
    requires i < |source| && Decide(s, inp, source[i]).Translate?
    ensures ItemFor(s, source[i]) in Pending(s, inp, source)
  {
    if i < |source| - 1 {
      ItemIsPending(s, inp, source[..|source| - 1], i);
    }
  }

  // ---------- Writing the result and reading it back ----------

  /** The source keys with their new texts, in source order: what `setNestedValue` is applied to. */
  function Assigned(source: seq<Flat>, flat: map<string, string>): seq<Flat>
    requires forall i | 0 <= i < |source| :: source[i].key in flat
  {
    seq(|source|, i requires 0 <= i < |source| => Flat(source[i].key, flat[source[i].key]))
  }

  function NextMeta(s: Settings, inp: Input, out: Output, now: string): Meta {
    var fallbackKeys := Sort(s.leq, out.fallback);
    var previous := inp.meta;
    var provider := if s.allowTranslate then s.provider else if previous.Some? then previous.value.provider else "";
    var model := if s.allowTranslate then s.model else if previous.Some? then previous.value.model else "";
    var total := |inp.source|;
    var translated := total - |fallbackKeys|;
    var next := Meta(fallbackKeys, now, s.locale, model, provider, s.sourceHash, total, translated, WORKFLOW);
    var semanticChange := previous.None? || previous.value.(generatedAt := now) != next;
    if semanticChange then next else next.(generatedAt := previous.value.generatedAt)
  }

  function SourceKeys(source: seq<Flat>): set<string> {
    set i | 0 <= i < |source| :: source[i].key
  }

  lemma {:induction false} OneMoreSourceKey(init: seq<Flat>, last: Flat)
    ensures SourceKeys(init + [last]) == SourceKeys(init) + {last.key}
  {
    var source := init + [last];
    forall k | k in SourceKeys(init) + {last.key}
      ensures k in SourceKeys(source)
    {
      if k == last.key {
        assert source[|init|].key == k;
      } else {
        var i :| 0 <= i < |init| && init[i].key == k;
        assert source[i].key == k;
      }
    }
  }

  lemma {:induction false} SourceKeysCount(source: seq<Flat>)
    requires DistinctKeys(source)
    ensures |SourceKeys(source)| == |source|
  {
    if source != [] {
      var init, last := source[..|source| - 1], source[|source| - 1];
      SourceKeysCount(init);
      assert source == init + [last];
      OneMoreSourceKey(init, last);
      assert last.key !in SourceKeys(init);
    }
  }

  lemma {:induction false} WithoutSome(all: set<string>, some: set<string>)
    requires some <= all
    ensures |all - some| == |all| - |some|
  {
    assert all == (all - some) + some;
  }

  /** Every source key is translated or recorded as a fallback. */
  lemma {:induction false} FallbacksAndOthers(source: seq<Flat>, fallback: seq<string>)
    requires DistinctKeys(source) && NoDuplicates(fallback) && forall k | k in fallback :: IsKey(source, k)
    ensures |SourceKeys(source) - Elements(fallback)| == |source| - |fallback|
  {
    ElementsCount(fallback);
    SourceKeysCount(source);
    forall k | k in Elements(fallback)
      ensures k in SourceKeys(source)
    {
      assert IsKey(source, k);
    }
    WithoutSome(SourceKeys(source), Elements(fallback));
  }

  lemma {:induction false} FallbacksAreListed(s: Settings, inp: Input, out: Output, now: string)
    requires Complete(s, inp, out) && TotalOrder(s.leq) && DistinctKeys(inp.source)
    ensures var m := NextMeta(s, inp, out, now);
            && |m.fallbackKeys| == |out.fallback|
            && Sorted(s.leq, m.fallbackKeys) && multiset(m.fallbackKeys) == multiset(out.fallback)
  {
    var fallbackKeys := Sort(s.leq, out.fallback);
    SortSorts(s.leq, out.fallback);
    SortPermutes(s.leq, out.fallback);
    assert |fallbackKeys| == |multiset(fallbackKeys)| == |multiset(out.fallback)| == |out.fallback|;
  }

  /** The metadata list the fallback keys in order and count them and the other source keys. The settings are
      recorded, a provider's only while there is one; the time stamp is renewed exactly when something else has
      changed. */
  lemma {:induction false} MetaAddsUp(s: Settings, inp: Input, out: Output, now: string)
    requires Complete(s, inp, out) && TotalOrder(s.leq) && DistinctKeys(inp.source)
    ensures var m := NextMeta(s, inp, out, now);
            && m.totalKeys == |inp.source| == m.translatedKeys + |m.fallbackKeys|
            && m.translatedKeys == |SourceKeys(inp.source) - Elements(out.fallback)|
            && Sorted(s.leq, m.fallbackKeys) && multiset(m.fallbackKeys) == multiset(out.fallback)
    ensures var m := NextMeta(s, inp, out, now);
            && m.locale == s.locale && m.sourceHash == s.sourceHash && m.workflow == 1
            && (s.allowTranslate ==> m.provider == s.provider && m.model == s.model)
            && (!s.allowTranslate && inp.meta.Some? ==>
                  m.provider == inp.meta.value.provider && m.model == inp.meta.value.model)
            && (!s.allowTranslate && inp.meta.None? ==> m.provider == "" && m.model == "")
            && m.generatedAt == (if inp.meta.Some? && inp.meta.value.(generatedAt := "") == m.(generatedAt := "")
                                 then inp.meta.value.generatedAt else now)
  {
    FallbacksAreListed(s, inp, out, now);
    FallbacksAndOthers(inp.source, out.fallback);
  }

  /** The memory file lists the entries of the memory, in whatever order. */
  ghost predicate Records(lines: seq<Memo>, tm: map<string, Memo>) {
    && (forall m | m in lines :: m.cacheKey in tm && tm[m.cacheKey] == m)
    && (forall k | k in tm :: tm[k] in lines)
  }

  /** The files a later sync finds after the result has been written. */
  ghost predicate Written(s: Settings, inp: Input, out: Output, now: string, next: Input)
    requires Synced(s, inp, out)
  {
    && next.source == inp.source
    && next.existing == Flatten(Rebuild(Assigned(inp.source, out.flat)), "", map[])
    && next.meta == Some(NextMeta(s, inp, out, now))
    && Records(next.lines, out.tm)
  }

  lemma {:induction false} LoadAgrees(lines: seq<Memo>, tm: map<string, Memo>)
    requires TmOk(tm) && forall m | m in lines :: m.cacheKey in tm && tm[m.cacheKey] == m
    ensures forall k | k in Load(lines) :: k in tm && Load(lines)[k] == tm[k]
    ensures forall m | m in lines :: m.cacheKey in Load(lines)
  {
    if lines != [] {
      var init, last := lines[..|lines| - 1], lines[|lines| - 1];
      assert lines == init + [last];
      assert forall m | m in init :: m in lines;
      LoadAgrees(init, tm);
      assert last in lines;
      assert Kept(tm[last.cacheKey]);
    }
  }

  /** Reading the written memory gives the memory back. */
  lemma {:induction false} LoadOfRecords(lines: seq<Memo>, tm: map<string, Memo>)
    requires TmOk(tm) && Records(lines, tm)
    ensures Load(lines) == tm
  {
    LoadAgrees(lines, tm);
    forall k | k in tm
      ensures k in Load(lines)
    {
      assert tm[k] in lines && tm[k].cacheKey == k;
    }
  }

  lemma {:induction false} MapOfAssigned(source: seq<Flat>, flat: map<string, string>)
    requires forall i | 0 <= i < |source| :: source[i].key in flat
    requires forall k | k in flat :: IsKey(source, k)
    ensures MapOf(Assigned(source, flat)) == flat
  {
    var a := Assigned(source, flat);
    forall k
      ensures Get(MapOf(a), k) == Get(flat, k)
    {
      MapOfHas(a, k);
      if k in flat {
        var i :| 0 <= i < |source| && source[i].key == k;
        assert a[i].key == k;
      }
      if k in MapOf(a) {
        var i :| 0 <= i < |a| && a[i] == Flat(k, MapOf(a)[k]);
        assert source[i].key == k;
      }
    }
    SameGetsSameMap(MapOf(a), flat);
  }

  lemma {:induction false} SameKeysRebuildable(a: seq<Flat>, b: seq<Flat>)
    requires Rebuildable(a) && |a| == |b| && forall i | 0 <= i < |a| :: b[i].key == a[i].key
    ensures Rebuildable(b)
  {
  }

  /** The written locale file reads back as the flat map it was built from. */
  lemma {:induction false} ExistingReadsBack(s: Settings, inp: Input, out: Output, now: string, next: Input)
    requires Rebuildable(inp.source)
    requires Synced(s, inp, out) && Written(s, inp, out, now, next)
    ensures next.existing == out.flat
  {
    var a := Assigned(inp.source, out.flat);
    SameKeysRebuildable(inp.source, a);
    FlattenUndoesRebuild(a);
    forall k | k in out.flat
      ensures IsKey(inp.source, k)
    {
    }
    MapOfAssigned(inp.source, out.flat);
  }

  // ---------- The fixed point ----------

  lemma {:induction false} FallbackReadsBack(s: Settings, inp: Input, out: Output, now: string, next: Input,
                                             key: string)
    requires TotalOrder(s.leq)
    requires Synced(s, inp, out) && Written(s, inp, out, now, next)
    ensures WasFallback(next, key) <==> key in out.fallback
  {
    SortPermutes(s.leq, out.fallback);
    var sorted := Sort(s.leq, out.fallback);
    assert key in sorted <==> key in multiset(sorted);
    assert key in out.fallback <==> key in multiset(out.fallback);
  }

  /** Without a provider, a sync adds to the memory only copies of entries found by their hash. */
  lemma {:induction false} MemoHadPredecessor(s: Settings, inp: Input, out: Output, k: string)
    requires !s.allowTranslate && Synced(s, inp, out)
    requires k in out.tm && Usable(out.tm[k], s.locale)
    ensures HasText(Load(inp.lines), s.locale, out.tm[k].textHash)
  {
    if IsSourceKey(s, inp.source, k) {
      var i :| 0 <= i < |inp.source| && CacheKeyOf(s, inp.source[i]) == k;
      OwnMemoHadPredecessor(s, inp, out, i);
    } else {
      assert SameAt(Load(inp.lines), out.tm, k);
    }
  }

  lemma {:induction false} OwnMemoHadPredecessor(s: Settings, inp: Input, out: Output, i: nat)
    requires !s.allowTranslate && Synced(s, inp, out) && i < |inp.source|
    requires CacheKeyOf(s, inp.source[i]) in out.tm && Usable(out.tm[CacheKeyOf(s, inp.source[i])], s.locale)
    ensures HasText(Load(inp.lines), s.locale, out.tm[CacheKeyOf(s, inp.source[i])].textHash)
  {
    var f := inp.source[i];
    assert Settled(s, inp, f, out.flat, out.fallback, out.tm);
    if Decide(s, inp, f).FromText? {
      TextMatchFinds(s.locale, inp.lines, HashOf(s, f));
    } else {
      assert SameAt(Load(inp.lines), out.tm, CacheKeyOf(s, f));
    }
  }

  /** Without a provider, the second sync finds a text by its hash only if the first could. */
  lemma {:induction false} NoNewText(s: Settings, inp: Input, out: Output, next: Input, hash: string)
    requires !s.allowTranslate
    requires Synced(s, inp, out) && Load(next.lines) == out.tm
    requires TextMatch(s.locale, inp.lines, hash).None?
    ensures TextMatch(s.locale, next.lines, hash).None?
  {
    TextMatchFinds(s.locale, inp.lines, hash);
    TextMatchFinds(s.locale, next.lines, hash);
    if TextMatch(s.locale, next.lines, hash).Some? {
      var k :| k in out.tm && Usable(out.tm[k], s.locale) && out.tm[k].textHash == hash;
      MemoHadPredecessor(s, inp, out, k);
    }
  }

  /** One key of the second sync: it is served from the memory or from the file, with the value it has. */
  lemma {:induction false} DecisionIsStable(s: Settings, inp: Input, out: Output, now: string, next: Input, i: nat)
    requires TotalOrder(s.leq) && i < |inp.source|
    requires Synced(s, inp, out) && Written(s, inp, out, now, next)
    requires next.existing == out.flat
    ensures var f := inp.source[i];
            var again := Decide(s, next, f);
            || (again.FromCache? && again.memo.translated == out.flat[f.key])
            || (again.FromExisting? && again.text == out.flat[f.key])
  {
    var f := inp.source[i];
    LoadOfRecords(next.lines, out.tm);
    FallbackReadsBack(s, inp, out, now, next, f.key);
    assert Settled(s, inp, f, out.flat, out.fallback, out.tm);
    var d := Decide(s, inp, f);
    if !s.allowTranslate && (d.FromExisting? || d.Translate?) && f.key in out.fallback {
      NoNewText(s, inp, out, next, HashOf(s, f));
    }
  }

  /** A completed sync is a fixed point: once its result is written, a second sync of the same source with
      the same provider settings has nothing to translate and reproduces the texts, the fallback keys, the
      memory and the metadata (time stamp included), with and without a provider, and whatever `force` says. */
  lemma {:induction false} SyncReachesFixedPoint(
      s: Settings, inp: Input, out: Output, now: string, force: bool, next: Input, out2: Output, later: string)
    requires TotalOrder(s.leq)
    requires Rebuildable(inp.source)
    requires Synced(s, inp, out) && Written(s, inp, out, now, next)
    requires Synced(s.(force := force), next, out2)
    ensures out2.pending == []
    ensures out2.flat == out.flat && out2.tm == out.tm
    ensures multiset(out2.fallback) == multiset(out.fallback)
    ensures NextMeta(s.(force := force), next, out2, later) == NextMeta(s, inp, out, now)
  {
    var s2 := s.(force := force);
    SecondSyncCompletes(s, inp, out, now, force, next);
    OutcomeIsDetermined(s2, next, Output(out.flat, out.fallback, out.tm, []), out2);
    MetaIsStable(s, inp, out, now, s2, next, out2, later);
  }

  /** The second sync can complete: the first one's result, with nothing pending, is what it has to come to. */
  lemma {:induction false} SecondSyncCompletes(
      s: Settings, inp: Input, out: Output, now: string, force: bool, next: Input)
    requires TotalOrder(s.leq)
    requires Rebuildable(inp.source)
    requires Synced(s, inp, out) && Written(s, inp, out, now, next)
    ensures Synced(s.(force := force), next, Output(out.flat, out.fallback, out.tm, []))
  {
    var s2 := s.(force := force);
    ExistingReadsBack(s, inp, out, now, next);
    LoadOfRecords(next.lines, out.tm);
    forall i | 0 <= i < |inp.source|
      ensures Settled(s2, next, inp.source[i], out.flat, out.fallback, out.tm)
              && !Decide(s2, next, inp.source[i]).Translate?
    {
      SettledAgain(s, inp, out, now, s2, next, i);
    }
    NothingPending(s2, next, inp.source);
    var again := Output(out.flat, out.fallback, out.tm, []);
    assert AllSettled(s2, next, again);
    assert PlaceholdersMatch(s2, inp.source, again.flat);
    Completes(s2, next, again);
  }

  lemma {:induction false} Completes(s: Settings, inp: Input, out: Output)
    requires AllSettled(s, inp, out) && NoDuplicates(out.fallback) && TmOk(out.tm)
    requires forall k | k in out.flat || k in out.fallback :: IsKey(inp.source, k)
    requires forall ck | !IsSourceKey(s, inp.source, ck) :: SameAt(Load(inp.lines), out.tm, ck)
    requires out.pending == Pending(s, inp, inp.source)
    ensures Complete(s, inp, out)
  {
    forall i | 0 <= i < |inp.source|
      ensures inp.source[i].key in out.flat
    {
      assert Settled(s, inp, inp.source[i], out.flat, out.fallback, out.tm);
    }
  }

  lemma {:induction false} SettledAgain(s: Settings, inp: Input, out: Output, now: string, s2: Settings, next: Input,
                                        i: nat)
    requires TotalOrder(s.leq) && i < |inp.source| && s2 == s.(force := s2.force)
    requires Synced(s, inp, out) && Written(s, inp, out, now, next) && next.existing == out.flat
    ensures Settled(s2, next, inp.source[i], out.flat, out.fallback, out.tm)
            && !Decide(s2, next, inp.source[i]).Translate?
  {
    var f := inp.source[i];
    LoadOfRecords(next.lines, out.tm);
    assert CacheKeyOf(s2, f) == CacheKeyOf(s, f) && HashOf(s2, f) == HashOf(s, f);
    assert Decide(s2, next, f) == Decide(s, next, f);
    DecisionIsStable(s, inp, out, now, next, i);
    FallbackReadsBack(s, inp, out, now, next, f.key);
    assert Settled(s, inp, f, out.flat, out.fallback, out.tm);
  }

  /** The same texts, memory and pending items, and the same fallback keys in whatever order. */
  predicate SameOutcome(a: Output, b: Output) {
    a.flat == b.flat && a.tm == b.tm && a.pending == b.pending && multiset(a.fallback) == multiset(b.fallback)
  }

  /** With nothing to translate, or nobody to translate it, the outcome is determined. */
  lemma {:induction false} OutcomeIsDetermined(s: Settings, inp: Input, a: Output, b: Output)
    requires Complete(s, inp, a) && Complete(s, inp, b) && (a.pending == [] || !s.allowTranslate)
    ensures SameOutcome(a, b)
  {
    forall i | 0 <= i < |inp.source|
      ensures Agree(s, inp.source[i], a, b)
    {
      SettledAgree(s, inp, a, b, i);
    }
    SameTexts(s, inp, a, b);
    SameFallback(s, inp, a, b);
    SameMemory(s, inp, a, b);
  }

  ghost predicate Agree(s: Settings, f: Flat, a: Output, b: Output) {
    && f.key in a.flat && f.key in b.flat && a.flat[f.key] == b.flat[f.key]
    && (f.key in a.fallback <==> f.key in b.fallback)
    && SameAt(a.tm, b.tm, CacheKeyOf(s, f))
  }

  lemma {:induction false} SettledAgree(s: Settings, inp: Input, a: Output, b: Output, i: nat)
    requires Complete(s, inp, a) && Complete(s, inp, b) && (a.pending == [] || !s.allowTranslate) && i < |inp.source|
    ensures Agree(s, inp.source[i], a, b)
  {
    if Decide(s, inp, inp.source[i]).Translate? {
      WantedIsPending(s, inp, inp.source, i);
    }
    assert Settled(s, inp, inp.source[i], a.flat, a.fallback, a.tm);
    assert Settled(s, inp, inp.source[i], b.flat, b.fallback, b.tm);
  }

  lemma {:induction false} SameTexts(s: Settings, inp: Input, a: Output, b: Output)
    requires Complete(s, inp, a) && Complete(s, inp, b)
    requires forall i | 0 <= i < |inp.source| :: Agree(s, inp.source[i], a, b)
    ensures a.flat == b.flat
  {
    forall k | k in a.flat
      ensures k in b.flat && a.flat[k] == b.flat[k]
    {
      var i :| 0 <= i < |inp.source| && inp.source[i].key == k;
      assert Agree(s, inp.source[i], a, b);
    }
  }

  lemma {:induction false} SameFallback(s: Settings, inp: Input, a: Output, b: Output)
    requires Complete(s, inp, a) && Complete(s, inp, b)
    requires forall i | 0 <= i < |inp.source| :: Agree(s, inp.source[i], a, b)
    ensures multiset(a.fallback) == multiset(b.fallback)
  {
    forall k | k in a.fallback || k in b.fallback
      ensures k in a.fallback <==> k in b.fallback
    {
      var i :| 0 <= i < |inp.source| && inp.source[i].key == k;
      assert Agree(s, inp.source[i], a, b);
    }
    assert Elements(a.fallback) == Elements(b.fallback);
    SameElementsSameMultiset(a.fallback, b.fallback);
  }

  lemma {:induction false} SameMemory(s: Settings, inp: Input, a: Output, b: Output)
    requires Complete(s, inp, a) && Complete(s, inp, b)
    requires forall i | 0 <= i < |inp.source| :: Agree(s, inp.source[i], a, b)
    ensures a.tm == b.tm
  {
    forall ck
      ensures SameAt(a.tm, b.tm, ck)
    {
      if IsSourceKey(s, inp.source, ck) {
        var i :| 0 <= i < |inp.source| && CacheKeyOf(s, inp.source[i]) == ck;
        assert Agree(s, inp.source[i], a, b);
      } else {
        assert SameAt(Load(inp.lines), a.tm, ck) && SameAt(Load(inp.lines), b.tm, ck);
      }
    }
    SameEverywhere(a.tm, b.tm);
  }

  /** What a sync can come to does not depend on `force`. */
  lemma {:induction false} ForceIsNotRead(s: Settings, force: bool, inp: Input, out: Output)
    ensures Complete(s.(force := force), inp, out) <==> Complete(s, inp, out)
    ensures Synced(s.(force := force), inp, out) <==> Synced(s, inp, out)
  {
    var s2 := s.(force := force);
    assert CacheKeysAgree(s, s2, inp);
    assert AllSettled(s2, inp, out) <==> AllSettled(s, inp, out) by {
      forall i | 0 <= i < |inp.source|
        ensures Settled(s2, inp, inp.source[i], out.flat, out.fallback, out.tm) <==>
                Settled(s, inp, inp.source[i], out.flat, out.fallback, out.tm)
      {
        SettledWithoutForce(s, force, inp, inp.source[i], out);
      }
    }
    PendingWithoutForce(s, force, inp, inp.source);
    forall ck
      ensures IsSourceKey(s2, inp.source, ck) <==> IsSourceKey(s, inp.source, ck)
    {
    }
  }

  predicate CacheKeysAgree(s: Settings, s2: Settings, inp: Input) {
    forall i | 0 <= i < |inp.source| :: CacheKeyOf(s2, inp.source[i]) == CacheKeyOf(s, inp.source[i])
  }

  lemma {:induction false} SettledWithoutForce(s: Settings, force: bool, inp: Input, f: Flat, out: Output)
    ensures Settled(s.(force := force), inp, f, out.flat, out.fallback, out.tm) <==>
            Settled(s, inp, f, out.flat, out.fallback, out.tm)
  {
    var s2 := s.(force := force);
    assert CacheKeyOf(s2, f) == CacheKeyOf(s, f) && HashOf(s2, f) == HashOf(s, f);
    assert Decide(s2, inp, f) == Decide(s, inp, f);
  }

  lemma {:induction false} PendingWithoutForce(s: Settings, force: bool, inp: Input, source: seq<Flat>)
    ensures Pending(s.(force := force), inp, source) == Pending(s, inp, source)
  {
    if source != [] {
      PendingWithoutForce(s, force, inp, source[..|source| - 1]);
      var f := source[|source| - 1];
      assert Decide(s.(force := force), inp, f) == Decide(s, inp, f);
    }
  }

  /** So without a provider, where alone the third loop has work and reads `force`, it changes nothing. */
  lemma {:induction false} ForceChangesNothing(s: Settings, force: bool, inp: Input, a: Output, b: Output)
    requires !s.allowTranslate && Complete(s, inp, a) && Complete(s.(force := force), inp, b)
    ensures SameOutcome(a, b)
  {
    ForceIsNotRead(s, force, inp, b);
    OutcomeIsDetermined(s, inp, a, b);
  }

  lemma {:induction false} WantedIsPending(s: Settings, inp: Input, source: seq<Flat>, i: nat)
    requires i < |source| && Decide(s, inp, source[i]).Translate?
    ensures Pending(s, inp, source) != []
  {
    if i < |source| - 1 {
      WantedIsPending(s, inp, source[..|source| - 1], i);
    }
  }

  /** A sync that comes to its placeholder check and finds a mismatch. */
  ghost predicate Mismatch(s: Settings, inp: Input) {
    exists out :: Complete(s, inp, out) && !PlaceholdersMatch(s, inp.source, out.flat)
  }

  /** So the second sync has nothing to ask the provider, and cannot fail its placeholder check. */
  lemma {:induction false} SecondSyncCannotFail(
      s: Settings, inp: Input, out: Output, now: string, force: bool, next: Input)
    requires TotalOrder(s.leq)
    requires Rebuildable(inp.source)
    requires Synced(s, inp, out) && Written(s, inp, out, now, next)
    ensures Pending(s.(force := force), next, next.source) == []
    ensures !Mismatch(s.(force := force), next)
  {
    var s2 := s.(force := force);
    SecondSyncCompletes(s, inp, out, now, force, next);
    var again := Output(out.flat, out.fallback, out.tm, []);
    forall other | Complete(s2, next, other)
      ensures other.flat == again.flat
    {
      OutcomeIsDetermined(s2, next, again, other);
    }
  }

  lemma {:induction false} MetaIsStable(
      s: Settings, inp: Input, out: Output, now: string, s2: Settings, next: Input, out2: Output, later: string)
    requires TotalOrder(s.leq) && s2 == s.(force := s2.force)
    requires next.source == inp.source && next.meta == Some(NextMeta(s, inp, out, now))
    requires multiset(out.fallback) == multiset(out2.fallback)
    ensures NextMeta(s2, next, out2, later) == NextMeta(s, inp, out, now)
  {
    SortIsCanonical(s.leq, out.fallback, out2.fallback);
  }

  lemma {:induction false} NothingPending(s: Settings, inp: Input, source: seq<Flat>)
    requires forall i | 0 <= i < |source| :: !Decide(s, inp, source[i]).Translate?
    ensures Pending(s, inp, source) == []
  {
    if source != [] {
      var init := source[..|source| - 1];
      assert forall i | 0 <= i < |init| :: init[i] == source[i];
      NothingPending(s, inp, init);
    }
  }

  lemma {:induction false} SameEverywhere(a: map<string, Memo>, b: map<string, Memo>)
    requires forall k :: SameAt(a, b, k)
    ensures a == b
  {
    assert forall k | k in a || k in b :: SameAt(a, b, k);
  }
}
