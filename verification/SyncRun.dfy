/** The sync of one locale as the script runs it: the decision loop, the batches sent to the translator,
    and the fallback loop, proved to do what `Synced` says. */
module SyncRun {
  import opened Text
  import opened LocaleTree
  import opened TranslateSession
  import opened Batches
  import opened Sorting
  import opened SyncLocale

  // ---------- First loop: memory and existing file ----------

  ghost predicate KeyBefore(source: seq<Flat>, n: nat, key: string)
    requires n <= |source|
  {
    exists i | 0 <= i < n :: source[i].key == key
  }

  ghost predicate CacheKeyBefore(s: Settings, source: seq<Flat>, n: nat, ck: string)
    requires n <= |source|
  {
    exists i | 0 <= i < n :: CacheKeyOf(s, source[i]) == ck
  }

  /** A key that waits for translation has touched nothing so far; any other key is settled. */
  ghost predicate Decided(s: Settings, inp: Input, f: Flat, flat: map<string, string>, fallback: seq<string>,
                          tm: map<string, Memo>) {
    if Decide(s, inp, f).Translate? then
      f.key !in flat && f.key !in fallback && SameAt(Load(inp.lines), tm, CacheKeyOf(s, f))
    else
      Settled(s, inp, f, flat, fallback, tm)
  }

  ghost predicate FirstPass(s: Settings, inp: Input, n: nat, flat: map<string, string>, fallback: seq<string>,
                            tm: map<string, Memo>, pending: seq<Item>)
  {
    && n <= |inp.source|
    && AllDecided(s, inp, n, flat, fallback, tm)
    && OnlyKeysBefore(inp.source, n, flat, fallback)
    && NoDuplicates(fallback)
    && OnlyCacheKeysBefore(s, inp, n, tm)
    && TmOk(tm)
    && pending == Pending(s, inp, inp.source[..n])
  }

  ghost predicate AllDecided(s: Settings, inp: Input, n: nat, flat: map<string, string>, fallback: seq<string>,
                             tm: map<string, Memo>)
    requires n <= |inp.source|
  {
    forall i | 0 <= i < n :: Decided(s, inp, inp.source[i], flat, fallback, tm)
  }

  ghost predicate OnlyKeysBefore(source: seq<Flat>, n: nat, flat: map<string, string>, fallback: seq<string>)
    requires n <= |source|
  {
    && (forall k | k in flat :: KeyBefore(source, n, k))
    && (forall k | k in fallback :: KeyBefore(source, n, k))
  }

  ghost predicate OnlyCacheKeysBefore(s: Settings, inp: Input, n: nat, tm: map<string, Memo>)
    requires n <= |inp.source|
  {
    forall ck | !CacheKeyBefore(s, inp.source, n, ck) :: SameAt(Load(inp.lines), tm, ck)
  }

  /** Nothing changed except at the given key and cache key. */
  ghost predicate OnlyAt(key: string, ck: string,
                         flat0: map<string, string>, fallback0: seq<string>, tm0: map<string, Memo>,
                         flat: map<string, string>, fallback: seq<string>, tm: map<string, Memo>)
  {
    && (forall k | k != key :: if k in flat0 then k in flat && flat[k] == flat0[k] else k !in flat)
    && (fallback == fallback0 || fallback == fallback0 + [key])
    && (forall k | k != ck :: SameAt(tm0, tm, k))
  }

  lemma {:induction false} DecidedIsStable(s: Settings, inp: Input, f: Flat, key: string, ck: string,
                                           flat0: map<string, string>, fallback0: seq<string>, tm0: map<string, Memo>,
                                           flat: map<string, string>, fallback: seq<string>, tm: map<string, Memo>)
    requires Decided(s, inp, f, flat0, fallback0, tm0)
    requires OnlyAt(key, ck, flat0, fallback0, tm0, flat, fallback, tm)
    requires f.key != key && CacheKeyOf(s, f) != ck
    ensures Decided(s, inp, f, flat, fallback, tm)
  {
    assert SameAt(tm0, tm, CacheKeyOf(s, f));
    assert f.key in fallback <==> f.key in fallback0;
  }

  /** One turn of the loop, for a key not met before. */
  method DecideOne(s: Settings, inp: Input, f: Flat, byTextHash: map<string, Memo>,
                   flat0: map<string, string>, fallback0: seq<string>, tm0: map<string, Memo>)
    returns (flat: map<string, string>, fallback: seq<string>, tm: map<string, Memo>, wanted: bool)
    requires f.key !in flat0 && f.key !in fallback0 && SameAt(Load(inp.lines), tm0, CacheKeyOf(s, f))
    requires TmOk(tm0) && CacheKeyOf(s, f) != ""
    requires TextMatch(s.locale, inp.lines, HashOf(s, f))
             == if HashOf(s, f) in byTextHash then Some(byTextHash[HashOf(s, f)]) else None
    ensures Decided(s, inp, f, flat, fallback, tm)
    ensures OnlyAt(f.key, CacheKeyOf(s, f), flat0, fallback0, tm0, flat, fallback, tm)
    ensures TmOk(tm) && wanted == Decide(s, inp, f).Translate?
  {
    flat, fallback, tm, wanted := flat0, fallback0, tm0, false;
    var textHash := HashOf(s, f);
    var ck := CacheKeyOf(s, f);
    var refresh := WasFallback(inp, f.key);
    if ck in tm && !(s.allowTranslate && refresh) {
      flat := flat[f.key := tm[ck].translated];
      if refresh {
        fallback := fallback + [f.key];
      }
    } else if textHash in byTextHash && (refresh || f.key !in inp.existing) {
      TextMatchFinds(s.locale, inp.lines, textHash);
      flat := flat[f.key := byTextHash[textHash].translated];
      tm := tm[ck := Reused(s, f, byTextHash[textHash])];
    } else if f.key in inp.existing && !(s.allowTranslate && refresh) {
      flat := flat[f.key := inp.existing[f.key]];
      if refresh {
        fallback := fallback + [f.key];
      }
    } else {
      wanted := true;
    }
  }

  method DecideAll(s: Settings, inp: Input)
    returns (flat: map<string, string>, fallback: seq<string>, tm: map<string, Memo>, pending: seq<Item>)
    requires NoCollisions(s, inp.source) && DistinctKeys(inp.source)
    ensures FirstPass(s, inp, |inp.source|, flat, fallback, tm, pending)
  {
    LoadFacts(inp.lines);
    tm := Load(inp.lines);
    var byTextHash := BuildMemoryByTextHash(tm, LoadOrder(inp.lines), s.locale);
    flat, fallback, pending := map[], [], [];
    for n := 0 to |inp.source|
      invariant FirstPass(s, inp, n, flat, fallback, tm, pending)
    {
      var f := inp.source[n];
      FirstPassLeavesRoom(s, inp, n, flat, fallback, tm, pending);
      ghost var flat0, fallback0, tm0 := flat, fallback, tm;
      var wanted: bool;
      flat, fallback, tm, wanted := DecideOne(s, inp, f, byTextHash, flat, fallback, tm);
      FirstPassAdvances(s, inp, n, flat0, fallback0, tm0, pending, flat, fallback, tm);
      if wanted {
        pending := pending + [ItemFor(s, f)];
      }
    }
    assert inp.source[..|inp.source|] == inp.source;
  }

  lemma {:induction false} FirstPassLeavesRoom(s: Settings, inp: Input, n: nat, flat: map<string, string>,
                                               fallback: seq<string>, tm: map<string, Memo>, pending: seq<Item>)
    requires FirstPass(s, inp, n, flat, fallback, tm, pending) && n < |inp.source|
    requires NoCollisions(s, inp.source) && DistinctKeys(inp.source)
    ensures var f := inp.source[n];
            && f.key !in flat && f.key !in fallback
            && SameAt(Load(inp.lines), tm, CacheKeyOf(s, f))
            && CacheKeyOf(s, f) != ""
  {
    assert !KeyBefore(inp.source, n, inp.source[n].key);
    assert !CacheKeyBefore(s, inp.source, n, CacheKeyOf(s, inp.source[n]));
  }

  lemma {:induction false} MemoryAdvances(s: Settings, inp: Input, n: nat, tm0: map<string, Memo>,
                                          tm: map<string, Memo>)
    requires n < |inp.source| && OnlyCacheKeysBefore(s, inp, n, tm0)
    requires forall ck | ck != CacheKeyOf(s, inp.source[n]) :: SameAt(tm0, tm, ck)
    ensures OnlyCacheKeysBefore(s, inp, n + 1, tm)
  {
    forall ck | !CacheKeyBefore(s, inp.source, n + 1, ck)
      ensures SameAt(Load(inp.lines), tm, ck)
    {
      assert !CacheKeyBefore(s, inp.source, n, ck);
      assert SameAt(Load(inp.lines), tm0, ck) && SameAt(tm0, tm, ck);
    }
  }

  lemma {:induction false} KeysAdvance(source: seq<Flat>, n: nat, flat0: map<string, string>, fallback0: seq<string>,
                                       flat: map<string, string>, fallback: seq<string>)
    requires n < |source| && OnlyKeysBefore(source, n, flat0, fallback0)
    requires forall k | k in flat && k != source[n].key :: k in flat0
    requires forall k | k in fallback && k != source[n].key :: k in fallback0
    ensures OnlyKeysBefore(source, n + 1, flat, fallback)
  {
    forall k | k in flat || k in fallback
      ensures KeyBefore(source, n + 1, k)
    {
      if k == source[n].key {
      } else {
        assert KeyBefore(source, n, k);
      }
    }
  }

  lemma {:induction false} DecisionsAdvance(s: Settings, inp: Input, n: nat, flat0: map<string, string>,
                                            fallback0: seq<string>, tm0: map<string, Memo>,
                                            flat: map<string, string>, fallback: seq<string>, tm: map<string, Memo>)
    requires n < |inp.source| && NoCollisions(s, inp.source) && DistinctKeys(inp.source)
    requires AllDecided(s, inp, n, flat0, fallback0, tm0) && Decided(s, inp, inp.source[n], flat, fallback, tm)
    requires OnlyAt(inp.source[n].key, CacheKeyOf(s, inp.source[n]), flat0, fallback0, tm0, flat, fallback, tm)
    ensures AllDecided(s, inp, n + 1, flat, fallback, tm)
  {
    var f := inp.source[n];
    forall i | 0 <= i < n + 1
      ensures Decided(s, inp, inp.source[i], flat, fallback, tm)
    {
      if i < n {
        DecidedIsStable(s, inp, inp.source[i], f.key, CacheKeyOf(s, f), flat0, fallback0, tm0, flat, fallback, tm);
      }
    }
  }

  lemma {:induction false} PendingAdvances(s: Settings, inp: Input, n: nat)
    requires n < |inp.source|
    ensures Pending(s, inp, inp.source[..n + 1]) ==
            Pending(s, inp, inp.source[..n])
            + (if Decide(s, inp, inp.source[n]).Translate? then [ItemFor(s, inp.source[n])] else [])
  {
    var upTo := inp.source[..n + 1];
    assert upTo[..n] == inp.source[..n] && upTo[n] == inp.source[n];
  }

  /** Settling the next key disturbs none of the earlier ones. */
  lemma {:induction false} FirstPassAdvances(s: Settings, inp: Input, n: nat, flat0: map<string, string>,
                                             fallback0: seq<string>, tm0: map<string, Memo>, pending0: seq<Item>,
                                             flat: map<string, string>, fallback: seq<string>, tm: map<string, Memo>)
    requires FirstPass(s, inp, n, flat0, fallback0, tm0, pending0)
    requires n < |inp.source| && NoCollisions(s, inp.source) && DistinctKeys(inp.source)
    requires inp.source[n].key !in fallback0
    requires Decided(s, inp, inp.source[n], flat, fallback, tm) && TmOk(tm)
    requires OnlyAt(inp.source[n].key, CacheKeyOf(s, inp.source[n]), flat0, fallback0, tm0, flat, fallback, tm)
    ensures FirstPass(s, inp, n + 1, flat, fallback, tm,
                      pending0 + (if Decide(s, inp, inp.source[n]).Translate? then [ItemFor(s, inp.source[n])] else []))
  {
    DecisionsAdvance(s, inp, n, flat0, fallback0, tm0, flat, fallback, tm);
    MemoryAdvances(s, inp, n, tm0, tm);
    KeysAdvance(inp.source, n, flat0, fallback0, flat, fallback);
    PendingAdvances(s, inp, n);
  }

  // ---------- Second loop: the provider ----------

  predicate DistinctItems(items: seq<Item>) {
    forall i, j | 0 <= i < j < |items| :: items[i].key != items[j].key && items[i].cacheKey != items[j].cacheKey
  }

  function MemoFor(s: Settings, item: Item, value: string, at: string): Memo {
    Memo(item.cacheKey, s.model, s.provider, item.key, s.sourcePath, SOURCE_LOCALE, item.text, item.textHash,
      s.locale, value, at)
  }

  ghost predicate HasCacheKey(items: seq<Item>, ck: string) {
    exists i | 0 <= i < |items| :: items[i].cacheKey == ck
  }

  ghost predicate Stored(s: Settings, item: Item, values: map<string, string>, tm: map<string, Memo>) {
    && item.key in values && item.cacheKey in tm
    && tm[item.cacheKey] == MemoFor(s, item, values[item.key], tm[item.cacheKey].updatedAt)
  }

  /** The memory holds the items with their values, and is otherwise unchanged. */
  ghost predicate AllStored(s: Settings, items: seq<Item>, values: map<string, string>, tm0: map<string, Memo>,
                            tm: map<string, Memo>) {
    && (forall i | 0 <= i < |items| :: Stored(s, items[i], values, tm))
    && (forall ck | !HasCacheKey(items, ck) :: SameAt(tm0, tm, ck))
    && (TmOk(tm0) ==> TmOk(tm))
  }

  lemma {:induction false} AllStoredAdvances(s: Settings, items: seq<Item>, item: Item, values: map<string, string>,
                                             tm0: map<string, Memo>, tm: map<string, Memo>, at: string)
    requires AllStored(s, items, values, tm0, tm)
    requires item.key in values && !IsBlank(values[item.key]) && item.cacheKey != ""
    requires forall i | 0 <= i < |items| :: items[i].cacheKey != item.cacheKey
    ensures AllStored(s, items + [item], values, tm0, tm[item.cacheKey := MemoFor(s, item, values[item.key], at)])
  {
    var all := items + [item];
    var tm' := tm[item.cacheKey := MemoFor(s, item, values[item.key], at)];
    assert all[|items|] == item;
    forall i | 0 <= i < |all|
      ensures Stored(s, all[i], values, tm')
    {
      if i < |items| {
        assert Stored(s, items[i], values, tm);
      }
    }
    forall ck | !HasCacheKey(all, ck)
      ensures SameAt(tm0, tm', ck)
    {
      assert all[|items|].cacheKey != ck;
      forall i | 0 <= i < |items|
        ensures items[i].cacheKey != ck
      {
        assert all[i].cacheKey != ck;
      }
      assert !HasCacheKey(items, ck);
    }
  }

  method StoreBatch(s: Settings, ghost done: seq<Item>, batch: seq<Item>, translated: map<string, string>,
                    ghost values: map<string, string>, ghost tm0: map<string, Memo>,
                    flat0: map<string, string>, tm1: map<string, Memo>)
    returns (flat: map<string, string>, tm: map<string, Memo>)
    requires DistinctItems(done + batch) && forall i | 0 <= i < |batch| :: batch[i].cacheKey != ""
    requires translated.Keys == KeysOf(batch) && forall k | k in translated :: !IsBlank(translated[k])
    requires forall k | k in translated :: k in values && values[k] == translated[k]
    requires AllStored(s, done, values, tm0, tm1)
    ensures AllStored(s, done + batch, values, tm0, tm)
    ensures flat == flat0 + translated
  {
    flat, tm := flat0, tm1;
    assert done + batch[..0] == done;
    for i := 0 to |batch|
      invariant AllStored(s, done + batch[..i], values, tm0, tm)
      invariant Overlaid(flat, flat0, translated, KeysOf(batch[..i]))
    {
      var item := batch[i];
      assert item.key in KeysOf(batch);
      var at: string := *;
      StoreStep(s, done, batch, i, values, tm0, tm, at);
      OverlayStep(flat, flat0, translated, batch, i);
      flat := flat[item.key := translated[item.key]];
      tm := tm[item.cacheKey := MemoFor(s, item, translated[item.key], at)];
    }
    assert batch[..|batch|] == batch;
    OverlayDone(flat, flat0, translated);
  }

  /** `flat` is `flat0` overlaid with the translations of some keys. */
  ghost predicate Overlaid(flat: map<string, string>, flat0: map<string, string>, translated: map<string, string>,
                           keys: set<string>) {
    && flat.Keys == flat0.Keys + keys && keys <= translated.Keys
    && forall k | k in flat :: flat[k] == if k in keys then translated[k] else flat0[k]
  }

  lemma {:induction false} OverlayStep(flat: map<string, string>, flat0: map<string, string>,
                                       translated: map<string, string>, batch: seq<Item>, i: nat)
    requires i < |batch| && batch[i].key in translated
    requires Overlaid(flat, flat0, translated, KeysOf(batch[..i]))
    ensures Overlaid(flat[batch[i].key := translated[batch[i].key]], flat0, translated, KeysOf(batch[..i + 1]))
  {
    KeysOfAppend(batch, i);
  }

  lemma {:induction false} OverlayDone(flat: map<string, string>, flat0: map<string, string>,
                                       translated: map<string, string>)
    requires Overlaid(flat, flat0, translated, translated.Keys)
    ensures flat == flat0 + translated
  {
  }

  lemma {:induction false} StoreStep(s: Settings, done: seq<Item>, batch: seq<Item>, i: nat,
                                     values: map<string, string>, tm0: map<string, Memo>, tm: map<string, Memo>,
                                     at: string)
    requires i < |batch| && DistinctItems(done + batch) && batch[i].cacheKey != ""
    requires batch[i].key in values && !IsBlank(values[batch[i].key])
    requires AllStored(s, done + batch[..i], values, tm0, tm)
    ensures AllStored(s, done + batch[..i + 1], values, tm0,
            tm[batch[i].cacheKey := MemoFor(s, batch[i], values[batch[i].key], at)])
  {
    NewCacheKey(done, batch, i);
    AppendOne(done, batch, i);
    AllStoredAdvances(s, done + batch[..i], batch[i], values, tm0, tm, at);
  }

  lemma {:induction false} NewCacheKey(done: seq<Item>, batch: seq<Item>, i: nat)
    requires i < |batch| && DistinctItems(done + batch)
    ensures forall j | 0 <= j < |done + batch[..i]| :: (done + batch[..i])[j].cacheKey != batch[i].cacheKey
  {
    forall j | 0 <= j < |done + batch[..i]|
      ensures (done + batch[..i])[j].cacheKey != batch[i].cacheKey
    {
      assert (done + batch[..i])[j] == (done + batch)[j] && batch[i] == (done + batch)[|done| + i];
    }
  }

  lemma {:induction false} KeysOfAppend(items: seq<Item>, i: nat)
    requires i < |items|
    ensures KeysOf(items[..i + 1]) == KeysOf(items[..i]) + {items[i].key}
  {
    assert items[..i + 1] == items[..i] + [items[i]];
    KeysOfConcat(items[..i], [items[i]]);
    assert [items[i]][0] == items[i];
  }

  lemma {:induction false} WiderValues(s: Settings, items: seq<Item>, values: map<string, string>,
                                       more: map<string, string>, tm0: map<string, Memo>, tm: map<string, Memo>)
    requires AllStored(s, items, values, tm0, tm)
    requires forall i | 0 <= i < |items| :: items[i].key !in more
    ensures AllStored(s, items, values + more, tm0, tm)
  {
    forall i | 0 <= i < |items|
      ensures Stored(s, items[i], values + more, tm)
    {
      assert Stored(s, items[i], values, tm);
    }
  }

  lemma {:induction false} MoreTranslated(session: Session, done: seq<Item>, batch: seq<Item>,
                                          values: map<string, string>, translated: map<string, string>,
                                          before: seq<Exchange>, from: nat)
    requires from <= |before| <= |session.log| && session.log[..|before|] == before
    requires values.Keys == KeysOf(done)
    requires forall k | k in values ::
      !IsBlank(values[k]) && exists j, asked | from <= j < |before| :: session.Supplies(before[j], asked, k, values[k])
    requires session.Translates(batch, translated, |before|)
    ensures session.Translates(done + batch, values + translated, from)
  {
    KeysOfConcat(done, batch);
    forall k | k in values + translated
      ensures session.Sourced(k, (values + translated)[k], from)
    {
      if k in translated {
        assert session.Sourced(k, translated[k], |before|);
      } else {
        var j, asked :| from <= j < |before| && session.Supplies(before[j], asked, k, values[k]);
        assert session.log[j] == session.log[..|before|][j];
      }
    }
  }

  /** One batch: translated, or the sync fails; on success its values join those stored so far. */
  method TranslateNext(session: Session, s: Settings, ghost items: seq<Item>, ghost done: seq<Item>, batch: seq<Item>,
                       ghost values0: map<string, string>, ghost flat0: map<string, string>,
                       ghost tm0: map<string, Memo>, ghost from: nat,
                       flat1: map<string, string>, tm1: map<string, Memo>)
    returns (r: Result<()>, flat: map<string, string>, tm: map<string, Memo>, ghost values: map<string, string>)
    requires session.Valid() && session.Ready()
    requires DistinctItems(done + batch) && forall i | 0 <= i < |batch| :: batch[i].cacheKey != ""
    requires forall i | 0 <= i < |done| :: done[i].key !in KeysOf(batch)
    requires batch != [] && done + batch <= items
    requires from <= |session.log| && session.Translates(done, values0, from)
    requires flat1 == flat0 + values0 && AllStored(s, done, values0, tm0, tm1)
    modifies session`peers, session`current, session`log
    ensures session.Valid() && session.Ready()
    ensures |old(session.log)| <= |session.log| <= |old(session.log)| + MaxPrompts(|batch|)
    ensures session.log[..from] == old(session.log[..from])
    ensures r.Ok? ==> session.Translates(done + batch, values, from)
    ensures r.Ok? ==> flat == flat0 + values && AllStored(s, done + batch, values, tm0, tm)
    ensures r.Err? ==> session.GaveUp(items, r.error, from)
  {
    ghost var before := session.log;
    flat, tm, values := flat1, tm1, values0;
    var t := session.TranslateBatch(batch, "batch");
    PrefixOfPrefix(session.log, before, from);
    if t.Err? {
      BatchGaveUp(session, done, batch, items, t.error, |before|, from);
      return Err(t.error), flat, tm, values;
    }
    r := Ok(());
    values := values0 + t.value;
    WiderValues(s, done, values0, t.value, tm0, tm);
    flat, tm := StoreBatch(s, done, batch, t.value, values, tm0, flat, tm);
    MoreTranslated(session, done, batch, values0, t.value, before, from);
    UnionIsAssociative(flat0, values0, t.value);
  }

  lemma {:induction false} PrefixOfPrefix<T>(long: seq<T>, middle: seq<T>, n: nat)
    requires n <= |middle| <= |long| && long[..|middle|] == middle
    ensures long[..n] == middle[..n]
  {
    assert long[..n] == long[..|middle|][..n];
  }

  lemma {:induction false} AppendOne<T>(done: seq<T>, batch: seq<T>, i: nat)
    requires i < |batch|
    ensures done + batch[..i + 1] == done + batch[..i] + [batch[i]]
  {
  }

  lemma {:induction false} UnionEmpty(a: map<string, string>)
    ensures a + map[] == a
  {
  }

  lemma {:induction false} UnionIsAssociative(a: map<string, string>, b: map<string, string>, c: map<string, string>)
    ensures a + b + c == a + (b + c)
  {
  }

  /** The batches are translated in order. */
  method TranslateBatches(session: Session, s: Settings, ghost items: seq<Item>, batches: seq<seq<Item>>,
                          flat0: map<string, string>, tm0: map<string, Memo>)
    returns (r: Result<()>, flat: map<string, string>, tm: map<string, Memo>, ghost values: map<string, string>)
    requires session.Valid() && session.Ready() && IsSplit(batches, items, s.budget)
    requires DistinctItems(items) && forall i | 0 <= i < |items| :: items[i].cacheKey != ""
    modifies session`peers, session`current, session`log
    ensures session.Valid() && session.Ready()
    ensures |old(session.log)| <= |session.log| <= |old(session.log)| + 4 * |items|
    ensures session.log[..|old(session.log)|] == old(session.log)
    ensures r.Ok? ==> session.Translates(items, values, |old(session.log)|)
    ensures r.Ok? ==> flat == flat0 + values && AllStored(s, items, values, tm0, tm)
    ensures r.Err? ==> items != [] && session.GaveUp(items, r.error, |old(session.log)|)
  {
    flat, tm, values := flat0, tm0, map[];
    ghost var done: seq<Item> := [];
    ghost var from := |session.log|;
    for b := 0 to |batches|
      invariant session.Valid() && session.Ready()
      invariant done == Concat(batches[..b]) && done + Concat(batches[b..]) == items
      invariant from <= |session.log| <= from + 4 * |done| && session.log[..from] == old(session.log)
      invariant session.Translates(done, values, from)
      invariant flat == flat0 + values && AllStored(s, done, values, tm0, tm)
    {
      var batch := batches[b];
      NextBatch(batches, b, done, batch, items, s.budget);
      ghost var values0 := values;
      r, flat, tm, values := TranslateNext(session, s, items, done, batch, values0, flat0, tm0, from, flat, tm);
      if r.Err? {
        return;
      }
      done := done + batch;
    }
    assert batches[..|batches|] == batches;
    r := Ok(());
  }

  /** On success every pending item has a non-blank value, which its own prompt was answered with; on failure some
      part of the items was given up. The client is released either way. */
  method TranslatePending(session: Session, s: Settings, items: seq<Item>, flat0: map<string, string>,
                          tm0: map<string, Memo>)
    returns (r: Result<()>, flat: map<string, string>, tm: map<string, Memo>, ghost values: map<string, string>)
    requires session.Valid() && session.Ready()
    requires DistinctItems(items) && forall i | 0 <= i < |items| :: items[i].cacheKey != ""
    modifies session`peers, session`current, session`log
    ensures session.Valid() && session.Ready() && session.current.None?
    ensures |old(session.log)| <= |session.log| <= |old(session.log)| + 4 * |items|
    ensures session.log[..|old(session.log)|] == old(session.log)
    ensures r.Ok? ==> session.Translates(items, values, |old(session.log)|)
    ensures r.Ok? ==> flat == flat0 + values && AllStored(s, items, values, tm0, tm)
    ensures r.Err? ==> items != [] && session.GaveUp(items, r.error, |old(session.log)|)
  {
    var batches := BuildTranslationBatches(items, s.budget);
    r, flat, tm, values := TranslateBatches(session, s, items, batches, flat0, tm0);
    session.Reset();
  }

  lemma {:induction false} BatchGaveUp(session: Session, done: seq<Item>, batch: seq<Item>, items: seq<Item>,
                                       error: string, from: nat, earlier: nat)
    requires batch != [] && done + batch <= items && earlier <= from && session.GaveUp(batch, error, from)
    ensures session.GaveUp(items, error, earlier)
  {
    assert items[|done|..|done + batch|] == (done + batch)[|done|..] == batch;
    session.PartGaveUp(items, |done|, |done + batch|, error, from, earlier);
  }

  lemma {:induction false} NextBatch(batches: seq<seq<Item>>, b: nat, done: seq<Item>, batch: seq<Item>,
                                     items: seq<Item>, budget: int)
    requires IsSplit(batches, items, budget) && DistinctItems(items)
             && forall i | 0 <= i < |items| :: items[i].cacheKey != ""
    requires b < |batches| && batch == batches[b]
    requires done == Concat(batches[..b]) && done + Concat(batches[b..]) == items
    ensures batch != [] && DistinctItems(done + batch)
    ensures forall i | 0 <= i < |batch| :: batch[i].cacheKey != ""
    ensures forall i | 0 <= i < |done| :: done[i].key !in KeysOf(batch)
    ensures done + batch == Concat(batches[..b + 1]) && done + batch + Concat(batches[b + 1..]) == items
    ensures done + batch <= items
  {
    ConcatFrom(batches, b);
    assert batch in batches && Fits(batch, budget);
    ConcatAppend(batches[..b], batch);
    assert batches[..b + 1] == batches[..b] + [batch];
    NextPart(items, done, batch, Concat(batches[b + 1..]));
  }

  lemma {:induction false} ConcatFrom(batches: seq<seq<Item>>, b: nat)
    requires b < |batches|
    ensures Concat(batches[b..]) == batches[b] + Concat(batches[b + 1..])
  {
    assert batches[b..][1..] == batches[b + 1..];
  }

  lemma {:induction false} NextPart(items: seq<Item>, done: seq<Item>, batch: seq<Item>, rest: seq<Item>)
    requires DistinctItems(items) && forall i | 0 <= i < |items| :: items[i].cacheKey != ""
    requires done + (batch + rest) == items
    ensures DistinctItems(done + batch) && done + batch + rest == items
    ensures forall i | 0 <= i < |batch| :: batch[i].cacheKey != ""
    ensures forall i | 0 <= i < |done| :: done[i].key !in KeysOf(batch)
  {
    assert done + batch + rest == items;
    assert forall i | 0 <= i < |done + batch| :: (done + batch)[i] == items[i];
    assert forall i | 0 <= i < |batch| :: batch[i] == items[|done| + i];
    assert forall i | 0 <= i < |done| :: done[i] == items[i];
  }

  // ---------- Third loop: English and existing fallbacks ----------

  /** Pending keys that still have no value take the existing text, unless a refresh is forced, or English. */
  ghost predicate Filled(s: Settings, inp: Input, pending: seq<Item>, flat0: map<string, string>,
                         fallback0: seq<string>,
                         flat: map<string, string>, fallback: seq<string>)
  {
    && flat.Keys == flat0.Keys + KeysOf(pending)
    && (forall k | k in flat0 :: flat[k] == flat0[k])
    && NoDuplicates(fallback)
    && (forall k | k in fallback :: k in fallback0 || (k in KeysOf(pending) && k !in flat0))
    && (forall k | k in fallback0 :: k in fallback)
    && (forall i | 0 <= i < |pending| && pending[i].key !in flat0 ::
          var key := pending[i].key;
          && key in flat
          && if key in inp.existing && !s.force
             then flat[key] == inp.existing[key] && (key in fallback <==> WasFallback(inp, key))
             else flat[key] == pending[i].text && key in fallback)
  }

  lemma {:induction false} FilledNothing(s: Settings, inp: Input, pending: seq<Item>, flat0: map<string, string>,
                                         fallback0: seq<string>, flat: map<string, string>, fallback: seq<string>)
    requires Filled(s, inp, pending, flat0, fallback0, flat, fallback) && KeysOf(pending) <= flat0.Keys
    ensures flat == flat0 && NoDuplicates(fallback) && forall k :: k in fallback <==> k in fallback0
  {
  }

  method FillPending(s: Settings, inp: Input, pending: seq<Item>, flat0: map<string, string>, fallback0: seq<string>)
    returns (flat: map<string, string>, fallback: seq<string>)
    requires DistinctItems(pending) && NoDuplicates(fallback0)
    requires forall k | k in fallback0 :: k !in KeysOf(pending)
    ensures Filled(s, inp, pending, flat0, fallback0, flat, fallback)
  {
    flat, fallback := flat0, fallback0;
    for n := 0 to |pending|
      invariant Filled(s, inp, pending[..n], flat0, fallback0, flat, fallback)
    {
      NextToFill(pending, n, fallback0);
      flat, fallback := FillOne(s, inp, pending[..n], pending[n], flat0, fallback0, flat, fallback);
    }
    assert pending[..|pending|] == pending;
  }

  lemma {:induction false} NextToFill(pending: seq<Item>, n: nat, fallback0: seq<string>)
    requires DistinctItems(pending) && n < |pending| && forall k | k in fallback0 :: k !in KeysOf(pending)
    ensures pending[..n + 1] == pending[..n] + [pending[n]]
    ensures pending[n].key !in KeysOf(pending[..n]) && pending[n].key !in fallback0
  {
    assert pending[n].key in KeysOf(pending);
  }

  method FillOne(s: Settings, inp: Input, ghost before: seq<Item>, item: Item,
                 ghost flat0: map<string, string>, ghost fallback0: seq<string>,
                 flat1: map<string, string>, fallback1: seq<string>)
    returns (flat: map<string, string>, fallback: seq<string>)
    requires Filled(s, inp, before, flat0, fallback0, flat1, fallback1)
    requires item.key !in KeysOf(before) && item.key !in fallback0
    ensures Filled(s, inp, before + [item], flat0, fallback0, flat, fallback)
  {
    flat, fallback := flat1, fallback1;
    OneMoreKey(before, item);
    assert item.key in flat <==> item.key in flat0;
    if item.key in flat {
      return;
    }
    if item.key in inp.existing && !s.force {
      flat := flat[item.key := inp.existing[item.key]];
      if WasFallback(inp, item.key) {
        fallback := fallback + [item.key];
      }
      return;
    }
    flat := flat[item.key := item.text];
    fallback := fallback + [item.key];
  }

  lemma {:induction false} OneMoreKey(before: seq<Item>, item: Item)
    ensures KeysOf(before + [item]) == KeysOf(before) + {item.key}
    ensures forall i | 0 <= i < |before| :: before[i].key in KeysOf(before)
  {
    KeysOfConcat(before, [item]);
    assert [item][0] == item;
  }

  // ---------- The whole sync ----------

  /** The pending items are the source texts to translate, without repetition. */
  ghost predicate PendingOk(s: Settings, inp: Input, source: seq<Flat>, pending: seq<Item>) {
    && (forall j | 0 <= j < |pending| :: pending[j].cacheKey != "" && IsWanted(s, inp, source, pending[j]))
    && (forall i | 0 <= i < |source| && Decide(s, inp, source[i]).Translate? :: ItemFor(s, source[i]) in pending)
    && DistinctItems(pending)
  }

  ghost predicate IsWanted(s: Settings, inp: Input, source: seq<Flat>, item: Item) {
    exists i | 0 <= i < |source| :: Decide(s, inp, source[i]).Translate? && item == ItemFor(s, source[i])
  }

  lemma {:induction false} PendingIsOk(s: Settings, inp: Input, source: seq<Flat>)
    requires NoCollisions(s, source) && DistinctKeys(source)
    ensures PendingOk(s, inp, source, Pending(s, inp, source))
  {
    if source != [] {
      PendingIsOk(s, inp, source[..|source| - 1]);
      OneMorePending(s, inp, source, Pending(s, inp, source[..|source| - 1]));
    }
  }

  lemma {:induction false} OneMorePending(s: Settings, inp: Input, source: seq<Flat>, before: seq<Item>)
    requires NoCollisions(s, source) && DistinctKeys(source) && source != []
    requires PendingOk(s, inp, source[..|source| - 1], before)
    ensures PendingOk(s, inp, source,
                      before + (if Decide(s, inp, source[|source| - 1]).Translate?
                                then [ItemFor(s, source[|source| - 1])]
                                else []))
  {
    var n := |source| - 1;
    var init, f := source[..n], source[n];
    forall j | 0 <= j < |before|
      ensures IsWanted(s, inp, source, before[j]) && before[j].key != f.key && before[j].cacheKey != CacheKeyOf(s, f)
    {
      assert IsWanted(s, inp, init, before[j]);
      var i :| 0 <= i < n && Decide(s, inp, init[i]).Translate? && before[j] == ItemFor(s, init[i]);
      assert source[i] == init[i];
    }
    var pending := before + (if Decide(s, inp, f).Translate? then [ItemFor(s, f)] else []);
    assert |pending| > |before| ==> pending[|before|] == ItemFor(s, f) && IsWanted(s, inp, source, pending[|before|]);
    forall i | 0 <= i < |source| && Decide(s, inp, source[i]).Translate?
      ensures ItemFor(s, source[i]) in pending
    {
      if i < n {
        assert source[i] == init[i] && ItemFor(s, init[i]) in before;
      } else {
        assert pending[|before|] == ItemFor(s, f);
      }
    }
  }

  /** Keys not waiting for translation clash with no pending item. */
  lemma {:induction false} NotPending(s: Settings, inp: Input, pending: seq<Item>, i: nat)
    requires PendingOk(s, inp, inp.source, pending) && NoCollisions(s, inp.source) && DistinctKeys(inp.source)
    requires i < |inp.source| && !Decide(s, inp, inp.source[i]).Translate?
    ensures inp.source[i].key !in KeysOf(pending) && !HasCacheKey(pending, CacheKeyOf(s, inp.source[i]))
  {
    forall j | 0 <= j < |pending|
      ensures pending[j].key != inp.source[i].key && pending[j].cacheKey != CacheKeyOf(s, inp.source[i])
    {
      assert IsWanted(s, inp, inp.source, pending[j]);
      var i' :| 0 <= i' < |inp.source| && Decide(s, inp, inp.source[i']).Translate?
        && pending[j] == ItemFor(s, inp.source[i']);
    }
  }

  lemma {:induction false} PendingKeysAreKeys(s: Settings, inp: Input, pending: seq<Item>)
    requires PendingOk(s, inp, inp.source, pending)
    ensures forall k | k in KeysOf(pending) :: IsKey(inp.source, k)
    ensures forall ck | HasCacheKey(pending, ck) :: IsSourceKey(s, inp.source, ck)
  {
    forall j | 0 <= j < |pending|
      ensures IsKey(inp.source, pending[j].key) && IsSourceKey(s, inp.source, pending[j].cacheKey)
    {
      assert IsWanted(s, inp, inp.source, pending[j]);
      var i :| 0 <= i < |inp.source| && Decide(s, inp, inp.source[i]).Translate?
        && pending[j] == ItemFor(s, inp.source[i]);
      assert inp.source[i].key == pending[j].key && CacheKeyOf(s, inp.source[i]) == pending[j].cacheKey;
    }
  }

  lemma {:induction false} FirstPassKeys(s: Settings, inp: Input, flat: map<string, string>, fallback: seq<string>,
                                         tm: map<string, Memo>, pending: seq<Item>)
    requires FirstPass(s, inp, |inp.source|, flat, fallback, tm, pending)
    ensures forall k | k in flat || k in fallback :: IsKey(inp.source, k)
    ensures forall ck | !IsSourceKey(s, inp.source, ck) :: SameAt(Load(inp.lines), tm, ck)
    ensures pending == Pending(s, inp, inp.source)
  {
    forall k | k in flat || k in fallback
      ensures IsKey(inp.source, k)
    {
      assert KeyBefore(inp.source, |inp.source|, k);
    }
    forall ck | !IsSourceKey(s, inp.source, ck)
      ensures SameAt(Load(inp.lines), tm, ck)
    {
      assert !CacheKeyBefore(s, inp.source, |inp.source|, ck);
    }
    assert inp.source[..|inp.source|] == inp.source;
  }

  /** One text after the provider's answers have been stored. */
  lemma {:induction false} SettledWithProvider(s: Settings, inp: Input, i: nat, flat1: map<string, string>,
                                               fallback1: seq<string>, tm1: map<string, Memo>, pending: seq<Item>,
                                               values: map<string, string>, flat: map<string, string>,
                                               fallback: seq<string>, tm: map<string, Memo>)
    requires i < |inp.source| && s.allowTranslate && NoCollisions(s, inp.source) && DistinctKeys(inp.source)
    requires Decided(s, inp, inp.source[i], flat1, fallback1, tm1)
    requires PendingOk(s, inp, inp.source, pending)
    requires values.Keys == KeysOf(pending) && forall k | k in values :: !IsBlank(values[k])
    requires AllStored(s, pending, values, tm1, tm)
    requires flat == flat1 + values && forall k :: k in fallback <==> k in fallback1
    ensures Settled(s, inp, inp.source[i], flat, fallback, tm)
  {
    var f := inp.source[i];
    if Decide(s, inp, f).Translate? {
      var j :| 0 <= j < |pending| && pending[j] == ItemFor(s, f);
      assert AllStored(s, pending, values, tm1, tm) ==> Stored(s, pending[j], values, tm);
      assert pending[j].key in KeysOf(pending);
    } else {
      NotPending(s, inp, pending, i);
      assert AllStored(s, pending, values, tm1, tm) ==> SameAt(tm1, tm, CacheKeyOf(s, f));
    }
  }

  lemma {:induction false} OthersKept(s: Settings, inp: Input, pending: seq<Item>, values: map<string, string>,
                                      tm1: map<string, Memo>, tm: map<string, Memo>)
    requires PendingOk(s, inp, inp.source, pending) && AllStored(s, pending, values, tm1, tm)
    requires forall ck | !IsSourceKey(s, inp.source, ck) :: SameAt(Load(inp.lines), tm1, ck)
    ensures forall ck | !IsSourceKey(s, inp.source, ck) :: SameAt(Load(inp.lines), tm, ck)
  {
    PendingKeysAreKeys(s, inp, pending);
    forall ck | !IsSourceKey(s, inp.source, ck)
      ensures SameAt(Load(inp.lines), tm, ck)
    {
      assert !HasCacheKey(pending, ck) && SameAt(tm1, tm, ck);
    }
  }

  lemma {:induction false} CompleteWithProvider(s: Settings, inp: Input, flat1: map<string, string>,
                                                fallback1: seq<string>, tm1: map<string, Memo>, pending: seq<Item>,
                                                values: map<string, string>, out: Output)
    requires s.allowTranslate && NoCollisions(s, inp.source) && DistinctKeys(inp.source)
    requires FirstPass(s, inp, |inp.source|, flat1, fallback1, tm1, pending)
    requires values.Keys == KeysOf(pending) && forall k | k in values :: !IsBlank(values[k])
    requires AllStored(s, pending, values, tm1, out.tm)
    requires out.flat == flat1 + values && out.pending == pending
    requires NoDuplicates(out.fallback) && forall k :: k in out.fallback <==> k in fallback1
    ensures Complete(s, inp, out)
  {
    FirstPassKeys(s, inp, flat1, fallback1, tm1, pending);
    PendingIsOk(s, inp, inp.source);
    PendingKeysAreKeys(s, inp, pending);
    forall i | 0 <= i < |inp.source|
      ensures Settled(s, inp, inp.source[i], out.flat, out.fallback, out.tm)
    {
      SettledWithProvider(s, inp, i, flat1, fallback1, tm1, pending, values, out.flat, out.fallback, out.tm);
    }
    assert AllSettled(s, inp, out);
    OthersKept(s, inp, pending, values, tm1, out.tm);
    Completes(s, inp, out);
  }

  /** One text after the fallback loop, when there is no provider. */
  lemma {:induction false} SettledWithoutProvider(s: Settings, inp: Input, i: nat, flat1: map<string, string>,
                                                  fallback1: seq<string>, tm: map<string, Memo>, pending: seq<Item>,
                                                  flat: map<string, string>, fallback: seq<string>)
    requires i < |inp.source| && !s.allowTranslate && NoCollisions(s, inp.source) && DistinctKeys(inp.source)
    requires Decided(s, inp, inp.source[i], flat1, fallback1, tm)
    requires PendingOk(s, inp, inp.source, pending)
    requires FilledFrom(inp, pending, flat1, fallback1, flat, fallback)
    ensures Settled(s, inp, inp.source[i], flat, fallback, tm)
  {
    var f := inp.source[i];
    if Decide(s, inp, f).Translate? {
      var j :| 0 <= j < |pending| && pending[j] == ItemFor(s, f);
    } else {
      NotPending(s, inp, pending, i);
    }
  }

  /** What the fallback loop does, as far as it matters without a provider. */
  ghost predicate FilledFrom(inp: Input, pending: seq<Item>, flat1: map<string, string>, fallback1: seq<string>,
                             flat: map<string, string>, fallback: seq<string>)
  {
    && flat.Keys == flat1.Keys + KeysOf(pending) && (forall k | k in flat1 :: flat[k] == flat1[k])
    && (forall k | k in fallback1 :: k in fallback)
    && (forall k | k in fallback :: k in fallback1 || k in KeysOf(pending))
    && (forall j | 0 <= j < |pending| && pending[j].key !in flat1 && pending[j].key !in inp.existing ::
          pending[j].key in flat && flat[pending[j].key] == pending[j].text && pending[j].key in fallback)
  }

  lemma {:induction false} CompleteWithoutProvider(s: Settings, inp: Input, flat1: map<string, string>,
                                                   fallback1: seq<string>, tm1: map<string, Memo>, pending: seq<Item>,
                                                   out: Output)
    requires !s.allowTranslate && NoCollisions(s, inp.source) && DistinctKeys(inp.source)
    requires FirstPass(s, inp, |inp.source|, flat1, fallback1, tm1, pending)
    requires out.tm == tm1 && out.pending == pending && NoDuplicates(out.fallback)
    requires FilledFrom(inp, pending, flat1, fallback1, out.flat, out.fallback)
    ensures Complete(s, inp, out)
  {
    FirstPassKeys(s, inp, flat1, fallback1, tm1, pending);
    PendingIsOk(s, inp, inp.source);
    PendingKeysAreKeys(s, inp, pending);
    forall i | 0 <= i < |inp.source|
      ensures Settled(s, inp, inp.source[i], out.flat, out.fallback, out.tm)
    {
      SettledWithoutProvider(s, inp, i, flat1, fallback1, tm1, pending, out.flat, out.fallback);
    }
    assert AllSettled(s, inp, out);
    Completes(s, inp, out);
  }

  /** The fallback loop after the provider's part, and the completed result. */
  method Finish(s: Settings, inp: Input, ghost flat1: map<string, string>, ghost fallback1: seq<string>,
                ghost tm1: map<string, Memo>, pending: seq<Item>, ghost values: map<string, string>,
                flat2: map<string, string>, fallback2: seq<string>, tm: map<string, Memo>)
    returns (out: Output)
    requires NoCollisions(s, inp.source) && DistinctKeys(inp.source)
    requires FirstPass(s, inp, |inp.source|, flat1, fallback1, tm1, pending)
    requires fallback2 == fallback1 && flat2 == flat1 + values
    requires if s.allowTranslate
             then values.Keys == KeysOf(pending) && (forall k | k in values :: !IsBlank(values[k]))
               && AllStored(s, pending, values, tm1, tm)
             else values == map[] && tm == tm1
    ensures Complete(s, inp, out)
    ensures s.allowTranslate ==> out.flat == flat1 + values
  {
    ReadyToFill(s, inp, flat1, fallback1, tm1, pending);
    var flat, fallback := FillPending(s, inp, pending, flat2, fallback2);
    out := Output(flat, fallback, tm, pending);
    if s.allowTranslate {
      FilledNothing(s, inp, pending, flat2, fallback2, flat, fallback);
      CompleteWithProvider(s, inp, flat1, fallback1, tm1, pending, values, out);
    } else {
      UnionEmpty(flat1);
      FilledAsNeeded(s, inp, pending, flat1, fallback1, flat, fallback);
      CompleteWithoutProvider(s, inp, flat1, fallback1, tm1, pending, out);
    }
  }

  lemma {:induction false} ReadyToFill(s: Settings, inp: Input, flat: map<string, string>, fallback: seq<string>,
                                       tm: map<string, Memo>, pending: seq<Item>)
    requires NoCollisions(s, inp.source) && DistinctKeys(inp.source)
    requires FirstPass(s, inp, |inp.source|, flat, fallback, tm, pending)
    ensures DistinctItems(pending) && NoDuplicates(fallback) && forall k | k in fallback :: k !in KeysOf(pending)
  {
    FirstPassKeys(s, inp, flat, fallback, tm, pending);
    PendingIsOk(s, inp, inp.source);
    PendingIsNotFallback(s, inp, flat, fallback, tm, pending);
  }

  lemma {:induction false} FilledAsNeeded(s: Settings, inp: Input, pending: seq<Item>, flat1: map<string, string>,
                                          fallback1: seq<string>, flat: map<string, string>, fallback: seq<string>)
    requires Filled(s, inp, pending, flat1, fallback1, flat, fallback)
    ensures FilledFrom(inp, pending, flat1, fallback1, flat, fallback) && NoDuplicates(fallback)
  {
  }

  /** A result this run can have come to: complete, and with a provider every pending key has a value that a
      usable reply to a prompt of this run supplied. */
  ghost predicate CameTo(session: Session, s: Settings, inp: Input, out: Output, from: nat)
    reads session`log
  {
    && Complete(s, inp, out)
    && (s.allowTranslate ==>
          forall k | k in KeysOf(out.pending) :: k in out.flat && session.Sourced(k, out.flat[k], from))
  }

  /** The whole sync. It completes, or the provider gave up part of the pending items, or in the result it came to
      the placeholders of some text do not match its source's. */
  method Sync(session: Session, s: Settings, inp: Input) returns (r: Result<Output>)
    requires session.Valid() && session.Ready()
    requires NoCollisions(s, inp.source) && DistinctKeys(inp.source)
    modifies session`peers, session`current, session`log
    ensures session.Valid() && session.Ready()
    ensures |old(session.log)| <= |session.log| <= |old(session.log)| + 4 * |Pending(s, inp, inp.source)|
    ensures !s.allowTranslate ==> session.log == old(session.log)
    ensures r.Ok? ==> Synced(s, inp, r.value)
    ensures r.Ok? ==> CameTo(session, s, inp, r.value, |old(session.log)|)
    ensures Pending(s, inp, inp.source) == [] ==> session.log == old(session.log)
    ensures r.Err? ==>
      || (s.allowTranslate && Pending(s, inp, inp.source) != []
          && session.GaveUp(Pending(s, inp, inp.source), r.error, |old(session.log)|))
      || exists out :: CameTo(session, s, inp, out, |old(session.log)|) && !PlaceholdersMatch(s, inp.source, out.flat)
  {
    var flat, fallback, tm, pending := DecideAll(s, inp);
    ghost var flat1, fallback1, tm1 := flat, fallback, tm;
    ghost var values: map<string, string> := map[];
    assert flat == flat1 + values;
    PendingIsRight(s, inp, flat, fallback, tm, pending);
    if s.allowTranslate && pending != [] {
      var t: Result<()>;
      t, flat, tm, values := TranslatePending(session, s, pending, flat, tm);
      if t.Err? {
        return Err(t.error);
      }
    }
    var out := Finish(s, inp, flat1, fallback1, tm1, pending, values, flat, fallback, tm);
    assert CameTo(session, s, inp, out, |old(session.log)|);
    r := CheckPlaceholders(s, inp, out);
  }

  /** After a completed sync has been written, a second sync of the same source with the same provider settings
      completes without sending a prompt, and reproduces the first one's result. */
  method SyncAgain(session: Session, s: Settings, ghost inp: Input, ghost out: Output, ghost now: string, force: bool,
                   next: Input)
    returns (r: Result<Output>)
    requires session.Valid() && session.Ready()
    requires NoCollisions(s, inp.source) && TotalOrder(s.leq)
    requires Rebuildable(inp.source)
    requires Synced(s, inp, out) && Written(s, inp, out, now, next)
    modifies session`peers, session`current, session`log
    ensures session.Valid() && session.Ready() && session.log == old(session.log)
    ensures r.Ok? && r.value.pending == [] && r.value.flat == out.flat && r.value.tm == out.tm
    ensures multiset(r.value.fallback) == multiset(out.fallback)
    ensures forall later :: NextMeta(s.(force := force), next, r.value, later) == NextMeta(s, inp, out, now)
  {
    SecondSyncCannotFail(s, inp, out, now, force, next);
    r := Sync(session, s.(force := force), next);
    SyncReachesFixedPoint(s, inp, out, now, force, next, r.value, now);
    forall later: string
      ensures NextMeta(s.(force := force), next, r.value, later) == NextMeta(s, inp, out, now)
    {
      SyncReachesFixedPoint(s, inp, out, now, force, next, r.value, later);
    }
  }

  lemma {:induction false} PendingIsRight(s: Settings, inp: Input, flat: map<string, string>, fallback: seq<string>,
                                          tm: map<string, Memo>, pending: seq<Item>)
    requires NoCollisions(s, inp.source) && DistinctKeys(inp.source)
    requires FirstPass(s, inp, |inp.source|, flat, fallback, tm, pending)
    ensures pending == Pending(s, inp, inp.source) && DistinctItems(pending)
    ensures forall i | 0 <= i < |pending| :: pending[i].cacheKey != ""
    ensures pending == [] ==> AllStored(s, pending, map[], tm, tm)
  {
    assert inp.source[..|inp.source|] == inp.source;
    PendingIsOk(s, inp, inp.source);
  }

  lemma {:induction false} PendingIsNotFallback(s: Settings, inp: Input, flat: map<string, string>,
                                                fallback: seq<string>, tm: map<string, Memo>, pending: seq<Item>)
    requires FirstPass(s, inp, |inp.source|, flat, fallback, tm, pending)
    requires PendingOk(s, inp, inp.source, pending)
    ensures forall k | k in KeysOf(pending) :: k !in fallback && k !in flat
  {
    forall j | 0 <= j < |pending|
      ensures pending[j].key !in fallback && pending[j].key !in flat
    {
      assert IsWanted(s, inp, inp.source, pending[j]);
      var i :| 0 <= i < |inp.source| && Decide(s, inp, inp.source[i]).Translate?
        && pending[j] == ItemFor(s, inp.source[i]);
      assert Decided(s, inp, inp.source[i], flat, fallback, tm);
    }
  }

  method SamePlaceholders(s: Settings, source: seq<Flat>, flat: map<string, string>) returns (same: bool)
    requires forall i | 0 <= i < |source| :: source[i].key in flat
    ensures same <==> PlaceholdersMatch(s, source, flat)
  {
    for i := 0 to |source|
      invariant PlaceholdersMatch(s, source[..i], flat)
    {
      if s.placeholders(flat[source[i].key]) != s.placeholders(source[i].text) {
        return false;
      }
    }
    assert source[..|source|] == source;
    same := true;
  }

  /** The sync refuses a translation whose placeholders differ from the source's. */
  method CheckPlaceholders(s: Settings, inp: Input, out: Output) returns (r: Result<Output>)
    requires Complete(s, inp, out)
    ensures r.Ok? ==> r.value == out && Synced(s, inp, out)
    ensures r.Err? <==> !PlaceholdersMatch(s, inp.source, out.flat)
    ensures r.Ok? <==> forall f | f in inp.source ::
      f.key in out.flat && s.placeholders(out.flat[f.key]) == s.placeholders(f.text)
    ensures r.Err? ==> Mismatch(s, inp)
  {
    var same := SamePlaceholders(s, inp.source, out.flat) by {
      KeysAreAssigned(s, inp, out);
    }
    if !same {
      return Err("placeholder mismatch");
    }
    r := Ok(out);
  }

  lemma {:induction false} KeysAreAssigned(s: Settings, inp: Input, out: Output)
    requires Complete(s, inp, out)
    ensures forall i | 0 <= i < |inp.source| :: inp.source[i].key in out.flat
  {
    forall i | 0 <= i < |inp.source|
      ensures inp.source[i].key in out.flat
    {
      assert Complete(s, inp, out) ==> Settled(s, inp, inp.source[i], out.flat, out.fallback, out.tm);
    }
  }

  lemma {:induction false} NotFallbackWithProvider(s: Settings, inp: Input, out: Output, i: nat)
    requires Synced(s, inp, out) && s.allowTranslate && i < |inp.source|
    ensures inp.source[i].key !in out.fallback
  {
    var f := inp.source[i];
    SettledAt(s, inp, out, i);
    var d := Decide(s, inp, f);
    assert d.FromCache? || d.FromExisting? ==> !WasFallback(inp, f.key);
  }

  lemma {:induction false} SettledAt(s: Settings, inp: Input, out: Output, i: nat)
    requires Synced(s, inp, out) && i < |inp.source|
    ensures Settled(s, inp, inp.source[i], out.flat, out.fallback, out.tm)
  {
  }

  /** With a provider configured, a completed sync leaves no English fallback behind. */
  lemma {:induction false} NoFallbackWithProvider(s: Settings, inp: Input, out: Output)
    requires Synced(s, inp, out) && s.allowTranslate
    ensures out.fallback == []
  {
    forall i | 0 <= i < |inp.source|
      ensures inp.source[i].key !in out.fallback
    {
      NotFallbackWithProvider(s, inp, out, i);
    }
    assert out.fallback != [] ==> IsKey(inp.source, out.fallback[0]);
  }
}
