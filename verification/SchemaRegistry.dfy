/** The index of named schemas: by object identity, and by structure where the structure is unique. A
    structure registered twice is poisoned for good. */
module SchemaRegistry {
  import opened Text
  import opened JsonText

  /** A schema object: its identity and its value. */
  datatype Schema = Schema(id: nat, json: Json)
  datatype Registration = Registration(name: string, schema: Schema)

  /** The names registered for schemas equal to `json` up to key order, in registration order. */
  function NamesOf(regs: seq<Registration>, json: Json): seq<string> {
    if regs == [] then []
    else
      var r := regs[|regs| - 1];
      NamesOf(regs[..|regs| - 1], json) + (if Same(r.schema.json, json) then [r.name] else [])
  }

  /** The name of the last registration of an object. */
  function NameOfObject(regs: seq<Registration>, id: nat): Option<string> {
    if regs == [] then None
    else if regs[|regs| - 1].schema.id == id then Some(regs[|regs| - 1].name)
    else NameOfObject(regs[..|regs| - 1], id)
  }

  /** The latest registration of an object wins. */
  lemma {:induction false} LatestNameWins(regs: seq<Registration>, id: nat, i: nat)
    requires i < |regs| && regs[i].schema.id == id && forall j | i < j < |regs| :: regs[j].schema.id != id
    ensures NameOfObject(regs, id) == Some(regs[i].name)
  {
    if i < |regs| - 1 {
      LatestNameWins(regs[..|regs| - 1], id, i);
    }
  }

  lemma {:induction false} UnregisteredHasNoName(regs: seq<Registration>, id: nat)
    ensures NameOfObject(regs, id).None? <==> forall i | 0 <= i < |regs| :: regs[i].schema.id != id
  {
    if regs != [] {
      var init := regs[..|regs| - 1];
      UnregisteredHasNoName(init, id);
      assert forall i | 0 <= i < |init| :: init[i] == regs[i];
    }
  }

  predicate AllWellFormed(regs: seq<Registration>) {
    forall i | 0 <= i < |regs| :: WellFormed(regs[i].schema.json)
  }

  /** The index is right about a structure: listed while it was registered once, poisoned from the second time on. */
  ghost predicate Indexed(regs: seq<Registration>, bySignature: map<string, string>, duplicates: set<string>,
                          json: Json) {
    var names, sig := NamesOf(regs, json), Signature(json);
    && (sig in bySignature <==> |names| == 1)
    && (|names| == 1 ==> bySignature[sig] == names[0])
    && (sig in duplicates <==> |names| > 1)
  }

  lemma {:induction false} IndexedAfter(regs: seq<Registration>, r: Registration, bySignature: map<string, string>,
                                        duplicates: set<string>,
                                        bySignature': map<string, string>, duplicates': set<string>, json: Json)
    requires AllWellFormed(regs) && WellFormed(r.schema.json) && WellFormed(json)
    requires Indexed(regs, bySignature, duplicates, json) && Indexed(regs, bySignature, duplicates, r.schema.json)
    requires forall sig | sig != Signature(r.schema.json) ::
      && (sig in bySignature' <==> sig in bySignature) && (sig in bySignature ==> bySignature'[sig] == bySignature[sig])
      && (sig in duplicates' <==> sig in duplicates)
    requires Indexed(regs + [r], bySignature', duplicates', r.schema.json)
    ensures Indexed(regs + [r], bySignature', duplicates', json)
  {
    assert (regs + [r])[..|regs + [r]| - 1] == regs;
    SignatureIffSame(r.schema.json, json);
    if Same(r.schema.json, json) {
      SameNames(regs + [r], r.schema.json, json);
    }
  }

  lemma {:induction false} SameAsItself(json: Json)
    requires WellFormed(json)
    ensures Same(json, json)
  {
    StableIffSame(json, json);
  }

  ghost predicate AllIndexed(regs: seq<Registration>, bySignature: map<string, string>, duplicates: set<string>) {
    forall json | WellFormed(json) :: Indexed(regs, bySignature, duplicates, json)
  }

  ghost predicate AllNamed(regs: seq<Registration>, byObject: map<nat, string>) {
    forall id: nat :: NameOfObject(regs, id) == if id in byObject then Some(byObject[id]) else None
  }

  /** What registering a signature does to the map and the set. */
  predicate Registers(name: string, signature: string, bySignature: map<string, string>, duplicates: set<string>,
                      bySignature': map<string, string>, duplicates': set<string>) {
    if signature in duplicates then bySignature' == bySignature && duplicates' == duplicates
    else if signature in bySignature then
      bySignature' == bySignature - {signature} && duplicates' == duplicates + {signature}
    else bySignature' == bySignature[signature := name] && duplicates' == duplicates
  }

  lemma {:induction false} OwnIndexedAfter(regs: seq<Registration>, r: Registration, bySignature: map<string, string>,
                                           duplicates: set<string>,
                                           bySignature': map<string, string>, duplicates': set<string>)
    requires WellFormed(r.schema.json) && Indexed(regs, bySignature, duplicates, r.schema.json)
    requires Registers(r.name, Signature(r.schema.json), bySignature, duplicates, bySignature', duplicates')
    ensures Indexed(regs + [r], bySignature', duplicates', r.schema.json)
  {
    SameAsItself(r.schema.json);
    assert (regs + [r])[..|regs|] == regs;
  }

  lemma {:induction false} AllIndexedAfter(regs: seq<Registration>, r: Registration, bySignature: map<string, string>,
                                           duplicates: set<string>,
                                           bySignature': map<string, string>, duplicates': set<string>)
    requires AllWellFormed(regs) && WellFormed(r.schema.json) && AllIndexed(regs, bySignature, duplicates)
    requires Registers(r.name, Signature(r.schema.json), bySignature, duplicates, bySignature', duplicates')
    ensures AllIndexed(regs + [r], bySignature', duplicates')
  {
    assert Indexed(regs, bySignature, duplicates, r.schema.json);
    OwnIndexedAfter(regs, r, bySignature, duplicates, bySignature', duplicates');
    forall json | WellFormed(json)
      ensures Indexed(regs + [r], bySignature', duplicates', json)
    {
      assert Indexed(regs, bySignature, duplicates, json);
      IndexedAfter(regs, r, bySignature, duplicates, bySignature', duplicates', json);
    }
  }

  lemma {:induction false} AllNamedAfter(regs: seq<Registration>, r: Registration, byObject: map<nat, string>)
    requires AllNamed(regs, byObject)
    ensures AllNamed(regs + [r], byObject[r.schema.id := r.name])
  {
    assert (regs + [r])[..|regs|] == regs;
  }

  class Registry {
    var schemaNameByObject: map<nat, string>
    var schemaNameBySignature: map<string, string>
    var duplicateSchemaSignatures: set<string>
    ghost var registered: seq<Registration>

    /** A structure is indexed while it was registered once, and poisoned from the second time on. */
    ghost predicate Valid()
      reads this
    {
      && AllWellFormed(registered)
      && AllNamed(registered, schemaNameByObject)
      && AllIndexed(registered, schemaNameBySignature, duplicateSchemaSignatures)
    }

    constructor ()
      ensures Valid() && registered == []
    {
      schemaNameByObject, schemaNameBySignature, duplicateSchemaSignatures := map[], map[], {};
      registered := [];
    }

    method RegisterNamedSchema(name: string, schema: Schema)
      requires Valid() && WellFormed(schema.json)
      modifies this
      ensures Valid() && registered == old(registered) + [Registration(name, schema)]
    {
      ghost var r := Registration(name, schema);
      ghost var before, bySignature, duplicates := registered, schemaNameBySignature, duplicateSchemaSignatures;
      AllNamedAfter(before, r, schemaNameByObject);
      schemaNameByObject := schemaNameByObject[schema.id := name];
      RegisterSignature(name, Signature(schema.json));
      AllIndexedAfter(before, r, bySignature, duplicates, schemaNameBySignature, duplicateSchemaSignatures);
      registered := before + [r];
    }

    method RegisterSignature(name: string, signature: string)
      modifies this`schemaNameBySignature, this`duplicateSchemaSignatures
      ensures Registers(name, signature, old(schemaNameBySignature), old(duplicateSchemaSignatures),
                        schemaNameBySignature, duplicateSchemaSignatures)
    {
      if signature in duplicateSchemaSignatures {
        return;
      }
      if signature in schemaNameBySignature {
        schemaNameBySignature := schemaNameBySignature - {signature};
        duplicateSchemaSignatures := duplicateSchemaSignatures + {signature};
        return;
      }
      schemaNameBySignature := schemaNameBySignature[signature := name];
    }

    /** A registered object has its own name; any other schema is looked up by structure if that is allowed. */
    method NamedSchema(schema: Schema, allowStructuralFallback: bool) returns (r: Option<string>)
      requires Valid() && WellFormed(schema.json)
      ensures NameOfObject(registered, schema.id).Some? ==> r == NameOfObject(registered, schema.id)
      ensures NameOfObject(registered, schema.id).None? && !allowStructuralFallback ==> r == None
      ensures NameOfObject(registered, schema.id).None? && allowStructuralFallback ==>
                forall n :: r == Some(n) <==> OnlyMatch(registered, schema.json, n)
    {
      assert Indexed(registered, schemaNameBySignature, duplicateSchemaSignatures, schema.json);
      OnlyMatchIsSoleName(registered, schema.json);
      assert NameOfObject(registered, schema.id) ==
        if schema.id in schemaNameByObject then Some(schemaNameByObject[schema.id]) else None;
      if schema.id in schemaNameByObject {
        return Some(schemaNameByObject[schema.id]);
      }
      var signature := Signature(schema.json);
      if allowStructuralFallback && signature in schemaNameBySignature {
        return Some(schemaNameBySignature[signature]);
      }
      r := None;
    }
  }

  lemma {:induction false} SameIsEquivalence(a: Json, b: Json, c: Json)
    requires WellFormed(a) && WellFormed(b) && WellFormed(c) && Same(a, b)
    ensures Same(b, a) && (Same(c, a) <==> Same(c, b))
  {
    StableIffSame(a, b);
    StableIffSame(b, a);
    StableIffSame(c, a);
    StableIffSame(c, b);
  }

  lemma {:induction false} SameNames(regs: seq<Registration>, a: Json, b: Json)
    requires AllWellFormed(regs) && WellFormed(a) && WellFormed(b) && Same(a, b)
    ensures NamesOf(regs, a) == NamesOf(regs, b)
  {
    if regs != [] {
      SameNames(regs[..|regs| - 1], a, b);
      SameIsEquivalence(a, b, regs[|regs| - 1].schema.json);
    }
  }

  /** Exactly one registration matches up to key order, and it is named `n`. */
  ghost predicate OnlyMatch(regs: seq<Registration>, json: Json, n: string) {
    exists i :: MatchAt(regs, json, n, i)
  }

  lemma {:induction false} NoNames(regs: seq<Registration>, json: Json)
    ensures NamesOf(regs, json) == [] <==> forall j | 0 <= j < |regs| :: !Same(regs[j].schema.json, json)
  {
    if regs != [] {
      NoNames(regs[..|regs| - 1], json);
      assert forall j | 0 <= j < |regs| - 1 :: regs[..|regs| - 1][j] == regs[j];
    }
  }

  ghost predicate MatchAt(regs: seq<Registration>, json: Json, n: string, i: int) {
    && 0 <= i < |regs| && regs[i].name == n && Same(regs[i].schema.json, json)
    && forall j | 0 <= j < |regs| && Same(regs[j].schema.json, json) :: j == i
  }

  lemma {:induction false} OnlyMatchStep(init: seq<Registration>, r: Registration, json: Json, n: string)
    ensures OnlyMatch(init + [r], json, n) <==>
            if Same(r.schema.json, json) then r.name == n && NamesOf(init, json) == [] else OnlyMatch(init, json, n)
  {
    var regs, m := init + [r], |init|;
    NoNames(init, json);
    assert forall j | 0 <= j < m :: init[j] == regs[j];
    assert regs[m] == r;
    if OnlyMatch(regs, json, n) {
      var i :| MatchAt(regs, json, n, i);
      assert i < m ==> MatchAt(init, json, n, i);
    }
    if Same(r.schema.json, json) {
      if r.name == n && NamesOf(init, json) == [] {
        assert MatchAt(regs, json, n, m);
      }
    } else if OnlyMatch(init, json, n) {
      var i :| MatchAt(init, json, n, i);
      assert MatchAt(regs, json, n, i);
    }
  }

  lemma {:induction false} SoleName(regs: seq<Registration>, json: Json, n: string)
    ensures NamesOf(regs, json) == [n] <==> OnlyMatch(regs, json, n)
  {
    if regs == [] {
      assert forall i :: !MatchAt(regs, json, n, i);
    } else {
      var init, r := regs[..|regs| - 1], regs[|regs| - 1];
      assert regs == init + [r];
      SoleName(init, json, n);
      OnlyMatchStep(init, r, json, n);
      var before := NamesOf(init, json);
      if Same(r.schema.json, json) {
        assert before + [r.name] == [n] <==> before == [] && r.name == n by {
          assert (before + [r.name])[|before|] == r.name;
          assert |before + [r.name]| == |before| + 1;
        }
      }
    }
  }

  lemma {:induction false} OnlyMatchIsSoleName(regs: seq<Registration>, json: Json)
    ensures forall n :: OnlyMatch(regs, json, n) <==> NamesOf(regs, json) == [n]
  {
    forall n
      ensures OnlyMatch(regs, json, n) <==> NamesOf(regs, json) == [n]
    {
      SoleName(regs, json, n);
    }
  }

  /** The outcome of a structural lookup does not depend on the order of registration. */
  lemma {:induction false} LookupIgnoresOrder(a: seq<Registration>, b: seq<Registration>, json: Json, n: string)
    requires multiset(a) == multiset(b)
    ensures OnlyMatch(a, json, n) <==> OnlyMatch(b, json, n)
  {
    NamesPermute(a, b, json);
    SoleName(a, json, n);
    SoleName(b, json, n);
    var x, y := NamesOf(a, json), NamesOf(b, json);
    assert |x| == |multiset(x)| == |multiset(y)| == |y|;
    if |x| == 1 {
      assert x == [x[0]] && y == [y[0]];
      assert x[0] in multiset(x) && y[0] in multiset(y);
    }
  }

  lemma {:induction false} NamesOfConcat(a: seq<Registration>, b: seq<Registration>, json: Json)
    ensures NamesOf(a + b, json) == NamesOf(a, json) + NamesOf(b, json)
  {
    if b == [] {
      assert a + b == a;
    } else {
      NamesOfConcat(a, b[..|b| - 1], json);
      assert (a + b)[..|a + b| - 1] == a + b[..|b| - 1];
    }
  }

  lemma {:induction false} NamesPermute(a: seq<Registration>, b: seq<Registration>, json: Json)
    requires multiset(a) == multiset(b)
    ensures multiset(NamesOf(a, json)) == multiset(NamesOf(b, json))
    decreases |a|
  {
    assert |a| == |multiset(a)| == |multiset(b)| == |b|;
    if a != [] {
      var m := |a| - 1;
      var r := a[m];
      assert a == a[..m] + [r] == a[..m] + [r] + [];
      assert r in multiset(a);
      var k :| 0 <= k < |b| && b[k] == r;
      assert b == b[..k] + [r] + b[k + 1..];
      WithoutOne(a[..m], r, [], a);
      WithoutOne(b[..k], r, b[k + 1..], b);
      assert a[..m] + [] == a[..m];
      NamesPermute(a[..m], b[..k] + b[k + 1..], json);
      NamesWithoutOne(a[..m], r, [], json);
      NamesWithoutOne(b[..k], r, b[k + 1..], json);
    }
  }

  lemma {:induction false} NamesWithoutOne(front: seq<Registration>, r: Registration, back: seq<Registration>,
                                           json: Json)
    ensures multiset(NamesOf(front + [r] + back, json))
            == multiset(NamesOf(front + back, json)) + multiset(NamesOf([r], json))
  {
    NamesOfConcat(front, [r], json);
    NamesOfConcat(front + [r], back, json);
    NamesOfConcat(front, back, json);
  }

  lemma {:induction false} WithoutOne<T>(front: seq<T>, x: T, back: seq<T>, all: seq<T>)
    requires all == front + [x] + back
    ensures multiset(front + back) == multiset(all) - multiset{x}
  {
  }
}
