/**
 * stream_clustering.py: online grouping of documents. Every document is hashed
 * into LSH bucket keys; the first document seen in a bucket owns it
 * (`hash2doc`), and a later document that lands in an owned bucket joins the
 * owner's group, recorded in `doc2sim`.
 *
 * The key-value store is an in-memory stand-in for the `KVStorage` interface
 * of io/kv_storage.py: a map from relation name to a string-to-string map, as
 * Redis keeps one hash per name.
 */
module StreamClustering {
  import opened Wrappers
  import opened PyBuiltins

  type Tables = map<string, map<string, string>>

  const Hash2Doc: string := "hash2doc"
  const Doc2Sim: string := "doc2sim"

  /** One call on the store, as it would be seen on the wire. */
  datatype Op =
    | GetOp(name: string, key: string)
    | PutOp(name: string, key: string, value: string)
    | DeleteOp(name: string)

  /** Python truthiness of a value read from the store: neither `None` nor the empty string. */
  predicate Truthy(v: Option<string>)
  {
    v.Some? && v.value != ""
  }

  function TableOf(tables: Tables, name: string): map<string, string>
  {
    if name in tables then tables[name] else map[]
  }

  /** `get(name, key)`: the stored value, or `None`. */
  function Lookup(tables: Tables, name: string, key: string): (r: Option<string>)
    ensures r.Some? <==> key in TableOf(tables, name)
    ensures r.Some? ==> r.value == TableOf(tables, name)[key]
  {
    var t := TableOf(tables, name);
    if key in t then Some(t[key]) else None
  }

  /** `put(name, key, value)`: sets one entry, creating the relation when it is missing. */
  function PutIn(tables: Tables, name: string, key: string, value: string): (r: Tables)
    ensures TableOf(r, name) == TableOf(tables, name)[key := value]
    ensures r - {name} == tables - {name}
  {
    tables[name := TableOf(tables, name)[key := value]]
  }

  // ------------------------------------------------------------------ hashing

  /**
   * `MinhashLSH`: a MinHash signer followed by LSH banding. Both come from a
   * library that is not part of this model, so they are parameters.
   */
  datatype MinhashLSH = MinhashLSH(sign: seq<string> -> seq<int>, bands: seq<int> -> seq<string>)

  /** `MinhashLSH.hash`: sign the tokens, then hash the signature's bands into bucket keys. */
  function Hash(hasher: MinhashLSH, tokens: seq<string>): seq<string>
  {
    hasher.bands(hasher.sign(tokens))
  }

  /** The bucket keys depend on the tokens only through their signature: equal signatures share every key. */
  lemma SameSignatureSameKeys(hasher: MinhashLSH, a: seq<string>, b: seq<string>)
    requires hasher.sign(a) == hasher.sign(b)
    ensures Hash(hasher, a) == Hash(hasher, b)
  {
  }

  // ------------------------------------------------------------------ find_group, as functions

  /** The state of one `find_group` call between two bucket keys: the store and the local `group_id`. */
  datatype Progress = Progress(tables: Tables, group: Option<string>)

  /** What `find_group` leaves behind: the new store, the group it returns, and the calls it made. */
  datatype Outcome = Outcome(tables: Tables, group: string, ops: seq<Op>)

  /**
   * The loop body for one bucket key `h`. A group already found is kept, and
   * afterwards `h` has a truthy owner in `hash2doc` whenever `doc` is truthy.
   */
  function Visit(doc: string, p: Progress, h: string): (r: Progress)
    ensures Truthy(p.group) ==> r.group == p.group
    ensures doc != "" ==> Truthy(Lookup(r.tables, Hash2Doc, h))
  {
    var simId := Lookup(p.tables, Hash2Doc, h);
    if !Truthy(simId) then
      Progress(PutIn(p.tables, Hash2Doc, h, doc), p.group)
    else if Truthy(p.group) then
      p
    else
      var g := Lookup(p.tables, Doc2Sim, simId.value);
      if !Truthy(g) && g != simId then
        Progress(PutIn(p.tables, Doc2Sim, doc, simId.value), simId)
      else
        Progress(p.tables, g)
  }

  /** The store calls the loop body makes for bucket key `h`. */
  function VisitOps(doc: string, p: Progress, h: string): seq<Op>
  {
    var simId := Lookup(p.tables, Hash2Doc, h);
    if !Truthy(simId) then
      [GetOp(Hash2Doc, h), PutOp(Hash2Doc, h, doc)]
    else if Truthy(p.group) then
      [GetOp(Hash2Doc, h)]
    else
      var g := Lookup(p.tables, Doc2Sim, simId.value);
      if !Truthy(g) && g != simId then
        [GetOp(Hash2Doc, h), GetOp(Doc2Sim, simId.value), PutOp(Doc2Sim, doc, simId.value)]
      else
        [GetOp(Hash2Doc, h), GetOp(Doc2Sim, simId.value)]
  }

  function Scan(doc: string, p: Progress, hs: seq<string>): Progress
    decreases |hs|
  {
    if hs == [] then p else Scan(doc, Visit(doc, p, hs[0]), hs[1..])
  }

  function ScanOps(doc: string, p: Progress, hs: seq<string>): seq<Op>
    decreases |hs|
  {
    if hs == [] then [] else VisitOps(doc, p, hs[0]) + ScanOps(doc, Visit(doc, p, hs[0]), hs[1..])
  }

  /** `find_group(doc_id, tokens)` on a store holding `tables`, given the bucket keys `hs` of the tokens. */
  function FindGroupOf(doc: string, tables: Tables, hs: seq<string>): Outcome
  {
    var start := Progress(tables, None);
    var p := Scan(doc, start, hs);
    Outcome(p.tables, if Truthy(p.group) then p.group.value else doc, ScanOps(doc, start, hs))
  }

  /** Visiting one more key extends the scan, and its calls, by that one visit. */
  lemma {:induction false} ScanSnoc(doc: string, p: Progress, hs: seq<string>, h: string)
    ensures Scan(doc, p, hs + [h]) == Visit(doc, Scan(doc, p, hs), h)
    ensures ScanOps(doc, p, hs + [h]) == ScanOps(doc, p, hs) + VisitOps(doc, Scan(doc, p, hs), h)
    decreases |hs|
  {
    if hs == [] {
      assert [] + [h] == [h];
    } else {
      var p1 := Visit(doc, p, hs[0]);
      assert (hs + [h])[0] == hs[0];
      assert (hs + [h])[1..] == hs[1..] + [h];
      ScanSnoc(doc, p1, hs[1..], h);
      AppendAssoc(VisitOps(doc, p, hs[0]), ScanOps(doc, p1, hs[1..]), VisitOps(doc, Scan(doc, p, hs), h));
    }
  }

  // ------------------------------------------------------------------ frame: what a call may change

  /**
   * From `before` to `after`, the `hash2doc` relation only gains keys, never
   * overwrites a truthy owner, and every changed entry is one of the keys `hs`
   * now owned by `doc`.
   */
  predicate OwnersKept(before: map<string, string>, after: map<string, string>, doc: string, hs: seq<string>)
  {
    && before.Keys <= after.Keys
    && (forall k :: k in before && before[k] != "" ==> after[k] == before[k])
    && (forall k :: k in after ==> (k in before && after[k] == before[k]) || (k in hs && after[k] == doc))
  }

  /** `doc2sim` is unchanged, or changed only at `doc`, to the truthy `group`. */
  predicate GroupRecorded(before: map<string, string>, after: map<string, string>, doc: string, group: Option<string>)
  {
    after == before || (Truthy(group) && after == before[doc := group.value])
  }

  lemma VisitFrame(doc: string, p: Progress, h: string)
    ensures var q := Visit(doc, p, h);
      && q.tables - {Hash2Doc, Doc2Sim} == p.tables - {Hash2Doc, Doc2Sim}
      && OwnersKept(TableOf(p.tables, Hash2Doc), TableOf(q.tables, Hash2Doc), doc, [h])
      && (Truthy(p.group) ==> q.group == p.group && TableOf(q.tables, Doc2Sim) == TableOf(p.tables, Doc2Sim))
      && (!Truthy(p.group) ==> GroupRecorded(TableOf(p.tables, Doc2Sim), TableOf(q.tables, Doc2Sim), doc, q.group))
      && (TableOf(q.tables, Doc2Sim) != TableOf(p.tables, Doc2Sim) ==> Truthy(q.group))
  {
    assert Hash2Doc != Doc2Sim;
    var simId := Lookup(p.tables, Hash2Doc, h);
    if !Truthy(simId) {
      var t := PutIn(p.tables, Hash2Doc, h, doc);
      var before, after := TableOf(p.tables, Hash2Doc), TableOf(t, Hash2Doc);
      assert after == before[h := doc];
      assert h in [h];
      assert t - {Hash2Doc, Doc2Sim} == (t - {Hash2Doc}) - {Doc2Sim};
      assert p.tables - {Hash2Doc, Doc2Sim} == (p.tables - {Hash2Doc}) - {Doc2Sim};
    } else if !Truthy(p.group) {
      var g := Lookup(p.tables, Doc2Sim, simId.value);
      if !Truthy(g) && g != simId {
        var t := PutIn(p.tables, Doc2Sim, doc, simId.value);
        assert t - {Hash2Doc, Doc2Sim} == (t - {Doc2Sim}) - {Hash2Doc};
        assert p.tables - {Hash2Doc, Doc2Sim} == (p.tables - {Doc2Sim}) - {Hash2Doc};
      }
    }
  }

  lemma OwnersKeptTrans(a: map<string, string>, b: map<string, string>, c: map<string, string>, doc: string, h: string, hs: seq<string>)
    requires OwnersKept(a, b, doc, [h]) && OwnersKept(b, c, doc, hs)
    ensures OwnersKept(a, c, doc, [h] + hs)
  {
    forall k | k in c
      ensures (k in a && c[k] == a[k]) || (k in [h] + hs && c[k] == doc)
    {
      if k in hs {
        assert k in [h] + hs;
      }
    }
  }

  /** What a run of the loop over `hs` may change, from any intermediate state. */
  lemma {:induction false} ScanFrame(doc: string, p: Progress, hs: seq<string>)
    ensures var q := Scan(doc, p, hs);
      && q.tables - {Hash2Doc, Doc2Sim} == p.tables - {Hash2Doc, Doc2Sim}
      && OwnersKept(TableOf(p.tables, Hash2Doc), TableOf(q.tables, Hash2Doc), doc, hs)
      && (Truthy(p.group) ==> q.group == p.group && TableOf(q.tables, Doc2Sim) == TableOf(p.tables, Doc2Sim))
      && (!Truthy(p.group) ==> GroupRecorded(TableOf(p.tables, Doc2Sim), TableOf(q.tables, Doc2Sim), doc, q.group))
    decreases |hs|
  {
    if hs != [] {
      var p1 := Visit(doc, p, hs[0]);
      VisitFrame(doc, p, hs[0]);
      ScanFrame(doc, p1, hs[1..]);
      assert [hs[0]] + hs[1..] == hs;
      OwnersKeptTrans(TableOf(p.tables, Hash2Doc), TableOf(p1.tables, Hash2Doc),
        TableOf(Scan(doc, p, hs).tables, Hash2Doc), doc, hs[0], hs[1..]);
    }
  }

  /**
   * One call of `find_group` changes nothing but `hash2doc` and `doc2sim`;
   * in `hash2doc` it only adds the document as owner of its own bucket keys
   * and never replaces a truthy owner; in `doc2sim` it writes at most the one
   * entry `doc2sim[doc_id]`, and then with the group it returns.
   */
  lemma FindGroupFrame(doc: string, tables: Tables, hs: seq<string>)
    ensures var r := FindGroupOf(doc, tables, hs);
      && r.tables - {Hash2Doc, Doc2Sim} == tables - {Hash2Doc, Doc2Sim}
      && OwnersKept(TableOf(tables, Hash2Doc), TableOf(r.tables, Hash2Doc), doc, hs)
      && GroupRecorded(TableOf(tables, Doc2Sim), TableOf(r.tables, Doc2Sim), doc, Some(r.group))
  {
    ScanFrame(doc, Progress(tables, None), hs);
  }

  // ------------------------------------------------------------------ trace: how often doc2sim is touched

  /** The calls on the `doc2sim` relation, in order. */
  function Doc2SimOps(ops: seq<Op>): (r: seq<Op>)
    ensures forall o :: o in r ==> o in ops && o.name == Doc2Sim
  {
    if ops == [] then []
    else (if ops[0].name == Doc2Sim then [ops[0]] else []) + Doc2SimOps(ops[1..])
  }

  lemma {:induction false} Doc2SimOpsAppend(a: seq<Op>, b: seq<Op>)
    ensures Doc2SimOps(a + b) == Doc2SimOps(a) + Doc2SimOps(b)
    decreases |a|
  {
    if a == [] {
      assert a + b == b;
    } else {
      assert (a + b)[1..] == a[1..] + b;
      Doc2SimOpsAppend(a[1..], b);
    }
  }

  /** At most one read of `doc2sim`, and at most one write, at key `doc`, right after it. */
  predicate AtMostOneGroupDecision(ops: seq<Op>, doc: string)
  {
    && |ops| <= 2
    && (|ops| >= 1 ==> ops[0].GetOp? && ops[0].name == Doc2Sim)
    && (|ops| == 2 ==> ops[0].GetOp? && ops[1] == PutOp(Doc2Sim, doc, ops[0].key))
  }

  lemma VisitOpsOnDoc2Sim(doc: string, p: Progress, h: string)
    ensures var q := Visit(doc, p, h);
      var d := Doc2SimOps(VisitOps(doc, p, h));
      && (Truthy(p.group) ==> d == [])
      && (!Truthy(p.group) && !Truthy(q.group) ==> d == [])
      && (!Truthy(p.group) ==> AtMostOneGroupDecision(d, doc))
  {
    var simId := Lookup(p.tables, Hash2Doc, h);
    var ops := VisitOps(doc, p, h);
    assert Hash2Doc != Doc2Sim;
    if !Truthy(simId) {
      assert Doc2SimOps(ops) == Doc2SimOps(ops[1..]);
      assert Doc2SimOps(ops[1..]) == Doc2SimOps(ops[2..]);
    } else if Truthy(p.group) {
      assert Doc2SimOps(ops) == Doc2SimOps(ops[1..]);
    } else {
      assert Doc2SimOps(ops) == Doc2SimOps(ops[1..]);
      assert Doc2SimOps(ops[1..]) == [ops[1]] + Doc2SimOps(ops[2..]);
      if |ops| == 3 {
        assert Doc2SimOps(ops[2..]) == [ops[2]] + Doc2SimOps(ops[3..]);
      }
    }
  }

  lemma {:induction false} ScanOpsOnDoc2Sim(doc: string, p: Progress, hs: seq<string>)
    ensures var d := Doc2SimOps(ScanOps(doc, p, hs));
      && (Truthy(p.group) ==> d == [])
      && (!Truthy(p.group) ==> AtMostOneGroupDecision(d, doc))
    decreases |hs|
  {
    if hs != [] {
      var p1 := Visit(doc, p, hs[0]);
      VisitOpsOnDoc2Sim(doc, p, hs[0]);
      VisitFrame(doc, p, hs[0]);
      ScanOpsOnDoc2Sim(doc, p1, hs[1..]);
      Doc2SimOpsAppend(VisitOps(doc, p, hs[0]), ScanOps(doc, p1, hs[1..]));
    }
  }

  /** Per call, `doc2sim` is read at most once and written at most once, at key `doc_id`. */
  lemma FindGroupTouchesDoc2SimOnce(doc: string, tables: Tables, hs: seq<string>)
    ensures AtMostOneGroupDecision(Doc2SimOps(FindGroupOf(doc, tables, hs).ops), doc)
  {
    ScanOpsOnDoc2Sim(doc, Progress(tables, None), hs);
  }

  // ------------------------------------------------------------------ decisions

  predicate Distinct(hs: seq<string>)
  {
    forall i, j :: 0 <= i < j < |hs| ==> hs[i] != hs[j]
  }

  /** No key of `hs` has a truthy owner in `tables`. */
  predicate Unowned(tables: Tables, hs: seq<string>)
  {
    forall k :: k in hs ==> !Truthy(Lookup(tables, Hash2Doc, k))
  }

  lemma {:induction false} ScanUnowned(doc: string, p: Progress, hs: seq<string>)
    requires Distinct(hs) && Unowned(p.tables, hs)
    ensures var q := Scan(doc, p, hs);
      && q.group == p.group
      && TableOf(q.tables, Doc2Sim) == TableOf(p.tables, Doc2Sim)
      && forall k :: k in hs ==> Lookup(q.tables, Hash2Doc, k) == Some(doc)
    decreases |hs|
  {
    if hs != [] {
      var p1 := Visit(doc, p, hs[0]);
      var rest := hs[1..];
      assert hs[0] in hs;
      forall k | k in rest
        ensures !Truthy(Lookup(p1.tables, Hash2Doc, k))
      {
        var j :| 0 <= j < |rest| && rest[j] == k;
        assert hs[j + 1] == k;
        assert k in hs;
      }
      assert Distinct(rest) by {
        forall i, j | 0 <= i < j < |rest|
          ensures rest[i] != rest[j]
        {
          assert rest[i] == hs[i + 1] && rest[j] == hs[j + 1];
        }
      }
      ScanUnowned(doc, p1, rest);
      ScanFrame(doc, p1, rest);
      assert hs[0] !in rest by {
        forall j | 0 <= j < |rest|
          ensures rest[j] != hs[0]
        {
          assert rest[j] == hs[j + 1];
        }
      }
    }
  }

  /**
   * When the keys are distinct and none has a truthy owner, the document
   * becomes its own group: it owns every key, and `doc2sim` is untouched.
   */
  lemma NoOwnerMeansOwnGroup(doc: string, tables: Tables, hs: seq<string>)
    requires Distinct(hs) && Unowned(tables, hs)
    ensures var r := FindGroupOf(doc, tables, hs);
      && r.group == doc
      && TableOf(r.tables, Doc2Sim) == TableOf(tables, Doc2Sim)
      && forall k :: k in hs ==> Lookup(r.tables, Hash2Doc, k) == Some(doc)
  {
    ScanUnowned(doc, Progress(tables, None), hs);
  }

  /** Once the local group is set, later keys never change it, nor `doc2sim`. */
  lemma GroupIsFixed(doc: string, p: Progress, hs: seq<string>)
    requires Truthy(p.group)
    ensures Scan(doc, p, hs).group == p.group
    ensures TableOf(Scan(doc, p, hs).tables, Doc2Sim) == TableOf(p.tables, Doc2Sim)
  {
    ScanFrame(doc, p, hs);
  }

  lemma {:induction false} ScanSplit(doc: string, p: Progress, a: seq<string>, b: seq<string>)
    ensures Scan(doc, p, a + b) == Scan(doc, Scan(doc, p, a), b)
    decreases |a|
  {
    if a == [] {
      assert a + b == b;
    } else {
      assert (a + b)[1..] == a[1..] + b;
      ScanSplit(doc, Visit(doc, p, a[0]), a[1..], b);
    }
  }

  /**
   * The first key `h` with a truthy owner decides the group (first match
   * wins): the owner's recorded group when `doc2sim` has a truthy one, and no
   * write; otherwise the owner itself, recorded as `doc2sim[doc_id]`.
   */
  lemma FirstMatchDecides(doc: string, tables: Tables, pre: seq<string>, h: string, post: seq<string>)
    requires Distinct(pre) && Unowned(tables, pre) && h !in pre
    requires Truthy(Lookup(tables, Hash2Doc, h))
    ensures var owner := Lookup(tables, Hash2Doc, h).value;
      var recorded := Lookup(tables, Doc2Sim, owner);
      var r := FindGroupOf(doc, tables, pre + [h] + post);
      && (Truthy(recorded) ==> r.group == recorded.value && TableOf(r.tables, Doc2Sim) == TableOf(tables, Doc2Sim))
      && (!Truthy(recorded) ==> r.group == owner && TableOf(r.tables, Doc2Sim) == TableOf(tables, Doc2Sim)[doc := owner])
  {
    var start := Progress(tables, None);
    var p0 := Scan(doc, start, pre);
    ScanUnowned(doc, start, pre);
    ScanFrame(doc, start, pre);
    assert Lookup(p0.tables, Hash2Doc, h) == Lookup(tables, Hash2Doc, h);
    var p1 := Visit(doc, p0, h);
    assert Scan(doc, p0, [h]) == p1;
    assert Truthy(p1.group);
    GroupIsFixed(doc, p1, post);
    ScanSplit(doc, start, pre, [h]);
    ScanSplit(doc, start, pre + [h], post);
  }

  /** The values a call can return or store: the document itself, or a value already in the store. */
  ghost predicate WithinCandidates(p: Progress, c: set<string>)
  {
    && TableOf(p.tables, Hash2Doc).Values <= c
    && TableOf(p.tables, Doc2Sim).Values <= c
    && (p.group.Some? ==> p.group.value in c)
  }

  lemma ValuesAfterPut(m: map<string, string>, k: string, v: string, c: set<string>)
    requires m.Values <= c && v in c
    ensures m[k := v].Values <= c
  {
    forall x | x in m[k := v].Values
      ensures x in c
    {
      var k' :| k' in m[k := v] && m[k := v][k'] == x;
      if k' != k {
        assert m[k'] == x;
      }
    }
  }

  lemma {:induction false} ScanWithin(doc: string, p: Progress, hs: seq<string>, c: set<string>)
    requires WithinCandidates(p, c) && doc in c
    ensures WithinCandidates(Scan(doc, p, hs), c)
    decreases |hs|
  {
    if hs != [] {
      var h := hs[0];
      var simId := Lookup(p.tables, Hash2Doc, h);
      if !Truthy(simId) {
        ValuesAfterPut(TableOf(p.tables, Hash2Doc), h, doc, c);
      } else if !Truthy(p.group) {
        var g := Lookup(p.tables, Doc2Sim, simId.value);
        if !Truthy(g) && g != simId {
          ValuesAfterPut(TableOf(p.tables, Doc2Sim), doc, simId.value, c);
        }
      }
      ScanWithin(doc, Visit(doc, p, h), hs[1..], c);
    }
  }

  /**
   * The returned group is truthy whenever `doc_id` is, and it is `doc_id`, a
   * bucket owner, or a group already recorded in `doc2sim`.
   */
  lemma GroupIsACandidate(doc: string, tables: Tables, hs: seq<string>)
    ensures var r := FindGroupOf(doc, tables, hs);
      && (doc != "" ==> r.group != "")
      && r.group in {doc} + TableOf(tables, Hash2Doc).Values + TableOf(tables, Doc2Sim).Values
  {
    var c := {doc} + TableOf(tables, Hash2Doc).Values + TableOf(tables, Doc2Sim).Values;
    ScanWithin(doc, Progress(tables, None), hs, c);
  }

  // ------------------------------------------------------------------ scenarios

  /**
   * On an empty store, two documents with the same distinct, non-empty bucket
   * keys: the first is its own group, the second joins it and is recorded.
   */
  lemma SecondDocumentJoinsFirst(a: string, b: string, hs: seq<string>)
    requires a != "" && hs != [] && Distinct(hs)
    ensures var r1 := FindGroupOf(a, map[], hs);
      var r2 := FindGroupOf(b, r1.tables, hs);
      && r1.group == a
      && r2.group == a
      && Lookup(r2.tables, Doc2Sim, b) == Some(a)
  {
    var r1 := FindGroupOf(a, map[], hs);
    NoOwnerMeansOwnGroup(a, map[], hs);
    assert hs[0] in hs;
    assert Lookup(r1.tables, Doc2Sim, a) == None;
    FirstMatchDecides(b, r1.tables, [], hs[0], hs[1..]);
    assert [] + [hs[0]] + hs[1..] == hs;
  }

  /** The same, for two documents with identical tokens under any hasher. */
  lemma IdenticalDocumentsShareGroup(hasher: MinhashLSH, a: string, b: string, tokens: seq<string>)
    requires a != "" && Hash(hasher, tokens) != [] && Distinct(Hash(hasher, tokens))
    ensures var r1 := FindGroupOf(a, map[], Hash(hasher, tokens));
      var r2 := FindGroupOf(b, r1.tables, Hash(hasher, tokens));
      r1.group == a && r2.group == a
  {
    SecondDocumentJoinsFirst(a, b, Hash(hasher, tokens));
  }

  /** The first document of the chain owns `h1` and nothing else changes in `doc2sim`. */
  lemma ChainFirst()
    ensures var r := FindGroupOf("A", map[], ["h1"]);
      && r.group == "A"
      && Lookup(r.tables, Hash2Doc, "h1") == Some("A")
      && Lookup(r.tables, Hash2Doc, "h2") == None
      && Lookup(r.tables, Hash2Doc, "h3") == None
      && TableOf(r.tables, Doc2Sim) == map[]
  {
    NoOwnerMeansOwnGroup("A", map[], ["h1"]);
    FindGroupFrame("A", map[], ["h1"]);
  }

  /** B shares A's key `h1`: it joins A, is recorded, and owns `h2`. */
  lemma ChainSecond(t: Tables)
    requires Lookup(t, Hash2Doc, "h1") == Some("A") && Lookup(t, Hash2Doc, "h2") == None
    requires Lookup(t, Hash2Doc, "h3") == None && TableOf(t, Doc2Sim) == map[]
    ensures var r := FindGroupOf("B", t, ["h1", "h2"]);
      && r.group == "A"
      && Lookup(r.tables, Hash2Doc, "h2") == Some("B")
      && Lookup(r.tables, Hash2Doc, "h3") == None
      && TableOf(r.tables, Doc2Sim) == map["B" := "A"]
  {
    FirstMatchDecides("B", t, [], "h1", ["h2"]);
    assert [] + ["h1"] + ["h2"] == ["h1", "h2"];
    var r := FindGroupOf("B", t, ["h1", "h2"]);
    FindGroupFrame("B", t, ["h1", "h2"]);
    var p1 := Scan("B", Progress(t, None), ["h1"]);
    ScanSplit("B", Progress(t, None), ["h1"], ["h2"]);
    assert ["h1"] + ["h2"] == ["h1", "h2"];
    ScanFrame("B", Progress(t, None), ["h1"]);
    assert Lookup(p1.tables, Hash2Doc, "h2") == None;
    assert Scan("B", p1, ["h2"]) == Visit("B", p1, "h2");
  }

  /** C shares B's key `h2`: it adopts B's recorded group A, is not recorded, and owns `h3`. */
  lemma ChainThird(t: Tables)
    requires Lookup(t, Hash2Doc, "h2") == Some("B") && Lookup(t, Hash2Doc, "h3") == None
    requires TableOf(t, Doc2Sim) == map["B" := "A"]
    ensures var r := FindGroupOf("C", t, ["h2", "h3"]);
      && r.group == "A"
      && Lookup(r.tables, Hash2Doc, "h3") == Some("C")
      && Lookup(r.tables, Doc2Sim, "C") == None
  {
    FirstMatchDecides("C", t, [], "h2", ["h3"]);
    assert [] + ["h2"] + ["h3"] == ["h2", "h3"];
    var p1 := Scan("C", Progress(t, None), ["h2"]);
    ScanSplit("C", Progress(t, None), ["h2"], ["h3"]);
    assert ["h2"] + ["h3"] == ["h2", "h3"];
    ScanFrame("C", Progress(t, None), ["h2"]);
    assert Lookup(p1.tables, Hash2Doc, "h3") == None;
    assert Scan("C", p1, ["h3"]) == Visit("C", p1, "h3");
  }

  /** D shares C's key `h3`: with no record for C, D joins C. */
  lemma ChainFourth(t: Tables)
    requires Lookup(t, Hash2Doc, "h3") == Some("C") && Lookup(t, Doc2Sim, "C") == None
    ensures FindGroupOf("D", t, ["h3"]).group == "C"
  {
    FirstMatchDecides("D", t, [], "h3", []);
    assert [] + ["h3"] + [] == ["h3"];
  }

  /**
   * Groups do not propagate along a chain: A owns h1; B shares h1 and joins A;
   * C shares B's key h2 and adopts A without being recorded; D shares C's key
   * h3 and, finding no record for C, joins C rather than A.
   */
  lemma ChainDoesNotPropagate()
    ensures var ra := FindGroupOf("A", map[], ["h1"]);
      var rb := FindGroupOf("B", ra.tables, ["h1", "h2"]);
      var rc := FindGroupOf("C", rb.tables, ["h2", "h3"]);
      var rd := FindGroupOf("D", rc.tables, ["h3"]);
      && ra.group == "A" && rb.group == "A" && rc.group == "A"
      && Lookup(rc.tables, Doc2Sim, "C") == None
      && rd.group == "C"
  {
    var ra := FindGroupOf("A", map[], ["h1"]);
    ChainFirst();
    var rb := FindGroupOf("B", ra.tables, ["h1", "h2"]);
    ChainSecond(ra.tables);
    var rc := FindGroupOf("C", rb.tables, ["h2", "h3"]);
    ChainThird(rb.tables);
    ChainFourth(rc.tables);
  }

  /**
   * A bucket key that repeats within one call: the first occurrence makes the
   * document the owner, the second finds it, and the document is recorded as
   * its own group.
   */
  lemma RepeatedKeyRecordsSelf(doc: string, h: string)
    requires doc != ""
    ensures var r := FindGroupOf(doc, map[], [h, h]);
      r.group == doc && Lookup(r.tables, Doc2Sim, doc) == Some(doc)
  {
    assert Hash2Doc != Doc2Sim;
    var p1 := Visit(doc, Progress(map[], None), h);
    assert Lookup(p1.tables, Hash2Doc, h) == Some(doc);
    assert Lookup(p1.tables, Doc2Sim, doc) == None;
    var p2 := Visit(doc, p1, h);
    assert p2.group == Some(doc);
    assert Lookup(p2.tables, Doc2Sim, doc) == Some(doc);
    assert [h, h][1..] == [h];
    assert Scan(doc, p1, [h]) == p2;
  }

  // ------------------------------------------------------------------ the store and the engine

  /** An in-memory `KVStorage`: one string-to-string relation per name, plus the log of calls made on it. */
  class KVStorage {
    var tables: Tables
    ghost var log: seq<Op>

    constructor ()
      ensures tables == map[] && log == []
    {
      tables := map[];
      log := [];
    }

    method Put(name: string, key: string, value: string)
      modifies this
      ensures tables == PutIn(old(tables), name, key, value)
      ensures log == old(log) + [PutOp(name, key, value)]
    {
      tables := PutIn(tables, name, key, value);
      log := log + [PutOp(name, key, value)];
    }

    method Get(name: string, key: string) returns (value: Option<string>)
      modifies this
      ensures value == Lookup(tables, name, key)
      ensures tables == old(tables) && log == old(log) + [GetOp(name, key)]
    {
      value := Lookup(tables, name, key);
      log := log + [GetOp(name, key)];
    }

    /** `delete(key)`: drops the whole relation named `key`. */
    method Delete(key: string)
      modifies this
      ensures tables == old(tables) - {key}
      ensures log == old(log) + [DeleteOp(key)]
    {
      tables := tables - {key};
      log := log + [DeleteOp(key)];
    }
  }

  class StreamClustering {
    const hasher: MinhashLSH
    const kvStorage: KVStorage
    const hash2doc: string := Hash2Doc
    const doc2sim: string := Doc2Sim

    constructor (hasher: MinhashLSH, kvStorage: KVStorage)
      ensures this.hasher == hasher && this.kvStorage == kvStorage
    {
      this.hasher := hasher;
      this.kvStorage := kvStorage;
    }

    /** The body of `find_group`'s loop for the bucket key `hashStr`, with `group_id` held in `group`. */
    method VisitKey(docId: string, hashStr: string, group: Option<string>) returns (group': Option<string>)
      modifies kvStorage
      ensures var q := Visit(docId, Progress(old(kvStorage.tables), group), hashStr);
        && kvStorage.tables == q.tables
        && group' == q.group
        && kvStorage.log == old(kvStorage.log) + VisitOps(docId, Progress(old(kvStorage.tables), group), hashStr)
    {
      group' := group;
      var simId := kvStorage.Get(hash2doc, hashStr);
      if !Truthy(simId) {
        kvStorage.Put(hash2doc, hashStr, docId);
      } else {
        if !Truthy(group') {
          group' := kvStorage.Get(doc2sim, simId.value);
          if !Truthy(group') && group' != simId {
            group' := simId;
            kvStorage.Put(doc2sim, docId, group'.value);
          }
        }
      }
    }

    /**
     * `find_group`: the group of document `docId`, updating the store as it
     * goes; the store ends as `FindGroupOf` says and logs exactly its calls.
     */
    method FindGroup(docId: string, tokens: seq<string>) returns (groupId: string)
      modifies kvStorage
      ensures var r := FindGroupOf(docId, old(kvStorage.tables), Hash(hasher, tokens));
        && groupId == r.group
        && kvStorage.tables == r.tables
        && kvStorage.log == old(kvStorage.log) + r.ops
    {
      var group: Option<string> := None;
      var hashes := Hash(hasher, tokens);
      ghost var start := Progress(kvStorage.tables, None);
      ghost var log0 := kvStorage.log;
      for i := 0 to |hashes|
        invariant Progress(kvStorage.tables, group) == Scan(docId, start, hashes[..i])
        invariant kvStorage.log == log0 + ScanOps(docId, start, hashes[..i])
      {
        assert hashes[..i + 1] == hashes[..i] + [hashes[i]];
        ScanSnoc(docId, start, hashes[..i], hashes[i]);
        AppendAssoc(log0, ScanOps(docId, start, hashes[..i]), VisitOps(docId, Progress(kvStorage.tables, group), hashes[i]));
        group := VisitKey(docId, hashes[i], group);
      }
      assert hashes[..|hashes|] == hashes;
      if !Truthy(group) {
        groupId := docId;
      } else {
        groupId := group.value;
      }
    }
  }
}
