/**
 * The two SQLite tables of Core/db.py as finite maps, and the pure functions
 * that say what the registry's operations do to them:
 *   data:    key -> value                (key is UNIQUE)
 *   subdata: (parent_key, subkey) -> value  (the pair is UNIQUE)
 * Timestamps and row ids are not part of the model.
 */
module RegistryTables {
  import opened Wrappers
  import opened Values

  type Data = map<string, Value>
  type SubData = map<(string, string), Value>

  datatype Tables = Tables(data: Data, sub: SubData)

  /** The declared FOREIGN KEY: every sub-key row has its parent row. */
  ghost predicate Intact(t: Tables) {
    forall p :: p in t.sub ==> p.0 in t.data
  }

  /** `if subkey:` in Python: None and "" both select the whole key. */
  predicate SubkeyGiven(subkey: Option<string>) {
    subkey.Some? && subkey.value != ""
  }

  /** The sub-keys of `key` with their values, as get_all_subdata returns them. */
  function SubkeysOf(sub: SubData, key: string): (m: map<string, Value>)
    ensures forall s :: s in m <==> (key, s) in sub
    ensures forall s :: s in m ==> m[s] == sub[(key, s)]
  {
    map p | p in sub && p.0 == key :: p.1 := sub[p]
  }

  /** The keys that own at least one sub-key row. */
  function Parents(sub: SubData): (ps: set<string>)
    ensures forall p :: p in sub ==> p.0 in ps
    ensures forall k :: k in ps ==> SubkeysOf(sub, k) != map[]
  {
    var ps := set p | p in sub :: p.0;
    assert forall k :: k in ps ==> exists p :: p in sub && p.0 == k && p.1 in SubkeysOf(sub, k);
    ps
  }

  /** The sub-key rows that storing mapping `m` under `key` writes. */
  function SubRows(key: string, m: map<string, Value>): (rows: SubData)
    ensures forall p :: p in rows <==> p.0 == key && p.1 in m
    ensures forall s :: s in m ==> rows[(key, s)] == m[s]
  {
    map s | s in m :: (key, s) := m[s]
  }

  /** Writing one more entry of a mapping adds exactly that sub-key row. */
  lemma SubRowsStep(sub: SubData, key: string, written: map<string, Value>, s: string, v: Value)
    ensures sub + SubRows(key, written[s := v]) == (sub + SubRows(key, written))[(key, s) := v]
  {
    var lhs, rhs := sub + SubRows(key, written[s := v]), (sub + SubRows(key, written))[(key, s) := v];
    assert lhs.Keys == rhs.Keys;
  }

  /** The rows whose parent is not `key`: what ON DELETE CASCADE keeps. */
  function Cascade(sub: SubData, key: string): (rest: SubData)
    ensures forall p :: p in rest <==> p in sub && p.0 != key
    ensures forall p :: p in rest ==> rest[p] == sub[p]
  {
    map p | p in sub && p.0 != key :: sub[p]
  }

  // ---------------------------------------------------------------------------
  // remove
  // ---------------------------------------------------------------------------

  /**
   * remove(key, subkey) with the declared cascade: a truthy sub-key deletes that
   * one row; otherwise the key's row is deleted and, because a parent row went,
   * its sub-key rows with it.
   */
  function RemoveCascade(t: Tables, key: string, subkey: Option<string>): Tables {
    if SubkeyGiven(subkey) then Tables(t.data, t.sub - {(key, subkey.value)})
    else if key in t.data then Tables(t.data - {key}, Cascade(t.sub, key))
    else t
  }

  /** remove keeps the registry intact and leaves nothing of what it removed. */
  lemma RemoveCascadeKeepsIntact(t: Tables, key: string, subkey: Option<string>)
    requires Intact(t)
    ensures var r := RemoveCascade(t, key, subkey);
      && Intact(r)
      && (SubkeyGiven(subkey) ==>
            r.data == t.data && (key, subkey.value) !in r.sub
            && forall p :: p in t.sub && p != (key, subkey.value) ==> p in r.sub && r.sub[p] == t.sub[p])
      && (!SubkeyGiven(subkey) ==>
            key !in r.data && SubkeysOf(r.sub, key) == map[]
            && (forall k :: k in t.data && k != key ==> k in r.data && r.data[k] == t.data[k])
            && forall p :: p in t.sub && p.0 != key ==> p in r.sub && r.sub[p] == t.sub[p])
  {
    var r := RemoveCascade(t, key, subkey);
    if !SubkeyGiven(subkey) && key !in t.data {
      assert forall s :: (key, s) !in t.sub;
    }
  }

  /**
   * remove as written. The FOREIGN KEY clause (Core/db.py:45) only acts on
   * connections that ran `PRAGMA foreign_keys = ON`, and only the connection of
   * _initialize_database does (Core/db.py:51); remove opens a fresh one, so the
   * DELETE at Core/db.py:415 removes the key's row and nothing else.
   */
  function RemoveAsWritten(t: Tables, key: string, subkey: Option<string>): Tables {
    if SubkeyGiven(subkey) then Tables(t.data, t.sub - {(key, subkey.value)})
    else Tables(t.data - {key}, t.sub)
  }

  /** subadd("a", "x", 1) then remove("a"), as written: the sub-key survives its parent. */
  lemma RemoveAsWrittenLeavesOrphan()
    ensures var t := Tables(map["a" := Dict(map[])], map[("a", "x") := Int(1)]);
      var r := RemoveAsWritten(t, "a", None);
      && Intact(t) && !Intact(r)
      && "a" !in r.data
      && SubkeysOf(r.sub, "a") == map["x" := Int(1)]
      && SubkeysOf(RemoveCascade(t, "a", None).sub, "a") == map[]
  {
    var t := Tables(map["a" := Dict(map[])], map[("a", "x") := Int(1)]);
    var r := RemoveAsWritten(t, "a", None);
    assert ("a", "x") in r.sub;
    assert SubkeysOf(r.sub, "a") == map["x" := Int(1)];
  }

  // ---------------------------------------------------------------------------
  // update
  // ---------------------------------------------------------------------------

  /** The items of a Python dict: no key occurs twice. */
  predicate DistinctKeys(items: seq<(string, Value)>) {
    forall i, j :: 0 <= i < j < |items| ==> items[i].0 != items[j].0
  }

  /**
   * One item of update(): a mapping is a batch of sub-key upserts for `key`,
   * creating `key` as {} before the first of them when it is missing (so an
   * empty mapping writes nothing); any other value is a top-level upsert.
   */
  function ApplyItem(t: Tables, key: string, value: Value): Tables {
    if value.Dict? then
      Tables(if value.entries != map[] && key !in t.data then t.data[key := Dict(map[])] else t.data,
             t.sub + SubRows(key, value.entries))
    else
      Tables(t.data[key := value], t.sub)
  }

  /** update(items) when every write of the call lands: the items in order. */
  function ApplyUpdate(t: Tables, items: seq<(string, Value)>): Tables
    decreases |items|
  {
    if items == [] then t
    else
      var n := |items| - 1;
      ApplyItem(ApplyUpdate(t, items[..n]), items[n].0, items[n].1)
  }

  lemma DistinctPrefix(items: seq<(string, Value)>, n: nat)
    requires DistinctKeys(items) && n <= |items|
    ensures DistinctKeys(items[..n])
  {
  }

  /** What one item does at its own key. */
  lemma ItemAtKey(t: Tables, key: string, value: Value)
    ensures var r := ApplyItem(t, key, value);
      && (!value.Dict? ==> key in r.data && r.data[key] == value)
      && (value.Dict? ==>
            && (key in t.data ==> key in r.data && r.data[key] == t.data[key])
            && (value.entries != map[] ==> key in r.data)
            && (value.entries != map[] && key !in t.data ==> r.data[key] == Dict(map[]))
            && (value.entries == map[] && key !in t.data ==> key !in r.data)
            && forall s :: s in value.entries ==> (key, s) in r.sub && r.sub[(key, s)] == value.entries[s])
  {
  }

  /** The last item of a batch in an unrolled form. */
  lemma UpdateLast(t: Tables, items: seq<(string, Value)>, n: nat)
    requires n == |items| - 1
    ensures ApplyUpdate(t, items) == ApplyItem(ApplyUpdate(t, items[..n]), items[n].0, items[n].1)
  {
  }

  /** In a batch with distinct keys, no item before the last names the last item's key. */
  lemma LastKeyFresh(items: seq<(string, Value)>)
    requires DistinctKeys(items) && items != []
    ensures forall j :: 0 <= j < |items| - 1 ==> items[j].0 != items[|items| - 1].0
  {
  }

  /** A non-mapping item is stored as the key's value. */
  lemma {:induction false} UpdateStoresScalar(t: Tables, items: seq<(string, Value)>, i: nat)
    requires DistinctKeys(items) && i < |items| && !items[i].1.Dict?
    ensures var r := ApplyUpdate(t, items);
      items[i].0 in r.data && r.data[items[i].0] == items[i].1
  {
    var n := |items| - 1;
    var mid := ApplyUpdate(t, items[..n]);
    UpdateLast(t, items, n);
    if i < n {
      DistinctPrefix(items, n);
      UpdateStoresScalar(t, items[..n], i);
      assert items[..n][i] == items[i];
      ItemLeavesOtherKey(mid, items[n].0, items[n].1, items[i].0);
    } else {
      ItemAtKey(mid, items[n].0, items[n].1);
    }
  }

  /**
   * A mapping item stores each of its entries as a sub-key of its key, and the
   * key exists afterwards.
   */
  lemma {:induction false} UpdateStoresSubkeys(t: Tables, items: seq<(string, Value)>, i: nat, s: string)
    requires DistinctKeys(items) && i < |items| && items[i].1.Dict? && s in items[i].1.entries
    ensures var r := ApplyUpdate(t, items); var k := items[i].0;
      && k in r.data
      && (k, s) in r.sub && r.sub[(k, s)] == items[i].1.entries[s]
  {
    var n := |items| - 1;
    var mid := ApplyUpdate(t, items[..n]);
    UpdateLast(t, items, n);
    if i < n {
      DistinctPrefix(items, n);
      UpdateStoresSubkeys(t, items[..n], i, s);
      assert items[..n][i] == items[i];
      var k := items[i].0;
      ItemLeavesOtherKey(mid, items[n].0, items[n].1, k);
      assert s in SubkeysOf(mid.sub, k);
    } else {
      ItemAtKey(mid, items[n].0, items[n].1);
    }
  }

  /** A mapping item never overwrites the top-level value its key already has. */
  lemma {:induction false} UpdateKeepsParentValue(t: Tables, items: seq<(string, Value)>, i: nat)
    requires DistinctKeys(items) && i < |items| && items[i].1.Dict? && items[i].0 in t.data
    ensures var r := ApplyUpdate(t, items);
      items[i].0 in r.data && r.data[items[i].0] == t.data[items[i].0]
  {
    var n := |items| - 1;
    var mid := ApplyUpdate(t, items[..n]);
    UpdateLast(t, items, n);
    DistinctPrefix(items, n);
    if i < n {
      UpdateKeepsParentValue(t, items[..n], i);
      assert items[..n][i] == items[i];
      ItemLeavesOtherKey(mid, items[n].0, items[n].1, items[i].0);
    } else {
      LastKeyFresh(items);
      UpdateLeavesOtherKeys(t, items[..n], items[i].0);
      ItemAtKey(mid, items[n].0, items[n].1);
    }
  }

  /** A non-empty mapping for a missing key creates the key with the value {}. */
  lemma {:induction false} UpdateCreatesEmptyParent(t: Tables, items: seq<(string, Value)>, i: nat)
    requires DistinctKeys(items) && i < |items| && items[i].1.Dict? && items[i].1.entries != map[]
    requires items[i].0 !in t.data
    ensures var r := ApplyUpdate(t, items);
      items[i].0 in r.data && r.data[items[i].0] == Dict(map[])
  {
    var n := |items| - 1;
    var mid := ApplyUpdate(t, items[..n]);
    UpdateLast(t, items, n);
    DistinctPrefix(items, n);
    if i < n {
      UpdateCreatesEmptyParent(t, items[..n], i);
      assert items[..n][i] == items[i];
      ItemLeavesOtherKey(mid, items[n].0, items[n].1, items[i].0);
    } else {
      LastKeyFresh(items);
      UpdateLeavesOtherKeys(t, items[..n], items[i].0);
      ItemAtKey(mid, items[n].0, items[n].1);
    }
  }

  /** An empty mapping for a missing key writes nothing: the key is not created. */
  lemma {:induction false} UpdateEmptyMappingCreatesNothing(t: Tables, items: seq<(string, Value)>, i: nat)
    requires DistinctKeys(items) && i < |items| && items[i].1 == Dict(map[]) && items[i].0 !in t.data
    ensures var r := ApplyUpdate(t, items);
      items[i].0 !in r.data && SubkeysOf(r.sub, items[i].0) == SubkeysOf(t.sub, items[i].0)
  {
    var n := |items| - 1;
    var k := items[i].0;
    DistinctPrefix(items, n);
    var mid := ApplyUpdate(t, items[..n]);
    var r := ApplyItem(mid, items[n].0, items[n].1);
    UpdateLast(t, items, n);
    var before, middle, after := SubkeysOf(t.sub, k), SubkeysOf(mid.sub, k), SubkeysOf(r.sub, k);
    if i < n {
      UpdateEmptyMappingCreatesNothing(t, items[..n], i);
      assert items[..n][i] == items[i];
      ItemLeavesOtherKey(mid, items[n].0, items[n].1, k);
    } else {
      LastKeyFresh(items);
      UpdateLeavesOtherKeys(t, items[..n], k);
      EmptyMappingWritesNothing(mid, k);
    }
    assert after == before;
  }

  lemma EmptyMappingWritesNothing(t: Tables, k: string)
    ensures ApplyItem(t, k, Dict(map[])) == Tables(t.data, t.sub + SubRows(k, map[]))
    ensures SubkeysOf(t.sub + SubRows(k, map[]), k) == SubkeysOf(t.sub, k)
  {
    var sub' := t.sub + SubRows(k, map[]);
    forall s ensures (k, s) in sub' <==> (k, s) in t.sub {
    }
  }

  /** A key the batch does not name keeps its value and its sub-keys. */
  lemma {:induction false} UpdateLeavesOtherKeys(t: Tables, items: seq<(string, Value)>, k: string)
    requires forall i :: 0 <= i < |items| ==> items[i].0 != k
    ensures var r := ApplyUpdate(t, items);
      && (k in r.data <==> k in t.data)
      && (k in t.data ==> r.data[k] == t.data[k])
      && SubkeysOf(r.sub, k) == SubkeysOf(t.sub, k)
  {
    if items != [] {
      var n := |items| - 1;
      UpdateLeavesOtherKeys(t, items[..n], k);
      var mid := ApplyUpdate(t, items[..n]);
      ItemLeavesOtherKey(mid, items[n].0, items[n].1, k);
    }
  }

  lemma ItemLeavesOtherKey(t: Tables, key: string, value: Value, k: string)
    requires key != k
    ensures var r := ApplyItem(t, key, value);
      && (k in r.data <==> k in t.data)
      && (k in t.data ==> r.data[k] == t.data[k])
      && SubkeysOf(r.sub, k) == SubkeysOf(t.sub, k)
  {
    var r := ApplyItem(t, key, value);
    var before, after := SubkeysOf(t.sub, k), SubkeysOf(r.sub, k);
    forall s ensures s in after <==> s in before {
      assert value.Dict? ==> (k, s) !in SubRows(key, value.entries);
    }
    forall s | s in after ensures after[s] == before[s] {
      assert value.Dict? ==> (k, s) !in SubRows(key, value.entries);
    }
    assert after == before;
  }

  /** update only adds or overwrites: no row disappears. */
  lemma {:induction false} UpdateKeepsRows(t: Tables, items: seq<(string, Value)>)
    ensures var r := ApplyUpdate(t, items);
      t.data.Keys <= r.data.Keys && t.sub.Keys <= r.sub.Keys
  {
    if items != [] {
      UpdateKeepsRows(t, items[..|items| - 1]);
    }
  }

  /** update keeps the registry intact: it creates the parent of every sub-key it writes. */
  lemma {:induction false} UpdateKeepsIntact(t: Tables, items: seq<(string, Value)>)
    requires Intact(t)
    ensures Intact(ApplyUpdate(t, items))
  {
    if items != [] {
      UpdateKeepsIntact(t, items[..|items| - 1]);
    }
  }

  /**
   * update as written. `self.add(key, {})` (Core/db.py:330) calls connect(),
   * which replaces the connection that holds this call's uncommitted writes; a
   * connection that goes away with an open transaction rolls it back. So at
   * every such point the writes made so far are dropped and the call goes on
   * from the committed tables plus the newly added key. `committed` is what
   * other connections see, `view` what the call's own connection sees.
   */
  function UpdateReplay(committed: Tables, view: Tables, items: seq<(string, Value)>): Tables
    decreases |items|
  {
    if items == [] then view
    else
      var key, value := items[0].0, items[0].1;
      if value.Dict? && value.entries != map[] && key !in view.data then
        var committed' := Tables(committed.data[key := Dict(map[])], committed.sub);
        UpdateReplay(committed', ApplyItem(committed', key, value), items[1..])
      else
        UpdateReplay(committed, ApplyItem(view, key, value), items[1..])
  }

  function UpdateAsWritten(t: Tables, items: seq<(string, Value)>): Tables {
    UpdateReplay(t, t, items)
  }

  /**
   * update({"a": 1, "b": {"x": 2}}) on an empty registry, as written: creating
   * "b" discards the pending write of "a".
   */
  lemma UpdateAsWrittenLosesEarlierWrite()
    ensures var t := Tables(map[], map[]);
      var items := [("a", Int(1)), ("b", Dict(map["x" := Int(2)]))];
      && "a" !in UpdateAsWritten(t, items).data
      && "a" in ApplyUpdate(t, items).data && ApplyUpdate(t, items).data["a"] == Int(1)
  {
    var t := Tables(map[], map[]);
    var items := [("a", Int(1)), ("b", Dict(map["x" := Int(2)]))];
    ReplayOfExample();
    UpdateStoresScalar(t, items, 0);
  }

  lemma ReplayOfExample()
    ensures UpdateAsWritten(Tables(map[], map[]), [("a", Int(1)), ("b", Dict(map["x" := Int(2)]))]).data
      == map["b" := Dict(map[])]
  {
    var t := Tables(map[], map[]);
    var b := Dict(map["x" := Int(2)]);
    var items := [("a", Int(1)), ("b", b)];
    var v1 := ApplyItem(t, "a", Int(1));
    assert v1.data == map["a" := Int(1)];
    var rest := items[1..];
    assert rest == [("b", b)] && rest[1..] == [];
    assert UpdateReplay(t, t, items) == UpdateReplay(t, v1, rest);
    assert b.entries != map[] by {
      assert "x" in b.entries;
    }
    var c2 := Tables(map["b" := Dict(map[])], map[]);
    assert UpdateReplay(t, v1, rest) == UpdateReplay(c2, ApplyItem(c2, "b", b), []);
    assert ApplyItem(c2, "b", b).data == c2.data;
  }

  /** The entries of a mapping that the inner loop of update has written so far. */
  function WrittenSoFar(entries: map<string, Value>, pending: set<string>): (w: map<string, Value>)
    ensures forall s :: s in w <==> s in entries && s !in pending
    ensures forall s :: s in w ==> w[s] == entries[s]
  {
    map s | s in entries && s !in pending :: entries[s]
  }

  /**
   * The tables while the inner loop of update is writing mapping `entries`
   * under `key`, with the sub-keys in `pending` still to go.
   */
  function PartialItem(t: Tables, key: string, entries: map<string, Value>, pending: set<string>): Tables {
    var w := WrittenSoFar(entries, pending);
    Tables(if w != map[] && key !in t.data then t.data[key := Dict(map[])] else t.data,
           t.sub + SubRows(key, w))
  }

  lemma PartialItemStart(t: Tables, key: string, entries: map<string, Value>)
    ensures PartialItem(t, key, entries, entries.Keys) == t
  {
    assert WrittenSoFar(entries, entries.Keys) == map[];
    assert t.sub + SubRows(key, map[]) == t.sub;
  }

  /** One sub-key of the inner loop: create the parent if missing, then upsert the row. */
  lemma PartialItemStep(t: Tables, key: string, entries: map<string, Value>, pending: set<string>, s: string)
    requires s in pending && pending <= entries.Keys
    ensures var c := PartialItem(t, key, entries, pending);
      PartialItem(t, key, entries, pending - {s})
        == Tables(if key !in c.data then c.data[key := Dict(map[])] else c.data,
                  c.sub[(key, s) := entries[s]])
  {
    var w := WrittenSoFar(entries, pending);
    assert WrittenSoFar(entries, pending - {s}) == w[s := entries[s]];
    SubRowsStep(t.sub, key, w, s, entries[s]);
  }

  lemma PartialItemEnd(t: Tables, key: string, entries: map<string, Value>)
    ensures PartialItem(t, key, entries, {}) == ApplyItem(t, key, Dict(entries))
  {
    assert WrittenSoFar(entries, {}) == entries;
  }

  // ---------------------------------------------------------------------------
  // fetchall
  // ---------------------------------------------------------------------------

  /** Some sub-key hangs under a top-level value that is not a mapping. */
  predicate HasScalarParent(t: Tables) {
    exists p :: p in t.sub && p.0 in t.data && !t.data[p.0].Dict?
  }

  /** What fetchall shows for key `k` when no spread fails. */
  function MergedValue(t: Tables, k: string): Value {
    var subs := SubkeysOf(t.sub, k);
    if k !in t.data then Dict(subs)
    else if subs == map[] then t.data[k]
    else Dict(EntriesOf(t.data[k]) + subs)
  }

  function Merge(t: Tables): map<string, Value> {
    map k | k in t.data.Keys + Parents(t.sub) :: MergedValue(t, k)
  }

  /** The TypeError of `{**value}` on a value that is not a mapping. */
  datatype FetchError = SpreadOfNonMapping

  /** fetchall: every key with its sub-keys merged in, or the spread's TypeError. */
  function MergeView(t: Tables): Result<map<string, Value>, FetchError> {
    if HasScalarParent(t) then Failure(SpreadOfNonMapping) else Success(Merge(t))
  }

  /** What fetchall returns, key by key. */
  lemma FetchallContents(t: Tables, k: string)
    requires MergeView(t).Success?
    ensures var r := MergeView(t).value;
      && r.Keys == t.data.Keys + Parents(t.sub)
      && (k in t.data && SubkeysOf(t.sub, k) == map[] ==> r[k] == t.data[k])
      && (k in t.data && SubkeysOf(t.sub, k) != map[] ==>
            t.data[k].Dict? && r[k] == Dict(t.data[k].entries + SubkeysOf(t.sub, k)))
      && (k !in t.data && k in Parents(t.sub) ==> r[k] == Dict(SubkeysOf(t.sub, k)))
  {
    if k in t.data && SubkeysOf(t.sub, k) != map[] {
      var s :| s in SubkeysOf(t.sub, k);
      assert (k, s) in t.sub;
    }
  }

  /** With no sub-key rows, the merged view is the top-level table itself. */
  lemma MergeWithoutRows(data: Data)
    ensures Merge(Tables(data, map[])) == data
  {
    var m := Merge(Tables(data, map[]));
    assert Parents(map[]) == {};
    forall k | k in data ensures SubkeysOf(map[], k) == map[] {
    }
    assert m.Keys == data.Keys;
  }

  /**
   * The merged view shows a non-mapping value for k exactly when k's own row
   * holds one and no sub-key row hangs under k.
   */
  lemma MergeScalarIff(data: Data, sub: SubData, k: string)
    ensures var m := Merge(Tables(data, sub));
      (k in m && !m[k].Dict?) <==> (k in data && !data[k].Dict? && SubkeysOf(sub, k) == map[])
    ensures var m := Merge(Tables(data, sub));
      k in m && !m[k].Dict? ==> m[k] == data[k]
  {
  }

  /** Every sub-key row shows up, with its value, inside its parent's mapping. */
  lemma FetchallShowsSubkey(t: Tables, p: (string, string))
    requires MergeView(t).Success? && p in t.sub
    ensures var r := MergeView(t).value;
      p.0 in r && r[p.0].Dict? && p.1 in r[p.0].entries && r[p.0].entries[p.1] == t.sub[p]
  {
    assert p.1 in SubkeysOf(t.sub, p.0);
  }

  /** fetchall raises exactly when a key with sub-keys holds a non-mapping value. */
  lemma FetchallFailsOnScalarParent(t: Tables, k: string, s: string)
    requires k in t.data && !t.data[k].Dict? && (k, s) in t.sub
    ensures MergeView(t) == Failure(SpreadOfNonMapping)
  {
    assert HasScalarParent(t) by {
      var p := (k, s);
      assert p in t.sub && p.0 in t.data && !t.data[p.0].Dict?;
    }
  }

  /** In an intact registry fetchall lists exactly the top-level keys. */
  lemma FetchallOfIntactRegistry(t: Tables)
    requires Intact(t) && MergeView(t).Success?
    ensures MergeView(t).value.Keys == t.data.Keys
  {
    forall k | k in Parents(t.sub) ensures k in t.data {
      var s :| s in SubkeysOf(t.sub, k);
      assert (k, s) in t.sub;
    }
  }

  /** The rows of `sub` whose key is in `done`: the rows a loop has visited. */
  function Restrict(sub: SubData, done: set<(string, string)>): (r: SubData)
    ensures forall p :: p in r <==> p in sub && p in done
    ensures forall p :: p in r ==> r[p] == sub[p]
  {
    map p | p in sub && p in done :: sub[p]
  }

  /** What fetchall has built once it has visited the rows in `done`. */
  function View(data: Data, sub: SubData, done: set<(string, string)>): map<string, Value> {
    Merge(Tables(data, Restrict(sub, done)))
  }

  lemma RestrictStep(sub: SubData, done: set<(string, string)>, p: (string, string))
    requires p in sub && p !in done
    ensures Restrict(sub, done + {p}) == Restrict(sub, done)[p := sub[p]]
    ensures p !in Restrict(sub, done)
  {
  }

  lemma SubkeysStep(sub: SubData, p: (string, string), w: Value, j: string)
    requires p !in sub
    ensures j == p.0 ==> SubkeysOf(sub[p := w], j) == SubkeysOf(sub, j)[p.1 := w]
    ensures j != p.0 ==> SubkeysOf(sub[p := w], j) == SubkeysOf(sub, j)
  {
    var before, after := SubkeysOf(sub, j), SubkeysOf(sub[p := w], j);
    var expected := if j == p.0 then before[p.1 := w] else before;
    forall s ensures s in after <==> s in expected {
    }
    forall s | s in after ensures after[s] == expected[s] {
    }
    assert after == expected;
  }

  lemma UnionUpdate(e: map<string, Value>, s: map<string, Value>, a: string, w: Value)
    ensures e + s[a := w] == (e + s)[a := w]
    ensures s == map[] ==> e + s[a := w] == e[a := w]
  {
  }

  lemma ParentsStep(sub: SubData, p: (string, string), w: Value)
    ensures Parents(sub[p := w]) == Parents(sub) + {p.0}
  {
  }

  /**
   * One row of fetchall's loop: merging row p into the view of the rows before
   * it is what Core/db.py:376-383 does to `main_data`.
   */
  lemma MergeStep(data: Data, sub: SubData, p: (string, string), w: Value)
    requires p !in sub
    requires !(p.0 in data && !data[p.0].Dict?)
    ensures var before := Merge(Tables(data, sub));
      var after := Merge(Tables(data, sub[p := w]));
      && (p.0 in before ==> before[p.0].Dict? || (p.0 in data && before[p.0] == data[p.0]))
      && (p.0 in before && before[p.0].Dict? ==>
            after == before[p.0 := Dict(before[p.0].entries[p.1 := w])])
      && (p.0 !in before ==> after == before[p.0 := Dict(map[p.1 := w])])
  {
    var before, after := Merge(Tables(data, sub)), Merge(Tables(data, sub[p := w]));
    var k := p.0;
    var x := if k in before && before[k].Dict? then Dict(before[k].entries[p.1 := w])
             else Dict(map[p.1 := w]);
    MergeOthers(data, sub, p, w);
    MergeAtParent(data, sub, p, w);
    UpdateExtensional(before, after, k, x);
  }

  /** A map that differs from `before` only at k, where it holds x, is before[k := x]. */
  lemma UpdateExtensional(before: map<string, Value>, after: map<string, Value>, k: string, x: Value)
    requires after.Keys == before.Keys + {k}
    requires forall j :: j in after && j != k ==> after[j] == before[j]
    requires k in after && after[k] == x
    ensures after == before[k := x]
  {
  }

  /** No row in `done` hangs under a key whose own value is not a mapping. */
  predicate ScalarFree(data: Data, done: set<(string, string)>) {
    forall q :: q in done ==> !(q.0 in data && !data[q.0].Dict?)
  }

  /**
   * One pass of fetchall's loop, with the rows in `rows` still to visit and
   * row p visited next: what the source finds at p's parent and what the
   * view becomes.
   */
  lemma FetchStep(data: Data, sub: SubData, rows: set<(string, string)>, p: (string, string))
    requires p in rows && rows <= sub.Keys
    requires ScalarFree(data, sub.Keys - rows)
    ensures var m := View(data, sub, sub.Keys - rows);
      var m' := View(data, sub, sub.Keys - (rows - {p}));
      && (p.0 in m && !m[p.0].Dict? ==> MergeView(Tables(data, sub)) == Failure(SpreadOfNonMapping))
      && (!(p.0 in m && !m[p.0].Dict?) ==> ScalarFree(data, sub.Keys - (rows - {p})))
      && (p.0 in m && m[p.0].Dict? ==> m' == m[p.0 := Dict(m[p.0].entries[p.1 := sub[p]])])
      && (p.0 !in m ==> m' == m[p.0 := Dict(map[p.1 := sub[p]])])
  {
    var done := sub.Keys - rows;
    assert sub.Keys - (rows - {p}) == done + {p};
    var seen := Restrict(sub, done);
    RestrictStep(sub, done, p);
    MergeScalarIff(data, seen, p.0);
    if p.0 in data && !data[p.0].Dict? {
      NoVisitedRowsUnder(data, sub, done, p.0);
      FetchallFailsOnScalarParent(Tables(data, sub), p.0, p.1);
    } else {
      MergeStep(data, seen, p, sub[p]);
    }
  }

  /** No visited row hangs under a key whose value is not a mapping. */
  lemma NoVisitedRowsUnder(data: Data, sub: SubData, done: set<(string, string)>, k: string)
    requires ScalarFree(data, done) && k in data && !data[k].Dict?
    ensures SubkeysOf(Restrict(sub, done), k) == map[]
  {
    forall s ensures (k, s) !in Restrict(sub, done) {
    }
  }

  /** Before fetchall's loop: no row visited, the view is the top-level table. */
  lemma FetchStart(data: Data, sub: SubData)
    ensures View(data, sub, sub.Keys - sub.Keys) == data
    ensures ScalarFree(data, sub.Keys - sub.Keys)
  {
    assert sub.Keys - sub.Keys == {};
    assert Restrict(sub, {}) == map[];
    MergeWithoutRows(data);
  }

  /** After fetchall's loop: every row visited, none under a non-mapping. */
  lemma FetchEnd(data: Data, sub: SubData)
    requires ScalarFree(data, sub.Keys - {})
    ensures MergeView(Tables(data, sub)) == Success(View(data, sub, sub.Keys - {}))
  {
    assert sub.Keys - {} == sub.Keys;
    assert Restrict(sub, sub.Keys) == sub;
  }

  /** Adding row p leaves every other key of the merged view as it was. */
  lemma MergeOthers(data: Data, sub: SubData, p: (string, string), w: Value)
    requires p !in sub
    ensures var before := Merge(Tables(data, sub));
      var after := Merge(Tables(data, sub[p := w]));
      && after.Keys == before.Keys + {p.0}
      && forall j :: j in after && j != p.0 ==> after[j] == before[j]
  {
    var before, after := Merge(Tables(data, sub)), Merge(Tables(data, sub[p := w]));
    MergeKeys(data, sub, p, w);
    forall j | j in after && j != p.0
      ensures after[j] == before[j]
    {
      MergeOtherKey(data, sub, p, w, j);
    }
  }

  lemma MergeKeys(data: Data, sub: SubData, p: (string, string), w: Value)
    ensures Merge(Tables(data, sub[p := w])).Keys == Merge(Tables(data, sub)).Keys + {p.0}
  {
    ParentsStep(sub, p, w);
  }

  lemma MergeOtherKey(data: Data, sub: SubData, p: (string, string), w: Value, j: string)
    requires p !in sub && j != p.0 && j in Merge(Tables(data, sub[p := w]))
    ensures j in Merge(Tables(data, sub))
    ensures Merge(Tables(data, sub[p := w]))[j] == Merge(Tables(data, sub))[j]
  {
    SubkeysStep(sub, p, w, j);
    ParentsStep(sub, p, w);
  }

  /** Adding row p writes its value into the mapping shown for its parent. */
  lemma MergeAtParent(data: Data, sub: SubData, p: (string, string), w: Value)
    requires p !in sub
    requires !(p.0 in data && !data[p.0].Dict?)
    ensures var before := Merge(Tables(data, sub));
      var after := Merge(Tables(data, sub[p := w]));
      && p.0 in after
      && (p.0 in before ==> before[p.0].Dict? || (p.0 in data && before[p.0] == data[p.0]))
      && (p.0 in before && before[p.0].Dict? ==> after[p.0] == Dict(before[p.0].entries[p.1 := w]))
      && (p.0 !in before ==> after[p.0] == Dict(map[p.1 := w]))
  {
    var k := p.0;
    var before, after := Merge(Tables(data, sub)), Merge(Tables(data, sub[p := w]));
    ParentsStep(sub, p, w);
    SubkeysStep(sub, p, w, k);
    var s0, s1 := SubkeysOf(sub, k), SubkeysOf(sub[p := w], k);
    assert s1 == s0[p.1 := w];
    if k !in data {
      if k in before {
        assert s0 != map[];
        assert before[k] == Dict(s0) && after[k] == Dict(s1);
      } else {
        assert s0 == map[];
        assert s1 == map[p.1 := w];
      }
    } else {
      var e := EntriesOf(data[k]);
      assert after[k] == Dict(e + s1);
      UnionUpdate(e, s0, p.1, w);
      if s0 == map[] {
        assert before[k] == data[k] && data[k].Dict? && before[k].entries == e;
      } else {
        assert before[k] == Dict(e + s0);
      }
    }
  }
}
