/**
 * The registry object of Core/db.py. Each public method of the source opens a
 * connection, runs its statements and commits; here the two tables are the
 * object's fields and each method changes them as its statements do.
 */
module Registry {
  import opened Wrappers
  import opened Values
  import opened RegistryTables

  class DB {
    /** Table `data`: key -> value. */
    var data: map<string, Value>
    /** Table `subdata`: (parent_key, subkey) -> value. */
    var subdata: map<(string, string), Value>

    /** The declared foreign key holds: no sub-key row without its parent row. */
    ghost predicate Valid()
      reads this
    {
      Intact(Tables(data, subdata))
    }

    function Snapshot(): Tables
      reads this
    {
      Tables(data, subdata)
    }

    /**
     * DB(): opens the database file and creates each table only if it does not
     * exist yet, so the rows already stored are kept; `stored` is the file's
     * contents (both tables empty for a file that does not exist yet).
     */
    constructor (stored: Tables)
      requires Intact(stored)
      ensures Valid()
      ensures data == stored.data && subdata == stored.sub
      ensures Check() <==> "done" in stored.data && Truthy(stored.data["done"])
    {
      data := stored.data;
      subdata := stored.sub;
    }

    // -------------------------------------------------------------------------
    // Queries
    // -------------------------------------------------------------------------

    /** check(): whether the stored `done` flag is truthy; False when it is absent. */
    function Check(): (done: bool)
      reads this
      ensures done <==> "done" in data && Truthy(data["done"])
      ensures "done" !in data ==> !done
    {
      if "done" in data then Truthy(data["done"]) else false
    }

    /** get(key): the stored value, or None (Null) when the key is absent. */
    function Get(key: string): (v: Value)
      reads this
      ensures key !in data ==> v == Null
      ensures key in data ==> v == data[key]
    {
      if key in data then data[key] else Null
    }

    /** subget(key, subkey): the stored sub-value, or None (Null) when absent. */
    function SubGet(key: string, subkey: string): (v: Value)
      reads this
      ensures (key, subkey) !in subdata ==> v == Null
      ensures (key, subkey) in subdata ==> v == subdata[(key, subkey)]
    {
      if (key, subkey) in subdata then subdata[(key, subkey)] else Null
    }

    /** get_all_subdata(key): every sub-key of key with its value; {} when there is none. */
    function GetAllSubdata(key: string): (m: map<string, Value>)
      reads this
      ensures forall s :: s in m <==> (key, s) in subdata
      ensures forall s :: s in m ==> m[s] == SubGet(key, s)
      ensures m == map[] <==> forall s :: (key, s) !in subdata
    {
      SubkeysOf(subdata, key)
    }

    /** exists(key, subkey): a truthy sub-key asks for that row, otherwise for the key's row. */
    function Exists(key: string, subkey: Option<string>): (b: bool)
      reads this
      ensures SubkeyGiven(subkey) ==> (b <==> (key, subkey.value) in subdata)
      ensures !SubkeyGiven(subkey) ==> (b <==> key in data)
    {
      if SubkeyGiven(subkey) then (key, subkey.value) in subdata else key in data
    }

    /** count(): the number of rows in each table. */
    function Count(): (c: (int, int))
      reads this
      ensures c.0 == |data.Keys| && c.1 == |subdata.Keys|
      ensures c.0 >= 0 && c.1 >= 0
    {
      (|data|, |subdata|)
    }

    // -------------------------------------------------------------------------
    // Writes
    // -------------------------------------------------------------------------

    /** setup(done): upsert of the `done` flag; check() then answers bool(done). */
    method Setup(done: bool)
      requires Valid()
      modifies this
      ensures Valid()
      ensures data == old(data)["done" := Bool(done)] && subdata == old(subdata)
      ensures Check() == done
    {
      data := data["done" := Bool(done)];
    }

    /** add(key, value): top-level upsert; no other key and no sub-key changes. */
    method Add(key: string, value: Value)
      requires Valid()
      modifies this
      ensures Valid()
      ensures data == old(data)[key := value] && subdata == old(subdata)
      ensures Get(key) == value
      ensures forall k :: k != key ==> Get(k) == old(Get(k))
    {
      data := data[key := value];
    }

    /**
     * subadd(key, subkey, value): creates key as {} when it is missing, then
     * upserts the sub-key row.
     */
    method SubAdd(key: string, subkey: string, value: Value)
      requires Valid()
      modifies this
      ensures Valid()
      ensures data == (if key in old(data) then old(data) else old(data)[key := Dict(map[])])
      ensures subdata == old(subdata)[(key, subkey) := value]
      ensures Exists(key, None) && Exists(key, Some(subkey)) && SubGet(key, subkey) == value
      ensures Count().0 == old(Count().0) + (if key in old(data) then 0 else 1)
      ensures Count().1 == old(Count().1) + (if (key, subkey) in old(subdata) then 0 else 1)
    {
      if key !in data {
        Add(key, Dict(map[]));
      }
      subdata := subdata[(key, subkey) := value];
    }

    /**
     * update(items): the items in order; a mapping is a batch of sub-key
     * upserts for its key, creating the key as {} before the first of them
     * when it is missing; anything else is a top-level upsert. The writes run
     * in one transaction (`d`, `sd`) committed at the end.
     */
    method Update(items: seq<(string, Value)>)
      requires Valid()
      modifies this
      ensures Valid()
      ensures Snapshot() == ApplyUpdate(old(Snapshot()), items)
    {
      ghost var t0 := Snapshot();
      var d, sd := data, subdata;
      for i := 0 to |items|
        invariant Tables(d, sd) == ApplyUpdate(t0, items[..i])
      {
        var key, value := items[i].0, items[i].1;
        assert items[..i + 1][..i] == items[..i];
        if value.Dict? {
          ghost var before := Tables(d, sd);
          var pending := value.entries.Keys;
          PartialItemStart(before, key, value.entries);
          while pending != {}
            invariant pending <= value.entries.Keys
            invariant Tables(d, sd) == PartialItem(before, key, value.entries, pending)
            decreases pending
          {
            var s :| s in pending;
            PartialItemStep(before, key, value.entries, pending, s);
            if key !in d {
              d := d[key := Dict(map[])];
            }
            sd := sd[(key, s) := value.entries[s]];
            pending := pending - {s};
          }
          PartialItemEnd(before, key, value.entries);
        } else {
          d := d[key := value];
        }
      }
      assert items[..|items|] == items;
      UpdateKeepsIntact(t0, items);
      data, subdata := d, sd;
    }

    /**
     * remove(key, subkey): a truthy sub-key deletes that row; otherwise the
     * key's row goes and its sub-key rows with it.
     */
    method Remove(key: string, subkey: Option<string>)
      requires Valid()
      modifies this
      ensures Valid()
      ensures Snapshot() == RemoveCascade(old(Snapshot()), key, subkey)
      ensures !SubkeyGiven(subkey) ==> !Exists(key, None) && GetAllSubdata(key) == map[]
      ensures SubkeyGiven(subkey) ==> !Exists(key, subkey) && data == old(data)
    {
      RemoveCascadeKeepsIntact(Snapshot(), key, subkey);
      if SubkeyGiven(subkey) {
        subdata := subdata - {(key, subkey.value)};
      } else if key in data {
        data := data - {key};
        subdata := Cascade(subdata, key);
      }
    }

    /**
     * fetchall(): every top-level row, then every sub-key row merged into its
     * parent's mapping in turn; fails when a parent holds a non-mapping.
     */
    method Fetchall() returns (r: Result<map<string, Value>, FetchError>)
      ensures r == MergeView(Snapshot())
    {
      var top, sub := data, subdata;
      var main := top;
      var rows := sub.Keys;
      FetchStart(top, sub);
      while rows != {}
        invariant rows <= sub.Keys
        invariant main == View(top, sub, sub.Keys - rows)
        invariant ScalarFree(top, sub.Keys - rows)
        decreases rows
      {
        var p :| p in rows;
        var w := sub[p];
        FetchStep(top, sub, rows, p);
        if p.0 in main {
          if main[p.0].Dict? {
            main := main[p.0 := Dict(main[p.0].entries[p.1 := w])];
          } else {
            return Failure(SpreadOfNonMapping);
          }
        } else {
          main := main[p.0 := Dict(map[p.1 := w])];
        }
        rows := rows - {p};
      }
      FetchEnd(top, sub);
      return Success(main);
    }
  }
}
