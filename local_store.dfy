/** The browser-side stores of the application: the IndexedDB database "AttendanceDB"
    (src/db.js, version 6) with its four tables `attendance`, `vacationRequests`,
    `myattendance` and `acceptedLeave`, each keyed by an auto-incremented `id`, and
    the string key-value `localStorage`. */
module LocalStore {
  import opened JsText

  // ---------------------------------------------------------------------------
  // Keyed tables

  /** A stored record together with the key the table assigned to it. */
  datatype Entry<T> = Entry(key: nat, value: T)

  /** Keys strictly ascending: the order in which a table hands out its records. */
  ghost predicate KeysAscending<T>(es: seq<Entry<T>>) {
    forall i, j :: 0 <= i < j < |es| ==> es[i].key < es[j].key
  }

  /** The stored values, in key order, without their keys. */
  function ValuesOf<T>(es: seq<Entry<T>>): (vs: seq<T>)
    ensures |vs| == |es|
    ensures forall i :: 0 <= i < |es| ==> vs[i] == es[i].value
  {
    if es == [] then [] else ValuesOf(es[..|es| - 1]) + [es[|es| - 1].value]
  }

  /** The entries whose value `sel` accepts, in key order (`where(...).equals(...)`). */
  function Select<T>(es: seq<Entry<T>>, sel: T -> bool): (r: seq<Entry<T>>)
    ensures |r| <= |es|
    ensures forall i :: 0 <= i < |r| ==> sel(r[i].value) && r[i] in es
    ensures forall i :: 0 <= i < |es| && sel(es[i].value) ==> es[i] in r
  {
    if es == [] then []
    else (if sel(es[0].value) then [es[0]] else []) + Select(es[1..], sel)
  }

  /** `where(...).modify(f)`: the accepted values are rewritten by `f`, keys and order kept. */
  function ModifyWhere<T>(es: seq<Entry<T>>, sel: T -> bool, f: T -> T): (r: seq<Entry<T>>)
    ensures |r| == |es|
    ensures forall i :: 0 <= i < |es| ==> r[i].key == es[i].key
    ensures forall i :: 0 <= i < |es| ==> r[i].value == if sel(es[i].value) then f(es[i].value) else es[i].value
  {
    seq(|es|, i requires 0 <= i < |es| =>
      if sel(es[i].value) then Entry(es[i].key, f(es[i].value)) else es[i])
  }

  /** The values a selector rejects. */
  function Complement<T>(sel: T -> bool): T -> bool {
    v => !sel(v)
  }

  /** A table of records with auto-incremented keys. Keys start at 1 and are never reused:
      `clear` empties the table but keeps the key generator, as IndexedDB does. */
  class Table<T> {
    var entries: seq<Entry<T>>
    var nextKey: nat

    ghost predicate Valid()
      reads this
    {
      nextKey >= 1
      && (forall i :: 0 <= i < |entries| ==> 1 <= entries[i].key < nextKey)
      && KeysAscending(entries)
    }

    constructor()
      ensures Valid() && entries == [] && nextKey == 1
    {
      entries := [];
      nextKey := 1;
    }

    /** `toArray()` */
    function Values(): seq<T>
      reads this
    {
      ValuesOf(entries)
    }

    /** `add(v)`: stores `v` under a fresh key and returns that key. */
    method Add(v: T) returns (key: nat)
      requires Valid()
      modifies this
      ensures Valid()
      ensures key == old(nextKey) && key >= 1
      ensures entries == old(entries) + [Entry(key, v)] && nextKey == key + 1
    {
      key := nextKey;
      entries := entries + [Entry(key, v)];
      nextKey := nextKey + 1;
    }

    /** `bulkAdd(vs)`: adds the values one after the other, under consecutive fresh keys. */
    method BulkAdd(vs: seq<T>)
      requires Valid()
      modifies this
      ensures Valid()
      ensures nextKey == old(nextKey) + |vs|
      ensures entries == old(entries) + seq(|vs|, i requires 0 <= i < |vs| => Entry(old(nextKey) + i, vs[i]))
    {
      var k := 0;
      while k < |vs|
        invariant 0 <= k <= |vs|
        invariant Valid()
        invariant nextKey == old(nextKey) + k
        invariant entries == old(entries) + seq(k, i requires 0 <= i < k => Entry(old(nextKey) + i, vs[i]))
      {
        var _ := Add(vs[k]);
        k := k + 1;
      }
    }

    /** `clear()`: removes every record; keys handed out later still grow. */
    method Clear()
      requires Valid()
      modifies this
      ensures Valid()
      ensures entries == [] && nextKey == old(nextKey)
    {
      entries := [];
    }

    /** `where(...).modify(f)`, visiting the records in key order. */
    method ModifyAll(sel: T -> bool, f: T -> T)
      requires Valid()
      modifies this
      ensures Valid()
      ensures entries == ModifyWhere(old(entries), sel, f) && nextKey == old(nextKey)
    {
      var k := 0;
      while k < |entries|
        invariant 0 <= k <= |entries| == |old(entries)|
        invariant Valid()
        invariant nextKey == old(nextKey)
        invariant entries[..k] == ModifyWhere(old(entries), sel, f)[..k]
        invariant entries[k..] == old(entries)[k..]
      {
        if sel(entries[k].value) {
          entries := entries[k := Entry(entries[k].key, f(entries[k].value))];
        }
        k := k + 1;
      }
    }

    /** `update(key, f)`: rewrites the record stored under `key`; a missing key changes nothing. */
    method Update(key: nat, f: T -> T)
      requires Valid()
      modifies this
      ensures Valid()
      ensures entries == UpdateKey(old(entries), key, f) && nextKey == old(nextKey)
    {
      entries := UpdateKey(entries, key, f);
    }

    /** `where(...).delete()`: removes the records `sel` accepts, keeping the others in order. */
    method DeleteWhere(sel: T -> bool)
      requires Valid()
      modifies this
      ensures Valid()
      ensures entries == Select(old(entries), Complement(sel)) && nextKey == old(nextKey)
    {
      SelectKeepsOrder(entries, Complement(sel));
      entries := Select(entries, Complement(sel));
    }
  }

  /** The keys in use. */
  function KeysOf<T>(es: seq<Entry<T>>): set<nat> {
    set i | 0 <= i < |es| :: es[i].key
  }

  /** The entries with the one stored under `key` rewritten by `f`. */
  function UpdateKey<T>(es: seq<Entry<T>>, key: nat, f: T -> T): (r: seq<Entry<T>>)
    ensures |r| == |es|
    ensures forall i :: 0 <= i < |es| ==> r[i].key == es[i].key
    ensures forall i :: 0 <= i < |es| ==> r[i].value == if es[i].key == key then f(es[i].value) else es[i].value
  {
    seq(|es|, i requires 0 <= i < |es| =>
      if es[i].key == key then Entry(key, f(es[i].value)) else es[i])
  }

  /** A selection keeps the entries' relative order, so ascending keys stay ascending and
      the key bound is kept. */
  lemma {:induction false} SelectKeepsOrder<T>(es: seq<Entry<T>>, sel: T -> bool)
    requires KeysAscending(es)
    ensures KeysAscending(Select(es, sel))
  {
    if es != [] {
      var x, tail := es[0], es[1..];
      var rest := Select(tail, sel);
      assert KeysAscending(tail) by {
        forall i, j | 0 <= i < j < |tail| ensures tail[i].key < tail[j].key {
          assert tail[i] == es[i + 1] && tail[j] == es[j + 1];
        }
      }
      assert forall i :: 0 <= i < |tail| ==> x.key < tail[i].key by {
        forall i | 0 <= i < |tail| ensures x.key < tail[i].key {
          assert tail[i] == es[i + 1];
        }
      }
      SelectKeepsOrder(tail, sel);
      if sel(x.value) {
        SelectKeysAbove(tail, sel, x.key);
        PrependAscending(x, rest);
        assert Select(es, sel) == [x] + rest;
      } else {
        assert Select(es, sel) == rest;
      }
    }
  }

  lemma PrependAscending<T>(x: Entry<T>, rest: seq<Entry<T>>)
    requires KeysAscending(rest) && forall i :: 0 <= i < |rest| ==> x.key < rest[i].key
    ensures KeysAscending([x] + rest)
  {
    var r := [x] + rest;
    forall i, j | 0 <= i < j < |r| ensures r[i].key < r[j].key {
      assert r[j] == rest[j - 1];
      if i > 0 {
        assert r[i] == rest[i - 1];
      }
    }
  }

  /** A selection keeps no key at or below a bound that all the keys exceed. */
  lemma {:induction false} SelectKeysAbove<T>(es: seq<Entry<T>>, sel: T -> bool, b: int)
    requires forall i :: 0 <= i < |es| ==> b < es[i].key
    ensures forall i :: 0 <= i < |Select(es, sel)| ==> b < Select(es, sel)[i].key
  {
    if es != [] {
      var rest := Select(es[1..], sel);
      SelectKeysAbove(es[1..], sel, b);
      if sel(es[0].value) {
        assert Select(es, sel) == [es[0]] + rest;
      } else {
        assert Select(es, sel) == rest;
      }
    }
  }

  /** Selecting from a concatenation selects from each part. */
  lemma {:induction false} SelectAppend<T>(a: seq<Entry<T>>, b: seq<Entry<T>>, sel: T -> bool)
    ensures Select(a + b, sel) == Select(a, sel) + Select(b, sel)
  {
    if a != [] {
      assert (a + b)[1..] == a[1..] + b;
      SelectAppend(a[1..], b, sel);
    } else {
      assert a + b == b;
    }
  }

  // ---------------------------------------------------------------------------
  // Records of the attendance table

  /** A GPS coordinate, or the empty string a camera-based entry stores instead. */
  datatype Coordinate = Degrees(value: real) | Blank

  /** A record of the `attendance` table. `recordstatusid` is 1 (pending) or 3 (posted) for
      fingerprint records and absent for camera-based records; `confirmType` and `fileBase64`
      are present only on camera-based records. */
  datatype AttendanceRecord = AttendanceRecord(
    mobileNumber: Option<string>,
    fullName: Option<string>,
    deviceName: string,
    latitude: Coordinate,
    longitude: Coordinate,
    address: string,
    street: string,
    building: string,
    nearby: string,
    confirmDate: string,
    confirmTime: string,
    ip: string,
    filename: string,
    recordstatusid: Option<int>,
    comment: string,
    confirmType: Option<string>,
    fileBase64: Option<string>)

  const Pending := 1
  const Posted := 3

  /** `where("recordstatusid").equals(s)`: only records that carry that status value. */
  predicate HasStatus(r: AttendanceRecord, s: int) {
    r.recordstatusid == Some(s)
  }

  /** A record of the `vacationRequests` table: the dialog's period and the calendar row
      ("YYYY-MM-DD") it was requested from; `date` is null when no row was clicked yet. */
  datatype VacationRequest = VacationRequest(
    fromDate: string,
    toDate: string,
    timeFrom: string,
    timeTo: string,
    remark: string,
    date: Option<string>)

  // ---------------------------------------------------------------------------
  // localStorage

  /** The origin's `localStorage`: string keys to string values. */
  class Storage {
    var items: map<string, string>

    constructor(init: map<string, string>)
      ensures items == init
    {
      items := init;
    }

    /** `getItem(key)`: null when the key is absent. */
    function Get(key: string): (v: Option<string>)
      reads this
      ensures v == Lookup(items, key)
    {
      Lookup(items, key)
    }

    /** `setItem(key, value)` */
    method Set(key: string, value: string)
      modifies this
      ensures items == old(items)[key := value]
    {
      items := items[key := value];
    }
  }

  /** `getItem(key)` on a plain map, for functions that read a snapshot of the storage. */
  function Lookup(items: map<string, string>, key: string): (v: Option<string>)
    ensures v.Some? <==> key in items
    ensures v.Some? ==> v.value == items[key]
  {
    if key in items then Some(items[key]) else None
  }
}
