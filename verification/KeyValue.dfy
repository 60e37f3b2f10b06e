/** Ordered byte keys, the in-memory key-value backend, and the durable key codec. */
module KeyValue {
  import opened Types

  type byte = x: nat | x < 256
  type Bytes = seq<byte>

  // ----- byte order -----

  /** The order of byte vectors: lexicographic, a proper prefix first. */
  predicate Less(a: Bytes, b: Bytes) {
    b != [] && (a == [] || a[0] < b[0] || (a[0] == b[0] && Less(a[1..], b[1..])))
  }

  lemma {:induction false} LessTransitive(a: Bytes, b: Bytes, c: Bytes)
    requires Less(a, b) && Less(b, c)
    ensures Less(a, c)
  {
    if a != [] && a[0] == b[0] && b[0] == c[0] { LessTransitive(a[1..], b[1..], c[1..]); }
  }

  lemma {:induction false} LessIrreflexive(a: Bytes)
    ensures !Less(a, a)
  {
    if a != [] { LessIrreflexive(a[1..]); }
  }

  lemma {:induction false} LessTotal(a: Bytes, b: Bytes)
    requires a != b
    ensures Less(a, b) || Less(b, a)
  {
    if a != [] && b != [] && a[0] == b[0] {
      assert a == [a[0]] + a[1..] && b == [b[0]] + b[1..];
      LessTotal(a[1..], b[1..]);
    }
  }

  /** Keys with a prefix come at or after the prefix. */
  lemma {:induction false} PrefixNotLess(prefix: Bytes, key: Bytes)
    requires prefix <= key
    ensures !Less(key, prefix)
  {
    if prefix != [] { PrefixNotLess(prefix[1..], key[1..]); }
  }

  /** Prefix matches are contiguous: past the first key without the prefix there are none. */
  lemma {:induction false} PrefixContiguous(prefix: Bytes, key: Bytes, later: Bytes)
    requires !Less(key, prefix) && !(prefix <= key) && Less(key, later)
    ensures !(prefix <= later)
  {
    if prefix <= later {
      if key != [] && key[0] == prefix[0] {
        assert key == [key[0]] + key[1..] && prefix == [prefix[0]] + prefix[1..];
        PrefixContiguous(prefix[1..], key[1..], later[1..]);
      }
    }
  }

  predicate IsFirst(key: Bytes, keys: set<Bytes>) {
    key in keys && forall other :: other in keys && other != key ==> Less(key, other)
  }

  lemma {:induction false} FirstExists(keys: set<Bytes>)
    requires keys != {}
    ensures exists key :: IsFirst(key, keys)
  {
    var x :| x in keys;
    var rest := keys - {x};
    assert keys == rest + {x};
    if rest == {} {
      assert IsFirst(x, keys);
    } else {
      FirstExists(rest);
      var m :| IsFirst(m, rest);
      if Less(x, m) {
        forall other | other in keys && other != x ensures Less(x, other) {
          if other != m { LessTransitive(x, m, other); }
        }
        assert IsFirst(x, keys);
      } else {
        LessTotal(x, m);
        assert IsFirst(m, keys);
      }
    }
  }

  // ----- backend -----

  datatype ColumnFamily = ResolutionLedger

  datatype Operation =
    | Put(family: ColumnFamily, key: Bytes, value: Bytes)
    | Delete(family: ColumnFamily, key: Bytes)

  type Table = map<Bytes, Bytes>

  function TableOf(tables: map<ColumnFamily, Table>, family: ColumnFamily): Table {
    if family in tables then tables[family] else map[]
  }

  function Performed(tables: map<ColumnFamily, Table>, op: Operation): map<ColumnFamily, Table> {
    match op
    case Put(f, k, v) => tables[f := TableOf(tables, f)[k := v]]
    case Delete(f, k) => if f in tables then tables[f := tables[f] - {k}] else tables
  }

  function PerformedAll(tables: map<ColumnFamily, Table>, batch: seq<Operation>, i: nat): map<ColumnFamily, Table>
    requires i <= |batch|
  {
    if i == 0 then tables else Performed(PerformedAll(tables, batch, i - 1), batch[i - 1])
  }

  /** Operation `i` of the batch is the last of the first `n` that names this key. */
  predicate LastFor(batch: seq<Operation>, n: nat, i: nat, family: ColumnFamily, key: Bytes)
    requires i < n <= |batch|
  {
    && batch[i].family == family && batch[i].key == key
    && forall j: nat {:trigger batch[j]} :: i < j < n ==> !(batch[j].family == family && batch[j].key == key)
  }

  predicate Untouched(batch: seq<Operation>, n: nat, family: ColumnFamily, key: Bytes)
    requires n <= |batch|
  {
    forall j: nat {:trigger batch[j]} :: j < n ==> !(batch[j].family == family && batch[j].key == key)
  }

  /** The last operation on a key decides: a put leaves its value, a delete nothing; other keys stay as they were. */
  lemma {:induction false} LastOperationDecides(
    tables: map<ColumnFamily, Table>, batch: seq<Operation>, n: nat, family: ColumnFamily, key: Bytes)
    requires n <= |batch|
    ensures var before, after := TableOf(tables, family), TableOf(PerformedAll(tables, batch, n), family);
            && (Untouched(batch, n, family, key) ==>
                  && (key in after <==> key in before)
                  && (key in before ==> after[key] == before[key]))
            && (forall i: nat {:trigger batch[i]} :: i < n && LastFor(batch, n, i, family, key) ==>
                  && (key in after <==> batch[i].Put?)
                  && (batch[i].Put? ==> after[key] == batch[i].value))
  {
    if n > 0 {
      LastOperationDecides(tables, batch, n - 1, family, key);
      var op := batch[n - 1];
      forall i: nat | i < n - 1 && LastFor(batch, n, i, family, key)
        ensures LastFor(batch, n - 1, i, family, key) && !(op.family == family && op.key == key)
      {
        assert batch[n - 1] == op;
      }
    }
  }

  type Entry = (Bytes, Bytes)

  predicate Ascending(entries: seq<Entry>) {
    forall i, j :: 0 <= i < j < |entries| ==> Less(entries[i].0, entries[j].0)
  }

  /** `entries` lists exactly the entries of `table` whose key has `prefix`. */
  ghost predicate Lists(entries: seq<Entry>, table: Table, prefix: Bytes) {
    forall e: Entry :: e in entries <==> e.0 in table && table[e.0] == e.1 && prefix <= e.0
  }

  class MemoryKvBackend {
    var tables: map<ColumnFamily, Table>

    constructor ()
      ensures tables == map[]
    {
      tables := map[];
    }

    method Get(family: ColumnFamily, key: Bytes) returns (value: Option<Bytes>)
      ensures value == if key in TableOf(tables, family) then Some(TableOf(tables, family)[key]) else None
    {
      if family in tables && key in tables[family] { return Some(tables[family][key]); }
      return None;
    }

    /** Walks the keys in order from `prefix` and stops at the first one without it. */
    method PrefixScan(family: ColumnFamily, prefix: Bytes) returns (results: seq<Entry>)
      ensures Ascending(results) && Lists(results, TableOf(tables, family), prefix)
    {
      results := [];
      if family !in tables { return; }
      var table := tables[family];
      var remaining := set k | k in table && !Less(k, prefix);
      ScanStart(table, prefix, remaining);
      while remaining != {}
        invariant Scanned(results, table, prefix, remaining)
        decreases remaining
      {
        FirstExists(remaining);
        var key :| IsFirst(key, remaining);
        if !(prefix <= key) {
          ScanBreak(results, table, prefix, remaining, key);
          return;
        }
        ScanStep(results, table, prefix, remaining, key);
        results := results + [(key, table[key])];
        remaining := remaining - {key};
      }
      ScanEnd(results, table, prefix);
    }

    method ApplyTransaction(batch: seq<Operation>)
      modifies this
      ensures tables == PerformedAll(old(tables), batch, |batch|)
    {
      var i := 0;
      while i < |batch|
        invariant 0 <= i <= |batch| && tables == PerformedAll(old(tables), batch, i)
      {
        match batch[i] {
          case Put(f, k, v) =>
            var table := if f in tables then tables[f] else map[];
            tables := tables[f := table[k := v]];
          case Delete(f, k) =>
            if f in tables { tables := tables[f := tables[f] - {k}]; }
        }
        i := i + 1;
      }
    }
  }

  /** Everything before the remaining keys has been listed, in order. */
  ghost predicate Scanned(results: seq<Entry>, table: Table, prefix: Bytes, remaining: set<Bytes>) {
    && Ascending(results)
    && (forall k :: k in remaining ==> k in table && !Less(k, prefix))
    && (forall e, k :: e in results && k in remaining ==> Less(e.0, k))
    && (forall e :: e in results ==> e.0 in table && table[e.0] == e.1 && prefix <= e.0)
    && (forall k :: k in table && prefix <= k && k !in remaining ==> (k, table[k]) in results)
  }

  lemma {:induction false} ScanStart(table: Table, prefix: Bytes, remaining: set<Bytes>)
    requires remaining == set k | k in table && !Less(k, prefix)
    ensures Scanned([], table, prefix, remaining)
  {
    forall k | k in table && prefix <= k ensures k in remaining { PrefixNotLess(prefix, k); }
  }

  lemma {:induction false} ScanStep(results: seq<Entry>, table: Table, prefix: Bytes, remaining: set<Bytes>, key: Bytes)
    requires Scanned(results, table, prefix, remaining) && IsFirst(key, remaining) && prefix <= key
    ensures key in table && Scanned(results + [(key, table[key])], table, prefix, remaining - {key})
  {
    var next := results + [(key, table[key])];
    forall i, j | 0 <= i < j < |next| ensures Less(next[i].0, next[j].0) {
      if j == |results| { assert results[i] in results; }
    }
  }

  lemma {:induction false} ScanBreak(
    results: seq<Entry>, table: Table, prefix: Bytes, remaining: set<Bytes>, key: Bytes)
    requires Scanned(results, table, prefix, remaining) && IsFirst(key, remaining) && !(prefix <= key)
    ensures Lists(results, table, prefix)
  {
    forall k | k in remaining ensures !(prefix <= k) {
      if k != key { PrefixContiguous(prefix, key, k); }
    }
  }

  lemma {:induction false} ScanEnd(results: seq<Entry>, table: Table, prefix: Bytes)
    requires Scanned(results, table, prefix, {})
    ensures Lists(results, table, prefix)
  {}

  /** There is only one ascending list of given entries. */
  lemma {:induction false} AscendingUnique(a: seq<Entry>, b: seq<Entry>)
    requires Ascending(a) && Ascending(b) && forall e :: e in a <==> e in b
    ensures a == b
    decreases |a|
  {
    if a == [] {
      if b != [] { HeadIn(b); }
    } else {
      assert a[0] in b;
      HeadFirst(a, b);
      TailElements(a);
      TailElements(b);
      assert forall e :: e in a[1..] <==> e in b[1..];
      AscendingUnique(a[1..], b[1..]);
      assert a == [a[0]] + a[1..] && b == [b[0]] + b[1..];
    }
  }

  lemma {:induction false} HeadIn(a: seq<Entry>)
    requires a != []
    ensures a[0] in a
  {}

  lemma {:induction false} TailElements(a: seq<Entry>)
    requires a != [] && Ascending(a)
    ensures forall e :: e in a[1..] <==> e in a && e != a[0]
    ensures Ascending(a[1..])
  {
    LessIrreflexive(a[0].0);
    forall e | e in a[1..] ensures e != a[0] {
      var i :| 0 <= i < |a[1..]| && a[1..][i] == e;
      assert Less(a[0].0, a[i + 1].0);
    }
  }

  lemma {:induction false} HeadFirst(a: seq<Entry>, b: seq<Entry>)
    requires a != [] && b != [] && Ascending(a) && Ascending(b) && forall e :: e in a <==> e in b
    ensures a[0] == b[0]
  {
    assert a[0] in b && b[0] in a;
    var i :| 0 <= i < |b| && b[i] == a[0];
    var j :| 0 <= j < |a| && a[j] == b[0];
    if i > 0 && j > 0 {
      LessTransitive(a[0].0, b[0].0, a[0].0);
      LessIrreflexive(a[0].0);
    }
  }

  // ----- durable keys -----

  function Pow256(n: nat): (r: nat)
    ensures r > 0
  {
    if n == 0 then 1 else 256 * Pow256(n - 1)
  }

  /** The `n` low bytes of `v`, most significant first. */
  function BigEndian(n: nat, v: nat): (b: Bytes)
    ensures |b| == n
  {
    if n == 0 then [] else BigEndian(n - 1, v / 256) + [v % 256]
  }

  function FromBigEndian(b: Bytes): nat {
    if b == [] then 0 else FromBigEndian(b[..|b| - 1]) * 256 + b[|b| - 1]
  }

  lemma {:induction false} BigEndianRoundTrip(n: nat, v: nat)
    requires v < Pow256(n)
    ensures FromBigEndian(BigEndian(n, v)) == v
  {
    if n > 0 {
      BigEndianRoundTrip(n - 1, v / 256);
      var b := BigEndian(n, v);
      assert b[..n - 1] == BigEndian(n - 1, v / 256);
    }
  }

  lemma {:induction false} LessLast(a: Bytes, b: Bytes, x: byte, y: byte)
    requires |a| == |b|
    ensures Less(a + [x], b + [y]) <==> Less(a, b) || (a == b && x < y)
  {
    var p, q := a + [x], b + [y];
    if a == [] {
      assert p[1..] == [] && q[1..] == [];
    } else {
      LessLast(a[1..], b[1..], x, y);
      assert p[1..] == a[1..] + [x] && q[1..] == b[1..] + [y];
      assert a == [a[0]] + a[1..] && b == [b[0]] + b[1..];
    }
  }

  /** Big-endian byte order is numeric order. */
  lemma {:induction false} BigEndianOrder(n: nat, v: nat, w: nat)
    requires v < Pow256(n) && w < Pow256(n)
    ensures Less(BigEndian(n, v), BigEndian(n, w)) <==> v < w
    ensures BigEndian(n, v) == BigEndian(n, w) ==> v == w
  {
    BigEndianRoundTrip(n, v);
    BigEndianRoundTrip(n, w);
    if n > 0 {
      BigEndianOrder(n - 1, v / 256, w / 256);
      LessLast(BigEndian(n - 1, v / 256), BigEndian(n - 1, w / 256), v % 256, w % 256);
      if v / 256 == w / 256 { assert v % 256 < w % 256 <==> v < w; }
    }
  }

  lemma {:induction false} LessAfterPrefix(prefix: Bytes, a: Bytes, b: Bytes)
    ensures Less(prefix + a, prefix + b) <==> Less(a, b)
  {
    if prefix == [] {
      assert prefix + a == a && prefix + b == b;
    } else {
      LessAfterPrefix(prefix[1..], a, b);
      assert (prefix + a)[1..] == prefix[1..] + a && (prefix + b)[1..] == prefix[1..] + b;
    }
  }

  /** The four bytes `txn/`. */
  const LEDGER_PREFIX: Bytes := [116, 120, 110, 47]

  function DurableKey(version: CommitVersion): Bytes {
    LEDGER_PREFIX + BigEndian(8, version)
  }

  function DecodeDurableKey(key: Bytes): Option<CommitVersion> {
    if |key| != 12 || !(LEDGER_PREFIX <= key) then None else Some(FromBigEndian(key[4..]))
  }

  lemma {:induction false} VersionsFit(v: CommitVersion)
    requires v <= MAX_VERSION
    ensures v < Pow256(8)
  {
    assert Pow256(8) == 256 * (256 * (256 * (256 * Pow256(4))));
    assert Pow256(4) == 256 * (256 * (256 * (256 * Pow256(0))));
  }

  /** A ledger key is twelve bytes: `txn/`, then the version. Decoding it gives back the version. */
  lemma {:induction false} DurableKeyRoundTrip(v: CommitVersion)
    requires v <= MAX_VERSION
    ensures |DurableKey(v)| == 12 && DurableKey(v)[..4] == [116, 120, 110, 47]
    ensures DecodeDurableKey(DurableKey(v)) == Some(v)
  {
    VersionsFit(v);
    BigEndianRoundTrip(8, v);
    assert DurableKey(v)[4..] == BigEndian(8, v);
    assert DurableKey(v)[..4] == LEDGER_PREFIX;
  }

  lemma {:induction false} FromBigEndianRoundTrip(b: Bytes)
    ensures FromBigEndian(b) < Pow256(|b|) && BigEndian(|b|, FromBigEndian(b)) == b
  {
    if b != [] {
      var n, shorter := |b| - 1, b[..|b| - 1];
      FromBigEndianRoundTrip(shorter);
      assert FromBigEndian(b) == FromBigEndian(shorter) * 256 + b[n];
      assert FromBigEndian(b) / 256 == FromBigEndian(shorter) && FromBigEndian(b) % 256 == b[n];
      assert b == shorter + [b[n]];
    }
  }

  /** Only ledger keys are decoded: what decodes to a version is that version's key. */
  lemma {:induction false} OnlyDurableKeysDecode(key: Bytes, v: CommitVersion)
    requires DecodeDurableKey(key) == Some(v)
    ensures key == DurableKey(v)
  {
    FromBigEndianRoundTrip(key[4..]);
    assert key == key[..4] + key[4..];
  }

  /** Byte order of durable keys is version order. */
  lemma {:induction false} DurableKeyOrder(v: CommitVersion, w: CommitVersion)
    requires v <= MAX_VERSION && w <= MAX_VERSION
    ensures Less(DurableKey(v), DurableKey(w)) <==> v < w
  {
    VersionsFit(v);
    VersionsFit(w);
    BigEndianOrder(8, v, w);
    LessAfterPrefix(LEDGER_PREFIX, BigEndian(8, v), BigEndian(8, w));
  }
}
