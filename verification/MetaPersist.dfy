/** Transactions: an undo log over the in-memory store, an atomic commit of the touched rows,
    and rollback when either the apply or the commit fails. */
module MetaPersist {
  import opened Bytes
  import opened Lex
  import opened MetaKV

  datatype UndoOp<V> = UndoOp(key: bytes, prior: Option<V>)

  /** One changed row; None deletes it. */
  datatype Row = Row(key: bytes, value: Option<bytes>)

  function Put<V>(vals: map<bytes, V>, k: bytes, v: Option<V>): map<bytes, V> {
    if v.Some? then vals[k := v.value] else vals - {k}
  }

  function Look<V>(vals: map<bytes, V>, k: bytes): Option<V> {
    if k in vals then Some(vals[k]) else None
  }

  lemma LookSet<V>(vals: map<bytes, V>, k: bytes, v: V, x: bytes)
    ensures Look(vals[k := v], x) == if x == k then Some(v) else Look(vals, x)
  {
  }

  /** The state an undo log leads back to, newest mutation first. */
  ghost function Undone<V>(vals: map<bytes, V>, undo: seq<UndoOp<V>>): map<bytes, V>
    decreases |undo|
  {
    if undo == [] then vals
    else
      var op := undo[|undo| - 1];
      Undone(Put(vals, op.key, op.prior), undo[..|undo| - 1])
  }

  /** Recording what stood at a key before changing it makes the change undoable, however
      often the key was touched before. */
  lemma RecordUndoes<V>(vals: map<bytes, V>, undo: seq<UndoOp<V>>, k: bytes, v: Option<V>)
    ensures Undone(Put(vals, k, v), undo + [UndoOp(k, Look(vals, k))]) == Undone(vals, undo)
  {
    var more := undo + [UndoOp(k, Look(vals, k))];
    assert more[..|undo|] == undo;
    assert Put(Put(vals, k, v), k, Look(vals, k)) == vals;
  }

  /** What durable storage should hold: every row, encoded. */
  function Encoded<V>(vals: map<bytes, V>, marshal: V -> bytes): (rows: map<bytes, bytes>) {
    map k | k in vals :: marshal(vals[k])
  }

  function WriteRows(disk: map<bytes, bytes>, rows: seq<Row>): (d: map<bytes, bytes>) {
    if rows == [] then disk
    else Put(WriteRows(disk, rows[..|rows| - 1]), rows[|rows| - 1].key, rows[|rows| - 1].value)
  }

  /** The changeset of a transaction: each touched key with what it holds now. */
  function Changes<V>(vals: map<bytes, V>, marshal: V -> bytes, keys: seq<bytes>): (rows: seq<Row>)
    ensures |rows| == |keys| && forall i :: 0 <= i < |keys| ==> rows[i] == Change(vals, marshal, keys[i])
  {
    seq(|keys|, i requires 0 <= i < |keys| => Change(vals, marshal, keys[i]))
  }

  function Change<V>(vals: map<bytes, V>, marshal: V -> bytes, k: bytes): Row {
    Row(k, if k in vals then Some(marshal(vals[k])) else None)
  }

  /** Writing the changeset of the touched keys: they hold what memory holds, the rest what
      it held. */
  lemma {:induction false} WriteChanges<V>(disk: map<bytes, bytes>, vals: map<bytes, V>, marshal: V -> bytes,
                                           keys: seq<bytes>, k: bytes)
    ensures Look(WriteRows(disk, Changes(vals, marshal, keys)), k) ==
      if k in keys then Change(vals, marshal, k).value else Look(disk, k)
  {
    if keys != [] {
      var n := |keys| - 1;
      var rows := Changes(vals, marshal, keys);
      assert rows[..n] == Changes(vals, marshal, keys[..n]);
      WriteChanges(disk, vals, marshal, keys[..n], k);
      assert keys == keys[..n] + [keys[n]];
    }
  }

  /** Committing the touched keys' rows makes the disk the encoding of memory. */
  lemma CommitMatches<V>(base: map<bytes, V>, vals: map<bytes, V>, marshal: V -> bytes, keys: seq<bytes>)
    requires forall k :: k !in keys ==> Look(vals, k) == Look(base, k)
    ensures WriteRows(Encoded(base, marshal), Changes(vals, marshal, keys)) == Encoded(vals, marshal)
  {
    var disk := WriteRows(Encoded(base, marshal), Changes(vals, marshal, keys));
    forall k
      ensures Look(disk, k) == Look(Encoded(vals, marshal), k)
    {
      WriteChanges(Encoded(base, marshal), vals, marshal, keys, k);
      assert k !in keys ==> Look(vals, k) == Look(base, k);
    }
    SameLook(disk, Encoded(vals, marshal));
  }

  lemma SameLook<V>(a: map<bytes, V>, b: map<bytes, V>)
    requires forall k :: Look(a, k) == Look(b, k)
    ensures a == b
  {
    forall k
      ensures k in a <==> k in b
      ensures k in a ==> a[k] == b[k]
    {
      assert Look(a, k) == Look(b, k);
    }
  }

  // ---- rebuilding over rows that could not be read ----

  /** One apply of a rebuild: what memory holds after it, and the keys it touched. */
  datatype Apply<V> = Apply(vals: map<bytes, V>, keys: seq<bytes>)

  function After<V>(steps: seq<Apply<V>>): map<bytes, V> {
    if steps == [] then map[] else steps[|steps| - 1].vals
  }

  ghost predicate OnlyAt<V(!new)>(before: map<bytes, V>, vals: map<bytes, V>, keys: seq<bytes>) {
    forall k :: k !in keys ==> Look(vals, k) == Look(before, k)
  }

  /** Memory starts empty and each apply changes only the keys it touches. */
  ghost predicate Rebuild<V(!new)>(steps: seq<Apply<V>>) {
    steps == [] ||
    (Rebuild(steps[..|steps| - 1]) &&
     OnlyAt(After(steps[..|steps| - 1]), steps[|steps| - 1].vals, steps[|steps| - 1].keys))
  }

  predicate Touched<V>(steps: seq<Apply<V>>, k: bytes) {
    exists i :: 0 <= i < |steps| && k in steps[i].keys
  }

  /** Their changesets, committed onto rows that were never cleared. */
  function Recommitted<V>(stale: map<bytes, bytes>, steps: seq<Apply<V>>, marshal: V -> bytes): map<bytes, bytes> {
    if steps == [] then stale
    else
      var last := steps[|steps| - 1];
      WriteRows(Recommitted(stale, steps[..|steps| - 1], marshal), Changes(last.vals, marshal, last.keys))
  }

  lemma {:induction false} RecommittedAt<V(!new)>(stale: map<bytes, bytes>, steps: seq<Apply<V>>, marshal: V -> bytes,
                                                  k: bytes)
    requires Rebuild(steps)
    ensures Touched(steps, k) ==> Look(Recommitted(stale, steps, marshal), k) == Look(Encoded(After(steps), marshal), k)
    ensures !Touched(steps, k) ==> Look(Recommitted(stale, steps, marshal), k) == Look(stale, k) && k !in After(steps)
  {
    if steps != [] {
      var before, last := steps[..|steps| - 1], steps[|steps| - 1];
      RecommittedAt(stale, before, marshal, k);
      WriteChanges(Recommitted(stale, before, marshal), last.vals, marshal, last.keys, k);
      assert Touched(steps, k) <==> Touched(before, k) || k in last.keys by {
        if k in last.keys {
          assert k in steps[|steps| - 1].keys;
        }
        if Touched(before, k) {
          var i :| 0 <= i < |before| && k in before[i].keys;
          assert k in steps[i].keys;
        }
        if Touched(steps, k) {
          var i :| 0 <= i < |steps| && k in steps[i].keys;
          assert i < |before| ==> k in before[i].keys;
        }
      }
      if k !in last.keys {
        assert Look(last.vals, k) == Look(After(before), k);
      }
    }
  }

  /** Exactly when a rebuild leaves the disk holding memory: every row that was there before has
      been written over. Until then the old rows it has not reached stand among the new ones. */
  lemma RebuildMatchesExactly<V(!new)>(stale: map<bytes, bytes>, steps: seq<Apply<V>>, marshal: V -> bytes)
    requires Rebuild(steps)
    ensures Recommitted(stale, steps, marshal) == Encoded(After(steps), marshal) <==>
      forall k :: k in stale ==> Touched(steps, k)
  {
    hide Recommitted, Rebuild, Encoded, Touched;
    var disk, want := Recommitted(stale, steps, marshal), Encoded(After(steps), marshal);
    if forall k :: k in stale ==> Touched(steps, k) {
      forall k
        ensures Look(disk, k) == Look(want, k)
      {
        RecommittedAt(stale, steps, marshal, k);
        NotEncoded(After(steps), marshal, k);
      }
      SameLook(disk, want);
    } else {
      var k :| k in stale && !Touched(steps, k);
      RecommittedAt(stale, steps, marshal, k);
      NotEncoded(After(steps), marshal, k);
      assert Look(disk, k).Some? && Look(want, k).None?;
    }
  }

  lemma NotEncoded<V>(vals: map<bytes, V>, marshal: V -> bytes, k: bytes)
    ensures k !in vals <==> Look(Encoded(vals, marshal), k) == None
  {
  }

  /** One unreadable row, written over by the first apply that touches it: the disk reads again,
      and holds the whole of what it held, not what memory holds. */
  lemma UnreadableRowHeals<V>(held: map<bytes, V>, marshal: V -> bytes, k: bytes, junk: bytes)
    requires k in held
    ensures WriteRows(Encoded(held, marshal)[k := junk], Changes(map[k := held[k]], marshal, [k])) == Encoded(held,
      marshal)
  {
    var disk := Encoded(held, marshal)[k := junk];
    var now := map[k := held[k]];
    forall x
      ensures Look(WriteRows(disk, Changes(now, marshal, [k])), x) == Look(Encoded(held, marshal), x)
    {
      WriteChanges(disk, now, marshal, [k], x);
    }
    SameLook(WriteRows(disk, Changes(now, marshal, [k])), Encoded(held, marshal));
  }

  /** Durable storage. Commit is atomic: all rows or none. */
  class Disk {
    var rows: map<bytes, bytes>

    constructor (rows: map<bytes, bytes>)
      ensures this.rows == rows
    {
      this.rows := rows;
    }

    method Commit(changes: seq<Row>, fails: bool) returns (ok: bool)
      modifies this
      ensures ok == !fails
      ensures rows == if ok then WriteRows(old(rows), changes) else old(rows)
    {
      if !fails {
        rows := WriteRows(rows, changes);
      }
      ok := !fails;
    }
  }

  class TxKV<V> {
    const mem: MemKV<V>
    var undo: seq<UndoOp<V>>
    var dirtyKeys: seq<bytes>
    var dirty: set<bytes>

    /** The state when the transaction began. */
    ghost var base: map<bytes, V>

    ghost predicate Valid()
      reads this, mem
    {
      && mem.Valid()
      && Undone(mem.vals, undo) == base
      && (forall k :: k in dirty <==> k in dirtyKeys)
      && (forall k :: k !in dirtyKeys ==> Look(mem.vals, k) == Look(base, k))
    }

    constructor (mem: MemKV<V>)
      requires mem.Valid()
      ensures Valid() && this.mem == mem && base == mem.vals && dirtyKeys == []
    {
      this.mem := mem;
      undo, dirtyKeys, dirty := [], [], {};
      base := mem.vals;
    }

    method Reset()
      requires Valid()
      modifies this
      ensures Valid() && base == mem.vals && dirtyKeys == []
    {
      undo, dirtyKeys, dirty := [], [], {};
      base := mem.vals;
    }

    method Record(k: bytes)
      requires Valid()
      modifies this
      ensures undo == old(undo) + [UndoOp(k, Look(mem.vals, k))] && base == old(base)
      ensures forall x :: x in dirty <==> x in dirtyKeys
      ensures k in dirtyKeys && forall x :: x in dirtyKeys <==> x in old(dirtyKeys) || x == k
    {
      undo := undo + [UndoOp(k, mem.Get(k))];
      if k !in dirty {
        dirty := dirty + {k};
        dirtyKeys := dirtyKeys + [k];
      }
    }

    method Set(k: bytes, v: V)
      requires Valid()
      modifies this, mem
      ensures Valid() && base == old(base) && mem.vals == old(mem.vals)[k := v] && dirtyKeys != []
    {
      RecordUndoes(mem.vals, undo, k, Some(v));
      Record(k);
      mem.Set(k, v);
    }

    method Delete(k: bytes)
      requires Valid()
      modifies this, mem
      ensures Valid() && base == old(base) && mem.vals == old(mem.vals) - {k} && dirtyKeys != []
    {
      RecordUndoes(mem.vals, undo, k, None);
      Record(k);
      mem.Delete(k);
    }

    /** Restores the state the transaction began in. */
    method Rollback()
      requires Valid()
      modifies this, mem
      ensures Valid() && base == old(base) && mem.vals == base
    {
      var i := |undo|;
      assert undo[..i] == undo;
      while i > 0
        invariant 0 <= i <= |undo| && mem.Valid()
        invariant Undone(mem.vals, undo[..i]) == base && base == old(base)
        invariant undo == old(undo) && dirty == old(dirty) && dirtyKeys == old(dirtyKeys)
      {
        i := i - 1;
        var op := undo[i];
        assert undo[..i + 1][..i] == undo[..i];
        if op.prior.Some? {
          mem.Set(op.key, op.prior.value);
        } else {
          mem.Delete(op.key);
        }
      }
      assert undo[..0] == [];
      undo := [];
    }

    /** The end of an apply: roll back on error, else commit the changeset, and roll back if
        that fails. With a persister, memory and disk agree afterwards either way; without one,
        or with nothing to commit, the disk is not asked. */
    method Finish(persister: bool, disk: Disk, marshal: V -> bytes, failed: bool, commitFails: bool) returns (ok: bool)
      requires Valid() && (persister ==> disk.rows == Encoded(base, marshal))
      modifies this, mem, disk
      ensures Valid() && (persister ==> disk.rows == Encoded(mem.vals, marshal))
      ensures ok <==> !failed && (!persister || old(dirtyKeys) == [] || !commitFails)
      ensures mem.vals == if ok then old(mem.vals) else old(base)
      ensures !persister || failed || old(dirtyKeys) == [] ==> disk.rows == old(disk.rows)
    {
      if failed {
        Rollback();
        return false;
      }
      CommitMatches(base, mem.vals, marshal, dirtyKeys);
      if !persister || |dirtyKeys| == 0 {
        return true;
      }
      var rows: seq<Row> := [];
      for i := 0 to |dirtyKeys|
        invariant rows == Changes(mem.vals, marshal, dirtyKeys[..i])
      {
        rows := rows + [Change(mem.vals, marshal, dirtyKeys[i])];
        assert dirtyKeys[..i + 1][..i] == dirtyKeys[..i];
      }
      assert dirtyKeys[..|dirtyKeys|] == dirtyKeys;
      ok := disk.Commit(rows, commitFails);
      if !ok {
        Rollback();
      }
    }
  }

  // ---- snapshots ----

  /** The whole state as encoded rows in key order. */
  function Dumped<V>(keys: seq<bytes>, vals: map<bytes, V>, marshal: V -> bytes): (rows: seq<(bytes, bytes)>)
    requires forall k :: k in keys ==> k in vals
    ensures |rows| == |keys|
    ensures forall i :: 0 <= i < |rows| ==> rows[i] == (keys[i], marshal(vals[keys[i]]))
  {
    seq(|keys|, i requires 0 <= i < |keys| => (keys[i], marshal(vals[keys[i]])))
  }

  method Dump<V>(kv: MemKV<V>, marshal: V -> bytes) returns (rows: seq<(bytes, bytes)>)
    requires kv.Valid()
    ensures rows == Dumped(kv.keys, kv.vals, marshal)
  {
    rows := [];
    for i := 0 to |kv.keys|
      invariant |rows| == i && forall j :: 0 <= j < i ==> rows[j] == (kv.keys[j], marshal(kv.vals[kv.keys[j]]))
    {
      rows := rows + [(kv.keys[i], marshal(kv.vals[kv.keys[i]]))];
    }
  }

  /** Equal states dump to equal bytes: the key order is fixed by the keys. */
  lemma DumpIsDeterministic<V>(k1: seq<bytes>, k2: seq<bytes>, vals: map<bytes, V>, marshal: V -> bytes)
    requires Indexes(k1, vals) && Indexes(k2, vals)
    ensures Dumped(k1, vals, marshal) == Dumped(k2, vals, marshal)
  {
    AscendingUnique(k1, k2);
  }

  lemma {:induction false} AscendingUnique(a: seq<bytes>, b: seq<bytes>)
    requires Ascending(a) && Ascending(b) && forall k :: k in a <==> k in b
    ensures a == b
    decreases |a|
  {
    if a == [] {
      assert forall j :: 0 <= j < |b| ==> b[j] in b;
    } else {
      assert a[0] in a && b != [];
      HeadsMeet(a, b);
      var s, t := a[1..], b[1..];
      assert a == [a[0]] + s && b == [b[0]] + t;
      forall k
        ensures k in s <==> k in t
      {
        TailLacksHead(a);
        TailLacksHead(b);
        assert k in s ==> k in a;
        assert k in t ==> k in b;
      }
      TailAscends(a);
      TailAscends(b);
      AscendingUnique(s, t);
    }
  }

  lemma TailAscends(a: seq<bytes>)
    requires a != [] && Ascending(a)
    ensures Ascending(a[1..])
  {
    hide Less;
  }

  lemma TailLacksHead(a: seq<bytes>)
    requires a != [] && Ascending(a)
    ensures a[0] !in a[1..]
  {
    Irreflexive(a[0]);
  }

  lemma HeadsMeet(a: seq<bytes>, b: seq<bytes>)
    requires a != [] && b != [] && Ascending(a) && Ascending(b) && forall k :: k in a <==> k in b
    ensures a[0] == b[0]
  {
    assert a[0] in b && b[0] in a;
    var i :| 0 <= i < |b| && b[i] == a[0];
    var j :| 0 <= j < |a| && a[j] == b[0];
    if i > 0 && j > 0 {
      Asymmetric(a[0], b[0]);
    }
  }

  /** Decoding a dumped row gives back the record. */
  ghost predicate RoundTrips<V(!new)>(vals: map<bytes, V>, marshal: V -> bytes, decode: (bytes, bytes) -> Result<V,
                                      bool>) {
    forall k :: k in vals ==> decode(k, marshal(vals[k])) == Ok(vals[k])
  }

  /** All of a store's keys, in some order. */
  ghost predicate Lists<V>(keys: seq<bytes>, vals: map<bytes, V>) { forall k :: k in keys <==> k in vals }

  /** Loading a store's rows one by one, in any order, reproduces it. */
  method Restore<V(!new)>(rows: seq<(bytes, bytes)>, decode: (bytes, bytes) -> Result<V, bool>)
    returns (kv: MemKV<V>, ok: bool)
    ensures fresh(kv) && kv.Valid()
    ensures ok <==> forall j :: 0 <= j < |rows| ==> decode(rows[j].0, rows[j].1).Ok?
    ensures forall keys: seq<bytes>, vals: map<bytes, V>, marshal: V -> bytes ::
      Lists(keys, vals) && RoundTrips(vals, marshal, decode) && rows == Dumped(keys, vals, marshal) ==>
      ok && kv.vals == vals
  {
    kv := new MemKV();
    ok := true;
    var i := 0;
    while i < |rows|
      invariant 0 <= i <= |rows| && fresh(kv) && kv.Valid()
      invariant kv.vals == Loaded(rows[..i], decode)
      invariant forall j :: 0 <= j < i ==> decode(rows[j].0, rows[j].1).Ok?
    {
      var rec := decode(rows[i].0, rows[i].1);
      if rec.Err? {
        ok := false;
        break;
      }
      kv.Set(rows[i].0, rec.value);
      assert rows[..i + 1][..i] == rows[..i];
      i := i + 1;
    }
    assert rows[..|rows|] == rows;
    forall keys: seq<bytes>, vals: map<bytes, V>, marshal: V -> bytes
      | Lists(keys, vals) && RoundTrips(vals, marshal, decode) && rows == Dumped(keys, vals, marshal)
      ensures ok && kv.vals == vals
    {
      LoadedIsDumped(keys, vals, marshal, decode);
      assert forall j :: 0 <= j < |keys| ==> keys[j] in keys;
    }
  }

  ghost function Loaded<V>(rows: seq<(bytes, bytes)>, decode: (bytes, bytes) -> Result<V, bool>): map<bytes, V> {
    if rows == [] then map[]
    else
      var last := rows[|rows| - 1];
      var before := Loaded(rows[..|rows| - 1], decode);
      var rec := decode(last.0, last.1);
      if rec.Ok? then before[last.0 := rec.value] else before
  }

  lemma LoadedIsDumped<V(!new)>(keys: seq<bytes>, vals: map<bytes, V>, marshal: V -> bytes,
                                decode: (bytes, bytes) -> Result<V, bool>)
    requires Lists(keys, vals) && RoundTrips(vals, marshal, decode)
    ensures Loaded(Dumped(keys, vals, marshal), decode) == vals
  {
    LoadedPart(keys, vals, marshal, decode, |keys|);
    var rows := Dumped(keys, vals, marshal);
    assert rows[..|keys|] == rows && keys[..|keys|] == keys;
  }

  lemma {:induction false} LoadedPart<V(!new)>(keys: seq<bytes>, vals: map<bytes, V>, marshal: V -> bytes,
                                               decode: (bytes, bytes) -> Result<V, bool>, n: nat)
    requires Lists(keys, vals) && RoundTrips(vals, marshal, decode) && n <= |keys|
    ensures Loaded(Dumped(keys, vals, marshal)[..n], decode) == map k | k in vals && k in keys[..n] :: vals[k]
    decreases n
  {
    hide Less;
    if n > 0 {
      LoadedPart(keys, vals, marshal, decode, n - 1);
      var rows := Dumped(keys, vals, marshal);
      assert rows[..n][..n - 1] == rows[..n - 1];
      assert keys[n - 1] in keys;
      assert keys[..n] == keys[..n - 1] + [keys[n - 1]];
    }
  }
}
