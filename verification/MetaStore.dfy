/** The store as it runs: rows under encoded names in a sorted key-value map, changed inside
    transactions. Every apply is the specified step of the state the rows stand for. */
module MetaStore {
  import opened Bytes
  import opened Lex
  import opened MetaVid
  import opened MetaKeys
  import opened MetaKV
  import opened MetaPersist
  import opened MetaRecords
  import MetaSystem
  import opened MetaApply

  // ---- rows and the state they stand for ----

  /** A record where it belongs, under a name that reads back. */
  predicate RowOk(r: RowKey, v: Record) {
    && ValidRow(r) && Fits(r, v)
    && (r.VersionRow? ==> v.version.id == r.id)
    && (r.PartRow? ==> v.part.number == r.part)
  }

  ghost predicate RowsOk(st: State) {
    forall r :: Lookup(st, r).Some? ==> RowOk(r, Lookup(st, r).value)
  }

  /** The named rows are exactly the state's rows. */
  ghost predicate Represents(vals: map<bytes, Record>, st: State) {
    && RowsOk(st)
    && (forall r :: ValidRow(r) ==> Look(vals, Encode(r)) == Lookup(st, r))
    && (forall k :: k in vals ==> exists r :: ValidRow(r) && Encode(r) == k)
  }

  lemma RepresentsEmpty()
    ensures Represents(map[], Empty)
  {
  }

  lemma NamedRow(vals: map<bytes, Record>, st: State, k: bytes) returns (r: RowKey)
    requires Represents(vals, st) && k in vals
    ensures ValidRow(r) && Encode(r) == k && Lookup(st, r) == Some(vals[k]) && RowOk(r, vals[k])
  {
    r :| ValidRow(r) && Encode(r) == k;
    assert Look(vals, Encode(r)) == Lookup(st, r);
  }

  lemma LookValid(vals: map<bytes, Record>, st: State, r: RowKey)
    requires Represents(vals, st) && ValidRow(r)
    ensures Look(vals, Encode(r)) == Lookup(st, r)
  {
  }

  lemma LookOk(vals: map<bytes, Record>, st: State, r: RowKey)
    requires Represents(vals, st) && Lookup(st, r).Some?
    ensures RowOk(r, Lookup(st, r).value)
  {
  }

  /** A bucket row's name decides its bucket even unchecked. */
  lemma LookBucket(vals: map<bytes, Record>, st: State, b: bytes)
    requires Represents(vals, st)
    ensures Look(vals, Encode(BucketRow(b))) == Lookup(st, BucketRow(b))
  {
    var k := Encode(BucketRow(b));
    if k in vals {
      var r := NamedRow(vals, st, k);
      EncodeParts(r);
      EncodeParts(BucketRow(b));
      SplitTable(TableOf(r), BodyOf(r), BucketsTable, b);
      assert TableOf(r)[0] == 98;
    } else if Lookup(st, BucketRow(b)).Some? {
      LookOk(vals, st, BucketRow(b));
      LookValid(vals, st, BucketRow(b));
    }
  }

  lemma LookVersion(vals: map<bytes, Record>, st: State, b: bytes, k: bytes, id: vid)
    requires Represents(vals, st)
    ensures Look(vals, Encode(VersionRow(b, k, id))) == Lookup(st, VersionRow(b, k, id))
  {
    var q := VersionRow(b, k, id);
    if Encode(q) in vals {
      var r := NamedRow(vals, st, Encode(q));
      UncheckedVersionRow(b, k, id, r);
    } else if Lookup(st, q).Some? {
      LookOk(vals, st, q);
      LookValid(vals, st, q);
    }
  }

  lemma RepresentsSet(vals: map<bytes, Record>, st: State, r: RowKey, v: Record)
    requires Represents(vals, st) && RowOk(r, v)
    ensures Represents(vals[Encode(r) := v], SetRow(st, r, v))
  {
    hide SetRow, Lookup, Look, Encode, ValidRow, RowOk;
    RowOkValid(r, v);
    var more, t := vals[Encode(r) := v], SetRow(st, r, v);
    forall q
      ensures Lookup(t, q).Some? ==> RowOk(q, Lookup(t, q).value)
      ensures ValidRow(q) ==> Look(more, Encode(q)) == Lookup(t, q)
    {
      assert Lookup(st, q).Some? ==> RowOk(q, Lookup(st, q).value);
      assert ValidRow(q) ==> Look(vals, Encode(q)) == Lookup(st, q);
      SetRowAt(vals, st, r, v, q);
    }
    assert forall k :: k in more ==> k in vals || k == Encode(r);
  }

  lemma RowOkValid(r: RowKey, v: Record)
    requires RowOk(r, v)
    ensures ValidRow(r) && Fits(r, v)
  {
  }

  lemma SetRowAt(vals: map<bytes, Record>, st: State, r: RowKey, v: Record, q: RowKey)
    requires RowOk(r, v) && (Lookup(st, q).Some? ==> RowOk(q, Lookup(st, q).value))
    requires ValidRow(q) ==> Look(vals, Encode(q)) == Lookup(st, q)
    ensures Lookup(SetRow(st, r, v), q).Some? ==> RowOk(q, Lookup(SetRow(st, r, v), q).value)
    ensures ValidRow(q) ==> Look(vals[Encode(r) := v], Encode(q)) == Lookup(SetRow(st, r, v), q)
  {
    hide SetRow, Lookup, Look, Encode, ValidRow, RowOk;
    RowOkValid(r, v);
    SetRowLookup(st, r, v, q);
    LookSet(vals, Encode(r), v, Encode(q));
    if ValidRow(q) && Encode(q) == Encode(r) {
      EncodeInjective(q, r);
    }
  }

  lemma RepresentsDrop(vals: map<bytes, Record>, st: State, r: RowKey)
    requires Represents(vals, st) && ValidRow(r)
    ensures Represents(vals - {Encode(r)}, DropRow(st, r))
  {
    hide DropRow, Lookup, Look, Encode, ValidRow, RowOk;
    var fewer, t := vals - {Encode(r)}, DropRow(st, r);
    forall q
      ensures Lookup(t, q).Some? ==> RowOk(q, Lookup(t, q).value)
      ensures ValidRow(q) ==> Look(fewer, Encode(q)) == Lookup(t, q)
    {
      assert Lookup(st, q).Some? ==> RowOk(q, Lookup(st, q).value);
      assert ValidRow(q) ==> Look(vals, Encode(q)) == Lookup(st, q);
      DropRowAt(vals, st, r, q);
    }
    assert forall k :: k in fewer ==> k in vals;
  }

  lemma DropRowAt(vals: map<bytes, Record>, st: State, r: RowKey, q: RowKey)
    requires ValidRow(r) && (Lookup(st, q).Some? ==> RowOk(q, Lookup(st, q).value))
    requires ValidRow(q) ==> Look(vals, Encode(q)) == Lookup(st, q)
    ensures Lookup(DropRow(st, r), q).Some? ==> RowOk(q, Lookup(DropRow(st, r), q).value)
    ensures ValidRow(q) ==> Look(vals - {Encode(r)}, Encode(q)) == Lookup(DropRow(st, r), q)
  {
    hide DropRow, Lookup, Encode, ValidRow, RowOk;
    DropRowLookup(st, r, q);
    if ValidRow(q) && Encode(q) == Encode(r) {
      EncodeInjective(q, r);
    }
  }

  // ---- what a scan of a key's versions finds ----

  /** The version a row under a key's prefix is. */
  lemma VersionUnder(vals: map<bytes, Record>, st: State, b: bytes, k: bytes, name: bytes) returns (id: vid)
    requires Represents(vals, st) && NoNul(b) && NoNul(k) && name in vals && IsPrefix(VersionPrefix(b, k), name)
    ensures name == Encode(VersionRow(b, k, id)) && VersionKey(b, k, id) in st.versions
    ensures vals[name] == VersionRec(st.versions[VersionKey(b, k, id)]) && vals[name].version.id == id
  {
    var r := NamedRow(vals, st, name);
    UnderVersionPrefix(b, k, r);
    id := r.id;
  }

  /** Every version of a key is at some place in the scan. */
  lemma VersionAt(keys: seq<bytes>, vals: map<bytes, Record>, st: State, b: bytes, k: bytes, id: vid, lo: nat)
    returns (j: nat)
    requires Indexes(keys, vals) && Represents(vals, st) && NoNul(b) && NoNul(k) && VersionKey(b, k, id) in st.versions
    requires Splits(keys, VersionPrefix(b, k), lo)
    ensures lo <= j < |keys| && keys[j] == Encode(VersionRow(b, k, id))
    ensures forall t :: lo <= t <= j ==> IsPrefix(VersionPrefix(b, k), keys[t])
  {
    var r := VersionRow(b, k, id);
    LookValid(vals, st, r);
    assert Encode(r) in keys;
    j :| 0 <= j < |keys| && keys[j] == Encode(r);
    UnderVersionPrefix(b, k, r);
    ScanRange(keys, VersionPrefix(b, k), lo, j);
  }

  /** Rows further along a key's prefix are older. */
  lemma LaterIsOlder(keys: seq<bytes>, b: bytes, k: bytes, x: vid, i: nat, y: vid, j: nat)
    requires Ascending(keys) && NoNul(b) && NoNul(k) && i < |keys| && j < |keys|
    requires keys[i] == Encode(VersionRow(b, k, x)) && keys[j] == Encode(VersionRow(b, k, y))
    ensures i <= j ==> x >= y
  {
    hide Encode;
    if i < j {
      VersionRowOrder(b, k, x, k, y);
      Irreflexive(k);
    } else if i == j {
      EncodeInjective(VersionRow(b, k, x), VersionRow(b, k, y));
    }
  }

  // ---- the store ----

  class Store {
    const kv: TxKV<Record>
    const persister: bool
    const disk: Disk
    const marshal: Record -> bytes
    const calendar: Calendar

    /** The state the rows stand for. */
    ghost var st: State

    /** What holds inside a transaction. */
    ghost predicate Mid()
      reads this, kv, kv.mem
    {
      kv.Valid() && Represents(kv.mem.vals, st)
    }

    /** What holds between transactions: with a persister, durable rows are the encoding of
        memory. */
    ghost predicate Valid()
      reads this, kv, kv.mem, disk
    {
      Mid() && (persister ==> disk.rows == Encoded(kv.mem.vals, marshal))
    }

    constructor (marshal: Record -> bytes, calendar: Calendar, persister: bool)
      ensures Valid() && fresh(kv) && fresh(kv.mem) && fresh(disk) && st == Empty
      ensures this.marshal == marshal && this.calendar == calendar && this.persister == persister
    {
      var mem := new MemKV<Record>();
      kv := new TxKV(mem);
      disk := new Disk(map[]);
      this.marshal := marshal;
      this.persister := persister;
      this.calendar := calendar;
      st := Empty;
      new;
      RepresentsEmpty();
    }

    method GetBucket(b: bytes) returns (c: Option<BucketConfig>)
      requires Mid()
      ensures c == Find(st.buckets, b)
      ensures c.Some? ==> NoNul(b)
    {
      LookBucket(kv.mem.vals, st, b);
      var v := kv.mem.Get(Encode(BucketRow(b)));
      if v.None? {
        return None;
      }
      LookOk(kv.mem.vals, st, BucketRow(b));
      c := Some(v.value.bucket);
    }

    method GetVersion(b: bytes, k: bytes, id: vid) returns (e: Option<VersionEntry>)
      requires Mid()
      ensures e == Find(st.versions, VersionKey(b, k, id))
      ensures e.Some? ==> NoNul(b) && NoNul(k) && e.value.id == id
    {
      LookVersion(kv.mem.vals, st, b, k, id);
      var v := kv.mem.Get(Encode(VersionRow(b, k, id)));
      if v.None? {
        return None;
      }
      LookOk(kv.mem.vals, st, VersionRow(b, k, id));
      e := Some(v.value.version);
    }

    /** A row whose name is well formed. */
    method Get(r: RowKey) returns (v: Option<Record>)
      requires Mid() && ValidRow(r)
      ensures v == Lookup(st, r)
    {
      LookValid(kv.mem.vals, st, r);
      v := kv.mem.Get(Encode(r));
    }

    method Set(r: RowKey, v: Record)
      requires Mid() && RowOk(r, v)
      modifies this`st, kv, kv.mem
      ensures Mid() && st == SetRow(old(st), r, v) && kv.base == old(kv.base) && kv.dirtyKeys != []
    {
      hide Represents, SetRow, RowOk, Encode;
      RowOkValid(r, v);
      RepresentsSet(kv.mem.vals, st, r, v);
      kv.Set(Encode(r), v);
      st := SetRow(st, r, v);
    }

    method Delete(r: RowKey)
      requires Mid() && ValidRow(r)
      modifies this`st, kv, kv.mem
      ensures Mid() && st == DropRow(old(st), r) && kv.base == old(kv.base) && kv.dirtyKeys != []
    {
      hide Represents, DropRow, ValidRow, Encode;
      RepresentsDrop(kv.mem.vals, st, r);
      kv.Delete(Encode(r));
      st := DropRow(st, r);
    }

    /** The first row under a key's version prefix is its newest version. */
    method NewestVersion(b: bytes, k: bytes) returns (e: Option<VersionEntry>)
      requires Mid() && NoNul(b) && NoNul(k)
      ensures e.None? <==> Newest(st, b, k).None?
      ensures e.Some? ==> Newest(st, b, k) == Some(e.value.id) && e.value == st.versions[VersionKey(b, k, e.value.id)]
    {
      hide Represents, Encode;
      var p := VersionPrefix(b, k);
      var i := kv.mem.Search(p);
      ghost var keys, vals := kv.mem.keys, kv.mem.vals;
      if i < |kv.mem.keys| && IsPrefix(p, kv.mem.keys[i]) {
        assert keys[i] in vals;
        var v := kv.mem.vals[kv.mem.keys[i]];
        ghost var id := VersionUnder(vals, st, b, k, keys[i]);
        forall x | x in Ids(st, b, k)
          ensures x <= id
        {
          var j := VersionAt(keys, vals, st, b, k, x, i);
          LaterIsOlder(keys, b, k, id, i, x, j);
        }
        e := Some(v.version);
      } else {
        forall x: vid
          ensures x !in Ids(st, b, k)
        {
          if x in Ids(st, b, k) {
            var j := VersionAt(keys, vals, st, b, k, x, i);
            assert false;
          }
        }
        e := None;
      }
    }

    /** The null version: the first row under the prefix that is marked null. */
    method NullVersion(b: bytes, k: bytes) returns (e: Option<VersionEntry>)
      requires Mid() && NoNul(b) && NoNul(k)
      ensures e.None? <==> NullIds(st, b, k) == {}
      ensures e.Some? ==> e.value.id in NullIds(st, b, k) && MaxId(NullIds(st, b, k)) == e.value.id
      ensures e.Some? ==> e.value == st.versions[VersionKey(b, k, e.value.id)]
    {
      hide Represents, Encode;
      var p := VersionPrefix(b, k);
      var lo := kv.mem.Search(p);
      ghost var keys, vals := kv.mem.keys, kv.mem.vals;
      var i := lo;
      while i < |kv.mem.keys| && IsPrefix(p, kv.mem.keys[i])
        invariant lo <= i <= |keys| && keys == kv.mem.keys && vals == kv.mem.vals
        invariant forall t :: lo <= t < i ==>
          keys[t] in vals && vals[keys[t]].VersionRec? && !vals[keys[t]].version.nullVersion
      {
        assert keys[i] in vals;
        ghost var id := VersionUnder(vals, st, b, k, keys[i]);
        var v := kv.mem.vals[kv.mem.keys[i]].version;
        if v.nullVersion {
          NullIsNewest(keys, vals, st, b, k, lo, i, id);
          return Some(v);
        }
        i := i + 1;
      }
      forall x: vid
        ensures x !in NullIds(st, b, k)
      {
        if x in NullIds(st, b, k) {
          var j := VersionAt(keys, vals, st, b, k, x, lo);
          NotNullBefore(keys, vals, st, b, k, lo, i, x, j);
        }
      }
      e := None;
    }

    // ---- the steps, inside a transaction ----

    /** Whether any row has a prefix. */
    method AnyUnder(p: bytes) returns (any: bool)
      requires Mid()
      ensures any <==> exists k :: k in kv.mem.vals && IsPrefix(p, k)
    {
      var i := kv.mem.Search(p);
      any := i < |kv.mem.keys| && IsPrefix(p, kv.mem.keys[i]);
      ghost var keys, vals := kv.mem.keys, kv.mem.vals;
      if any {
        assert keys[i] in vals;
      } else {
        forall k | k in vals
          ensures !IsPrefix(p, k)
        {
          var j :| 0 <= j < |keys| && keys[j] == k;
          ScanRange(keys, p, i, j);
        }
      }
    }

    method CreateBucket(p: Proposal) returns (r: Result<Applied, ApplyError>)
      requires Mid() && p.CreateBucket?
      modifies this`st, kv, kv.mem
      ensures Mid() && kv.base == old(kv.base)
      ensures st == Step(old(st), p, calendar).st && r == Step(old(st), p, calendar).res
      ensures r.Ok? ==> (kv.dirtyKeys != [] <==> old(kv.dirtyKeys) != [] || !Idle(old(st), p))
    {
      hide Represents;
      var ok := ValidateBucketName(p.bucket);
      if !ok {
        return Err(InvalidBucketName);
      }
      hide ValidBucketName;
      var c := GetBucket(p.bucket);
      if c.Some? {
        return Err(BucketExists);
      }
      var versioning := if p.lock then VersioningEnabled else Unversioned;
      Set(BucketRow(p.bucket),
          BucketRec(BucketConfig(FormatVersion, p.bucket, p.at, versioning, p.lock, RetentionNone, 0, 0, [])));
      r := Ok(Done);
    }

    method DeleteBucket(p: Proposal) returns (r: Result<Applied, ApplyError>)
      requires Mid() && p.DeleteBucket?
      modifies this`st, kv, kv.mem
      ensures Mid() && kv.base == old(kv.base)
      ensures st == Step(old(st), p, calendar).st && r == Step(old(st), p, calendar).res
      ensures r.Ok? ==> (kv.dirtyKeys != [] <==> old(kv.dirtyKeys) != [] || !Idle(old(st), p))
    {
      hide Represents;
      var c := GetBucket(p.bucket);
      if c.None? {
        return Err(NoSuchBucket);
      }
      var versions := AnyUnder(BucketVersionsPrefix(p.bucket));
      var uploads := AnyUnder(UploadsPrefix(p.bucket));
      EmptyByPrefix(kv.mem.vals, st, p.bucket);
      hide BucketEmpty;
      if versions || uploads {
        return Err(BucketNotEmpty);
      }
      Delete(BucketRow(p.bucket));
      r := Ok(Done);
    }

    method SetBucketVersioning(p: Proposal) returns (r: Result<Applied, ApplyError>)
      requires Mid() && p.SetBucketVersioning?
      modifies this`st, kv, kv.mem
      ensures Mid() && kv.base == old(kv.base)
      ensures st == Step(old(st), p, calendar).st && r == Step(old(st), p, calendar).res
      ensures r.Ok? ==> (kv.dirtyKeys != [] <==> old(kv.dirtyKeys) != [] || !Idle(old(st), p))
    {
      hide Represents;
      var c := GetBucket(p.bucket);
      if c.None? {
        return Err(NoSuchBucket);
      }
      if p.state != VersioningEnabled && p.state != VersioningSuspended {
        return Err(InvalidVersioningState);
      }
      if p.state == VersioningSuspended && c.value.lockEnabled {
        return Err(InvalidVersioningState);
      }
      Set(BucketRow(p.bucket), BucketRec(c.value.(versioning := p.state)));
      r := Ok(Done);
    }

    method SetLockConfiguration(p: Proposal) returns (r: Result<Applied, ApplyError>)
      requires Mid() && p.SetLockConfiguration?
      modifies this`st, kv, kv.mem
      ensures Mid() && kv.base == old(kv.base)
      ensures st == Step(old(st), p, calendar).st && r == Step(old(st), p, calendar).res
      ensures r.Ok? ==> (kv.dirtyKeys != [] <==> old(kv.dirtyKeys) != [] || !Idle(old(st), p))
    {
      hide Represents;
      var c := GetBucket(p.bucket);
      if c.None? {
        return Err(NoSuchBucket);
      }
      if !c.value.lockEnabled {
        return Err(InvalidRetention);
      }
      if p.mode == RetentionNone {
        if p.days != 0 || p.years != 0 {
          return Err(InvalidRetention);
        }
      } else if p.mode == RetentionGovernance || p.mode == RetentionCompliance {
        if (p.days == 0) == (p.years == 0) {
          return Err(InvalidRetention);
        }
      } else {
        return Err(InvalidRetention);
      }
      Set(BucketRow(p.bucket),
          BucketRec(c.value.(defaultMode := p.mode, defaultDays := p.days, defaultYears := p.years)));
      r := Ok(Done);
    }

    /** The ID a commit uses: the minted one, or just past the key's newest. */
    method Bump(b: bytes, k: bytes, minted: vid) returns (id: vid)
      requires Mid() && NoNul(b) && NoNul(k)
      ensures id == Bumped(st, b, k, minted)
    {
      hide Represents, Value, IdBytes, IdFrom;
      id := minted;
      var newest := NewestVersion(b, k);
      if newest.Some? && minted <= newest.value.id {
        var next := Next(IdBytes(newest.value.id));
        NextId(newest.value.id, next);
        id := IdFrom(next);
      }
    }

    /** Replaces the null version, if any and not locked. */
    method RemoveNullVersion(b: bytes, k: bytes, at: int64) returns (r: Result<seq<vid>, ApplyError>)
      requires Mid() && NoNul(b) && NoNul(k)
      modifies this`st, kv, kv.mem
      ensures Mid() && kv.base == old(kv.base)
      ensures var nulls := NullIds(old(st), b, k);
        if nulls == {} then st == old(st) && r == Ok([])
        else
          var prior := old(st).versions[VersionKey(b, k, MaxId(nulls))];
          if LockedAt(prior, at, false) then st == old(st) && r == Err(ObjectLocked)
          else st == WithoutVersion(old(st), b, k, MaxId(nulls)) && r == Ok(DataIds(prior))
    {
      hide Represents;
      var prior := NullVersion(b, k);
      if prior.None? {
        return Ok([]);
      }
      if LockedAt(prior.value, at, false) {
        return Err(ObjectLocked);
      }
      Delete(VersionRow(b, k, prior.value.id));
      r := Ok(DataIds(prior.value));
    }

    /** The commit path: replace the null version when the entry is one, insert the entry, and
        set or clear the derived row. */
    method CommitVersion(b: bytes, k: bytes, at: int64, e: VersionEntry) returns (r: Result<Applied, ApplyError>)
      requires Mid() && NoNul(b) && NoNul(k)
      modifies this`st, kv, kv.mem
      ensures Mid() && kv.base == old(kv.base)
      ensures st == Commit(old(st), b, k, at, e).st && r == Commit(old(st), b, k, at, e).res &&
        (r.Ok? ==> kv.dirtyKeys != [])
    {
      hide Represents, LockedAt, DataIds;
      var freed: seq<vid> := [];
      if e.nullVersion {
        var replaced := RemoveNullVersion(b, k, at);
        if replaced.Err? {
          return Err(replaced.error);
        }
        freed := replaced.value;
      }
      Set(VersionRow(b, k, e.id), VersionRec(e));
      if e.kind == KindObject {
        Set(CurrentRow(b, k), CurrentRec(CurrentFor(e)));
      } else {
        Delete(CurrentRow(b, k));
      }
      r := Ok(Applied(Some(e.id), freed, false));
    }

    method PutObject(p: Proposal) returns (r: Result<Applied, ApplyError>)
      requires Mid() && p.PutObject?
      modifies this`st, kv, kv.mem
      ensures Mid() && kv.base == old(kv.base)
      ensures st == Step(old(st), p, calendar).st && r == Step(old(st), p, calendar).res
      ensures r.Ok? ==> (kv.dirtyKeys != [] <==> old(kv.dirtyKeys) != [] || !Idle(old(st), p))
    {
      hide Represents, Commit, Bumped, Encode;
      var c := GetBucket(p.bucket);
      if c.None? {
        return Err(NoSuchBucket);
      }
      if !ValidObjectKey(p.key) {
        return Err(InvalidObjectKey);
      }
      if (p.mode != RetentionNone || p.hold) && !c.value.lockEnabled {
        return Err(InvalidRetention);
      }
      if p.mode != RetentionNone && p.retainUntilMS <= p.at {
        return Err(InvalidRetention);
      }
      var mode, until := p.mode, p.retainUntilMS;
      if mode == RetentionNone && c.value.lockEnabled && c.value.defaultMode != RetentionNone {
        mode := c.value.defaultMode;
        until := calendar(p.at, c.value.defaultDays, c.value.defaultYears);
      }
      var id := Bump(p.bucket, p.key, p.id);
      var e := VersionEntry(FormatVersion, id, p.id, KindObject, p.size, p.at, p.etag, p.contentType, p.userMetadata,
                            p.layout, p.objectChecksum, mode, until, p.hold, c.value.versioning != VersioningEnabled,
                            [], []);
      r := CommitVersion(p.bucket, p.key, p.at, e);
    }

    method DeleteObject(p: Proposal) returns (r: Result<Applied, ApplyError>)
      requires Mid() && p.DeleteObject?
      modifies this`st, kv, kv.mem
      ensures Mid() && kv.base == old(kv.base)
      ensures st == Step(old(st), p, calendar).st && r == Step(old(st), p, calendar).res
      ensures r.Ok? ==> (kv.dirtyKeys != [] <==> old(kv.dirtyKeys) != [] || !Idle(old(st), p))
    {
      hide Represents, Commit, Bumped, LockedAt, DataIds;
      var c := GetBucket(p.bucket);
      if c.None? {
        return Err(NoSuchBucket);
      }
      if !ValidObjectKey(p.key) {
        return Err(InvalidObjectKey);
      }
      if c.value.versioning == Unversioned {
        var newest := NewestVersion(p.bucket, p.key);
        if newest.None? {
          return Ok(Done);
        }
        if LockedAt(newest.value, p.at, false) {
          return Err(ObjectLocked);
        }
        Delete(VersionRow(p.bucket, p.key, newest.value.id));
        Delete(CurrentRow(p.bucket, p.key));
        return Ok(Applied(None, DataIds(newest.value), true));
      }
      var id := Bump(p.bucket, p.key, p.id);
      r := CommitVersion(p.bucket, p.key, p.at, Marker(c.value, p, id));
    }

    method DeleteVersion(p: Proposal) returns (r: Result<Applied, ApplyError>)
      requires Mid() && p.DeleteVersion?
      modifies this`st, kv, kv.mem
      ensures Mid() && kv.base == old(kv.base)
      ensures st == Step(old(st), p, calendar).st && r == Step(old(st), p, calendar).res
      ensures r.Ok? ==> (kv.dirtyKeys != [] <==> old(kv.dirtyKeys) != [] || !Idle(old(st), p))
    {
      hide Represents, LockedAt, Encode;
      var c := GetBucket(p.bucket);
      if c.None? {
        return Err(NoSuchBucket);
      }
      if !ValidObjectKey(p.key) {
        return Err(InvalidObjectKey);
      }
      var e := GetVersion(p.bucket, p.key, p.id);
      if e.None? {
        return Ok(Done);
      }
      if LockedAt(e.value, p.at, p.bypass) {
        return Err(ObjectLocked);
      }
      var newest := NewestVersion(p.bucket, p.key);
      var wasNewest := newest.Some? && newest.value.id == e.value.id;
      Delete(VersionRow(p.bucket, p.key, e.value.id));
      if wasNewest {
        var next := NewestVersion(p.bucket, p.key);
        if next.Some? && next.value.kind == KindObject {
          Set(CurrentRow(p.bucket, p.key), CurrentRec(CurrentFor(next.value)));
        } else {
          Delete(CurrentRow(p.bucket, p.key));
        }
      }
      r := Ok(Applied(None, [], true));
    }

    method TargetOf(b: bytes, k: bytes, id: vid) returns (r: Result<VersionEntry, ApplyError>)
      requires Mid()
      ensures r == LockTarget(st, b, k, id)
      ensures r.Ok? ==> NoNul(b) && NoNul(k) && r.value.id == id
    {
      hide Represents;
      var c := GetBucket(b);
      if c.None? {
        return Err(NoSuchBucket);
      }
      if !ValidObjectKey(k) {
        return Err(InvalidObjectKey);
      }
      if !c.value.lockEnabled {
        return Err(InvalidRetention);
      }
      var e := GetVersion(b, k, id);
      if e.None? {
        return Err(NoSuchVersion);
      }
      if e.value.kind != KindObject {
        return Err(InvalidRetention);
      }
      r := Ok(e.value);
    }

    method UpdateRetention(p: Proposal) returns (r: Result<Applied, ApplyError>)
      requires Mid() && p.UpdateRetention?
      modifies this`st, kv, kv.mem
      ensures Mid() && kv.base == old(kv.base)
      ensures st == Step(old(st), p, calendar).st && r == Step(old(st), p, calendar).res
      ensures r.Ok? ==> (kv.dirtyKeys != [] <==> old(kv.dirtyKeys) != [] || !Idle(old(st), p))
    {
      hide Represents, LockTarget, Encode;
      var target := TargetOf(p.bucket, p.key, p.id);
      if target.Err? {
        return Err(target.error);
      }
      var e := target.value;
      if p.mode != RetentionNone && p.retainUntilMS <= p.at {
        return Err(InvalidRetention);
      }
      var curMode := e.mode;
      if curMode != RetentionNone && e.retainUntilMS <= p.at {
        curMode := RetentionNone;
      }
      if curMode == RetentionCompliance {
        if p.mode != RetentionCompliance || p.retainUntilMS < e.retainUntilMS {
          return Err(ObjectLocked);
        }
      } else if curMode == RetentionGovernance {
        if !p.bypass && (p.mode == RetentionNone || p.retainUntilMS < e.retainUntilMS) {
          return Err(ObjectLocked);
        }
      }
      var until := if p.mode == RetentionNone then 0 else p.retainUntilMS;
      Set(VersionRow(p.bucket, p.key, e.id), VersionRec(e.(mode := p.mode, retainUntilMS := until)));
      r := Ok(Done);
    }

    method UpdateLegalHold(p: Proposal) returns (r: Result<Applied, ApplyError>)
      requires Mid() && p.UpdateLegalHold?
      modifies this`st, kv, kv.mem
      ensures Mid() && kv.base == old(kv.base)
      ensures st == Step(old(st), p, calendar).st && r == Step(old(st), p, calendar).res
      ensures r.Ok? ==> (kv.dirtyKeys != [] <==> old(kv.dirtyKeys) != [] || !Idle(old(st), p))
    {
      hide Represents, LockTarget, Encode;
      var target := TargetOf(p.bucket, p.key, p.id);
      if target.Err? {
        return Err(target.error);
      }
      Set(VersionRow(p.bucket, p.key, target.value.id), VersionRec(target.value.(hold := p.hold)));
      r := Ok(Done);
    }

    method ReEncodeObject(p: Proposal) returns (r: Result<Applied, ApplyError>)
      requires Mid() && p.ReEncodeObject?
      modifies this`st, kv, kv.mem
      ensures Mid() && kv.base == old(kv.base)
      ensures st == Step(old(st), p, calendar).st && r == Step(old(st), p, calendar).res
      ensures r.Ok? ==> (kv.dirtyKeys != [] <==> old(kv.dirtyKeys) != [] || !Idle(old(st), p))
    {
      hide Represents;
      var e := GetVersion(p.bucket, p.key, p.id);
      if e.None? {
        return Err(NoSuchVersion);
      }
      if e.value.kind != KindObject || |e.value.parts| > 0 {
        return Err(InvalidReEncode);
      }
      if p.dataShards == 0 || Width(p.dataShards, p.parityShards) != |p.shardChecksums| {
        return Err(InvalidReEncode);
      }
      var layout := e.value.layout.(dataShards := p.dataShards, parityShards := p.parityShards,
                                    shardChecksums := p.shardChecksums);
      Set(VersionRow(p.bucket, p.key, p.id), VersionRec(e.value.(dataId := p.dataId, layout := layout)));
      r := Ok(Done);
    }

    method RewrapDEK(p: Proposal) returns (r: Result<Applied, ApplyError>)
      requires Mid() && p.RewrapDEK?
      modifies this`st, kv, kv.mem
      ensures Mid() && kv.base == old(kv.base)
      ensures st == Step(old(st), p, calendar).st && r == Step(old(st), p, calendar).res
      ensures r.Ok? ==> (kv.dirtyKeys != [] <==> old(kv.dirtyKeys) != [] || !Idle(old(st), p))
    {
      hide Represents;
      var e := GetVersion(p.bucket, p.key, p.id);
      if e.None? {
        return Err(NoSuchVersion);
      }
      if e.value.kind != KindObject || e.value.layout.encAlgorithm == EncNone {
        return Err(InvalidRewrap);
      }
      if |p.wrappedDEK| == 0 || p.kekFingerprint == 0 {
        return Err(InvalidRewrap);
      }
      if e.value.layout.kekFingerprint == p.kekFingerprint {
        return Ok(Done);
      }
      var layout := e.value.layout.(wrappedDEK := p.wrappedDEK, kekFingerprint := p.kekFingerprint);
      Set(VersionRow(p.bucket, p.key, p.id), VersionRec(e.value.(layout := layout)));
      r := Ok(Done);
    }

    method CreateUpload(p: Proposal) returns (r: Result<Applied, ApplyError>)
      requires Mid() && p.CreateUpload?
      modifies this`st, kv, kv.mem
      ensures Mid() && kv.base == old(kv.base)
      ensures st == Step(old(st), p, calendar).st && r == Step(old(st), p, calendar).res
      ensures r.Ok? ==> (kv.dirtyKeys != [] <==> old(kv.dirtyKeys) != [] || !Idle(old(st), p))
    {
      hide Represents;
      var c := GetBucket(p.bucket);
      if c.None? {
        return Err(NoSuchBucket);
      }
      if !ValidObjectKey(p.key) {
        return Err(InvalidObjectKey);
      }
      var row := UploadRow(p.bucket, p.key, p.id);
      var prior := Get(row);
      if prior.Some? {
        return Err(UploadExists);
      }
      Set(row, UploadRec(UploadRecord(FormatVersion, p.id, p.at, p.contentType, p.userMetadata, [])));
      r := Ok(Done);
    }

    method UploadPart(p: Proposal) returns (r: Result<Applied, ApplyError>)
      requires Mid() && p.UploadPart?
      modifies this`st, kv, kv.mem
      ensures Mid() && kv.base == old(kv.base)
      ensures st == Step(old(st), p, calendar).st && r == Step(old(st), p, calendar).res
      ensures r.Ok? ==> (kv.dirtyKeys != [] <==> old(kv.dirtyKeys) != [] || !Idle(old(st), p))
    {
      hide Represents;
      var c := GetBucket(p.bucket);
      if c.None? {
        return Err(NoSuchBucket);
      }
      if !ValidObjectKey(p.key) {
        return Err(InvalidObjectKey);
      }
      if p.number < 1 || p.number > MaxPartNumber {
        return Err(InvalidPartNumber);
      }
      var upload := Get(UploadRow(p.bucket, p.key, p.id));
      if upload.None? {
        return Err(NoSuchUpload);
      }
      var row := PartRow(p.bucket, p.key, p.id, p.number);
      var prior := Get(row);
      var freed := if prior.Some? then [prior.value.part.dataId] else [];
      Set(row, PartRec(PartRecord(FormatVersion, p.number, p.dataId, p.size, p.etag, p.checksum, p.at, p.layout, [])));
      r := Ok(Applied(None, freed, false));
    }

    /** The scan over one upload: its parts in order, and by number. */
    method PartsOf(b: bytes, k: bytes, id: vid) returns (list: seq<PartRecord>, stored: map<uint32, PartRecord>)
      requires Mid() && NoNul(b) && NoNul(k)
      ensures list == AllParts(st, b, k, id)
      ensures forall n: uint32 :: Find(stored, n) == Find(st.parts, PartKey(b, k, id, n))
    {
      hide Represents, Encode;
      var lo, hi := ScanPrefix(kv.mem, Encode(UploadRow(b, k, id)));
      ghost var keys, vals := kv.mem.keys, kv.mem.vals;
      list, stored := [], map[];
      ghost var places: seq<nat> := [];
      var i := lo;
      while i < hi
        invariant lo <= i <= hi && keys == kv.mem.keys && vals == kv.mem.vals
        invariant PartsSeen(keys, vals, st, b, k, id, lo, i, stored)
        invariant ListSeen(keys, st, b, k, id, i, list, places)
        invariant forall n: uint32 :: n in stored <==> InList(list, n)
      {
        var v := kv.mem.vals[kv.mem.keys[i]];
        PartSeen(keys, vals, st, b, k, id, lo, i, stored);
        if v.PartRec? {
          PartListed(keys, vals, st, b, k, id, i, list, places);
          ListAppended(list, v.part, stored);
          stored := stored[v.part.number := v.part];
          list, places := list + [v.part], places + [i];
        }
        i := i + 1;
      }
      AllPartsSeen(keys, vals, st, b, k, id, lo, hi, stored);
      ListIsAll(keys, vals, st, b, k, id, hi, list, places, stored);
    }

    /** Deletes an upload's row and its parts' rows. */
    method DropUpload(b: bytes, k: bytes, id: vid, stored: map<uint32, PartRecord>)
      requires Mid() && NoNul(b) && NoNul(k)
      requires forall n: uint32 :: n in stored <==> PartKey(b, k, id, n) in st.parts
      modifies this`st, kv, kv.mem
      ensures Mid() && kv.base == old(kv.base)
      ensures st == UploadDropped(old(st), b, k, id) && kv.dirtyKeys != []
    {
      hide Represents, ValidRow;
      UploadRowValid(b, k, id);
      Delete(UploadRow(b, k, id));
      var left := stored.Keys;
      NonePartsLeft(old(st), b, k, id, left);
      hide PartsLeft;
      while left != {}
        invariant Mid() && kv.base == old(kv.base) && kv.dirtyKeys != []
        invariant forall n :: n in left ==> n in stored
        invariant st.(parts := old(st).parts, uploads := old(st).uploads) == old(st)
        invariant st.uploads == old(st).uploads - {VersionKey(b, k, id)}
        invariant st.parts == PartsLeft(old(st), b, k, id, left)
        decreases |left|
      {
        var n :| n in left;
        PartRowValid(b, k, id, n);
        FewerPartsLeft(old(st), b, k, id, left, n);
        Delete(PartRow(b, k, id, n));
        left := left - {n};
      }
      AllPartsLeft(old(st), b, k, id);
    }

    method CompleteUpload(p: Proposal) returns (r: Result<Applied, ApplyError>)
      requires Mid() && p.CompleteUpload?
      modifies this`st, kv, kv.mem
      ensures Mid() && kv.base == old(kv.base)
      ensures st == Step(old(st), p, calendar).st && r == Step(old(st), p, calendar).res
      ensures r.Ok? ==> (kv.dirtyKeys != [] <==> old(kv.dirtyKeys) != [] || !Idle(old(st), p))
    {
      hide Represents, Commit, Bumped, Encode;
      var c := GetBucket(p.bucket);
      if c.None? {
        return Err(NoSuchBucket);
      }
      if !ValidObjectKey(p.key) {
        return Err(InvalidObjectKey);
      }
      var upload := Get(UploadRow(p.bucket, p.key, p.upload));
      if upload.None? {
        return Err(NoSuchUpload);
      }
      if |p.parts| == 0 {
        return Err(InvalidPart);
      }
      var list, stored := PartsOf(p.bucket, p.key, p.upload);
      var ordered := CheckOrder(p.parts);
      if !ordered {
        return Err(InvalidPartOrder);
      }
      var assembled := Assemble(st, p, stored);
      if assembled.Err? {
        return Err(assembled.error);
      }
      var (refs, size) := assembled.value;
      var id := Bump(p.bucket, p.key, p.id);
      var e := VersionEntry(FormatVersion, id, 0, KindObject, size, p.at, p.etag, upload.value.upload.contentType,
                            upload.value.upload.userMetadata, NoLayout, [], RetentionNone, 0, false,
                            c.value.versioning != VersioningEnabled, refs, []);
      assert e == CompletedEntry(st, c.value, p, id);
      r := CommitVersion(p.bucket, p.key, p.at, e);
      if r.Ok? {
        CommitKeepsParts(old(st), p.bucket, p.key, p.at, e);
        DropUpload(p.bucket, p.key, p.upload, stored);
        var used := set x | x in p.parts :: x.number;
        var unused := Unused(list, p.parts, used);
        r := Ok(r.value.(freed := r.value.freed + unused));
      }
    }

    method AbortUpload(p: Proposal) returns (r: Result<Applied, ApplyError>)
      requires Mid() && p.AbortUpload?
      modifies this`st, kv, kv.mem
      ensures Mid() && kv.base == old(kv.base)
      ensures st == Step(old(st), p, calendar).st && r == Step(old(st), p, calendar).res
      ensures r.Ok? ==> (kv.dirtyKeys != [] <==> old(kv.dirtyKeys) != [] || !Idle(old(st), p))
    {
      hide Represents, UploadDropped;
      var c := GetBucket(p.bucket);
      if c.None? {
        return Err(NoSuchBucket);
      }
      if !ValidObjectKey(p.key) {
        return Err(InvalidObjectKey);
      }
      var upload := Get(UploadRow(p.bucket, p.key, p.id));
      if upload.None? {
        return Err(NoSuchUpload);
      }
      var list, stored := PartsOf(p.bucket, p.key, p.id);
      var freed := Unused(list, [], {});
      DropUpload(p.bucket, p.key, p.id, stored);
      r := Ok(Applied(None, freed, false));
    }

    // ---- the cluster's own rows ----

    method GetLayout() returns (l: Option<ClusterLayout>)
      requires Mid()
      ensures l == st.system.layout
    {
      var v := Get(SystemRow(LayoutName));
      l := if v.None? then None else Some(v.value.system.layout);
    }

    method GetPosture() returns (p: Option<EncryptionPosture>)
      requires Mid()
      ensures p == st.system.posture
    {
      var v := Get(SystemRow(PostureName));
      p := if v.None? then None else Some(v.value.system.posture);
    }

    method GetTrust() returns (t: Option<TrustBundle>)
      requires Mid()
      ensures t == st.system.trust
    {
      var v := Get(SystemRow(TrustName));
      t := if v.None? then None else Some(v.value.system.trust);
    }

    method GetNode(id: bytes) returns (n: Option<NodeRecord>)
      requires Mid()
      ensures n == Find(st.system.nodes, id)
    {
      var v := Get(SystemRow(NodeName(id)));
      n := if v.None? then None else Some(v.value.system.node);
    }

    method SetClusterLayout(c: SystemCommand) returns (r: Result<MetaSystem.Change, ApplyError>)
      requires Mid() && c.SetClusterLayout?
      ensures r == MetaSystem.LayoutChange(st.system, c)
    {
      hide Represents;
      var want: uint64 := 1;
      var cur := GetLayout();
      if cur.Some? {
        want := MetaSystem.NextGeneration(cur.value.version);
        if c.partitionCount != cur.value.partitionCount {
          return Err(InvalidLayout);
        }
      }
      if c.version != want {
        return Err(StaleLayout);
      }
      if c.partitionCount == 0 || (|c.members| == 0 && |c.nodes| == 0) {
        return Err(InvalidLayout);
      }
      var layout := ClusterLayout(FormatVersion, c.version, c.partitionCount, c.members, c.nodes, c.previous, []);
      r := Ok(MetaSystem.Put(LayoutName, LayoutRec(layout)));
    }

    method SetEncryptionPosture(c: SystemCommand) returns (r: Result<MetaSystem.Change, ApplyError>)
      requires Mid() && c.SetEncryptionPosture?
      ensures r == MetaSystem.PostureChange(st.system, c)
    {
      hide Represents;
      if c.algorithm != EncNone && c.algorithm != EncAES256GCM {
        return Err(InvalidEncryption);
      }
      var post := EncryptionPosture(FormatVersion, c.algorithm, 0, 0, []);
      var cur := GetPosture();
      if cur.Some? {
        if cur.value.algorithm != EncNone && c.algorithm == EncNone {
          return Err(EncryptionDowngrade);
        }
        post := post.(currentKEK := cur.value.currentKEK, rotatingToKEK := cur.value.rotatingToKEK);
      }
      if c.kek != 0 {
        if post.currentKEK == 0 {
          post := post.(currentKEK := c.kek);
        } else if post.currentKEK != c.kek {
          return Err(KEKMismatch);
        }
      }
      r := Ok(MetaSystem.Put(PostureName, PostureRec(post)));
    }

    method BeginKEKRotation(c: SystemCommand) returns (r: Result<MetaSystem.Change, ApplyError>)
      requires Mid() && c.BeginKEKRotation?
      ensures r == MetaSystem.BeginChange(st.system, c)
    {
      hide Represents;
      var cur := GetPosture();
      if cur.None? || cur.value.algorithm == EncNone {
        return Err(NotEncrypting);
      }
      var post := cur.value;
      if c.to == 0 || c.to == post.currentKEK {
        return Err(InvalidRewrap);
      }
      if post.currentKEK == 0 || c.from != post.currentKEK {
        return Err(KEKMismatch);
      }
      if post.rotatingToKEK != 0 && post.rotatingToKEK != c.to {
        return Err(KEKMismatch);
      }
      r := Ok(MetaSystem.Put(PostureName, PostureRec(post.(rotatingToKEK := c.to))));
    }

    method CompleteKEKRotation(c: SystemCommand) returns (r: Result<MetaSystem.Change, ApplyError>)
      requires Mid() && c.CompleteKEKRotation?
      ensures r == MetaSystem.CompleteChange(st.system, c)
    {
      hide Represents;
      var cur := GetPosture();
      if cur.None? {
        return Err(NotEncrypting);
      }
      var post := cur.value;
      if post.rotatingToKEK == 0 {
        if post.currentKEK == c.to {
          return Ok(MetaSystem.Nothing);
        }
        return Err(KEKMismatch);
      }
      if post.rotatingToKEK != c.to {
        return Err(KEKMismatch);
      }
      r := Ok(MetaSystem.Put(PostureName, PostureRec(post.(currentKEK := post.rotatingToKEK, rotatingToKEK := 0))));
    }

    method RegisterNode(c: SystemCommand) returns (r: Result<MetaSystem.Change, ApplyError>)
      requires Mid() && c.RegisterNode?
      ensures r == MetaSystem.RegisterChange(st.system, c)
    {
      hide Represents;
      if c.id == [] {
        return Err(InvalidNode);
      }
      var rec := NodeRecord(FormatVersion, c.id, c.host, c.zone, c.capacity, false, [], c.leafCA, [], 0, []);
      var prior := GetNode(c.id);
      if prior.Some? {
        rec := rec.(binaryVersion := prior.value.binaryVersion, generation := prior.value.generation);
      }
      r := Ok(MetaSystem.Put(NodeName(c.id), NodeRec(rec)));
    }

    method UpdateNode(c: SystemCommand) returns (r: Result<MetaSystem.Change, ApplyError>)
      requires Mid() && (c.SetNodeVersion? || c.SetNodeLeafCA? || c.SetNodeDraining? || c.SetNodeReplacedBy?)
      ensures r == MetaSystem.MemberChange(st.system, c)
    {
      hide Represents;
      if c.id == [] {
        return Err(InvalidNode);
      }
      var prior := GetNode(c.id);
      if prior.None? {
        return Err(InvalidNode);
      }
      var rec := prior.value;
      match c {
        case SetNodeVersion(_, version, generation) => rec := rec.(binaryVersion := version, generation := generation);
        case SetNodeLeafCA(_, ca) => rec := rec.(leafCA := ca);
        case SetNodeDraining(_, draining) => rec := rec.(draining := draining);
        case SetNodeReplacedBy(_, other) => rec := rec.(replacedBy := other);
      }
      r := Ok(MetaSystem.Put(NodeName(c.id), NodeRec(rec)));
    }

    method SetTrustBundle(c: SystemCommand) returns (r: Result<MetaSystem.Change, ApplyError>)
      requires Mid() && c.SetTrustBundle?
      ensures r == MetaSystem.TrustChange(st.system, c)
    {
      hide Represents;
      var want: uint64 := 1;
      var cur := GetTrust();
      if cur.Some? {
        want := MetaSystem.NextGeneration(cur.value.version);
      }
      if c.version != want {
        return Err(StaleTrustBundle);
      }
      if |c.cas| == 0 {
        return Err(InvalidTrustBundle);
      }
      for i := 0 to |c.cas|
        invariant forall j :: 0 <= j < i ==> c.cas[j].fingerprint != 0 && c.cas[j].cert != []
      {
        if c.cas[i].fingerprint == 0 || |c.cas[i].cert| == 0 {
          return Err(InvalidTrustBundle);
        }
      }
      var issuer := FindCA(c.cas, c.issuer);
      if c.issuer == 0 || !issuer {
        return Err(InvalidTrustBundle);
      }
      r := Ok(MetaSystem.Put(TrustName, TrustRec(TrustBundle(FormatVersion, c.version, c.cas, c.issuer, []))));
    }

    method SetSystem(p: Proposal) returns (r: Result<Applied, ApplyError>)
      requires Mid() && p.SetSystem?
      modifies this`st, kv, kv.mem
      ensures Mid() && kv.base == old(kv.base)
      ensures st == Step(old(st), p, calendar).st && r == Step(old(st), p, calendar).res
      ensures r.Ok? ==> (kv.dirtyKeys != [] <==> old(kv.dirtyKeys) != [] || !Idle(old(st), p))
    {
      hide Represents;
      var change := Decide(p.command);
      if change.Err? {
        return Err(change.error);
      }
      if change.value.Put? {
        Set(SystemRow(change.value.name), SystemRec(change.value.record));
      }
      r := Ok(Done);
    }

    method Decide(c: SystemCommand) returns (r: Result<MetaSystem.Change, ApplyError>)
      requires Mid()
      ensures r == MetaSystem.SystemChange(st.system, c)
    {
      hide Represents, MetaSystem.LayoutChange, MetaSystem.PostureChange, MetaSystem.BeginChange,
        MetaSystem.CompleteChange;
      hide MetaSystem.RegisterChange, MetaSystem.MemberChange, MetaSystem.TrustChange;
      match c {
        case SetClusterLayout(_, _, _, _, _) => r := SetClusterLayout(c);
        case SetEncryptionPosture(_, _) => r := SetEncryptionPosture(c);
        case BeginKEKRotation(_, _) => r := BeginKEKRotation(c);
        case CompleteKEKRotation(_) => r := CompleteKEKRotation(c);
        case RegisterNode(_, _, _, _, _) => r := RegisterNode(c);
        case SetTrustBundle(_, _, _) => r := SetTrustBundle(c);
        case _ => r := UpdateNode(c);
      }
    }

    method Dispatch(p: Proposal) returns (r: Result<Applied, ApplyError>)
      requires Mid()
      modifies this`st, kv, kv.mem
      ensures Mid() && kv.base == old(kv.base)
      ensures st == Step(old(st), p, calendar).st && r == Step(old(st), p, calendar).res
      ensures r.Ok? ==> (kv.dirtyKeys != [] <==> old(kv.dirtyKeys) != [] || !Idle(old(st), p))
    {
      hide Represents, Step;
      match p {
        case CreateBucket(_, _, _) => r := CreateBucket(p);
        case DeleteBucket(_, _) => r := DeleteBucket(p);
        case SetBucketVersioning(_, _, _) => r := SetBucketVersioning(p);
        case SetLockConfiguration(_, _, _, _, _) => r := SetLockConfiguration(p);
        case PutObject(_, _, _, _, _, _, _, _, _, _, _, _, _) => r := PutObject(p);
        case DeleteObject(_, _, _, _) => r := DeleteObject(p);
        case DeleteVersion(_, _, _, _, _) => r := DeleteVersion(p);
        case UpdateRetention(_, _, _, _, _, _, _) => r := UpdateRetention(p);
        case UpdateLegalHold(_, _, _, _, _) => r := UpdateLegalHold(p);
        case ReEncodeObject(_, _, _, _, _, _, _, _) => r := ReEncodeObject(p);
        case RewrapDEK(_, _, _, _, _, _) => r := RewrapDEK(p);
        case CreateUpload(_, _, _, _, _, _) => r := CreateUpload(p);
        case UploadPart(_, _, _, _, _, _, _, _, _, _) => r := UploadPart(p);
        case CompleteUpload(_, _, _, _, _, _, _) => r := CompleteUpload(p);
        case AbortUpload(_, _, _, _) => r := AbortUpload(p);
        case SetSystem(_, _) => r := SetSystem(p);
      }
    }

    /** One committed entry: one transaction. Either the state takes the step and disk follows,
        or the apply was refused or the commit failed and nothing changed anywhere. The disk is
        asked only when the step touches rows. */
    method Apply(p: Proposal, commitFails: bool) returns (r: Result<Applied, ApplyError>, persisted: bool)
      requires Valid()
      modifies this`st, kv, kv.mem, disk
      ensures Valid()
      ensures r == Step(old(st), p, calendar).res
      ensures persisted ==> st == Step(old(st), p, calendar).st
      ensures !persisted <==> persister && commitFails && Touches(old(st), p, calendar)
      ensures !persisted ==> st == old(st)
      ensures !persister || !Touches(old(st), p, calendar) ==> disk.rows == old(disk.rows)
    {
      hide Represents, Step, Idle;
      kv.Reset();
      r := Dispatch(p);
      var ok := kv.Finish(persister, disk, marshal, r.Err?, commitFails);
      RefusalChangesNothing(old(st), p, calendar);
      persisted := ok || r.Err?;
      if !ok {
        st := old(st);
      }
    }
  }

  /** A bucket is empty exactly when neither of its prefixes has rows. */
  lemma EmptyByPrefix(vals: map<bytes, Record>, st: State, b: bytes)
    requires Represents(vals, st) && NoNul(b)
    ensures BucketEmpty(st, b) <==>
      !(exists k :: k in vals && IsPrefix(BucketVersionsPrefix(b), k)) &&
      !(exists k :: k in vals && IsPrefix(UploadsPrefix(b), k))
  {
    hide Encode, IsPrefix;
    forall v | v in st.versions && v.bucket == b
      ensures exists k :: k in vals && IsPrefix(BucketVersionsPrefix(b), k)
    {
      var r := VersionRow(v.bucket, v.key, v.id);
      RowUnder(vals, st, r);
      UnderBucketVersions(b, r);
    }
    forall u | u in st.uploads && u.bucket == b
      ensures exists k :: k in vals && IsPrefix(UploadsPrefix(b), k)
    {
      var r := UploadRow(u.bucket, u.key, u.id);
      RowUnder(vals, st, r);
      UnderUploads(b, r);
    }
    forall q | q in st.parts && q.bucket == b
      ensures exists k :: k in vals && IsPrefix(UploadsPrefix(b), k)
    {
      var r := PartRow(q.bucket, q.key, q.id, q.part);
      RowUnder(vals, st, r);
      UnderUploads(b, r);
    }
    forall k | k in vals
      ensures IsPrefix(BucketVersionsPrefix(b), k) || IsPrefix(UploadsPrefix(b), k) ==> !BucketEmpty(st, b)
    {
      var r := NamedRow(vals, st, k);
      UnderBucketVersions(b, r);
      UnderUploads(b, r);
      RowBreaksEmpty(st, r, b);
    }
  }

  lemma RowUnder(vals: map<bytes, Record>, st: State, r: RowKey)
    requires Represents(vals, st) && Lookup(st, r).Some?
    ensures ValidRow(r) && Encode(r) in vals
  {
    LookOk(vals, st, r);
    LookValid(vals, st, r);
  }

  lemma RowBreaksEmpty(st: State, r: RowKey, b: bytes)
    ensures Lookup(st, r).Some? && (r.VersionRow? || r.UploadRow? || r.PartRow?) && r.bucket == b ==>
      !BucketEmpty(st, b)
  {
  }

  // ---- what a scan of an upload finds ----

  ghost predicate PartsSeen(keys: seq<bytes>, vals: map<bytes, Record>, st: State, b: bytes, k: bytes, id: vid,
                            lo: nat, i: nat, stored: map<uint32, PartRecord>)
    requires lo <= i <= |keys|
  {
    && (forall n: uint32 :: n in stored ==> Find(st.parts, PartKey(b, k, id, n)) == Some(stored[n]))
    && (forall t :: lo <= t < i ==> keys[t] in vals && (vals[keys[t]].PartRec? ==> vals[keys[t]].part.number in stored))
  }

  /** The next row of the scan: a part joins, the upload's own row does not matter. */
  lemma PartSeen(keys: seq<bytes>, vals: map<bytes, Record>, st: State, b: bytes, k: bytes, id: vid, lo: nat, i: nat,
                 stored: map<uint32, PartRecord>)
    requires Indexes(keys, vals) && Represents(vals, st) && NoNul(b) && NoNul(k) && lo <= i < |keys|
    requires IsPrefix(Encode(UploadRow(b, k, id)), keys[i]) && PartsSeen(keys, vals, st, b, k, id, lo, i, stored)
    ensures keys[i] in vals
    ensures PartsSeen(keys, vals, st, b, k, id, lo, i + 1,
      if vals[keys[i]].PartRec? then stored[vals[keys[i]].part.number := vals[keys[i]].part] else stored)
  {
    hide Encode, Represents, IsPrefix, NoNul, Less;
    assert keys[i] in vals;
    var r := NamedRow(vals, st, keys[i]);
    UnderUpload(b, k, id, r);
  }

  predicate InList(list: seq<PartRecord>, n: uint32) { exists x :: 0 <= x < |list| && list[x].number == n }

  /** The parts found so far, each at its place in the scan. */
  ghost predicate ListSeen(keys: seq<bytes>, st: State, b: bytes, k: bytes, id: vid, i: nat, list: seq<PartRecord>,
                           places: seq<nat>) {
    && |places| == |list|
    && (forall x :: 0 <= x < |list| ==>
        places[x] < i <= |keys| && keys[places[x]] == Encode(PartRow(b, k, id, list[x].number)))
    && (forall x :: 0 <= x < |list| ==> Find(st.parts, PartKey(b, k, id, list[x].number)) == Some(list[x]))
    && (forall x, y :: 0 <= x < y < |list| ==> places[x] < places[y])
  }

  lemma PartListed(keys: seq<bytes>, vals: map<bytes, Record>, st: State, b: bytes, k: bytes, id: vid, i: nat,
                   list: seq<PartRecord>, places: seq<nat>)
    requires Indexes(keys, vals) && Represents(vals, st) && NoNul(b) && NoNul(k) && i < |keys| && keys[i] in vals &&
      vals[keys[i]].PartRec?
    requires IsPrefix(Encode(UploadRow(b, k, id)), keys[i]) && ListSeen(keys, st, b, k, id, i, list, places)
    ensures ListSeen(keys, st, b, k, id, i + 1, list + [vals[keys[i]].part], places + [i])
  {
    hide Encode, Represents, IsPrefix, NoNul, Less;
    var r := NamedRow(vals, st, keys[i]);
    UnderUpload(b, k, id, r);
  }

  lemma ListAppended(list: seq<PartRecord>, v: PartRecord, stored: map<uint32, PartRecord>)
    requires forall n: uint32 :: n in stored <==> InList(list, n)
    ensures forall n: uint32 :: n in stored[v.number := v] <==> InList(list + [v], n)
  {
    forall n: uint32
      ensures n in stored[v.number := v] <==> InList(list + [v], n)
    {
      assert (list + [v])[|list|] == v;
      assert forall x :: 0 <= x < |list| ==> (list + [v])[x] == list[x];
    }
  }

  /** What a scan found in order is the upload's parts in order. */
  lemma ListIsAll(keys: seq<bytes>, vals: map<bytes, Record>, st: State, b: bytes, k: bytes, id: vid, i: nat,
                  list: seq<PartRecord>, places: seq<nat>, stored: map<uint32, PartRecord>)
    requires Indexes(keys, vals) && i <= |keys| && ListSeen(keys, st, b, k, id, i, list, places)
    requires forall n: uint32 :: n in stored <==> InList(list, n)
    requires forall n: uint32 :: Find(stored, n) == Find(st.parts, PartKey(b, k, id, n))
    ensures list == AllParts(st, b, k, id)
  {
    hide Encode, Less;
    forall x, y | 0 <= x < y < |list|
      ensures list[x].number < list[y].number
    {
      PartRowOrder(b, k, id, list[x].number, list[y].number);
    }
    forall n: uint32 | PartKey(b, k, id, n) in st.parts
      ensures InList(list, n)
    {
      assert Find(stored, n) == Find(st.parts, PartKey(b, k, id, n));
    }
    var m := ListBelow(st, b, k, id, list, 0x1_0000_0000);
    if m < |list| {
      NumberBound(list[m]);
      assert false;
    }
    assert list[..m] == list;
  }

  lemma NumberBound(p: PartRecord)
    ensures p.number < 0x1_0000_0000
  {
  }

  /** The parts below n are the leading ones of an ordered list of all. */
  lemma {:induction false} ListBelow(st: State, b: bytes, k: bytes, id: vid, list: seq<PartRecord>, n: nat)
    returns (m: nat)
    requires n <= 0x1_0000_0000
    requires forall x, y :: 0 <= x < y < |list| ==> list[x].number < list[y].number
    requires forall x :: 0 <= x < |list| ==> Find(st.parts, PartKey(b, k, id, list[x].number)) == Some(list[x])
    requires forall i: uint32 :: PartKey(b, k, id, i) in st.parts ==> InList(list, i)
    ensures m <= |list| && PartsBelow(st, b, k, id, n) == list[..m]
    ensures (forall x :: 0 <= x < m ==> list[x].number < n) && forall x :: m <= x < |list| ==> list[x].number >= n
    decreases n
  {
    if n == 0 {
      m := 0;
    } else {
      m := ListBelow(st, b, k, id, list, n - 1);
      var q := PartKey(b, k, id, n - 1);
      if q in st.parts {
        assert InList(list, n - 1);
        var x :| 0 <= x < |list| && list[x].number == n - 1;
        AtBoundary(list, m, n - 1, x);
        m := m + 1;
      }
    }
  }

  lemma AtBoundary(list: seq<PartRecord>, m: nat, n: nat, x: nat)
    requires m <= |list| && x < |list| && list[x].number == n
    requires forall i, j :: 0 <= i < j < |list| ==> list[i].number < list[j].number
    requires (forall i :: 0 <= i < m ==> list[i].number < n) && forall i :: m <= i < |list| ==> list[i].number >= n
    ensures x == m && list[..m + 1] == list[..m] + [list[m]] && forall i :: m + 1 <= i < |list| ==>
      list[i].number >= n + 1
  {
    assert x >= m && m < |list| && list[m].number <= list[x].number;
  }

  /** The data of the parts not listed. */
  method Unused(list: seq<PartRecord>, parts: seq<CompletedPart>, used: set<uint32>) returns (ids: seq<vid>)
    requires forall n: uint32 :: n in used <==> Listed(parts, n)
    ensures ids == UnusedIds(list, parts)
  {
    ids := [];
    for i := 0 to |list|
      invariant ids == UnusedIds(list[..i], parts)
    {
      assert list[..i + 1][..i] == list[..i];
      if list[i].number !in used {
        ids := ids + [list[i].dataId];
      }
    }
    assert list[..|list|] == list;
  }

  lemma AllPartsSeen(keys: seq<bytes>, vals: map<bytes, Record>, st: State, b: bytes, k: bytes, id: vid, lo: nat,
                     hi: nat, stored: map<uint32, PartRecord>)
    requires Indexes(keys, vals) && Represents(vals, st) && NoNul(b) && NoNul(k) && lo <= hi <= |keys|
    requires forall j :: 0 <= j < |keys| ==> (IsPrefix(Encode(UploadRow(b, k, id)), keys[j]) <==> lo <= j < hi)
    requires PartsSeen(keys, vals, st, b, k, id, lo, hi, stored)
    ensures forall n: uint32 :: Find(stored, n) == Find(st.parts, PartKey(b, k, id, n))
  {
    hide Encode, Represents, IsPrefix;
    forall n: uint32
      ensures Find(stored, n) == Find(st.parts, PartKey(b, k, id, n))
    {
      var r := PartRow(b, k, id, n);
      if PartKey(b, k, id, n) in st.parts {
        RowUnder(vals, st, r);
        UnderUpload(b, k, id, r);
        LookOk(vals, st, r);
        LookValid(vals, st, r);
        var j :| 0 <= j < |keys| && keys[j] == Encode(r);
      }
    }
  }

  lemma UploadRowValid(b: bytes, k: bytes, id: vid)
    requires NoNul(b) && NoNul(k)
    ensures ValidRow(UploadRow(b, k, id))
  {
  }

  lemma PartRowValid(b: bytes, k: bytes, id: vid, n: uint32)
    requires NoNul(b) && NoNul(k)
    ensures ValidRow(PartRow(b, k, id, n))
  {
  }

  /** The part rows while an upload's are being deleted. */
  ghost function PartsLeft(st: State, b: bytes, k: bytes, id: vid, left: set<uint32>): map<PartKey, PartRecord> {
    map q | q in st.parts && (q.bucket == b && q.key == k && q.id == id ==> q.part in left) :: st.parts[q]
  }

  lemma NonePartsLeft(st: State, b: bytes, k: bytes, id: vid, left: set<uint32>)
    requires forall n: uint32 :: n in left <==> PartKey(b, k, id, n) in st.parts
    ensures PartsLeft(st, b, k, id, left) == st.parts
  {
    forall q | q in st.parts && q.bucket == b && q.key == k && q.id == id
      ensures q.part in left
    {
      assert q == PartKey(b, k, id, q.part);
    }
  }

  lemma FewerPartsLeft(st: State, b: bytes, k: bytes, id: vid, left: set<uint32>, n: uint32)
    ensures PartsLeft(st, b, k, id, left) - {PartKey(b, k, id, n)} == PartsLeft(st, b, k, id, left - {n})
  {
    forall q: PartKey
      ensures q in PartsLeft(st, b, k, id, left) - {PartKey(b, k, id, n)} <==> q in PartsLeft(st, b, k, id, left - {n})
    {
      assert q == PartKey(q.bucket, q.key, q.id, q.part);
    }
  }

  lemma AllPartsLeft(st: State, b: bytes, k: bytes, id: vid)
    ensures PartsLeft(st, b, k, id, {}) == UploadDropped(st, b, k, id).parts
  {
  }

  lemma CommitKeepsParts(st: State, b: bytes, k: bytes, at: int64, e: VersionEntry)
    ensures Commit(st, b, k, at, e).st.parts == st.parts
  {
  }

  method FindCA(cas: seq<TrustedCA>, fingerprint: uint64) returns (found: bool)
    ensures found <==> MetaSystem.HasCA(cas, fingerprint)
  {
    for i := 0 to |cas|
      invariant forall j :: 0 <= j < i ==> cas[j].fingerprint != fingerprint
    {
      if cas[i].fingerprint == fingerprint {
        return true;
      }
    }
    found := false;
  }

  method CheckOrder(parts: seq<CompletedPart>) returns (ok: bool)
    ensures ok <==> AscendingParts(parts)
  {
    var i := 1;
    while i < |parts|
      invariant 1 <= i
      invariant forall j :: 1 <= j < i && j < |parts| ==> parts[j - 1].number < parts[j].number
    {
      if parts[i].number <= parts[i - 1].number {
        return false;
      }
      i := i + 1;
    }
    ok := true;
  }

  /** Checks the listed parts against the stored ones and assembles their references. */
  method Assemble(ghost st: State, p: Proposal, stored: map<uint32, PartRecord>)
    returns (r: Result<(seq<PartRef>, int64), ApplyError>)
    requires p.CompleteUpload?
    requires forall n: uint32 :: Find(stored, n) == Find(st.parts, PartKey(p.bucket, p.key, p.upload, n))
    ensures r.Err? ==> FirstPartError(st, p, 0) == Some(r.error)
    ensures r.Ok? ==> FirstPartError(st, p, 0).None?
    ensures r.Ok? ==> (PartsPresent(st, p, 0); r.value == Assembled(st, p, |p.parts|))
  {
    var refs: seq<PartRef> := [];
    var size: int64 := 0;
    var i := 0;
    while i < |p.parts|
      invariant 0 <= i <= |p.parts|
      invariant FirstPartError(st, p, 0) == FirstPartError(st, p, i)
      invariant forall j :: 0 <= j < i ==> PartKey(p.bucket, p.key, p.upload, p.parts[j].number) in st.parts
      invariant (refs, size) == Assembled(st, p, i)
    {
      var n := p.parts[i].number;
      assert Find(stored, n) == Find(st.parts, PartKey(p.bucket, p.key, p.upload, n));
      if n !in stored || stored[n].etag != p.parts[i].etag {
        return Err(InvalidPart);
      }
      if i < |p.parts| - 1 && stored[n].size < MinPartSize {
        return Err(PartTooSmall);
      }
      size := AddSize(size, stored[n].size);
      refs := refs + [RefOf(stored[n])];
      i := i + 1;
    }
    r := Ok((refs, size));
  }

  lemma NotNullBefore(keys: seq<bytes>, vals: map<bytes, Record>, st: State, b: bytes, k: bytes, lo: nat, i: nat,
                      x: vid, j: nat)
    requires Indexes(keys, vals) && Represents(vals, st) && NoNul(b) && NoNul(k) && lo <= i <= |keys| &&
      lo <= j < |keys|
    requires forall t :: lo <= t < i ==>
      keys[t] in vals && vals[keys[t]].VersionRec? && !vals[keys[t]].version.nullVersion
    requires keys[j] == Encode(VersionRow(b, k, x)) && x in NullIds(st, b, k)
    ensures i <= j
  {
    LookValid(vals, st, VersionRow(b, k, x));
  }

  lemma NullIsNewest(keys: seq<bytes>, vals: map<bytes, Record>, st: State, b: bytes, k: bytes, lo: nat, i: nat,
                     id: vid)
    requires Indexes(keys, vals) && Represents(vals, st) && NoNul(b) && NoNul(k) &&
      Splits(keys, VersionPrefix(b, k), lo)
    requires lo <= i < |keys| && keys[i] == Encode(VersionRow(b, k, id)) && id in NullIds(st, b, k)
    requires forall t :: lo <= t < i ==>
      keys[t] in vals && vals[keys[t]].VersionRec? && !vals[keys[t]].version.nullVersion
    ensures MaxId(NullIds(st, b, k)) == id
  {
    hide Represents, Encode;
    forall x | x in NullIds(st, b, k)
      ensures x <= id
    {
      var j := VersionAt(keys, vals, st, b, k, x, lo);
      NotNullBefore(keys, vals, st, b, k, lo, i, x, j);
      LaterIsOlder(keys, b, k, id, i, x, j);
    }
  }
}
