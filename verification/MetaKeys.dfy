/** The keyspace: how rows are named in bytes so that byte order is the order lists are
    read in, and so that a prefix names exactly the rows it should. */
module MetaKeys {
  import opened Bytes
  import opened Lex
  import opened MetaVid

  type uint32 = x: int | 0 <= x < 0x1_0000_0000

  datatype RowKey =
    | BucketRow(bucket: bytes)
    | VersionRow(bucket: bytes, key: bytes, id: vid)
    | CurrentRow(bucket: bytes, key: bytes)
    | UploadRow(bucket: bytes, key: bytes, id: vid)
    | PartRow(bucket: bytes, key: bytes, id: vid, part: uint32)
    | SystemRow(name: SystemName)

  /** The rows about the cluster itself: three singletons, and one row per member. */
  datatype SystemName = LayoutName | PostureName | TrustName | NodeName(id: bytes)

  const LayoutText: bytes := [108, 97, 121, 111, 117, 116]
  const PostureText: bytes := [101, 110, 99]
  const TrustText: bytes := [116, 114, 117, 115, 116]
  const NodePrefix: bytes := [110, 111, 100, 101, 47]

  function SystemText(name: SystemName): bytes {
    match name
    case LayoutName => LayoutText
    case PostureName => PostureText
    case TrustName => TrustText
    case NodeName(id) => NodePrefix + id
  }

  lemma SystemTextInjective(a: SystemName, b: SystemName)
    requires SystemText(a) == SystemText(b)
    ensures a == b
  {
    assert SystemText(a)[0] == SystemText(b)[0];
    if a.NodeName? && b.NodeName? {
      assert (NodePrefix + a.id)[5..] == a.id && (NodePrefix + b.id)[5..] == b.id;
    }
  }

  predicate NoNul(s: bytes) {
    forall i :: 0 <= i < |s| ==> s[i] != 0
  }

  /** The component rule: bucket names and object keys hold no NUL. */
  predicate ValidRow(r: RowKey) {
    match r
    case BucketRow(b) => NoNul(b)
    case VersionRow(b, k, _) => NoNul(b) && NoNul(k)
    case CurrentRow(b, k) => NoNul(b) && NoNul(k)
    case UploadRow(b, k, _) => NoNul(b) && NoNul(k)
    case PartRow(b, k, _, _) => NoNul(b) && NoNul(k)
    case SystemRow(_) => true
  }

  const Slash: byte := 47
  const Nul: bytes := [0]

  /** `t/`, the table a row belongs to. */
  function Table(letter: byte): bytes { [letter, Slash] }

  const BucketsTable := Table(98)
  const VersionsTable := Table(118)
  const CurrentTable := Table(99)
  const UploadsTable := Table(117)
  const SystemTable := Table(115)

  function PartBytes(n: uint32): (b: bytes)
    ensures |b| == 4
  {
    assert Pow256(4) == 0x1_0000_0000;
    ToBytes(n, 4)
  }

  function BucketVersionsPrefix(bucket: bytes): bytes { VersionsTable + (bucket + Nul) }

  function VersionPrefix(bucket: bytes, key: bytes): bytes { VersionsTable + (bucket + Nul + (key + Nul)) }

  function CurrentPrefix(bucket: bytes): bytes { CurrentTable + (bucket + Nul) }

  function UploadsPrefix(bucket: bytes): bytes { UploadsTable + (bucket + Nul) }

  function Encode(r: RowKey): (e: bytes) {
    match r
    case BucketRow(b) => BucketsTable + b
    case VersionRow(b, k, id) => VersionsTable + (b + Nul + (k + Nul + Reversed(id)))
    case CurrentRow(b, k) => CurrentTable + (b + Nul + k)
    case UploadRow(b, k, id) => UploadsTable + (b + Nul + (k + Nul + IdBytes(id)))
    case PartRow(b, k, id, n) => UploadsTable + (b + Nul + (k + Nul + (IdBytes(id) + PartBytes(n))))
    case SystemRow(name) => SystemTable + SystemText(name)
  }

  // ---- delimiting ----

  /** The first NUL is where the delimiter is. */
  lemma FirstNul(a: bytes, s: bytes, b: bytes, t: bytes)
    requires NoNul(a) && NoNul(b) && a + Nul + s == b + Nul + t
    ensures a == b && s == t
  {
    var x, y := a + Nul + s, b + Nul + t;
    assert x[|a|] == 0 && y[|b|] == 0;
    assert forall i :: 0 <= i < |a| ==> x[i] == a[i];
    assert forall i :: 0 <= i < |b| ==> y[i] == b[i];
    assert |a| == |b|;
    assert x[..|a|] == a && y[..|b|] == b;
    assert x[|a| + 1..] == s && y[|b| + 1..] == t;
  }

  /** A NUL-delimited prefix names the component exactly. */
  lemma DelimitedPrefix(a: bytes, b: bytes, t: bytes)
    requires NoNul(a) && NoNul(b)
    ensures IsPrefix(a + Nul, b + Nul + t) <==> a == b
    ensures a == b ==> (b + Nul + t)[|a + Nul|..] == t
  {
    var p, s := a + Nul, b + Nul + t;
    if IsPrefix(p, s) {
      assert s == p + s[|p|..];
      FirstNul(a, s[|p|..], b, t);
    }
    assert a == b ==> s[..|p|] == p && s[|p|..] == t;
  }

  lemma SameTable(t: bytes, a: bytes, u: bytes, b: bytes)
    requires |t| == |u|
    ensures IsPrefix(t + a, u + b) <==> t == u && IsPrefix(a, b)
  {
    if IsPrefix(t + a, u + b) {
      assert (t + a)[..|t|] == t && (u + b)[..|u|] == u;
      assert (u + b)[..|t|] == (u + b)[..|t + a|][..|t|];
      assert b[..|a|] == (u + b)[..|t + a|][|t|..] == (t + a)[|t|..] == a;
    }
  }

  /** Two components and a tail. */
  lemma TwoComponents(b: bytes, k: bytes, s: bytes, b': bytes, k': bytes, t: bytes)
    requires NoNul(b) && NoNul(k) && NoNul(b') && NoNul(k')
    requires b + Nul + (k + Nul + s) == b' + Nul + (k' + Nul + t)
    ensures b == b' && k == k' && s == t
  {
    FirstNul(b, k + Nul + s, b', k' + Nul + t);
    FirstNul(k, s, k', t);
  }

  lemma SplitTable(t: bytes, a: bytes, u: bytes, b: bytes)
    requires |t| == |u| && t + a == u + b
    ensures t == u && a == b
  {
    assert (t + a)[..|t|] == t && (u + b)[..|u|] == u && (t + a)[|t|..] == a && (u + b)[|u|..] == b;
  }

  lemma IdsDiffer(a: vid, b: vid)
    ensures IdBytes(a) == IdBytes(b) ==> a == b
  {
    IdBytesValue(a);
    IdBytesValue(b);
  }

  lemma PartsDiffer(a: uint32, b: uint32)
    ensures PartBytes(a) == PartBytes(b) ==> a == b
  {
    assert Pow256(4) == 0x1_0000_0000;
    ValueOfBytes(a, 4);
    ValueOfBytes(b, 4);
  }

  function TableOf(r: RowKey): bytes {
    match r
    case BucketRow(_) => BucketsTable
    case VersionRow(_, _, _) => VersionsTable
    case CurrentRow(_, _) => CurrentTable
    case UploadRow(_, _, _) => UploadsTable
    case PartRow(_, _, _, _) => UploadsTable
    case SystemRow(_) => SystemTable
  }

  function BodyOf(r: RowKey): bytes {
    match r
    case BucketRow(b) => b
    case VersionRow(b, k, id) => b + Nul + (k + Nul + Reversed(id))
    case CurrentRow(b, k) => b + Nul + k
    case UploadRow(b, k, id) => b + Nul + (k + Nul + IdBytes(id))
    case PartRow(b, k, id, n) => b + Nul + (k + Nul + (IdBytes(id) + PartBytes(n)))
    case SystemRow(name) => SystemText(name)
  }

  lemma EncodeParts(r: RowKey)
    ensures Encode(r) == TableOf(r) + BodyOf(r) && |TableOf(r)| == 2
  {
  }

  /** Distinct rows have distinct names. */
  lemma EncodeInjective(a: RowKey, b: RowKey)
    requires ValidRow(a) && ValidRow(b) && Encode(a) == Encode(b)
    ensures a == b
  {
    hide Encode, BodyOf, ValidRow;
    EncodeParts(a);
    EncodeParts(b);
    SplitTable(TableOf(a), BodyOf(a), TableOf(b), BodyOf(b));
    assert TableOf(a)[0] == TableOf(b)[0];
    if a.UploadRow? || a.PartRow? {
      UploadsDiffer(a, b);
    } else if a.VersionRow? {
      VersionsDiffer(a, b);
    } else {
      OthersDiffer(a, b);
    }
  }

  lemma VersionsDiffer(a: RowKey, b: RowKey)
    requires ValidRow(a) && ValidRow(b) && a.VersionRow? && b.VersionRow? && BodyOf(a) == BodyOf(b)
    ensures a == b
  {
    hide Reversed;
    TwoComponents(a.bucket, a.key, Reversed(a.id), b.bucket, b.key, Reversed(b.id));
    NewestSortsFirst(a.id, b.id);
  }

  lemma OthersDiffer(a: RowKey, b: RowKey)
    requires ValidRow(a) && ValidRow(b) && BodyOf(a) == BodyOf(b)
    requires (a.BucketRow? && b.BucketRow?) || (a.CurrentRow? && b.CurrentRow?) || (a.SystemRow? && b.SystemRow?)
    ensures a == b
  {
    if a.CurrentRow? {
      FirstNul(a.bucket, a.key, b.bucket, b.key);
    } else if a.SystemRow? {
      SystemTextInjective(a.name, b.name);
    }
  }

  lemma UploadsDiffer(a: RowKey, b: RowKey)
    requires ValidRow(a) && ValidRow(b) && BodyOf(a) == BodyOf(b)
    requires (a.UploadRow? || a.PartRow?) && (b.UploadRow? || b.PartRow?)
    ensures a == b
  {
    UploadBody(a);
    UploadBody(b);
    hide BodyOf, IdBytes, PartBytes;
    TwoComponents(a.bucket, a.key, UploadTail(a), b.bucket, b.key, UploadTail(b));
    if a.UploadRow? {
      IdsDiffer(a.id, b.id);
    } else {
      PartTail(a, b);
    }
  }

  function UploadTail(r: RowKey): bytes
    requires r.UploadRow? || r.PartRow?
  {
    if r.UploadRow? then IdBytes(r.id) else IdBytes(r.id) + PartBytes(r.part)
  }

  lemma UploadBody(r: RowKey)
    requires r.UploadRow? || r.PartRow?
    ensures BodyOf(r) == r.bucket + Nul + (r.key + Nul + UploadTail(r))
    ensures |UploadTail(r)| == if r.UploadRow? then IdLen else IdLen + 4
  {
  }

  lemma PartTail(a: RowKey, b: RowKey)
    requires a.PartRow? && b.PartRow? && UploadTail(a) == UploadTail(b)
    ensures a.id == b.id && a.part == b.part
  {
    var x, y := UploadTail(a), UploadTail(b);
    assert x[..IdLen] == IdBytes(a.id) && y[..IdLen] == IdBytes(b.id);
    assert x[IdLen..] == PartBytes(a.part) && y[IdLen..] == PartBytes(b.part);
    IdsDiffer(a.id, b.id);
    PartsDiffer(a.part, b.part);
  }

  /** A version row asked for by unchecked names still finds only the row of those names. */
  lemma UncheckedVersionRow(b: bytes, k: bytes, id: vid, r: RowKey)
    requires ValidRow(r) && Encode(r) == Encode(VersionRow(b, k, id))
    ensures r == VersionRow(b, k, id)
  {
    var q := VersionRow(b, k, id);
    EncodeParts(r);
    EncodeParts(q);
    SplitTable(TableOf(r), BodyOf(r), TableOf(q), BodyOf(q));
    assert TableOf(r)[0] == TableOf(q)[0];
    assert r.VersionRow?;
    OneNulBetween(b, k, Reversed(id), r.bucket, r.key, Reversed(r.id));
    EncodeInjective(r, q);
  }

  lemma OneNulBetween(b: bytes, k: bytes, s: bytes, b': bytes, k': bytes, t: bytes)
    requires NoNul(b') && NoNul(k') && |s| == |t| && b + Nul + (k + Nul + s) == b' + Nul + (k' + Nul + t)
    ensures NoNul(b) && NoNul(k)
  {
    var x, y := b + Nul + (k + Nul + s), b' + Nul + (k' + Nul + t);
    var n := |b| + 1 + |k|;
    assert n == |b'| + 1 + |k'|;
    assert x[|b|] == 0;
    assert forall i :: 0 <= i < n && i != |b'| ==> y[i] != 0;
    assert forall i :: 0 <= i < |b| ==> x[i] == b[i];
    assert forall i :: 0 <= i < |k| ==> x[|b| + 1 + i] == k[i];
  }

  // ---- prefixes name what they should ----

  /** The rows under a key's version prefix are exactly its versions. */
  lemma UnderVersionPrefix(b: bytes, k: bytes, r: RowKey)
    requires NoNul(b) && NoNul(k) && ValidRow(r)
    ensures IsPrefix(VersionPrefix(b, k), Encode(r)) <==> r.VersionRow? && r.bucket == b && r.key == k
  {
    hide Reversed;
    EncodeParts(r);
    SameTable(VersionsTable, b + Nul + (k + Nul), TableOf(r), BodyOf(r));
    assert TableOf(r) == VersionsTable <==> r.VersionRow? by {
      assert TableOf(r)[0] == 118 <==> r.VersionRow?;
    }
    if r.VersionRow? {
      TwoComponentPrefix(b, k, r.bucket, r.key, Reversed(r.id));
    }
  }

  lemma TwoComponentPrefix(b: bytes, k: bytes, b': bytes, k': bytes, t: bytes)
    requires NoNul(b) && NoNul(k) && NoNul(b') && NoNul(k')
    ensures IsPrefix(b + Nul + (k + Nul), b' + Nul + (k' + Nul + t)) <==> b == b' && k == k'
  {
    var p, whole := b + Nul + (k + Nul), b' + Nul + (k' + Nul + t);
    if b == b' && k == k' {
      assert whole[..|p|] == p;
    }
    if IsPrefix(p, whole) {
      assert whole == b + Nul + (k + Nul + whole[|p|..]);
      TwoComponents(b, k, whole[|p|..], b', k', t);
    }
  }

  /** The rows under a bucket's version prefix are exactly its version rows. */
  lemma UnderBucketVersions(b: bytes, r: RowKey)
    requires NoNul(b) && ValidRow(r)
    ensures IsPrefix(BucketVersionsPrefix(b), Encode(r)) <==> r.VersionRow? && r.bucket == b
  {
    EncodeParts(r);
    SameTable(VersionsTable, b + Nul, TableOf(r), BodyOf(r));
    assert TableOf(r) == VersionsTable <==> r.VersionRow? by {
      assert TableOf(r)[0] == 118 <==> r.VersionRow?;
    }
    if r.VersionRow? {
      DelimitedPrefix(b, r.bucket, r.key + Nul + Reversed(r.id));
    }
  }

  /** The rows under a bucket's upload prefix are exactly its upload and part rows. */
  lemma UnderUploads(b: bytes, r: RowKey)
    requires NoNul(b) && ValidRow(r)
    ensures IsPrefix(UploadsPrefix(b), Encode(r)) <==> (r.UploadRow? || r.PartRow?) && r.bucket == b
  {
    EncodeParts(r);
    SameTable(UploadsTable, b + Nul, TableOf(r), BodyOf(r));
    assert TableOf(r) == UploadsTable <==> (r.UploadRow? || r.PartRow?) by {
      assert TableOf(r)[0] == 117 <==> (r.UploadRow? || r.PartRow?);
    }
    if r.UploadRow? || r.PartRow? {
      UploadBody(r);
      DelimitedPrefix(b, r.bucket, r.key + Nul + UploadTail(r));
    }
  }

  /** The rows under one upload's own row name are that upload and its parts. */
  lemma UnderUpload(b: bytes, k: bytes, id: vid, r: RowKey)
    requires NoNul(b) && NoNul(k) && ValidRow(r)
    ensures IsPrefix(Encode(UploadRow(b, k, id)), Encode(r)) <==>
      (r.UploadRow? || r.PartRow?) && r.bucket == b && r.key == k && r.id == id
  {
    var u := UploadRow(b, k, id);
    EncodeParts(r);
    EncodeParts(u);
    SameTable(UploadsTable, BodyOf(u), TableOf(r), BodyOf(r));
    assert TableOf(r) == UploadsTable <==> (r.UploadRow? || r.PartRow?) by {
      assert TableOf(r)[0] == 117 <==> (r.UploadRow? || r.PartRow?);
    }
    if r.UploadRow? || r.PartRow? {
      UploadBody(r);
      UploadBody(u);
      SameUpload(u, r);
    }
  }

  lemma SameUpload(u: RowKey, r: RowKey)
    requires u.UploadRow? && (r.UploadRow? || r.PartRow?) && ValidRow(u) && ValidRow(r)
    ensures IsPrefix(BodyOf(u), BodyOf(r)) <==> r.bucket == u.bucket && r.key == u.key && r.id == u.id
  {
    hide IdBytes, PartBytes;
    UploadBody(r);
    UploadBody(u);
    var p, whole := BodyOf(u), BodyOf(r);
    var id := IdBytes(u.id);
    assert UploadTail(r)[..IdLen] == IdBytes(r.id);
    if r.bucket == u.bucket && r.key == u.key && r.id == u.id {
      assert whole[..|p|] == p;
    }
    if IsPrefix(p, whole) {
      var rest := whole[|p|..];
      assert whole == u.bucket + Nul + (u.key + Nul + (id + rest));
      TwoComponents(u.bucket, u.key, id + rest, r.bucket, r.key, UploadTail(r));
      assert (id + rest)[..IdLen] == id;
      IdsDiffer(u.id, r.id);
    }
  }

  /** The rows under a bucket's current prefix extended by `prefix` are its current rows for
      keys with that prefix. */
  lemma UnderCurrent(b: bytes, prefix: bytes, r: RowKey)
    requires ValidRow(r)
    ensures IsPrefix(CurrentPrefix(b) + prefix, Encode(r)) <==>
      r.CurrentRow? && r.bucket == b && IsPrefix(prefix, r.key)
  {
    EncodeParts(r);
    assert CurrentPrefix(b) + prefix == CurrentTable + (b + Nul + prefix);
    SameTable(CurrentTable, b + Nul + prefix, TableOf(r), BodyOf(r));
    assert TableOf(r) == CurrentTable <==> r.CurrentRow? by {
      assert TableOf(r)[0] == 99 <==> r.CurrentRow?;
    }
    if r.CurrentRow? {
      OneComponentPrefix(b, prefix, r.bucket, r.key);
    }
  }

  lemma OneComponentPrefix(b: bytes, prefix: bytes, b': bytes, k: bytes)
    requires NoNul(b') && NoNul(k)
    ensures IsPrefix(b + Nul + prefix, b' + Nul + k) <==> b == b' && IsPrefix(prefix, k)
  {
    var p, whole := b + Nul + prefix, b' + Nul + k;
    if b == b' && IsPrefix(prefix, k) {
      assert whole[..|p|] == p;
    }
    if IsPrefix(p, whole) {
      assert whole == b + Nul + (prefix + whole[|p|..]);
      assert whole[|b|] == 0;
      assert |b| == |b'|;
      assert b == whole[..|b|] == b';
      assert whole[|b| + 1..] == k && whole[|b| + 1..][..|prefix|] == prefix;
    }
  }

  // ---- byte order is list order ----

  /** NUL sorts below every key byte, so delimited keys sort as the keys do. */
  lemma {:induction false} DelimitedOrder(a: bytes, s: bytes, b: bytes, t: bytes)
    requires NoNul(a) && NoNul(b) && a != b
    ensures Less(a + Nul + s, b + Nul + t) <==> Less(a, b)
  {
    var x, y := a + Nul + s, b + Nul + t;
    if a == [] || b == [] {
      assert x[0] == if a == [] then 0 else a[0];
      assert y[0] == if b == [] then 0 else b[0];
    } else {
      assert x[0] == a[0] && y[0] == b[0];
      assert x[1..] == a[1..] + Nul + s && y[1..] == b[1..] + Nul + t;
      if a[0] == b[0] {
        assert a == [a[0]] + a[1..] && b == [b[0]] + b[1..];
        DelimitedOrder(a[1..], s, b[1..], t);
      }
    }
  }

  lemma VersionRowSplit(b: bytes, k: bytes, id: vid)
    ensures Encode(VersionRow(b, k, id)) == BucketVersionsPrefix(b) + (k + Nul + Reversed(id))
  {
    hide Reversed;
  }

  /** Version rows of a bucket sort by key, then newest first. */
  lemma VersionRowOrder(b: bytes, k: bytes, i: vid, l: bytes, j: vid)
    requires NoNul(b) && NoNul(k) && NoNul(l)
    ensures Less(Encode(VersionRow(b, k, i)), Encode(VersionRow(b, l, j))) <==> Less(k, l) || (k == l && i > j)
  {
    hide Encode, Reversed, Less;
    VersionRowSplit(b, k, i);
    VersionRowSplit(b, l, j);
    SamePrefix(BucketVersionsPrefix(b), k + Nul + Reversed(i), l + Nul + Reversed(j));
    if k == l {
      SamePrefix(k + Nul, Reversed(i), Reversed(j));
      NewestSortsFirst(i, j);
      Irreflexive(k);
    } else {
      DelimitedOrder(k, Reversed(i), l, Reversed(j));
    }
  }

  /** Current rows of a bucket sort by key. */
  lemma CurrentRowOrder(b: bytes, k: bytes, l: bytes)
    ensures Less(Encode(CurrentRow(b, k)), Encode(CurrentRow(b, l))) <==> Less(k, l)
  {
    var p := CurrentPrefix(b);
    assert Encode(CurrentRow(b, k)) == p + k && Encode(CurrentRow(b, l)) == p + l;
    SamePrefix(p, k, l);
  }

  /** Part rows of an upload sort by part number. */
  lemma PartRowOrder(b: bytes, k: bytes, id: vid, m: uint32, n: uint32)
    ensures Less(Encode(PartRow(b, k, id, m)), Encode(PartRow(b, k, id, n))) <==> m < n
  {
    hide Encode, Less, PartBytes;
    var p := Encode(UploadRow(b, k, id));
    PartRowSplit(b, k, id, m);
    PartRowSplit(b, k, id, n);
    SamePrefix(p, PartBytes(m), PartBytes(n));
    PartValue(m);
    PartValue(n);
    LessIsValueOrder(PartBytes(m), PartBytes(n));
  }

  lemma PartRowSplit(b: bytes, k: bytes, id: vid, n: uint32)
    ensures Encode(PartRow(b, k, id, n)) == Encode(UploadRow(b, k, id)) + PartBytes(n)
  {
    hide IdBytes, PartBytes;
  }

  lemma PartValue(n: uint32)
    ensures Value(PartBytes(n)) == n
  {
    assert Pow256(4) == 0x1_0000_0000;
    ValueOfBytes(n, 4);
  }

  // ---- the names, read back ----

  /** The object key and version ID of a version row's name. */
  function KeyAndVersion(name: bytes, bucket: bytes): (r: (bytes, vid))
    requires |name| >= |BucketVersionsPrefix(bucket)| + 17
  {
    var rest := name[|BucketVersionsPrefix(bucket)|..];
    (rest[..|rest| - 17], IdFrom(Complement(rest[|rest| - 16..])))
  }

  lemma SplitTail(p: bytes, k: bytes, t: bytes)
    requires |t| == 16
    ensures var rest := (p + (k + Nul + t))[|p|..];
      |rest| == |k| + 17 && rest[|rest| - 16..] == t && rest[..|rest| - 17] == k
  {
    assert (p + (k + Nul + t))[|p|..] == k + Nul + t;
  }

  lemma KeyAndVersionOf(b: bytes, k: bytes, id: vid)
    ensures |Encode(VersionRow(b, k, id))| >= |BucketVersionsPrefix(b)| + 17
    ensures KeyAndVersion(Encode(VersionRow(b, k, id)), b) == (k, id)
  {
    var name, p := Encode(VersionRow(b, k, id)), BucketVersionsPrefix(b);
    VersionRowSplit(b, k, id);
    ComplementValue(IdBytes(id));
    assert Complement(Reversed(id)) == IdBytes(id);
    hide Encode, Reversed, BucketVersionsPrefix, Complement, IdFrom, IdBytes;
    SplitTail(p, k, Reversed(id));
    IdsDiffer(IdFrom(IdBytes(id)), id);
  }

  function KeyOfCurrent(name: bytes, bucket: bytes): bytes
    requires |name| >= |CurrentPrefix(bucket)|
  {
    name[|CurrentPrefix(bucket)|..]
  }

  lemma KeyOfCurrentOf(b: bytes, k: bytes)
    ensures |Encode(CurrentRow(b, k))| >= |CurrentPrefix(b)| && KeyOfCurrent(Encode(CurrentRow(b, k)), b) == k
  {
    assert Encode(CurrentRow(b, k)) == CurrentPrefix(b) + k;
  }

  // ---- the name rules ----

  const MaxKeyLen := 1024

  predicate ValidObjectKey(key: bytes) {
    0 < |key| <= MaxKeyLen && NoNul(key)
  }

  predicate Alnum(c: byte) {
    97 <= c <= 122 || 48 <= c <= 57
  }

  predicate BucketNameByte(c: byte) {
    Alnum(c) || c == 46 || c == 45
  }

  /** 3 to 63 bytes of lower-case letters, digits, dots and hyphens, alphanumeric at both ends. */
  predicate ValidBucketName(name: bytes) {
    && 3 <= |name| <= 63
    && (forall i :: 0 <= i < |name| ==> BucketNameByte(name[i]))
    && Alnum(name[0]) && Alnum(name[|name| - 1])
  }

  method ValidateBucketName(name: bytes) returns (ok: bool)
    ensures ok <==> ValidBucketName(name)
    ensures ok ==> NoNul(name)
  {
    if |name| < 3 || |name| > 63 {
      return false;
    }
    var i := 0;
    while i < |name|
      invariant 0 <= i <= |name|
      invariant forall j :: 0 <= j < i ==> BucketNameByte(name[j]) && (j == 0 || j == |name| - 1 ==> Alnum(name[j]))
    {
      var alnum := Alnum(name[i]);
      if (i == 0 || i == |name| - 1) && !alnum {
        return false;
      }
      if !alnum && name[i] != 46 && name[i] != 45 {
        return false;
      }
      i := i + 1;
    }
    ok := true;
  }
}
