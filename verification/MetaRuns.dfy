/** Theorems over every sequence of proposals: object lock holds, the derived rows are right,
    and version IDs follow commit order. */
module MetaRuns {
  import opened Bytes
  import opened MetaVid
  import opened MetaKeys
  import opened MetaRecords
  import opened MetaApply
  import opened MetaInv

  // ---- version IDs over a run ----

  predicate Committing(p: Proposal) {
    p.PutObject? || p.DeleteObject? || p.CompleteUpload?
  }

  /** How many proposals of a log may commit a version. */
  function Commits(log: seq<Proposal>): (n: nat) {
    if log == [] then 0 else Commits(log[..|log| - 1]) + if Committing(log[|log| - 1]) then 1 else 0
  }

  predicate MintedWithin(log: seq<Proposal>, top: nat) {
    forall i :: 0 <= i < |log| && Committing(log[i]) ==> log[i].id <= top
  }

  predicate IdsWithin(st: State, top: nat) {
    forall v :: v in st.versions ==> v.id <= top
  }

  /** A commit's ID, and a removal: every ID after a commit was there before or is the new one. */
  lemma CommitVersions(st: State, b: bytes, k: bytes, at: int64, e: VersionEntry)
    ensures forall v :: v in Commit(st, b, k, at, e).st.versions ==> v in st.versions || v == VersionKey(b, k, e.id)
  {
  }

  /** A bumped ID is at most one past the larger of the minted and the largest present. */
  lemma BumpedBound(st: State, b: bytes, k: bytes, minted: vid, top: nat)
    requires IdsWithin(st, top) && minted <= top + 1
    ensures Bumped(st, b, k, minted) <= top + 1
  {
    var newest := Newest(st, b, k);
    if newest.Some? {
      assert VersionKey(b, k, newest.value) in st.versions;
    }
  }

  /** What a committing proposal does to the versions: nothing, remove a key's newest (in an
      unversioned bucket), or commit one entry under the bumped ID. */
  datatype Effect = Unchanged | Removes(id: vid) | Inserts(entry: VersionEntry)

  ghost predicate HasEffect(st: State, p: Proposal, out: Outcome, f: Effect)
    requires Committing(p)
  {
    match f
    case Unchanged => out.st.versions == st.versions && (out.res.Ok? ==> out.res.value.id.None?)
    case Removes(id) =>
      && Newest(st, p.bucket, p.key) == Some(id)
      && !LockedAt(st.versions[VersionKey(p.bucket, p.key, id)], p.at, false)
      && out.st.versions == st.versions - {VersionKey(p.bucket, p.key, id)}
      && (out.res.Ok? ==> out.res.value.id.None?)
    case Inserts(e) =>
      && e.id == Bumped(st, p.bucket, p.key, p.id)
      && out.st.versions == Commit(st, p.bucket, p.key, p.at, e).st.versions
      && var res := Commit(st, p.bucket, p.key, p.at, e).res;
      && (out.res.Ok? <==> res.Ok?) && (res.Ok? ==> out.res.value.id == res.value.id)
  }

  lemma PutEffect(st: State, p: Proposal, calendar: Calendar) returns (f: Effect)
    requires p.PutObject?
    ensures HasEffect(st, p, StepPut(st, p, calendar), f)
  {
    hide Bumped, Commit, ValidObjectKey;
    if StepPut(st, p, calendar).st == st && StepPut(st, p, calendar).res.Err? {
      f := Unchanged;
    } else {
      f := Inserts(PutEntry(st.buckets[p.bucket], p, Bumped(st, p.bucket, p.key, p.id), calendar));
    }
  }

  lemma DeleteEffect(st: State, p: Proposal) returns (f: Effect)
    requires p.DeleteObject?
    ensures HasEffect(st, p, StepDeleteObject(st, p), f)
  {
    hide Bumped, Commit, ValidObjectKey, LockedAt;
    var out := StepDeleteObject(st, p);
    if out.st == st && (out.res.Err? || out.res.value.id.None?) {
      f := Unchanged;
    } else if st.buckets[p.bucket].versioning == Unversioned {
      f := Removes(Newest(st, p.bucket, p.key).value);
    } else {
      f := Inserts(Marker(st.buckets[p.bucket], p, Bumped(st, p.bucket, p.key, p.id)));
    }
  }

  lemma CompleteEffect(st: State, p: Proposal) returns (f: Effect)
    requires p.CompleteUpload?
    ensures HasEffect(st, p, StepCompleteUpload(st, p), f)
  {
    hide Bumped, Commit, ValidObjectKey, AscendingParts, PartError;
    var out := StepCompleteUpload(st, p);
    if out.st == st && out.res.Err? {
      f := Unchanged;
    } else {
      f := Inserts(CompletedEntry(st, st.buckets[p.bucket], p, Bumped(st, p.bucket, p.key, p.id)));
    }
  }

  lemma CommittingEffect(st: State, p: Proposal, calendar: Calendar) returns (f: Effect)
    requires Committing(p)
    ensures HasEffect(st, p, Step(st, p, calendar), f)
  {
    hide HasEffect, StepPut, StepDeleteObject, StepCompleteUpload;
    if p.PutObject? {
      f := PutEffect(st, p, calendar);
    } else if p.DeleteObject? {
      f := DeleteEffect(st, p);
    } else {
      f := CompleteEffect(st, p);
    }
  }

  /** One step raises the largest ID by at most one, and only if it commits. */
  lemma StepIds(st: State, p: Proposal, calendar: Calendar, top: nat)
    requires IdsWithin(st, top) && (Committing(p) ==> p.id <= top + 1)
    ensures IdsWithin(Step(st, p, calendar).st, if Committing(p) then top + 1 else top)
  {
    if Committing(p) {
      var f := CommittingEffect(st, p, calendar);
      BumpedBound(st, p.bucket, p.key, p.id, top);
      hide Step, Bumped, Newest, Commit, LockedAt;
      if f.Inserts? {
        CommitVersions(st, p.bucket, p.key, p.at, f.entry);
      }
    } else {
      NoNewVersions(st, p, calendar);
    }
  }

  /** Only commits add versions. */
  lemma NoNewVersions(st: State, p: Proposal, calendar: Calendar)
    requires !Committing(p)
    ensures forall v :: v in Step(st, p, calendar).st.versions ==> v in st.versions
  {
    hide ValidObjectKey, ValidBucketName, LockedAt, Newest, RederivedRows;
  }

  /** A key whose IDs stay below the last one has room. */
  lemma RoomBelow(st: State, p: Proposal, top: nat)
    requires IdsWithin(st, top) && top < TwoTo128 - 1
    ensures Room(st, p)
  {
    if Committing(p) && Newest(st, p.bucket, p.key).Some? {
      assert VersionKey(p.bucket, p.key, Newest(st, p.bucket, p.key).value) in st.versions;
    }
  }

  /** Every reachable store is well formed, and after n commits the largest ID is at most the
      largest minted plus n: while that stays below 2^128, nothing wraps. */
  lemma {:induction false} RunKeepsInv(st: State, log: seq<Proposal>, calendar: Calendar, top: nat)
    requires Inv(st) && IdsWithin(st, top) && MintedWithin(log, top) && top + Commits(log) < TwoTo128
    ensures Inv(Run(st, log, calendar)) && IdsWithin(Run(st, log, calendar), top + Commits(log))
    decreases |log|
  {
    hide Inv, Step, IdsWithin;
    if log != [] {
      var front, p := log[..|log| - 1], log[|log| - 1];
      RunKeepsInv(st, front, calendar, top);
      var s := Run(st, front, calendar);
      var n := top + Commits(front);
      if Committing(p) {
        RoomBelow(s, p, n);
      } else {
        assert Room(s, p);
      }
      StepKeepsInv(s, p, calendar);
      StepIds(s, p, calendar, n);
    }
  }

  lemma NoIds(top: nat)
    ensures IdsWithin(Empty, top)
  {
  }

  /** From an empty store: the whole of what listing and reading rely on. */
  lemma ReachableInv(log: seq<Proposal>, calendar: Calendar, top: nat)
    requires MintedWithin(log, top) && top + Commits(log) < TwoTo128
    ensures var st := Run(Empty, log, calendar);
      && Inv(st)
      && IdsWithin(st, top + Commits(log))
      && forall b, k :: CurrentMatches(st, b, k) && NullRules(st, b, k)
  {
    hide Run, Step, IdsWithin, CurrentMatches, NullRules, Named, BucketsOk, UploadsOk, MintedWithin;
    EmptyInv();
    assert IdsWithin(Empty, top) by {
      NoIds(top);
    }
    RunKeepsInv(Empty, log, calendar, top);
    var st := Run(Empty, log, calendar);
    forall b, k
      ensures CurrentMatches(st, b, k) && NullRules(st, b, k)
    {
      assert KeyInv(st, b, k);
    }
  }

  /** Commit order beats clock order: the version a commit reports is above every version the
      key had and is its newest afterwards. */
  lemma CommitIsNewest(st: State, p: Proposal, calendar: Calendar)
    requires Inv(st) && Committing(p) && Room(st, p)
    requires Step(st, p, calendar).res.Ok? && Step(st, p, calendar).res.value.id.Some?
    ensures var id := Step(st, p, calendar).res.value.id.value;
      Fresh(st, p.bucket, p.key, id) && Newest(Step(st, p, calendar).st, p.bucket, p.key) == Some(id)
  {
    BumpedIsFresh(st, p.bucket, p.key, p.id);
    assert KeyInv(st, p.bucket, p.key);
    var f := CommittingEffect(st, p, calendar);
    hide Bumped, Newest, Fresh, Inv, KeyInv, Step, Commit, LockedAt;
    CommitReports(st, p.bucket, p.key, p.at, f.entry);
    SameVersions(Commit(st, p.bucket, p.key, p.at, f.entry).st, Step(st, p, calendar).st, p.bucket, p.key);
  }

  lemma CommitReports(st: State, b: bytes, k: bytes, at: int64, e: VersionEntry)
    requires Fresh(st, b, k, e.id) && KeyInv(st, b, k)
    ensures Commit(st, b, k, at, e).res.Ok? ==>
      Commit(st, b, k, at, e).res.value.id == Some(e.id) && Newest(Commit(st, b, k, at, e).st, b, k) == Some(e.id)
  {
    if Commit(st, b, k, at, e).res.Ok? {
      CommitIds(st, b, k, at, e);
    }
  }

  // ---- object lock ----

  /** A version under COMPLIANCE at least until T. */
  predicate ComplianceUntil(e: VersionEntry, t: int64) {
    e.mode == RetentionCompliance && e.retainUntilMS >= t
  }

  /** f is e with COMPLIANCE no weaker and its content untouched. */
  predicate NoWeaker(e: VersionEntry, f: VersionEntry) {
    SameObject(e, f) && ComplianceUntil(f, e.retainUntilMS)
  }

  /** A proposal clears a version's legal hold. */
  predicate ClearsHold(p: Proposal, v: VersionKey) {
    p.UpdateLegalHold? && !p.hold && v == VersionKey(p.bucket, p.key, p.id)
  }

  /** A fresh commit destroys no locked version. */
  lemma CommitSpares(st: State, b: bytes, k: bytes, at: int64, e: VersionEntry, v: VersionKey)
    requires Fresh(st, b, k, e.id) && v in st.versions && LockedAt(st.versions[v], at, false)
    ensures Find(Commit(st, b, k, at, e).st.versions, v) == Some(st.versions[v])
  {
    if v.bucket == b && v.key == k {
      assert v == VersionKey(b, k, v.id);
      assert v.id in Ids(st, b, k);
    }
  }

  /** A commit leaves a locked version exactly as it was. */
  lemma CommittersSpare(st: State, p: Proposal, calendar: Calendar, v: VersionKey)
    requires Committing(p) && Room(st, p) && v in st.versions && LockedAt(st.versions[v], p.at, false)
    ensures Find(Step(st, p, calendar).st.versions, v) == Some(st.versions[v])
  {
    BumpedIsFresh(st, p.bucket, p.key, p.id);
    var f := CommittingEffect(st, p, calendar);
    hide Bumped, Fresh, LockedAt, Step, Commit, Newest;
    if f.Inserts? {
      CommitSpares(st, p.bucket, p.key, p.at, f.entry, v);
    }
  }

  predicate Rewriting(p: Proposal) {
    p.UpdateRetention? || p.UpdateLegalHold? || p.ReEncodeObject? || p.RewrapDEK?
  }

  /** What a rewrite may do to an entry: its content stays; its retention changes only through a
      retention update that is not refused, its hold only through a hold update. */
  predicate RewriteOf(e: VersionEntry, f: VersionEntry, p: Proposal) {
    && SameObject(e, f)
    && ((e.mode == f.mode && e.retainUntilMS == f.retainUntilMS)
        || (p.UpdateRetention? && !RetentionRefused(e, p) && f.mode == p.mode
            && f.retainUntilMS == (if p.mode == RetentionNone then 0 else p.retainUntilMS)))
    && (e.hold == f.hold || (p.UpdateLegalHold? && f.hold == p.hold))
  }

  lemma RewritesSpare(st: State, p: Proposal, calendar: Calendar, v: VersionKey)
    requires Rewriting(p) && v in st.versions
    ensures v in Step(st, p, calendar).st.versions
    ensures var f := Step(st, p, calendar).st.versions[v];
      f == st.versions[v] || (v == VersionKey(p.bucket, p.key, p.id) && RewriteOf(st.versions[v], f, p))
  {
    hide ValidObjectKey;
  }

  /** Deleting a version spares the others, and the version itself under a hold, live COMPLIANCE, or live
      GOVERNANCE that is not bypassed. */
  lemma DeleteVersionSpares(st: State, p: Proposal, v: VersionKey)
    requires p.DeleteVersion? && v in st.versions
    ensures var e := st.versions[v];
      v != VersionKey(p.bucket, p.key, p.id) || e.hold ||
      (e.retainUntilMS > p.at && (e.mode == RetentionCompliance || (e.mode == RetentionGovernance && !p.bypass))) ==>
      Find(StepDeleteVersion(st, p).st.versions, v) == Some(e)
  {
    hide ValidObjectKey, Newest, RederivedRows;
  }

  lemma QuietSpares(st: State, p: Proposal, calendar: Calendar)
    requires !Committing(p) && !Rewriting(p) && !p.DeleteVersion?
    ensures Step(st, p, calendar).st.versions == st.versions
  {
    hide ValidObjectKey, ValidBucketName;
  }

  /** Retention under COMPLIANCE only strengthens. */
  lemma StepStrengthens(st: State, p: Proposal, calendar: Calendar, v: VersionKey)
    requires Room(st, p) && v in st.versions && st.versions[v].mode == RetentionCompliance &&
      p.at < st.versions[v].retainUntilMS
    ensures v in Step(st, p, calendar).st.versions && NoWeaker(st.versions[v], Step(st, p, calendar).st.versions[v])
  {
    if Committing(p) {
      CommittersSpare(st, p, calendar, v);
    } else if Rewriting(p) {
      RewritesSpare(st, p, calendar, v);
    } else if p.DeleteVersion? {
      DeleteVersionSpares(st, p, v);
      assert Step(st, p, calendar) == StepDeleteVersion(st, p);
    } else {
      QuietSpares(st, p, calendar);
    }
    hide Step, StepDeleteVersion, Room;
  }

  /** A legal hold stays until cleared. */
  lemma StepHolds(st: State, p: Proposal, calendar: Calendar, v: VersionKey)
    requires Room(st, p) && v in st.versions && st.versions[v].hold && !ClearsHold(p, v)
    ensures v in Step(st, p, calendar).st.versions
    ensures SameObject(st.versions[v], Step(st, p, calendar).st.versions[v]) &&
      Step(st, p, calendar).st.versions[v].hold
  {
    if Committing(p) {
      CommittersSpare(st, p, calendar, v);
    } else if Rewriting(p) {
      RewritesSpare(st, p, calendar, v);
    } else if p.DeleteVersion? {
      DeleteVersionSpares(st, p, v);
      assert Step(st, p, calendar) == StepDeleteVersion(st, p);
    } else {
      QuietSpares(st, p, calendar);
    }
    hide Step, StepDeleteVersion, Room;
  }

  /** Every proposal of a log finds room. */
  ghost predicate RoomAlong(st: State, log: seq<Proposal>, calendar: Calendar) {
    forall i :: 0 <= i < |log| ==> Room(Run(st, log[..i], calendar), log[i])
  }

  /** COMPLIANCE: for every log of proposals stamped before T, a version under COMPLIANCE until
      T still exists, its retention never weakened, its content never changed. */
  lemma {:induction false} ComplianceHolds(st: State, log: seq<Proposal>, calendar: Calendar, v: VersionKey, t: int64)
    requires RoomAlong(st, log, calendar) && v in st.versions && ComplianceUntil(st.versions[v], t)
    requires forall i :: 0 <= i < |log| ==> log[i].at < t
    ensures v in Run(st, log, calendar).versions && NoWeaker(st.versions[v], Run(st, log, calendar).versions[v])
    decreases |log|
  {
    hide Step, Room;
    if log != [] {
      var front, p := log[..|log| - 1], log[|log| - 1];
      assert forall i :: 0 <= i < |front| ==> front[..i] == log[..i];
      ComplianceHolds(st, front, calendar, v, t);
      var s := Run(st, front, calendar);
      assert Room(s, p);
      StepStrengthens(s, p, calendar, v);
    }
  }

  /** Legal hold: until a proposal clears it, a held version exists with its content unchanged,
      whatever the clocks say. */
  lemma {:induction false} LegalHoldHolds(st: State, log: seq<Proposal>, calendar: Calendar, v: VersionKey)
    requires RoomAlong(st, log, calendar) && v in st.versions && st.versions[v].hold
    requires forall i :: 0 <= i < |log| ==> !ClearsHold(log[i], v)
    ensures v in Run(st, log, calendar).versions
    ensures SameObject(st.versions[v], Run(st, log, calendar).versions[v]) && Run(st, log, calendar).versions[v].hold
    decreases |log|
  {
    hide Step, Room;
    if log != [] {
      var front, p := log[..|log| - 1], log[|log| - 1];
      assert forall i :: 0 <= i < |front| ==> front[..i] == log[..i];
      LegalHoldHolds(st, front, calendar, v);
      var s := Run(st, front, calendar);
      assert Room(s, p);
      StepHolds(s, p, calendar, v);
    }
  }

  lemma RoomElse(st: State, p: Proposal)
    requires !Committing(p)
    ensures Room(st, p)
  {
  }

  /** Room is there whenever minted IDs leave enough of the ID space. */
  lemma RoomFromIds(st: State, log: seq<Proposal>, calendar: Calendar, top: nat)
    requires Inv(st) && IdsWithin(st, top) && MintedWithin(log, top) && top + Commits(log) < TwoTo128
    ensures RoomAlong(st, log, calendar)
  {
    hide Inv, Run, IdsWithin, Room, Commits, MintedWithin;
    forall i | 0 <= i < |log|
      ensures Room(Run(st, log[..i], calendar), log[i])
    {
      RoomAt(st, log, calendar, top, i);
    }
  }

  lemma RoomAt(st: State, log: seq<Proposal>, calendar: Calendar, top: nat, i: nat)
    requires Inv(st) && IdsWithin(st, top) && MintedWithin(log, top) && top + Commits(log) < TwoTo128 && i < |log|
    ensures Room(Run(st, log[..i], calendar), log[i])
  {
    hide Inv, Run, IdsWithin, Room;
    CommitsGrow(log, i);
    RunKeepsInv(st, log[..i], calendar, top);
    if Committing(log[i]) {
      RoomBelow(Run(st, log[..i], calendar), log[i], top + Commits(log[..i]));
    } else {
      RoomElse(Run(st, log[..i], calendar), log[i]);
    }
  }

  lemma {:induction false} CommitsGrow(log: seq<Proposal>, i: nat)
    requires i < |log|
    ensures Commits(log[..i]) + (if Committing(log[i]) then 1 else 0) <= Commits(log)
    decreases |log|
  {
    var front := log[..|log| - 1];
    if i < |log| - 1 {
      CommitsGrow(front, i);
      assert front[..i] == log[..i];
    }
  }

  /** Exactly when a commit lands on a row the key already has: the newest ID is the last there
      is and the first is taken. Then the bump wraps onto it. */
  lemma OverwritesExactlyAtWrap(st: State, b: bytes, k: bytes, minted: vid)
    ensures Bumped(st, b, k, minted) in Ids(st, b, k) <==> Newest(st, b, k) == Some(TwoTo128 - 1) && 0 in Ids(st, b, k)
  {
    BumpedIsFresh(st, b, k, minted);
  }

  /** The room hypothesis is needed: at the wrap an ordinary write replaces a version under
      COMPLIANCE, whatever its date. */
  lemma WrapReplacesLocked(st: State, p: Proposal, calendar: Calendar)
    requires p.PutObject? && p.bucket in st.buckets && ValidObjectKey(p.key)
    requires st.buckets[p.bucket].lockEnabled && st.buckets[p.bucket].versioning == VersioningEnabled
    requires st.buckets[p.bucket].defaultMode == RetentionNone && p.mode == RetentionNone
    requires VersionKey(p.bucket, p.key, 0) in st.versions && VersionKey(p.bucket, p.key, TwoTo128 - 1) in st.versions
    requires st.versions[VersionKey(p.bucket, p.key, 0)].mode == RetentionCompliance
    requires p.at < st.versions[VersionKey(p.bucket, p.key, 0)].retainUntilMS
    ensures Step(st, p, calendar).res.Ok? &&
      Step(st, p, calendar).st.versions[VersionKey(p.bucket, p.key, 0)].mode == RetentionNone
  {
    assert TwoTo128 - 1 in Ids(st, p.bucket, p.key);
    assert Newest(st, p.bucket, p.key) == Some(TwoTo128 - 1);
    assert Bumped(st, p.bucket, p.key, p.id) == 0;
  }
}
