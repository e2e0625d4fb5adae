/** Committed versions, on the fields of the entries themselves: exactly when one can be destroyed or
    changed and in what, and what no log of proposals does to it. */
module MetaLock {
  import opened Bytes
  import opened MetaVid
  import opened MetaKeys
  import opened MetaRecords
  import opened MetaApply
  import opened MetaInv
  import opened MetaRuns

  predicate AimsAt(p: Proposal, v: VersionKey) {
    (p.DeleteVersion? || p.UpdateRetention? || p.UpdateLegalHold? || p.ReEncodeObject? || p.RewrapDEK?)
    && v == VersionKey(p.bucket, p.key, p.id)
  }

  // ---- one proposal ----

  /** A present version is removed by a proposal that names it exactly when it has no hold, and its
      retention has expired, or is of no mode that locks, or is GOVERNANCE and bypassed. Otherwise the
      proposal is refused and nothing changes. */
  lemma DeleteVersionExactly(st: State, p: Proposal, calendar: Calendar)
    requires p.DeleteVersion? && p.bucket in st.buckets && ValidObjectKey(p.key)
    requires VersionKey(p.bucket, p.key, p.id) in st.versions
    ensures var e := st.versions[VersionKey(p.bucket, p.key, p.id)];
      var out := Step(st, p, calendar);
      var free := !e.hold && (e.retainUntilMS <= p.at || e.mode !in {RetentionGovernance, RetentionCompliance} ||
                              (e.mode == RetentionGovernance && p.bypass));
      && (free ==> out.res.Ok? && out.res.value.removed &&
                   out.st.versions == st.versions - {VersionKey(p.bucket, p.key, p.id)})
      && (!free ==> out == Outcome(st, Err(ObjectLocked)))
  {
    hide ValidObjectKey, Newest, RederivedRows;
  }

  /** Retention after a change is no weaker than before: a mode that locks, COMPLIANCE if it was, and
      a date no earlier. */
  predicate NoWeakerLock(e: VersionEntry, mode: uint8, until: int64) {
    && mode in {RetentionGovernance, RetentionCompliance} && until >= e.retainUntilMS
    && (e.mode == RetentionCompliance ==> mode == RetentionCompliance)
  }

  /** A version whose lock can be changed: an object in a bucket with object lock. */
  predicate Lockable(st: State, b: bytes, k: bytes, id: vid) {
    && b in st.buckets && st.buckets[b].lockEnabled && ValidObjectKey(k)
    && VersionKey(b, k, id) in st.versions && st.versions[VersionKey(b, k, id)].kind == KindObject
  }

  /** When a change of retention is permitted. What is live may be strengthened; GOVERNANCE yields to the
      bypass, and to a mode the store does not know if the date is no earlier. What is not live may be
      replaced by anything with a date to come. */
  predicate MayRetain(e: VersionEntry, p: Proposal)
    requires p.UpdateRetention?
  {
    && (p.mode == RetentionNone || p.retainUntilMS > p.at)
    && ( || e.retainUntilMS <= p.at || e.mode !in {RetentionGovernance, RetentionCompliance}
         || NoWeakerLock(e, p.mode, p.retainUntilMS)
         || (e.mode == RetentionGovernance &&
             (p.bypass || (p.mode > RetentionCompliance && p.retainUntilMS >= e.retainUntilMS))))
  }

  /** A retention change is accepted exactly then, and sets the two fields of that version alone. */
  lemma RetentionExactly(st: State, p: Proposal, calendar: Calendar)
    requires p.UpdateRetention?
    ensures var v := VersionKey(p.bucket, p.key, p.id);
      var out := Step(st, p, calendar);
      && (out.res.Ok? <==> Lockable(st, p.bucket, p.key, p.id) && MayRetain(st.versions[v], p))
      && out.st == if out.res.Ok? then st.(versions := st.versions[v := st.versions[v].(mode := p.mode,
           retainUntilMS := if p.mode == RetentionNone then 0 else p.retainUntilMS)]) else st
  {
    hide ValidObjectKey;
  }

  /** A hold is set or cleared exactly on a version that can be locked, and nothing else changes. */
  lemma HoldExactly(st: State, p: Proposal, calendar: Calendar)
    requires p.UpdateLegalHold?
    ensures var v := VersionKey(p.bucket, p.key, p.id);
      var out := Step(st, p, calendar);
      && (out.res.Ok? <==> Lockable(st, p.bucket, p.key, p.id))
      && out.st == if out.res.Ok? then st.(versions := st.versions[v := st.versions[v].(hold := p.hold)]) else st
  {
    hide ValidObjectKey;
  }

  /** Where the bytes are. */
  predicate SameData(e: VersionEntry, f: VersionEntry) {
    && e.dataId == f.dataId && e.layout.dataShards == f.layout.dataShards
    && e.layout.parityShards == f.layout.parityShards && e.layout.shardChecksums == f.layout.shardChecksums
  }

  /** What opens them. */
  predicate SameSeal(e: VersionEntry, f: VersionEntry) {
    e.layout.wrappedDEK == f.layout.wrappedDEK && e.layout.kekFingerprint == f.layout.kekFingerprint
  }

  predicate SameLock(e: VersionEntry, f: VersionEntry) {
    e.mode == f.mode && e.retainUntilMS == f.retainUntilMS
  }

  /** Only this version's entry differs. */
  ghost predicate OnlyVersion(s: State, t: State, v: VersionKey) {
    v in t.versions && t == s.(versions := s.versions[v := t.versions[v]])
  }

  /** The switch of a re-encode: accepted exactly for an object stored whole and a profile with as many
      digests as shards, counted in 32 bits. The version then names the new data and its profile and
      digests, and everything else stays: content, key, lock, hold, every other row. */
  lemma ReEncodeExactly(st: State, p: Proposal, calendar: Calendar)
    requires p.ReEncodeObject?
    ensures var v := VersionKey(p.bucket, p.key, p.id);
      var out := Step(st, p, calendar);
      && (out.res.Ok? <==>
            && v in st.versions && st.versions[v].kind == KindObject && st.versions[v].parts == [] && p.dataShards > 0
            && |p.shardChecksums| == (p.dataShards + p.parityShards) % 0x1_0000_0000)
      && (out.res.Err? ==> out.st == st)
      && (out.res.Ok? ==>
            && OnlyVersion(st, out.st, v)
            && var e, f := st.versions[v], out.st.versions[v];
            && f.dataId == p.dataId && f.layout.dataShards == p.dataShards
            && f.layout.parityShards == p.parityShards && f.layout.shardChecksums == p.shardChecksums
            && SameObject(e, f) && SameSeal(e, f) && SameLock(e, f) && e.hold == f.hold)
  {
  }

  /** A rewrap: accepted exactly for an encrypted object and a key to wrap under. Unless the version is
      on that key already it then carries the new wrapped key, and everything else stays. */
  lemma RewrapExactly(st: State, p: Proposal, calendar: Calendar)
    requires p.RewrapDEK?
    ensures var v := VersionKey(p.bucket, p.key, p.id);
      var out := Step(st, p, calendar);
      && (out.res.Ok? <==>
            && v in st.versions && st.versions[v].kind == KindObject && st.versions[v].layout.encAlgorithm != EncNone
            && p.wrappedDEK != [] && p.kekFingerprint != 0)
      && (out.res.Err? ==> out.st == st)
      && (out.res.Ok? ==>
            && OnlyVersion(st, out.st, v)
            && var e, f := st.versions[v], out.st.versions[v];
            && f.layout.kekFingerprint == p.kekFingerprint
            && f.layout.wrappedDEK == (if e.layout.kekFingerprint == p.kekFingerprint then e.layout.wrappedDEK
                                       else p.wrappedDEK)
            && SameObject(e, f) && SameData(e, f) && SameLock(e, f) && e.hold == f.hold)
  {
    var v := VersionKey(p.bucket, p.key, p.id);
    if v in st.versions {
      assert st == st.(versions := st.versions[v := st.versions[v]]);
    }
  }

  // ---- GOVERNANCE over whole logs ----

  /** Under GOVERNANCE or COMPLIANCE at least until t. */
  predicate RetainedUntil(e: VersionEntry, t: int) {
    e.mode in {RetentionGovernance, RetentionCompliance} && e.retainUntilMS >= t
  }

  /** A proposal that may lift GOVERNANCE from v: a bypass, or a mode the store does not know. */
  predicate Lifts(p: Proposal, v: VersionKey) {
    && v == (if p.DeleteVersion? || p.UpdateRetention? then VersionKey(p.bucket, p.key, p.id) else v)
    && ((p.DeleteVersion? && p.bypass) || (p.UpdateRetention? && (p.bypass || p.mode > RetentionCompliance)))
  }

  lemma RetentionKeeps(st: State, p: Proposal, calendar: Calendar, v: VersionKey)
    requires p.UpdateRetention? && v in st.versions && !Lifts(p, v)
    requires RetainedUntil(st.versions[v], p.at + 1)
    ensures v in Step(st, p, calendar).st.versions
    ensures var e, f := st.versions[v], Step(st, p, calendar).st.versions[v];
      SameObject(e, f) && RetainedUntil(f, e.retainUntilMS) && (e.mode == RetentionCompliance ==> f.mode == e.mode)
  {
    hide Step, ValidObjectKey;
    RetentionExactly(st, p, calendar);
  }

  lemma DeleteKeeps(st: State, p: Proposal, calendar: Calendar, v: VersionKey)
    requires p.DeleteVersion? && v in st.versions && !Lifts(p, v)
    requires RetainedUntil(st.versions[v], p.at + 1)
    ensures v in Step(st, p, calendar).st.versions && Step(st, p, calendar).st.versions[v] == st.versions[v]
  {
    hide ValidObjectKey, RederivedRows, Newest;
  }

  /** No proposal but one that lifts it ends or weakens live retention. */
  lemma StepRetains(st: State, p: Proposal, calendar: Calendar, v: VersionKey)
    requires Room(st, p) && v in st.versions && !Lifts(p, v) && RetainedUntil(st.versions[v], p.at + 1)
    ensures v in Step(st, p, calendar).st.versions
    ensures var e, f := st.versions[v], Step(st, p, calendar).st.versions[v];
      SameObject(e, f) && RetainedUntil(f, e.retainUntilMS) && (e.mode == RetentionCompliance ==> f.mode == e.mode)
  {
    hide Step, Lifts;
    if Committing(p) {
      CommittersSpare(st, p, calendar, v);
    } else if p.UpdateRetention? {
      RetentionKeeps(st, p, calendar, v);
    } else if Rewriting(p) {
      RewritesSpare(st, p, calendar, v);
    } else if p.DeleteVersion? {
      DeleteKeeps(st, p, calendar, v);
    } else {
      QuietSpares(st, p, calendar);
    }
  }

  /** GOVERNANCE: for every log of proposals stamped before T in which none lifts it, a version under
      GOVERNANCE until T still exists, its content unchanged and its retention no weaker. */
  lemma {:induction false} GovernanceHolds(st: State, log: seq<Proposal>, calendar: Calendar, v: VersionKey, t: int64)
    requires RoomAlong(st, log, calendar) && v in st.versions && RetainedUntil(st.versions[v], t)
    requires forall i :: 0 <= i < |log| ==> log[i].at < t && !Lifts(log[i], v)
    ensures v in Run(st, log, calendar).versions
    ensures var e, f := st.versions[v], Run(st, log, calendar).versions[v];
      SameObject(e, f) && RetainedUntil(f, e.retainUntilMS) && (e.mode == RetentionCompliance ==> f.mode == e.mode)
    decreases |log|
  {
    hide Step, Room, Lifts;
    if log != [] {
      var front, p := log[..|log| - 1], log[|log| - 1];
      assert forall i :: 0 <= i < |front| ==> front[..i] == log[..i];
      GovernanceHolds(st, front, calendar, v, t);
      assert Room(Run(st, front, calendar), p);
      StepRetains(Run(st, front, calendar), p, calendar, v);
    }
  }

  /** Each lifting proposal does lift it, where it is accepted at all: by a bypass the version can be
      removed, and under an unknown mode anyone can remove it. */
  lemma LiftedByUnknownMode(st: State, p: Proposal, q: Proposal, calendar: Calendar)
    requires p.UpdateRetention? && p.mode > RetentionCompliance && !p.bypass && Lockable(st, p.bucket, p.key, p.id)
    requires var e := st.versions[VersionKey(p.bucket, p.key, p.id)];
      e.mode == RetentionGovernance && !e.hold && e.retainUntilMS > p.at && p.retainUntilMS >= e.retainUntilMS
    requires q == DeleteVersion(q.at, p.bucket, p.key, p.id, false)
    ensures Step(st, p, calendar).res.Ok?
    ensures VersionKey(p.bucket, p.key, p.id) !in Step(Step(st, p, calendar).st, q, calendar).st.versions
  {
    hide Step, ValidObjectKey;
    RetentionExactly(st, p, calendar);
    DeleteVersionExactly(Step(st, p, calendar).st, q, calendar);
  }

  // ---- what never changes ----

  /** What one step may change of a version that stays: each part only by the proposal for it. */
  ghost predicate ChangedBy(e: VersionEntry, f: VersionEntry, p: Proposal, v: VersionKey) {
    && SameObject(e, f)
    && (SameData(e, f) || (p.ReEncodeObject? && AimsAt(p, v)))
    && (SameSeal(e, f) || (p.RewrapDEK? && AimsAt(p, v)))
    && (SameLock(e, f) || (p.UpdateRetention? && AimsAt(p, v)))
    && (e.hold == f.hold || (p.UpdateLegalHold? && AimsAt(p, v)))
  }

  lemma CommitLeaves(st: State, b: bytes, k: bytes, at: int64, e: VersionEntry, v: VersionKey)
    requires Fresh(st, b, k, e.id) && v in st.versions && v in Commit(st, b, k, at, e).st.versions
    ensures Commit(st, b, k, at, e).st.versions[v] == st.versions[v]
  {
    if v.bucket == b && v.key == k {
      assert v == VersionKey(b, k, v.id);
      assert v.id in Ids(st, b, k);
    }
  }

  lemma CommitterLeaves(st: State, p: Proposal, calendar: Calendar, v: VersionKey)
    requires Committing(p) && Room(st, p) && v in st.versions && v in Step(st, p, calendar).st.versions
    ensures Step(st, p, calendar).st.versions[v] == st.versions[v]
  {
    BumpedIsFresh(st, p.bucket, p.key, p.id);
    var f := CommittingEffect(st, p, calendar);
    hide Bumped, Fresh, LockedAt, Step, Commit, Newest;
    if f.Inserts? {
      CommitLeaves(st, p.bucket, p.key, p.at, f.entry, v);
    }
  }

  lemma RewriteChanges(st: State, p: Proposal, calendar: Calendar, v: VersionKey)
    requires Rewriting(p) && v in st.versions
    ensures v in Step(st, p, calendar).st.versions
    ensures ChangedBy(st.versions[v], Step(st, p, calendar).st.versions[v], p, v)
  {
    hide Step, ValidObjectKey, MayRetain;
    match p
    case UpdateRetention(_, _, _, _, _, _, _) => RetentionExactly(st, p, calendar);
    case UpdateLegalHold(_, _, _, _, _) => HoldExactly(st, p, calendar);
    case ReEncodeObject(_, _, _, _, _, _, _, _) => ReEncodeExactly(st, p, calendar);
    case RewrapDEK(_, _, _, _, _, _) => RewrapExactly(st, p, calendar);
  }

  lemma DeleterLeaves(st: State, p: Proposal, calendar: Calendar, v: VersionKey)
    requires p.DeleteVersion? && v in st.versions && v in Step(st, p, calendar).st.versions
    ensures Step(st, p, calendar).st.versions[v] == st.versions[v]
  {
    hide ValidObjectKey, RederivedRows, Newest, LockedAt;
  }

  lemma StepChanges(st: State, p: Proposal, calendar: Calendar, v: VersionKey)
    requires Room(st, p) && v in st.versions && v in Step(st, p, calendar).st.versions
    ensures ChangedBy(st.versions[v], Step(st, p, calendar).st.versions[v], p, v)
  {
    hide Step, Room;
    if Committing(p) {
      CommitterLeaves(st, p, calendar, v);
    } else if Rewriting(p) {
      RewriteChanges(st, p, calendar, v);
    } else if p.DeleteVersion? {
      DeleterLeaves(st, p, calendar, v);
    } else {
      QuietSpares(st, p, calendar);
    }
  }

  /** Versions are immutable: over any log that never removes it, a version's content stays, its data
      address moves only by a re-encode that names it, its wrapped key only by a rewrap, its retention
      and its hold only by their own proposals. */
  lemma {:induction false} VersionsImmutable(st: State, log: seq<Proposal>, calendar: Calendar, v: VersionKey)
    requires RoomAlong(st, log, calendar)
    requires forall i :: 0 <= i <= |log| ==> v in Run(st, log[..i], calendar).versions
    ensures v in st.versions && v in Run(st, log, calendar).versions
    ensures var e, f := st.versions[v], Run(st, log, calendar).versions[v];
      && SameObject(e, f)
      && (SameData(e, f) || exists i :: 0 <= i < |log| && log[i].ReEncodeObject? && AimsAt(log[i], v))
      && (SameSeal(e, f) || exists i :: 0 <= i < |log| && log[i].RewrapDEK? && AimsAt(log[i], v))
      && (SameLock(e, f) || exists i :: 0 <= i < |log| && log[i].UpdateRetention? && AimsAt(log[i], v))
      && (e.hold == f.hold || exists i :: 0 <= i < |log| && log[i].UpdateLegalHold? && AimsAt(log[i], v))
    decreases |log|
  {
    hide Step, Room;
    assert log[..0] == [] && log[..|log|] == log;
    assert v in Run(st, log[..0], calendar).versions;
    if log != [] {
      var front, p := log[..|log| - 1], log[|log| - 1];
      assert forall i :: 0 <= i <= |front| ==> front[..i] == log[..i];
      VersionsImmutable(st, front, calendar, v);
      assert Room(Run(st, front, calendar), p);
      StepChanges(Run(st, front, calendar), p, calendar, v);
      assert forall i :: 0 <= i < |front| ==> front[i] == log[i];
    }
  }
}