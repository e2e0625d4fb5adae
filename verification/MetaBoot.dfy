/** The metadata store as a replicated machine: what every replica holds after any life, and the
    lives in which it does not. */
module MetaBoot {
  import opened Bytes
  import opened MetaKeys
  import opened MetaRecords
  import opened MetaApply
  import opened MetaEffects
  import opened MetaInv
  import opened MetaRuns
  import opened MetaVid
  import opened RaftBoot
  import MetaPersist
  import MetaStore

  /** The metadata machine. `touches` says which applies left a changeset to commit. */
  ghost function Metadata(calendar: Calendar, touches: (State, Proposal) -> bool): Machine<State, Proposal> {
    Machine(Empty, (st, p) => Step(st, p, calendar).st, touches)
  }

  /** Every apply that changes the state leaves a changeset. */
  ghost predicate Reports(calendar: Calendar, touches: (State, Proposal) -> bool) {
    forall st: State, p: Proposal :: Step(st, p, calendar).st != st ==> touches(st, p)
  }

  /** That is all the durable index needs of the store. */
  lemma ReportsIsSound(calendar: Calendar, touches: (State, Proposal) -> bool)
    ensures Reports(calendar, touches) <==> Sound(Metadata(calendar, touches))
  {
    hide Step;
    var m := Metadata(calendar, touches);
    forall st: State, p: Proposal
      ensures m.step(st, p) == Step(st, p, calendar).st && m.touches(st, p) == touches(st, p)
    {
    }
    if Sound(m) {
      forall st: State, p: Proposal | Step(st, p, calendar).st != st
        ensures touches(st, p)
      {
        assert !m.touches(st, p) ==> m.step(st, p) == st;
      }
    }
  }

  /** The store's own changesets: an apply that was refused, or found its work done, leaves none
      and changes nothing. */
  lemma StoreReports(calendar: Calendar)
    ensures Reports(calendar, (st, p) => Touches(st, p, calendar))
  {
    hide Step, Touches;
    forall st: State, p: Proposal | Step(st, p, calendar).st != st
      ensures Touches(st, p, calendar)
    {
      if !Touches(st, p, calendar) {
        UntouchedIsUnchanged(st, p, calendar);
      }
    }
  }

  /** The proposals among some entries. */
  function Proposals(log: seq<Entry<Proposal>>): (ps: seq<Proposal>) {
    if log == [] then []
    else Proposals(log[..|log| - 1]) + if log[|log| - 1].Normal? then [log[|log| - 1].proposal] else []
  }

  /** Folding a log is running its proposals: barriers and membership changes do not count. */
  lemma {:induction false} FoldIsRun(calendar: Calendar, touches: (State, Proposal) -> bool,
                                     log: seq<Entry<Proposal>>, n: nat)
    requires n <= |log|
    ensures Fold(Metadata(calendar, touches), log, n) == Run(Empty, Proposals(log[..n]), calendar)
  {
    hide Step;
    if n > 0 {
      FoldIsRun(calendar, touches, log, n - 1);
      var before := Proposals(log[..n - 1]);
      assert log[..n][..n - 1] == log[..n - 1];
      if log[n - 1].Normal? {
        assert (before + [log[n - 1].proposal])[..|before|] == before;
      } else {
        assert before + [] == before;
      }
    }
  }

  /** A cluster of metadata replicas. */
  ghost function Cluster(calendar: Calendar, touches: (State, Proposal) -> bool, persister: bool,
                         log: seq<Entry<Proposal>>, threshold: nat, size: nat): World<State, Proposal> {
    World(Metadata(calendar, touches), persister, log, threshold, size)
  }

  /** Boot: whatever life a cluster has had, each replica's store is the run of the proposals it has
      reached, from the empty store. */
  lemma ReplicaIsRun(calendar: Calendar, touches: (State, Proposal) -> bool, persister: bool,
                     log: seq<Entry<Proposal>>, threshold: nat, size: nat, events: seq<Event>, i: nat)
    requires Reports(calendar, touches) && i < size
    requires AllCareful(Cluster(calendar, touches, persister, log, threshold, size), events)
    ensures var n := Lived(Cluster(calendar, touches, persister, log, threshold, size), events)[i];
      Reach(n) <= |log| && n.store == Run(Empty, Proposals(log[..Reach(n)]), calendar)
  {
    hide Step, Run, Proposals, Lived, AllCareful, Reports;
    var w := Cluster(calendar, touches, persister, log, threshold, size);
    ReportsIsSound(calendar, touches);
    LifeOk(w, events);
    var n := Lived(w, events)[i];
    assert ReplicaOk(w, n);
    FoldIsRun(calendar, touches, log, Reach(n));
  }

  /** And it is well formed: the derived rows match the newest versions and the null rules hold. */
  lemma ReplicaWellFormed(calendar: Calendar, touches: (State, Proposal) -> bool, persister: bool,
                          log: seq<Entry<Proposal>>, threshold: nat, size: nat, events: seq<Event>, i: nat, top: nat)
    requires Reports(calendar, touches) && i < size
    requires AllCareful(Cluster(calendar, touches, persister, log, threshold, size), events)
    requires MintedWithin(Proposals(log), top) && top + Commits(Proposals(log)) < TwoTo128
    ensures Inv(Lived(Cluster(calendar, touches, persister, log, threshold, size), events)[i].store)
  {
    hide Inv, Run, Step, Fold, MintedWithin, Commits, Proposals, Lived, AllCareful, Reports;
    ReplicaIsRun(calendar, touches, persister, log, threshold, size, events, i);
    var n := Reach(Lived(Cluster(calendar, touches, persister, log, threshold, size), events)[i]);
    FewerProposals(log, n, top);
    ReachableInv(Proposals(log[..n]), calendar, top);
  }

  lemma {:induction false} FewerProposals(log: seq<Entry<Proposal>>, n: nat, top: nat)
    requires n <= |log| && MintedWithin(Proposals(log), top)
    ensures MintedWithin(Proposals(log[..n]), top) && Commits(Proposals(log[..n])) <= Commits(Proposals(log))
    decreases |log|
  {
    if n == |log| {
      assert log[..n] == log;
    } else {
      var less := log[..|log| - 1];
      var a, b := Proposals(less), Proposals(log);
      assert less[..n] == log[..n];
      if log[|log| - 1].Normal? {
        assert b[..|b| - 1] == a;
      } else {
        assert a + [] == a;
      }
      assert forall i :: 0 <= i < |a| ==> a[i] == b[i];
      FewerProposals(less, n, top);
    }
  }

  // ---- when a compaction's snapshot is faithful ----

  /** A replica at these indices, with a compaction due. */
  predicate At(n: Node<State>, threshold: nat, applied: nat, persisted: nat, snapIndex: nat) {
    n.applied == applied && n.persistedIndex == persisted && n.snapIndex == snapIndex && Due(n, threshold)
  }

  /** Whatever the log holds and whatever the cluster's life, careful so far, the snapshot that such a
      replica writes next is the fold to its label. */
  ghost predicate AlwaysFaithful(calendar: Calendar, touches: (State, Proposal) -> bool, threshold: nat,
                                 applied: nat, persisted: nat, snapIndex: nat) {
    forall log: seq<Entry<Proposal>>, size: nat, events: seq<Event>, i: nat ::
      var w := Cluster(calendar, touches, true, log, threshold, size);
      i < size && AllCareful(w, events) && At(Lived(w, events)[i], threshold, applied, persisted, snapIndex) ==>
        WalOk(w.m, log, Compacted(Lived(w, events)[i], threshold).wal)
  }

  /** Membership changes, then one proposal. */
  function Late(persisted: nat, p: Proposal): (log: seq<Entry<Proposal>>)
    requires persisted > 0
    ensures |log| == persisted
  {
    seq(persisted - 1, _ => ConfChange) + [Normal(p)]
  }

  lemma {:induction false} ChangesDoNothing(calendar: Calendar, touches: (State, Proposal) -> bool, p: Proposal,
                                            persisted: nat, n: nat)
    requires n < persisted
    ensures Fold(Metadata(calendar, touches), Late(persisted, p), n) == Empty
  {
    hide Step;
    if n > 0 {
      ChangesDoNothing(calendar, touches, p, persisted, n - 1);
    }
  }

  /** The only replica of the cluster, after a careful life. */
  ghost predicate LivesTo(w: World<State, Proposal>, events: seq<Event>, n: Node<State>) {
    w.size == 1 && AllCareful(w, events) && Lived(w, events) == [n]
  }

  lemma OneMore(w: World<State, Proposal>, events: seq<Event>, n: Node<State>, e: Event)
    requires LivesTo(w, events, n) && Careful(w, [n], e)
    ensures LivesTo(w, events + [e], RaftBoot.Next(w, [n], e)[0])
  {
    assert (events + [e])[..|events|] == events;
  }

  /** The next k entries, all membership changes, delivered. */
  lemma {:induction false} Delivered(w: World<State, Proposal>, events: seq<Event>, n: Node<State>, k: nat)
    returns (more: seq<Event>)
    requires LivesTo(w, events, n) && n.applied + k <= |w.log|
    requires forall j :: n.applied <= j < n.applied + k ==> w.log[j].ConfChange?
    ensures LivesTo(w, more, n.(applied := n.applied + k, confChanged := n.confChanged || k > 0))
  {
    hide LivesTo;
    more := events;
    if k > 0 {
      more := Delivered(w, events, n, k - 1);
      OneMore(w, more, n.(applied := n.applied + k - 1, confChanged := n.confChanged || k > 1), Deliver(0));
      more := more + [Deliver(0)];
    }
  }

  const Blank: Node<State> := Node(Empty, false, 0, 0, 0, false, Missing, None)

  const Name: bytes := [97, 97, 97]

  lemma NameIsValid()
    ensures ValidBucketName(Name)
  {
  }

  /** Exactly when a compaction that is due is safe whatever the log holds: the applied index has
      caught up with the durable one. Nothing in the compaction checks this. */
  lemma SnapshotFaithfulExactly(calendar: Calendar, touches: (State, Proposal) -> bool, threshold: nat,
                                applied: nat, persisted: nat, snapIndex: nat)
    requires Reports(calendar, touches) && snapIndex < applied
    ensures AlwaysFaithful(calendar, touches, threshold, applied, persisted, snapIndex) <==> applied >= persisted
  {
    hide Step, Lived, AllCareful, Reports, LivesTo;
    if applied >= persisted {
      ReportsIsSound(calendar, touches);
      forall log: seq<Entry<Proposal>>, size: nat, events: seq<Event>, i: nat
        | i < size && AllCareful(Cluster(calendar, touches, true, log, threshold, size), events)
          && At(Lived(Cluster(calendar, touches, true, log, threshold, size), events)[i], threshold, applied,
                persisted, snapIndex)
        ensures var w := Cluster(calendar, touches, true, log, threshold, size);
          WalOk(w.m, log, Compacted(Lived(w, events)[i], threshold).wal)
      {
        var w := Cluster(calendar, touches, true, log, threshold, size);
        LifeOk(w, events);
        assert ReplicaOk(w, Lived(w, events)[i]);
        CompactOk(w.m, true, log, Lived(w, events)[i], threshold);
      }
    } else {
      var log, events, n := EarlyLife(calendar, touches, threshold, applied, persisted, snapIndex);
      LivesToFirst(Cluster(calendar, touches, true, log, threshold, 1), events, n);
    }
  }

  lemma LivesToFirst(w: World<State, Proposal>, events: seq<Event>, n: Node<State>)
    requires LivesTo(w, events, n)
    ensures 0 < w.size && AllCareful(w, events) && Lived(w, events)[0] == n
  {
  }

  /** One bucket, created by the last entry. */
  ghost function OneBucket(calendar: Calendar): State { Step(Empty, CreateBucket(0, Name, true), calendar).st }

  lemma LateStore(calendar: Calendar, touches: (State, Proposal) -> bool, applied: nat, persisted: nat)
    requires Reports(calendar, touches) && applied < persisted
    ensures var m, log := Metadata(calendar, touches), Late(persisted, CreateBucket(0, Name, true));
      && m.init == Empty && m.touches(Empty, CreateBucket(0, Name, true))
      && m.step(Empty, CreateBucket(0, Name, true)) == OneBucket(calendar)
      && Fold(m, log, applied) == Empty != OneBucket(calendar)
  {
    var p := CreateBucket(0, Name, true);
    NameIsValid();
    assert Name in OneBucket(calendar).buckets && Name !in Empty.buckets;
    ChangesDoNothing(calendar, touches, p, persisted, applied);
  }

  /** For any indices with the applied one behind there is a life that comes to them: it compacts once,
      applies everything, stops, and is being redelivered the log. */
  lemma EarlyLife(calendar: Calendar, touches: (State, Proposal) -> bool, threshold: nat,
                  applied: nat, persisted: nat, snapIndex: nat)
    returns (log: seq<Entry<Proposal>>, events: seq<Event>, n: Node<State>)
    requires Reports(calendar, touches) && snapIndex < applied < persisted
    ensures var w := Cluster(calendar, touches, true, log, threshold, 1);
      LivesTo(w, events, n) && At(n, threshold, applied, persisted, snapIndex) &&
      !WalOk(w.m, log, Compacted(n, threshold).wal)
  {
    hide Step, Fold, LivesTo, Reports, Metadata, OneBucket;
    LateStore(calendar, touches, applied, persisted);
    log := Late(persisted, CreateBucket(0, Name, true));
    var w := Cluster(calendar, touches, true, log, threshold, 1);
    var wal: Option<Snap<State>>;
    events, wal := AppliesLate(w, OneBucket(calendar), snapIndex, persisted);
    n := Node(OneBucket(calendar), true, persisted, snapIndex, snapIndex, false, Held(OneBucket(calendar), persisted),
              wal);
    events := Delivered(w, events, n, applied - snapIndex);
    n := n.(applied := applied, confChanged := true);
  }

  /** Compacted at `snapIndex`. */
  lemma CompactsAt(w: World<State, Proposal>, snapIndex: nat) returns (events: seq<Event>, wal: Option<Snap<State>>)
    requires snapIndex <= |w.log| && (forall j :: 0 <= j < snapIndex ==> w.log[j].ConfChange?) && w.m.init == Empty
    requires w.size == 1
    ensures LivesTo(w, events, Node(Empty, false, 0, snapIndex, snapIndex, false, Missing, wal))
    ensures wal == if snapIndex == 0 then None else Some(Snap(Empty, snapIndex))
  {
    assert LivesTo(w, [], Blank);
    hide LivesTo;
    wal := None;
    events := Delivered(w, [], Blank, snapIndex);
    if snapIndex > 0 {
      OneMore(w, events, Blank.(applied := snapIndex, confChanged := true), Compact(0));
      events, wal := events + [Compact(0)], Some(Snap(Empty, snapIndex));
    }
  }

  /** Compacted at `snapIndex`, applied to the end, and stopped. */
  lemma AppliesLate(w: World<State, Proposal>, store: State, snapIndex: nat, persisted: nat)
    returns (events: seq<Event>, wal: Option<Snap<State>>)
    requires snapIndex < persisted && w.log == Late(persisted, CreateBucket(0, Name, true)) && w.m.init == Empty
    requires w.size == 1 && w.persister && w.m.touches(Empty, CreateBucket(0, Name, true))
    requires w.m.step(Empty, CreateBucket(0, Name, true)) == store
    ensures LivesTo(w, events, Node(store, true, persisted, snapIndex, snapIndex, false, Held(store, persisted), wal))
  {
    hide LivesTo;
    events, wal := CompactsAt(w, snapIndex);
    var n := Node(Empty, false, 0, snapIndex, snapIndex, false, Missing, wal);
    var rest := persisted - 1 - snapIndex;
    events := Delivered(w, events, n, rest);
    n := n.(applied := persisted - 1, confChanged := rest > 0);
    OneMore(w, events, n, Deliver(0));
    n := n.(applied := persisted, store := store, durable := Held(store, persisted));
    OneMore(w, events + [Deliver(0)], n, Restart(0, Kept));
    events := events + [Deliver(0)] + [Restart(0, Kept)];
  }

  // ---- what goes wrong otherwise ----

  /** A bucket that keeps versions, and an upload to it. */
  ghost predicate Upload(create: Proposal, put: Proposal) {
    && create.CreateBucket? && create.lock && ValidBucketName(create.bucket)
    && put.PutObject? && put.bucket == create.bucket && ValidObjectKey(put.key)
    && put.mode == RetentionNone && !put.hold && put.id + 1 < TwoTo128
  }

  /** The states of applying the upload no, one and two times. */
  ghost function Uploaded(create: Proposal, put: Proposal, times: nat, calendar: Calendar): State {
    if times == 0 then Step(Empty, create, calendar).st
    else Step(Uploaded(create, put, times - 1, calendar), put, calendar).st
  }

  ghost predicate UploadedOk(st: State, put: Proposal, times: nat)
    requires put.PutObject?
  {
    && Inv(st) && put.bucket in st.buckets && st.buckets[put.bucket].versioning == VersioningEnabled
    && |Ids(st, put.bucket, put.key)| == times
    && Newest(st, put.bucket, put.key) == if times == 0 then None else Some(put.id + times - 1)
  }

  /** In a bucket that keeps versions, an upload applied some number of times leaves that many
      versions. */
  lemma {:induction false} EachApplyIsAVersion(create: Proposal, put: Proposal, times: nat, calendar: Calendar)
    requires Upload(create, put) && put.id + times < TwoTo128
    ensures UploadedOk(Uploaded(create, put, times, calendar), put, times)
  {
    hide Step, UploadedOk, Upload;
    if times == 0 {
      CreatedOk(create, put, calendar);
    } else {
      EachApplyIsAVersion(create, put, times - 1, calendar);
      OneMoreVersion(Uploaded(create, put, times - 1, calendar), create, put, times - 1, calendar);
    }
  }

  lemma CreatedOk(create: Proposal, put: Proposal, calendar: Calendar)
    requires Upload(create, put)
    ensures UploadedOk(Step(Empty, create, calendar).st, put, 0)
  {
    EmptyInv();
    assert Room(Empty, create);
    StepKeepsInv(Empty, create, calendar);
    hide Inv, ValidBucketName;
    assert Ids(Step(Empty, create, calendar).st, put.bucket, put.key) == {};
  }

  lemma PutAccepted(st: State, create: Proposal, put: Proposal, calendar: Calendar)
    requires Upload(create, put) && put.bucket in st.buckets && st.buckets[put.bucket].versioning == VersioningEnabled
    ensures var out := Step(st, put, calendar);
      && out.res.Ok? && out.res.value.id == Some(Bumped(st, put.bucket, put.key, put.id))
      && put.bucket in out.st.buckets && out.st.buckets[put.bucket] == st.buckets[put.bucket]
  {
    hide Bumped, ValidBucketName, ValidObjectKey, NullIds;
  }

  lemma OneMoreVersion(st: State, create: Proposal, put: Proposal, times: nat, calendar: Calendar)
    requires Upload(create, put) && UploadedOk(st, put, times) && put.id + times < TwoTo128 - 1
    ensures UploadedOk(Step(st, put, calendar).st, put, times + 1)
  {
    hide Inv, Step, Ids, Newest;
    PutAccepted(st, create, put, calendar);
    StepKeepsInv(st, put, calendar);
    HistoryOnlyGrows(st, put, calendar);
    CommitIsNewest(st, put, calendar);
    var id := Bumped(st, put.bucket, put.key, put.id);
    assert id == put.id + times;
    assert id !in Ids(st, put.bucket, put.key);
  }

  // An entry for the bucket, a membership change, an entry for the upload.
  function TwoWrites(create: Proposal, put: Proposal): seq<Entry<Proposal>> {
    [Normal(create), ConfChange, Normal(put)]
  }

  lemma LivedNext<S, P>(w: World<S, P>, events: seq<Event>, e: Event)
    ensures Lived(w, events + [e]) == RaftBoot.Next(w, Lived(w, events), e)
  {
    assert (events + [e])[..|events|] == events;
  }

  /** All entries are applied and committed, and the replica stops before it can compact. */
  const Stopped := [Deliver(0), Deliver(0), Deliver(0), Restart(0, Kept)]

  /** Its durable store is ahead of redelivery when the membership change makes it compact. */
  const Mislabelled := Stopped + [Deliver(0), Deliver(0), Compact(0)]

  ghost predicate Writes(w: World<State, Proposal>, create: Proposal, put: Proposal, calendar: Calendar,
                         touches: (State, Proposal) -> bool) {
    && Upload(create, put) && put.id + 2 < TwoTo128 && Reports(calendar, touches)
    && w == Cluster(calendar, touches, true, TwoWrites(create, put), w.threshold, 2)
  }

  /** The three states are different, so each step that reaches one leaves a changeset. */
  lemma Distinct(create: Proposal, put: Proposal, calendar: Calendar)
    requires Upload(create, put) && put.id + 2 < TwoTo128
    ensures var none, once, twice := Uploaded(create, put, 0, calendar), Uploaded(create, put, 1, calendar),
      Uploaded(create, put, 2, calendar);
      && Empty != none && none != once && once != twice
      && |Ids(once, put.bucket, put.key)| == 1 && |Ids(twice, put.bucket, put.key)| == 2
  {
    hide Step, Upload, Uploaded, Inv;
    EachApplyIsAVersion(create, put, 0, calendar);
    EachApplyIsAVersion(create, put, 1, calendar);
    EachApplyIsAVersion(create, put, 2, calendar);
  }

  /** The machine's step and changeset on the states of that log. */
  ghost predicate Steps(w: World<State, Proposal>, create: Proposal, put: Proposal, none: State, once: State,
                        twice: State) {
    && w.persister && w.size == 2 && w.log == TwoWrites(create, put) && w.m.init == Empty
    && w.m.step(Empty, create) == none && w.m.touches(Empty, create)
    && w.m.step(none, put) == once && w.m.touches(none, put)
    && w.m.step(once, put) == twice && w.m.touches(once, put)
  }

  lemma WritesStep(w: World<State, Proposal>, create: Proposal, put: Proposal, calendar: Calendar,
                   touches: (State, Proposal) -> bool)
    requires Writes(w, create, put, calendar, touches)
    ensures Steps(w, create, put, Uploaded(create, put, 0, calendar), Uploaded(create, put, 1, calendar),
                  Uploaded(create, put, 2, calendar))
  {
    hide Step, Upload;
    Distinct(create, put, calendar);
    var none, once, twice := Uploaded(create, put, 0, calendar), Uploaded(create, put, 1, calendar),
      Uploaded(create, put, 2, calendar);
    assert Step(Empty, create, calendar).st == none && Step(none, put, calendar).st == once &&
      Step(once, put, calendar).st == twice;
  }

  lemma AppliesAll(w: World<State, Proposal>, create: Proposal, put: Proposal, none: State, once: State, twice: State)
    requires Steps(w, create, put, none, once, twice)
    ensures Lived(w, [Deliver(0)] + [Deliver(0)] + [Deliver(0)]) ==
      [Node(once, false, 0, 3, 0, true, Held(once, 3), None), Blank]
  {
    assert Lived(w, []) == [Blank, Blank];
    var d := Deliver(0);
    LivedNext(w, [], d);
    assert [] + [d] == [d];
    LivedNext(w, [d], d);
    LivedNext(w, [d] + [d], d);
    hide Lived;
    assert Lived(w, [d]) == [Node(none, false, 0, 1, 0, false, Held(none, 1), None), Blank];
    assert Lived(w, [d] + [d]) == [Node(none, false, 0, 2, 0, true, Held(none, 1), None), Blank];
  }

  lemma StopsAhead(w: World<State, Proposal>, create: Proposal, put: Proposal, none: State, once: State, twice: State)
    requires Steps(w, create, put, none, once, twice)
    ensures Lived(w, Stopped) == [Node(once, true, 3, 0, 0, false, Held(once, 3), None), Blank]
  {
    hide Lived;
    AppliesAll(w, create, put, none, once, twice);
    var d := Deliver(0);
    LivedNext(w, [d] + [d] + [d], Restart(0, Kept));
    assert [d] + [d] + [d] + [Restart(0, Kept)] == Stopped;
  }

  lemma CompactsEarly(w: World<State, Proposal>, create: Proposal, put: Proposal, none: State, once: State,
                      twice: State)
    requires Steps(w, create, put, none, once, twice)
    ensures Lived(w, Mislabelled) == [Node(once, true, 3, 2, 2, false, Held(once, 3), Some(Snap(once, 2))), Blank]
  {
    StopsAhead(w, create, put, none, once, twice);
    var d := Deliver(0);
    LivedNext(w, Stopped, d);
    LivedNext(w, Stopped + [d], d);
    LivedNext(w, Stopped + [d] + [d], Compact(0));
    hide Lived;
    assert Stopped + [d] + [d] + [Compact(0)] == Mislabelled;
    assert Lived(w, Stopped + [d]) == [Node(once, true, 3, 1, 0, false, Held(once, 3), None), Blank];
    assert Lived(w, Stopped + [d] + [d]) == [Node(once, true, 3, 2, 0, true, Held(once, 3), None), Blank];
  }

  lemma WipedReplays(w: World<State, Proposal>, create: Proposal, put: Proposal, none: State, once: State, twice: State)
    requires Steps(w, create, put, none, once, twice)
    ensures var n := Lived(w, Mislabelled + [Restart(0, Wiped), Deliver(0)])[0]; n.applied == 3 && n.store == twice
  {
    CompactsEarly(w, create, put, none, once, twice);
    LivedNext(w, Mislabelled, Restart(0, Wiped));
    LivedNext(w, Mislabelled + [Restart(0, Wiped)], Deliver(0));
    hide Lived;
    assert Mislabelled + [Restart(0, Wiped)] + [Deliver(0)] == Mislabelled + [Restart(0, Wiped), Deliver(0)];
  }

  lemma PeerReplays(w: World<State, Proposal>, create: Proposal, put: Proposal, none: State, once: State, twice: State)
    requires Steps(w, create, put, none, once, twice)
    ensures var nodes := Lived(w, Mislabelled + [Stream(0, 1), Deliver(1), Deliver(0)]);
      && nodes[0].applied == nodes[1].applied == 3 && nodes[0].store == once && nodes[1].store == twice
  {
    CompactsEarly(w, create, put, none, once, twice);
    LivedNext(w, Mislabelled, Stream(0, 1));
    LivedNext(w, Mislabelled + [Stream(0, 1)], Deliver(1));
    LivedNext(w, Mislabelled + [Stream(0, 1)] + [Deliver(1)], Deliver(0));
    hide Lived;
    assert Mislabelled + [Stream(0, 1)] + [Deliver(1)] + [Deliver(0)] == Mislabelled + [Stream(0, 1), Deliver(1),
      Deliver(0)];
  }

  /** An early compaction, then a wiped durable store: the upload is applied again, and leaves two
      versions where the log makes one. */
  lemma EarlySnapshotAppliesTwice(w: World<State, Proposal>, create: Proposal, put: Proposal, calendar: Calendar,
                                  touches: (State, Proposal) -> bool)
    requires Writes(w, create, put, calendar, touches)
    ensures var n := Lived(w, Mislabelled + [Restart(0, Wiped), Deliver(0)])[0];
      && n.applied == 3 && |Ids(n.store, put.bucket, put.key)| == 2
      && |Ids(Fold(w.m, w.log, 3), put.bucket, put.key)| == 1
  {
    hide Lived, Step, Reports, Upload;
    WritesStep(w, create, put, calendar, touches);
    Distinct(create, put, calendar);
    var none, once, twice := Uploaded(create, put, 0, calendar), Uploaded(create, put, 1, calendar),
      Uploaded(create, put, 2, calendar);
    WipedReplays(w, create, put, none, once, twice);
    FoldsOnce(w, create, put, none, once, twice);
  }

  lemma FoldsOnce(w: World<State, Proposal>, create: Proposal, put: Proposal, none: State, once: State, twice: State)
    requires Steps(w, create, put, none, once, twice)
    ensures Fold(w.m, w.log, 3) == once
  {
    assert Fold(w.m, w.log, 1) == none;
    assert Fold(w.m, w.log, 2) == none;
  }

  /** No durable store need be lost: streamed to a fresh replica, the same snapshot makes it apply
      the upload again, and two replicas that have applied the same entries differ for good. */
  lemma StreamedSnapshotDiverges(w: World<State, Proposal>, create: Proposal, put: Proposal, calendar: Calendar,
                                 touches: (State, Proposal) -> bool)
    requires Writes(w, create, put, calendar, touches)
    ensures var nodes := Lived(w, Mislabelled + [Stream(0, 1), Deliver(1), Deliver(0)]);
      && nodes[0].applied == nodes[1].applied == |w.log|
      && |Ids(nodes[0].store, put.bucket, put.key)| == 1 && |Ids(nodes[1].store, put.bucket, put.key)| == 2
  {
    hide Lived, Step, Reports, Upload;
    WritesStep(w, create, put, calendar, touches);
    Distinct(create, put, calendar);
    var none, once, twice := Uploaded(create, put, 0, calendar), Uploaded(create, put, 1, calendar),
      Uploaded(create, put, 2, calendar);
    PeerReplays(w, create, put, none, once, twice);
  }

  /** What the disk holds once the upload is applied: the rows of that store, one of them unreadable. */
  ghost predicate Damaged(disk: map<bytes, bytes>, vals: map<bytes, Record>, marshal: Record -> bytes, st: State,
                          k: bytes, junk: bytes) {
    MetaStore.Represents(vals, st) && k in vals && disk == MetaPersist.Encoded(vals, marshal)[k := junk]
  }

  /** A durable store that was ahead, has an unreadable bucket row, and is rebuilt over: the first
      entry's changeset writes that row, so the disk is the whole of the store that was ahead again,
      labelled with that entry, and a boot applies the rest of the log on top. */
  lemma MixedStoreAppliesTwice(w: World<State, Proposal>, create: Proposal, put: Proposal, calendar: Calendar,
                               touches: (State, Proposal) -> bool, disk: map<bytes, bytes>, vals: map<bytes, Record>,
                               marshal: Record -> bytes, junk: bytes)
    requires Writes(w, create, put, calendar, touches)
    requires Damaged(disk, vals, marshal, Uploaded(create, put, 1, calendar), Encode(BucketRow(create.bucket)), junk)
    ensures var once, k := Fold(w.m, w.log, 3), Encode(BucketRow(create.bucket));
      && MetaStore.Represents(map[k := vals[k]], Fold(w.m, w.log, 1))
      && MetaPersist.Recommitted(disk, [MetaPersist.Apply(map[k := vals[k]], [k])], marshal) ==
         MetaPersist.Encoded(vals, marshal)
      && MetaStore.Represents(vals, once) && !DurableOk(w.m, w.log, Held(once, 1))
      && |Ids(Replayed(w.m, true, w.log, Booted(w.m, true, Held(once, 1), None), 3).store, put.bucket, put.key)| == 2
      && |Ids(once, put.bucket, put.key)| == 1
  {
    hide Step, Reports, ValidBucketName, ValidObjectKey, MetaStore.Represents, Encode, MetaPersist.Encoded,
      MetaPersist.Recommitted;
    WritesStep(w, create, put, calendar, touches);
    Distinct(create, put, calendar);
    var none, once, twice := Uploaded(create, put, 0, calendar), Uploaded(create, put, 1, calendar),
      Uploaded(create, put, 2, calendar);
    FoldsOnce(w, create, put, none, once, twice);
    assert Fold(w.m, w.log, 1) == none;
    MixedReplays(w, create, put, none, once, twice);
    var k := Encode(BucketRow(create.bucket));
    FirstRow(create, put, calendar, vals);
    Heals(vals, marshal, k, junk);
  }

  lemma Heals(vals: map<bytes, Record>, marshal: Record -> bytes, k: bytes, junk: bytes)
    requires k in vals
    ensures MetaPersist.Recommitted(
              MetaPersist.Encoded(vals, marshal)[k := junk], [MetaPersist.Apply(map[k := vals[k]], [k])], marshal) ==
      MetaPersist.Encoded(vals, marshal)
  {
    hide MetaPersist.Encoded, MetaPersist.Changes, MetaPersist.WriteRows;
    MetaPersist.UnreadableRowHeals(vals, marshal, k, junk);
    var disk, step := MetaPersist.Encoded(vals, marshal)[k := junk], MetaPersist.Apply(map[k := vals[k]], [k]);
    assert [step][..0] == [];
    assert MetaPersist.Recommitted(disk, [], marshal) == disk;
  }

  /** The bucket's row is all of the store the first entry makes. */
  lemma FirstRow(create: Proposal, put: Proposal, calendar: Calendar, vals: map<bytes, Record>)
    requires Upload(create, put) && MetaStore.Represents(vals, Uploaded(create, put, 1, calendar))
    ensures var k := Encode(BucketRow(create.bucket));
      k in vals && MetaStore.Represents(map[k := vals[k]], Uploaded(create, put, 0, calendar))
  {
    hide MetaStore.Represents, Encode;
    var row := BucketRow(create.bucket);
    var none, once := Uploaded(create, put, 0, calendar), Uploaded(create, put, 1, calendar);
    BucketKept(create, put, calendar);
    MetaStore.LookOk(vals, once, row);
    MetaStore.LookBucket(vals, once, create.bucket);
    MetaStore.RepresentsEmpty();
    MetaStore.RepresentsSet(map[], Empty, row, Lookup(once, row).value);
    assert vals[Encode(row)] == Lookup(once, row).value;
  }

  lemma BucketKept(create: Proposal, put: Proposal, calendar: Calendar)
    requires Upload(create, put)
    ensures var row, once := BucketRow(create.bucket), Uploaded(create, put, 1, calendar);
      Lookup(once, row).Some? && Fits(row, Lookup(once, row).value) &&
      SetRow(Empty, row, Lookup(once, row).value) == Uploaded(create, put, 0, calendar)
  {
    var none := Step(Empty, create, calendar).st;
    CreatedOk(create, put, calendar);
    PutAccepted(none, create, put, calendar);
    hide Inv;
    assert none == Empty.(buckets := Empty.buckets[create.bucket := none.buckets[create.bucket]]);
  }

  /** And such rows come to be: the store's own code, with a persister, applies both entries. */
  method DamagedDisk(create: Proposal, put: Proposal, calendar: Calendar, marshal: Record -> bytes, junk: bytes)
    returns (disk: map<bytes, bytes>, vals: map<bytes, Record>)
    requires Upload(create, put)
    ensures Damaged(disk, vals, marshal, Uploaded(create, put, 1, calendar), Encode(BucketRow(create.bucket)), junk)
  {
    hide Step, ValidBucketName, ValidObjectKey, MetaStore.Represents, Encode, MetaPersist.Encoded;
    var s := new MetaStore.Store(marshal, calendar, true);
    var _, _ := s.Apply(create, false);
    var _, _ := s.Apply(put, false);
    vals := s.kv.mem.vals;
    disk := s.disk.rows[Encode(BucketRow(create.bucket)) := junk];
    FirstRow(create, put, calendar, vals);
  }

  lemma MixedReplays(w: World<State, Proposal>, create: Proposal, put: Proposal, none: State, once: State, twice: State)
    requires Steps(w, create, put, none, once, twice)
    ensures Replayed(w.m, true, w.log, Booted(w.m, true, Held(once, 1), None), 3).store == twice
  {
    var n := Booted(w.m, true, Held(once, 1), None);
    var n1 := AppliedEntry(w.m, true, n, w.log[0], 1);
    var n2 := AppliedEntry(w.m, true, n1, w.log[1], 2);
    var n3 := AppliedEntry(w.m, true, n2, w.log[2], 3);
    assert Replayed(w.m, true, w.log, n2, 3) == Replayed(w.m, true, w.log, n3, 3) == n3;
    assert Replayed(w.m, true, w.log, n, 3) == Replayed(w.m, true, w.log, n1, 3) == Replayed(w.m, true, w.log, n2, 3);
  }
}
