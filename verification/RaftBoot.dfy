/** Boot recovery: a replica that trusts its durable store skips the log entries that store
    already holds, and still ends with the fold of the whole log. */
module RaftBoot {
  import opened Bytes

  /** The replicated state machine: what an entry does, and whether applying it touches rows.
      Only an apply that touches rows commits, and only a commit moves the durable index. */
  datatype Machine<!S, !P> = Machine(init: S, step: (S, P) -> S, touches: (S, P) -> bool)

  ghost predicate Sound<S(!new), P(!new)>(m: Machine<S, P>) {
    forall s, p :: !m.touches(s, p) ==> m.step(s, p) == s
  }

  datatype Entry<P> = Normal(proposal: P) | Barrier | ConfChange

  /** The state after the first n entries. */
  function Fold<S, P>(m: Machine<S, P>, log: seq<Entry<P>>, n: nat): S
    requires n <= |log|
  {
    if n == 0 then m.init
    else
      var before := Fold(m, log, n - 1);
      if log[n - 1].Normal? then m.step(before, log[n - 1].proposal) else before
  }

  datatype Durable<S> = Missing | Held(state: S, index: nat)

  datatype Snap<S> = Snap(state: S, index: nat)

  /** What a replica holds: memory, and the two things that survive a crash. */
  datatype Node<S> = Node(
    store: S, usePersisted: bool, persistedIndex: nat, applied: nat, snapIndex: nat, confChanged: bool,
    durable: Durable<S>, wal: Option<Snap<S>>)

  // ---- the steps ----

  /** Loads the durable store if it is there; otherwise starts empty. */
  function Opened<S, P>(m: Machine<S, P>, durable: Durable<S>, wal: Option<Snap<S>>): Node<S> {
    if durable.Held? then Node(durable.state, true, durable.index, 0, 0, false, durable, wal)
    else Node(m.init, false, 0, 0, 0, false, durable, wal)
  }

  /** Replaces the store wholesale, durable copy included. */
  function Adopted<S>(n: Node<S>, persister: bool, state: S, index: nat): Node<S> {
    n.(store := state, persistedIndex := index, durable := if persister then Held(state, index) else n.durable)
  }

  /** Resets to a snapshot, unless the trusted durable store is at or past it. */
  function Restored<S>(n: Node<S>, persister: bool, snap: Snap<S>): Node<S> {
    var kept := if n.usePersisted && n.persistedIndex >= snap.index then n
      else Adopted(n, persister, snap.state, snap.index);
    kept.(applied := snap.index, snapIndex := snap.index)
  }

  function Booted<S, P>(m: Machine<S, P>, persister: bool, durable: Durable<S>, wal: Option<Snap<S>>): Node<S> {
    var n := Opened(m, if persister then durable else Missing, wal);
    if wal.Some? then Restored(n, persister, wal.value) else n
  }

  /** Applies the committed entry at `index`. */
  function AppliedEntry<S, P>(m: Machine<S, P>, persister: bool, n: Node<S>, e: Entry<P>, index: nat): Node<S> {
    var at := n.(applied := index, confChanged := n.confChanged || e.ConfChange?);
    if !e.Normal? || index <= n.persistedIndex then at
    else
      var next := m.step(n.store, e.proposal);
      at.(store := next, durable := if persister && m.touches(n.store, e.proposal) then Held(next, index)
          else n.durable)
  }

  /** A compaction is due: the membership changed or enough was applied, and there is something new. */
  predicate Due<S>(n: Node<S>, threshold: nat) {
    (n.confChanged || n.applied - n.snapIndex >= threshold) && n.applied > n.snapIndex
  }

  /** Compacts: the store, labelled with the applied index, becomes the log's snapshot. */
  function Compacted<S>(n: Node<S>, threshold: nat): Node<S> {
    if !Due(n, threshold) then n
    else n.(snapIndex := n.applied, confChanged := false, wal := Some(Snap(n.store, n.applied)))
  }

  /** The committed tail redelivered, up to `commit`. */
  function Replayed<S, P>(m: Machine<S, P>, persister: bool, log: seq<Entry<P>>, n: Node<S>,
                          commit: nat): (after: Node<S>)
    requires n.applied <= commit <= |log|
    ensures after.applied == commit && after.wal == n.wal && after.persistedIndex == n.persistedIndex
    decreases commit - n.applied
  {
    if n.applied == commit then n
    else Replayed(m, persister, log, AppliedEntry(m, persister, n, log[n.applied], n.applied + 1), commit)
  }

  // ---- what every step keeps ----

  function Max(a: nat, b: nat): nat { if a < b then b else a }

  /** How far the in-memory store has got. */
  function Reach<S>(n: Node<S>): nat { Max(n.applied, n.persistedIndex) }

  /** A labelled state is the fold to its label. */
  predicate Faithful<S(==), P>(m: Machine<S, P>, log: seq<Entry<P>>, s: S, index: nat) {
    index <= |log| && s == Fold(m, log, index)
  }

  predicate DurableOk<S(==), P>(m: Machine<S, P>, log: seq<Entry<P>>, d: Durable<S>) {
    d.Held? ==> Faithful(m, log, d.state, d.index)
  }

  predicate WalOk<S(==), P>(m: Machine<S, P>, log: seq<Entry<P>>, w: Option<Snap<S>>) {
    w.Some? ==> Faithful(m, log, w.value.state, w.value.index)
  }

  /** Memory is the fold as far as it reaches, and the durable copy, if any, is memory: the
      entries since its index touched no rows. */
  predicate NodeOk<S(==), P>(m: Machine<S, P>, persister: bool, log: seq<Entry<P>>, n: Node<S>) {
    && Reach(n) <= |log| && Faithful(m, log, n.store, Reach(n))
    && DurableOk(m, log, n.durable)
    && (persister && n.durable.Held? ==> n.durable.state == n.store)
    && (persister && n.durable.Missing? ==> n.store == m.init)
  }

  /** Boot from any durable store (or none) and any snapshot (or none), each faithful to the log. */
  lemma BootOk<S, P>(m: Machine<S, P>, persister: bool, log: seq<Entry<P>>, durable: Durable<S>, wal: Option<Snap<S>>)
    requires DurableOk(m, log, durable) && WalOk(m, log, wal)
    ensures NodeOk(m, persister, log, Booted(m, persister, durable, wal))
    ensures Booted(m, persister, durable, wal).applied == if wal.Some? then wal.value.index else 0
  {
  }

  /** A leader's snapshot ahead of the replica replaces or is overtaken by what it holds. */
  lemma InstallOk<S, P>(m: Machine<S, P>, persister: bool, log: seq<Entry<P>>, n: Node<S>, snap: Snap<S>)
    requires NodeOk(m, persister, log, n) && Faithful(m, log, snap.state, snap.index) && snap.index > n.applied
    ensures NodeOk(m, persister, log, Restored(n, persister, snap))
  {
  }

  /** The next entry, whether skipped, refused, empty or applied, extends the fold. */
  lemma EntryOk<S(!new), P(!new)>(m: Machine<S, P>, persister: bool, log: seq<Entry<P>>, n: Node<S>)
    requires Sound(m) && NodeOk(m, persister, log, n) && n.applied < |log|
    ensures NodeOk(m, persister, log, AppliedEntry(m, persister, n, log[n.applied], n.applied + 1))
  {
    var e := log[n.applied];
    if e.Normal? && !m.touches(n.store, e.proposal) {
      assert m.step(n.store, e.proposal) == n.store;
    }
  }

  /** The snapshot a compaction writes is faithful when the log has been applied as far as the
      durable store had already gone. */
  lemma CompactOk<S, P>(m: Machine<S, P>, persister: bool, log: seq<Entry<P>>, n: Node<S>, threshold: nat)
    requires NodeOk(m, persister, log, n) && WalOk(m, log, n.wal)
    ensures NodeOk(m, persister, log, Compacted(n, threshold))
    ensures (Due(n, threshold) ==> n.applied >= n.persistedIndex) ==> WalOk(m, log, Compacted(n, threshold).wal)
  {
  }

  /** A log is kept short: after a replica has considered compacting, fewer than `threshold` entries, and no
      membership change, stand between its snapshot and what it has applied. Only then is there a new
      snapshot, of all it has applied. */
  lemma CompactBounds<S>(n: Node<S>, threshold: nat)
    ensures var c := Compacted(n, threshold);
      && (c.applied <= c.snapIndex || (c.applied - c.snapIndex < threshold && !c.confChanged))
      && c.applied == n.applied && c.store == n.store && c.durable == n.durable
      && (c.wal == n.wal || (c.wal == Some(Snap(n.store, n.applied)) && c.snapIndex == n.applied))
  {
  }

  /** The whole committed tail, redelivered. */
  lemma {:induction false} ReplayOk<S(!new),
    P(!new)>(m: Machine<S, P>, persister: bool, log: seq<Entry<P>>, n: Node<S>, commit: nat)
    requires Sound(m) && NodeOk(m, persister, log, n) && n.applied <= commit <= |log|
    ensures NodeOk(m, persister, log, Replayed(m, persister, log, n, commit))
    decreases commit - n.applied
  {
    if n.applied < commit {
      EntryOk(m, persister, log, n);
      ReplayOk(m, persister, log, AppliedEntry(m, persister, n, log[n.applied], n.applied + 1), commit);
    }
  }

  /** Boot equals fold: from any faithful durable store at or below the commit index, or none, any
      faithful snapshot, or none, and the tail to `commit`, memory is the fold of all `commit`
      entries. */
  lemma BootReplayIsFold<S(!new),
    P(!new)>(m: Machine<S, P>, persister: bool, log: seq<Entry<P>>, disk: Durable<S>, wal: Option<Snap<S>>, commit: nat)
    requires Sound(m) && DurableOk(m, log, disk) && WalOk(m, log, wal) && commit <= |log|
    requires (disk.Held? ==> disk.index <= commit) && (wal.Some? ==> wal.value.index <= commit)
    ensures Replayed(m, persister, log, Booted(m, persister, disk, wal), commit).store == Fold(m, log, commit)
  {
    BootOk(m, persister, log, disk, wal);
    ReplayOk(m, persister, log, Booted(m, persister, disk, wal), commit);
  }

  // ---- the life of a cluster ----

  /** What a restart finds of the durable store. An unreadable one is not trusted; a snapshot in
      the log then resets it. */
  datatype Fate = Kept | Wiped | Unreadable

  /** What can happen: a replica applies its next committed entry, considers compacting, streams its
      snapshot to a replica behind it, or stops and boots again. */
  datatype Event = Deliver(at: nat) | Compact(at: nat) | Stream(from: nat, to: nat) | Restart(at: nat, fate: Fate)

  /** The parts of a cluster that do not change: `log` is every entry ever committed. */
  datatype World<!S, !P> = World(m: Machine<S, P>, persister: bool, log: seq<Entry<P>>, threshold: nat, size: nat)

  function Streamed<S>(n: Node<S>, persister: bool, snap: Snap<S>): Node<S> {
    if snap.index <= n.applied then n else Restored(n, persister, snap).(wal := Some(snap))
  }

  function Next<S, P>(w: World<S, P>, nodes: seq<Node<S>>, e: Event): (after: seq<Node<S>>)
    ensures |after| == |nodes|
  {
    match e
    case Deliver(at) =>
      if at >= |nodes| || nodes[at].applied >= |w.log| then nodes
      else var i := nodes[at].applied; nodes[at := AppliedEntry(w.m, w.persister, nodes[at], w.log[i], i + 1)]
    case Compact(at) =>
      if at >= |nodes| then nodes else nodes[at := Compacted(nodes[at], w.threshold)]
    case Stream(from, to) =>
      if from >= |nodes| || to >= |nodes| || nodes[from].wal.None? then nodes
      else nodes[to := Streamed(nodes[to], w.persister, nodes[from].wal.value)]
    case Restart(at, fate) =>
      if at >= |nodes| then nodes
      else nodes[at := Booted(w.m, w.persister, if fate.Kept? then nodes[at].durable else Missing, nodes[at].wal)]
  }

  /** The replicas after some events, from a fresh start. */
  function Lived<S, P>(w: World<S, P>, events: seq<Event>): (nodes: seq<Node<S>>)
    ensures |nodes| == w.size
  {
    if events == [] then seq(w.size, _ => Booted(w.m, w.persister, Missing, None))
    else Next(w, Lived(w, events[..|events| - 1]), events[|events| - 1])
  }

  /** A compaction that is due waits for the applied index to catch up with the durable one, and an
      unreadable durable store is met with a snapshot in the log. */
  predicate Careful<S, P>(w: World<S, P>, nodes: seq<Node<S>>, e: Event) {
    && (e.Compact? && e.at < |nodes| && Due(nodes[e.at], w.threshold) ==>
        nodes[e.at].applied >= nodes[e.at].persistedIndex)
    && (e.Restart? && e.fate.Unreadable? && e.at < |nodes| && w.persister ==> nodes[e.at].wal.Some?)
  }

  predicate AllCareful<S, P>(w: World<S, P>, events: seq<Event>) {
    events == [] ||
    (AllCareful(w, events[..|events| - 1]) && Careful(w, Lived(w, events[..|events| - 1]), events[|events| - 1]))
  }

  predicate ReplicaOk<S(==), P>(w: World<S, P>, n: Node<S>) {
    NodeOk(w.m, w.persister, w.log, n) && WalOk(w.m, w.log, n.wal)
  }

  lemma StreamOk<S, P>(w: World<S, P>, n: Node<S>, snap: Snap<S>)
    requires ReplicaOk(w, n) && Faithful(w.m, w.log, snap.state, snap.index)
    ensures ReplicaOk(w, Streamed(n, w.persister, snap))
  {
    hide Faithful;
    if snap.index > n.applied {
      InstallOk(w.m, w.persister, w.log, n, snap);
    }
  }

  lemma NextOk<S(!new), P(!new)>(w: World<S, P>, nodes: seq<Node<S>>, e: Event)
    requires Sound(w.m) && Careful(w, nodes, e) && forall i :: 0 <= i < |nodes| ==> ReplicaOk(w, nodes[i])
    ensures forall i :: 0 <= i < |nodes| ==> ReplicaOk(w, Next(w, nodes, e)[i])
  {
    hide NodeOk;
    match e
    case Deliver(at) =>
      if at < |nodes| && nodes[at].applied < |w.log| {
        EntryOk(w.m, w.persister, w.log, nodes[at]);
      }
    case Compact(at) =>
      if at < |nodes| {
        CompactOk(w.m, w.persister, w.log, nodes[at], w.threshold);
      }
    case Stream(from, to) =>
      if from < |nodes| && to < |nodes| && nodes[from].wal.Some? {
        StreamOk(w, nodes[to], nodes[from].wal.value);
      }
    case Restart(at, fate) =>
      if at < |nodes| {
        RestartOk(w, nodes[at], fate);
      }
  }

  lemma RestartOk<S, P>(w: World<S, P>, n: Node<S>, fate: Fate)
    requires ReplicaOk(w, n)
    ensures ReplicaOk(w, Booted(w.m, w.persister, if fate.Kept? then n.durable else Missing, n.wal))
  {
    BootOk(w.m, w.persister, w.log, if fate.Kept? then n.durable else Missing, n.wal);
  }

  /** Any life of any cluster: every replica's memory is the fold of what it has reached, and every
      snapshot is the fold to its label. */
  lemma {:induction false} LifeOk<S(!new), P(!new)>(w: World<S, P>, events: seq<Event>)
    requires Sound(w.m) && AllCareful(w, events)
    ensures forall i :: 0 <= i < w.size ==> ReplicaOk(w, Lived(w, events)[i])
  {
    hide NodeOk;
    if events == [] {
      BootOk(w.m, w.persister, w.log, Missing, None);
      assert ReplicaOk(w, Booted(w.m, w.persister, Missing, None));
    } else {
      LifeOk(w, events[..|events| - 1]);
      NextOk(w, Lived(w, events[..|events| - 1]), events[|events| - 1]);
    }
  }

  /** Replicas that have reached the same entry hold the same store. */
  lemma Agreement<S(!new), P(!new)>(w: World<S, P>, events: seq<Event>, i: nat, j: nat)
    requires Sound(w.m) && AllCareful(w, events) && i < w.size && j < w.size
    requires Reach(Lived(w, events)[i]) == Reach(Lived(w, events)[j])
    ensures Lived(w, events)[i].store == Lived(w, events)[j].store
  {
    LifeOk(w, events);
    assert ReplicaOk(w, Lived(w, events)[i]) && ReplicaOk(w, Lived(w, events)[j]);
  }

  // ---- the replica ----

  class Replica<S(!new, ==), P(!new)> {
    const m: Machine<S, P>
    const persister: bool
    var store: S
    var usePersisted: bool
    var persistedIndex: nat
    var applied: nat
    var snapIndex: nat
    var confChanged: bool
    var durable: Durable<S>
    var wal: Option<Snap<S>>

    ghost function View(): Node<S>
      reads this
    {
      Node(store, usePersisted, persistedIndex, applied, snapIndex, confChanged, durable, wal)
    }

    /** Opens the durable store, then restores the log's snapshot. */
    constructor Boot(m: Machine<S, P>, persister: bool, disk: Durable<S>, wal: Option<Snap<S>>)
      ensures this.m == m && this.persister == persister && View() == Booted(m, persister, disk, wal)
    {
      this.m := m;
      this.persister := persister;
      this.wal := wal;
      applied, snapIndex, confChanged := 0, 0, false;
      if persister && disk.Held? {
        store, usePersisted, persistedIndex := disk.state, true, disk.index;
      } else {
        store, usePersisted, persistedIndex := m.init, false, 0;
      }
      durable := if persister then disk else Missing;
      new;
      if wal.Some? {
        RestoreSnapshot(wal.value);
      }
    }

    method AdoptStore(state: S, index: nat)
      modifies this
      ensures View() == Adopted(old(View()), persister, state, index)
    {
      if persister {
        durable := Held(state, index);
      }
      store, persistedIndex := state, index;
    }

    method RestoreSnapshot(snap: Snap<S>)
      modifies this
      ensures View() == Restored(old(View()), persister, snap)
    {
      if !(usePersisted && persistedIndex >= snap.index) {
        AdoptStore(snap.state, snap.index);
      }
      applied, snapIndex := snap.index, snap.index;
    }

    /** A streamed snapshot, which the log hands over only when it is ahead: restore it and rotate
        the log onto it. */
    method InstallSnapshot(snap: Snap<S>)
      requires snap.index > applied
      modifies this
      ensures View() == Streamed(old(View()), persister, snap)
    {
      RestoreSnapshot(snap);
      wal := Some(snap);
    }

    method ApplyEntry(e: Entry<P>, index: nat)
      modifies this
      ensures View() == AppliedEntry(m, persister, old(View()), e, index)
    {
      applied := index;
      if e.ConfChange? {
        confChanged := true;
      }
      if !e.Normal? || index <= persistedIndex {
        return;
      }
      var next := m.step(store, e.proposal);
      if persister && m.touches(store, e.proposal) {
        durable := Held(next, index);
      }
      store := next;
    }

    method MaybeSnapshot(threshold: nat)
      modifies this
      ensures View() == Compacted(old(View()), threshold)
    {
      if !confChanged && applied - snapIndex < threshold {
        return;
      }
      if applied <= snapIndex {
        return;
      }
      confChanged := false;
      wal := Some(Snap(store, applied));
      snapIndex := applied;
    }

    /** Redelivery of the committed tail. */
    method Replay(log: seq<Entry<P>>, commit: nat)
      requires applied <= commit <= |log|
      modifies this
      ensures View() == Replayed(m, persister, log, old(View()), commit)
    {
      while applied < commit
        invariant applied <= commit
        invariant Replayed(m, persister, log, View(), commit) == Replayed(m, persister, log, old(View()), commit)
      {
        ApplyEntry(log[applied], applied + 1);
      }
    }
  }

  // ---- the replicas of a cluster ----

  /** Different replicas of the cluster, holding what `nodes` says. */
  ghost predicate Shows<S(!new), P(!new)>(w: World<S, P>, rs: seq<Replica<S, P>>, nodes: seq<Node<S>>)
    reads rs
  {
    && |rs| == |nodes| && (forall i, j :: 0 <= i < j < |rs| ==> rs[i] != rs[j])
    && forall i :: 0 <= i < |rs| ==> rs[i].m == w.m && rs[i].persister == w.persister && rs[i].View() == nodes[i]
  }

  method Reboot<S(!new, ==), P(!new)>(w: World<S, P>, disk: Durable<S>, wal: Option<Snap<S>>)
    returns (r: Replica<S, P>)
    ensures fresh(r) && r.m == w.m && r.persister == w.persister
    ensures r.View() == Booted(w.m, w.persister, disk, wal)
  {
    r := new Replica<S, P>.Boot(w.m, w.persister, disk, wal);
  }

  /** One event, performed by the replicas' own methods; a restart boots a new replica. */
  method Perform<S(!new, ==), P(!new)>(w: World<S, P>, rs: seq<Replica<S, P>>, e: Event, ghost nodes: seq<Node<S>>)
    returns (after: seq<Replica<S, P>>)
    requires Shows(w, rs, nodes)
    modifies rs
    ensures Shows(w, after, Next(w, nodes, e)) && forall i :: 0 <= i < |after| ==> after[i] in rs || fresh(after[i])
  {
    hide Restored, AppliedEntry, Compacted, Booted;
    after := rs;
    match e
    case Deliver(at) =>
      if at < |rs| && rs[at].applied < |w.log| {
        rs[at].ApplyEntry(w.log[rs[at].applied], rs[at].applied + 1);
      }
    case Compact(at) =>
      if at < |rs| {
        rs[at].MaybeSnapshot(w.threshold);
      }
    case Stream(from, to) =>
      if from < |rs| && to < |rs| && rs[from].wal.Some? && rs[from].wal.value.index > rs[to].applied {
        rs[to].InstallSnapshot(rs[from].wal.value);
      }
    case Restart(at, fate) =>
      if at < |rs| {
        var r := Reboot(w, if fate.Kept? then rs[at].durable else Missing, rs[at].wal);
        after := rs[at := r];
      }
  }

  /** Any life, performed by the replicas, ends with what `Lived` says of it. */
  method Live<S(!new, ==), P(!new)>(w: World<S, P>, events: seq<Event>) returns (rs: seq<Replica<S, P>>)
    ensures Shows(w, rs, Lived(w, events)) && fresh(rs)
  {
    rs := [];
    for i := 0 to w.size
      invariant Shows(w, rs, seq(i, _ => Booted(w.m, w.persister, Missing, None))) && fresh(rs)
    {
      var r := Reboot(w, Missing, None);
      rs := rs + [r];
    }
    for n := 0 to |events|
      invariant Shows(w, rs, Lived(w, events[..n])) && fresh(rs)
    {
      rs := Perform(w, rs, events[n], Lived(w, events[..n]));
      assert events[..n + 1][..n] == events[..n];
    }
    assert events[..|events|] == events;
  }

  /** The replica's own code boots and replays to the fold. */
  method BootAndReplay<S(!new, ==),
    P(!new)>(m: Machine<S, P>, persister: bool, log: seq<Entry<P>>, disk: Durable<S>, wal: Option<Snap<S>>, commit: nat)
    returns (store: S)
    requires Sound(m) && DurableOk(m, log, disk) && WalOk(m, log, wal) && commit <= |log|
    requires (disk.Held? ==> disk.index <= commit) && (wal.Some? ==> wal.value.index <= commit)
    ensures store == Fold(m, log, commit)
  {
    var r := new Replica<S, P>.Boot(m, persister, disk, wal);
    BootReplayIsFold(m, persister, log, disk, wal, commit);
    r.Replay(log, commit);
    store := r.store;
  }
}
