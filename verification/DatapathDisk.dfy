/** A node's disk: writes are staged and survive a crash only after a sync. */
module DatapathDisk {
  import opened Bytes

  datatype ShardKey = ShardKey(id: bytes, index: nat)

  /** A shard's file, and the commit marker beside it. */
  datatype Name = Shard(key: ShardKey) | Marker(key: ShardKey)

  /** An unsynced change. The first `keep` bytes of `data` were synced before the appends that
      followed, so they outlive a crash. */
  datatype Change = Content(data: bytes, keep: nat) | Removed

  datatype Disk = Disk(durable: map<Name, bytes>, staged: map<Name, Change>) {

    /** The current content of a file, staged or durable. */
    function Read(name: Name): (r: Option<bytes>) {
      if name in staged then
        if staged[name].Removed? then None else Some(staged[name].data)
      else if name in durable then Some(durable[name])
      else None
    }

    function WriteFile(name: Name, data: bytes): Disk {
      this.(staged := staged[name := Content(data, 0)])
    }

    function Append(name: Name, data: bytes): (d: Disk)
      ensures d.Read(name) == Some((if Read(name).Some? then Read(name).value else []) + data)
      ensures forall other :: other != name ==> d.Read(other) == Read(other)
    {
      var prior :=
        if name in staged then if staged[name].Removed? then Content([], 0) else staged[name]
        else if name in durable then Content(durable[name], |durable[name]|)
        else Content([], 0);
      this.(staged := staged[name := prior.(data := prior.data + data)])
    }

    /** Makes the staged changes to `name` durable. */
    function Sync(name: Name): (d: Disk)
      ensures d.Read(name) == Read(name)
    {
      if name !in staged then this
      else Disk(if staged[name].Removed? then durable - {name} else durable[name := staged[name].data], staged - {name})
    }

    /** Stages a removal; a missing file is left alone. */
    function Remove(name: Name): (d: Disk)
      ensures d.Read(name).None?
    {
      if Read(name).None? then this else this.(staged := staged[name := Removed])
    }

    /** No other file differs. */
    ghost predicate SameBut(d: Disk, name: Name) {
      && (forall n :: n != name ==> (n in durable <==> n in d.durable) && (n in durable ==> d.durable[n] == durable[n]))
      && (forall n :: n != name ==> (n in staged <==> n in d.staged) && (n in staged ==> d.staged[n] == staged[n]))
    }
  }

  /** What a crash may leave of one file: its durable content, the removal, or a prefix of
      the staged bytes at least as long as what was durable before the appends. */
  ghost predicate Survives(before: Disk, name: Name, after: Option<bytes>) {
    var kept := if name in before.durable then Some(before.durable[name]) else None;
    || after == kept
    || (name in before.staged && match before.staged[name]
          case Removed => after == None
          case Content(data, keep) => after.Some? && keep <= |after.value| && IsPrefix(after.value, data))
  }

  /** Every outcome a crash can have. */
  ghost predicate Crash(before: Disk, after: Disk) {
    && after.staged == map[]
    && forall name :: Survives(before, name, after.Read(name))
  }
}
