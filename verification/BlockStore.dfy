/**
 The block store (store/store.go) on a file system of inodes, hard links and symbolic links,
 with a cache in front. Files are created, linked, validated and removed one by one; any
 of these may fail, and creating a file may leave a part of it behind.
 */
module BlockStore {
  import opened Basics

  type Hash = nat

  /** The data hash of the empty block. */
  const EmptyHash: Hash := 0

  /** The content of an inode: which data it belongs to and whether all of it was written. */
  datatype File = File(hash: Hash, complete: bool)

  /** A height is a hard link to an inode, or a symbolic link to the file of the empty block. */
  datatype Link = Hard(inode: nat) | Symbolic

  datatype Outcome = Done | Exists | Failed

  /** How a put ends; `undone`: what was begun has been removed again without error. */
  datatype PutResult =
    | Stored
    | AlreadyStored
    | CreateFailed(undone: bool)
    | RecoverFailed
    | LinkFailed(undone: bool)
  {
    predicate Ok() { Stored? || AlreadyStored? }

    predicate Undone() { (CreateFailed? || LinkFailed?) && undone }
  }

  /** The files and links; inodes from `unused` on are free. `ods` and `q4` are the paths made from hashes, `links` those made from heights. */
  datatype Disk = Disk(
    inodes: map<nat, File>,
    unused: nat,
    ods: map<Hash, nat>,
    q4: map<Hash, bool>,
    links: map<nat, Link>)

  /** The data that is read by following the link of a height. */
  function Read(d: Disk, height: nat): Option<File> {
    if height !in d.links then None
    else match d.links[height]
      case Hard(i) => if i in d.inodes then Some(d.inodes[i]) else None
      case Symbolic =>
        if EmptyHash in d.ods && d.ods[EmptyHash] in d.inodes then Some(d.inodes[d.ods[EmptyHash]]) else None
  }

  /** Every file holds the data its path names, though perhaps not all of it. */
  ghost predicate FilesOk(d: Disk) {
    && (forall i :: i in d.inodes ==> i < d.unused)
    && (forall h :: h in d.ods ==> d.ods[h] in d.inodes && d.inodes[d.ods[h]].hash == h)
  }

  /** The fourth quadrant is stored as well, all of it. */
  ghost predicate HasQ4(d: Disk, hash: Hash) { hash in d.q4 && d.q4[hash] }

  ghost predicate EmptyOk(d: Disk) {
    EmptyHash in d.ods && d.ods[EmptyHash] in d.inodes && d.inodes[d.ods[EmptyHash]] == File(EmptyHash, true)
  }

  /** The link of a height is of the right kind and leads to all of that height's data. */
  ghost predicate LinkOk(d: Disk, height: nat, hash: Hash) {
    height in d.links ==>
      && (d.links[height].Symbolic? <==> hash == EmptyHash)
      && (d.links[height].Hard? ==> d.links[height].inode in d.inodes && d.inodes[d.links[height].inode] == File(hash, true))
  }

  ghost predicate DiskOk(d: Disk, hashOf: nat -> Hash) {
    FilesOk(d) && EmptyOk(d) && forall height :: LinkOk(d, height, hashOf(height))
  }

  /** Inodes are never written again. */
  ghost predicate KeepsInodes(d: Disk, d': Disk) {
    d.inodes.Keys <= d'.inodes.Keys && forall i :: i in d.inodes ==> d'.inodes[i] == d.inodes[i]
  }

  /** Whatever happened, it happened to this height: other links, and the content of inodes, are as before. */
  ghost predicate OnlyTouches(d: Disk, d': Disk, height: nat) {
    && KeepsInodes(d, d')
    && (forall k :: k != height ==> (k in d'.links <==> k in d.links))
    && (forall k :: k != height && k in d.links && k in d'.links ==> d'.links[k] == d.links[k])
  }

  /** The files of other data are as before. */
  ghost predicate KeepsOtherFiles(d: Disk, d': Disk, hash: Hash) {
    forall g :: g != hash ==> SameFiles(d, d', g)
  }

  ghost predicate SameFiles(d: Disk, d': Disk, g: Hash) {
    && (g in d'.ods <==> g in d.ods) && (g in d.ods && g in d'.ods ==> d'.ods[g] == d.ods[g])
    && (g in d'.q4 <==> g in d.q4) && (g in d.q4 && g in d'.q4 ==> d'.q4[g] == d.q4[g])
  }

  lemma FilesKeptTwice(d: Disk, d1: Disk, d2: Disk, hash: Hash)
    requires KeepsOtherFiles(d, d1, hash) && KeepsOtherFiles(d1, d2, hash)
    ensures KeepsOtherFiles(d, d2, hash)
  {
    forall g | g != hash ensures SameFiles(d, d2, g) {
      assert SameFiles(d, d1, g) && SameFiles(d1, d2, g);
    }
  }

  /** So no other height is read differently. */
  lemma OthersReadTheSame(d: Disk, d': Disk, height: nat, k: nat, hashOf: nat -> Hash)
    requires DiskOk(d, hashOf) && DiskOk(d', hashOf) && OnlyTouches(d, d', height) && k != height
    ensures Read(d', k) == Read(d, k)
  {
    assert LinkOk(d, k, hashOf(k)) && LinkOk(d', k, hashOf(k));
  }

  /** A link that is there gives all of the height's data. */
  lemma LinksResolve(d: Disk, hashOf: nat -> Hash, height: nat)
    requires DiskOk(d, hashOf)
    ensures Read(d, height) == if height in d.links then Some(File(hashOf(height), true)) else None
  {
    assert LinkOk(d, height, hashOf(height));
  }

  lemma TouchesTwice(d: Disk, d1: Disk, d2: Disk, height: nat)
    requires OnlyTouches(d, d1, height) && OnlyTouches(d1, d2, height)
    ensures OnlyTouches(d, d2, height)
  {
  }

  /** Disks that differ only in which files hashes name: links keep their inodes. */
  lemma PathsDoNotMatter(d: Disk, d': Disk, hashOf: nat -> Hash)
    requires DiskOk(d, hashOf) && FilesOk(d') && EmptyOk(d') && d'.links == d.links
    requires KeepsInodes(d, d')
    ensures DiskOk(d', hashOf)
  {
    forall height ensures LinkOk(d', height, hashOf(height)) {
      assert LinkOk(d, height, hashOf(height));
    }
  }

  function WithODS(d: Disk, hash: Hash, complete: bool): Disk {
    d.(inodes := d.inodes[d.unused := File(hash, complete)], unused := d.unused + 1, ods := d.ods[hash := d.unused])
  }

  lemma NewFileFrame(d: Disk, hash: Hash, complete: bool)
    requires FilesOk(d)
    ensures KeepsInodes(d, WithODS(d, hash, complete)) && KeepsOtherFiles(d, WithODS(d, hash, complete), hash)
  {
  }

  lemma NewFileOk(d: Disk, hash: Hash, complete: bool, hashOf: nat -> Hash)
    requires DiskOk(d, hashOf) && hash != EmptyHash
    ensures DiskOk(WithODS(d, hash, complete), hashOf)
    ensures KeepsInodes(d, WithODS(d, hash, complete)) && KeepsOtherFiles(d, WithODS(d, hash, complete), hash)
  {
    NewFileFrame(d, hash, complete);
    PathsDoNotMatter(d, WithODS(d, hash, complete), hashOf);
  }

  lemma RemovedFileOk(d: Disk, hash: Hash, hashOf: nat -> Hash)
    requires DiskOk(d, hashOf) && hash != EmptyHash
    ensures DiskOk(d.(ods := d.ods - {hash}), hashOf)
  {
    PathsDoNotMatter(d, d.(ods := d.ods - {hash}), hashOf);
  }

  lemma LinkedOk(d: Disk, height: nat, link: Link, hashOf: nat -> Hash)
    requires DiskOk(d, hashOf)
    requires link.Symbolic? <==> hashOf(height) == EmptyHash
    requires link.Hard? ==> link.inode in d.inodes && d.inodes[link.inode] == File(hashOf(height), true)
    ensures DiskOk(d.(links := d.links[height := link]), hashOf)
  {
    var d' := d.(links := d.links[height := link]);
    forall k ensures LinkOk(d', k, hashOf(k)) {
      assert LinkOk(d, k, hashOf(k));
    }
  }

  lemma UnlinkedOk(d: Disk, height: nat, hashOf: nat -> Hash)
    requires DiskOk(d, hashOf)
    ensures DiskOk(d.(links := d.links - {height}), hashOf)
  {
    var d' := d.(links := d.links - {height});
    forall k ensures LinkOk(d', k, hashOf(k)) {
      assert LinkOk(d, k, hashOf(k));
    }
  }

  class Store {
    /** Each height has one data hash. */
    ghost const hashOf: nat -> Hash

    var disk: Disk
    var cache: map<nat, Hash>

    /** How often the file system or the cache has failed. */
    ghost var faults: nat

    ghost predicate Valid()
      reads this
    {
      DiskOk(disk, hashOf) && forall h :: h in cache ==> cache[h] == hashOf(h)
    }

    // -------------------------------------------------------------- the file system

    /** Creating the file of a hash fails if it exists; it may also fail halfway. */
    method CreateODS(hash: Hash) returns (r: Outcome)
      requires Valid() && hash != EmptyHash
      modifies this`disk, this`faults
      ensures Valid() && disk.links == old(disk).links && KeepsInodes(old(disk), disk) && KeepsOtherFiles(old(disk), disk, hash)
      ensures r == Exists <==> hash in old(disk).ods
      ensures r == Exists ==> disk == old(disk)
      ensures r == Done ==> hash in disk.ods && disk.inodes[disk.ods[hash]] == File(hash, true)
      ensures disk.q4 == old(disk).q4
      ensures faults >= old(faults) && (r == Failed ==> faults > old(faults))
    {
      if hash in disk.ods {
        return Exists;
      }
      if * {
        faults := faults + 1;
        return Failed;
      }
      if * {
        NewFileOk(disk, hash, false, hashOf);
        disk := WithODS(disk, hash, false);
        faults := faults + 1;
        return Failed;
      }
      NewFileOk(disk, hash, true, hashOf);
      disk := WithODS(disk, hash, true);
      r := Done;
    }

    method CreateQ4(hash: Hash) returns (r: Outcome)
      requires Valid()
      modifies this`disk, this`faults
      ensures Valid() && disk == old(disk).(q4 := disk.q4) && KeepsOtherFiles(old(disk), disk, hash)
      ensures r == Exists <==> hash in old(disk).q4
      ensures r == Done ==> HasQ4(disk, hash)
      ensures faults >= old(faults) && (r == Failed ==> faults > old(faults))
    {
      ghost var d := disk;
      if hash in disk.q4 {
        return Exists;
      }
      if * {
        faults := faults + 1;
        return Failed;
      }
      if * {
        disk := disk.(q4 := disk.q4[hash := false]);
        PathsDoNotMatter(d, disk, hashOf);
        faults := faults + 1;
        return Failed;
      }
      disk := disk.(q4 := disk.q4[hash := true]);
      PathsDoNotMatter(d, disk, hashOf);
      r := Done;
    }

    /** linkHeight: a hard link to the file of the hash, a symbolic one for the empty block. */
    method LinkHeight(hash: Hash, height: nat) returns (r: Outcome)
      requires Valid() && hash == hashOf(height)
      requires hash in disk.ods && disk.inodes[disk.ods[hash]].complete
      modifies this`disk, this`faults
      ensures Valid() && OnlyTouches(old(disk), disk, height) && disk.q4 == old(disk).q4 && disk.ods == old(disk).ods
      ensures r == Exists <==> height in old(disk).links
      ensures r == Done ==> height in disk.links
      ensures r != Done ==> disk == old(disk)
      ensures faults >= old(faults) && (r == Failed ==> faults > old(faults))
    {
      if height in disk.links {
        return Exists;
      }
      if * {
        faults := faults + 1;
        return Failed;
      }
      var link := if hash == EmptyHash then Symbolic else Hard(disk.ods[hash]);
      LinkedOk(disk, height, link, hashOf);
      disk := disk.(links := disk.links[height := link]);
      r := Done;
    }

    /** Removing a link that is not there succeeds. */
    method RemoveLink(height: nat) returns (ok: bool)
      requires Valid()
      modifies this`disk, this`faults
      ensures Valid() && OnlyTouches(old(disk), disk, height) && disk == old(disk).(links := disk.links)
      ensures disk.links == if ok then old(disk).links - {height} else old(disk).links
      ensures faults >= old(faults) && (!ok ==> faults > old(faults))
    {
      if * {
        faults := faults + 1;
        return false;
      }
      UnlinkedOk(disk, height, hashOf);
      disk := disk.(links := disk.links - {height});
      ok := true;
    }

    method RemoveODSFile(hash: Hash) returns (ok: bool)
      requires Valid() && hash != EmptyHash
      modifies this`disk, this`faults
      ensures Valid() && disk == old(disk).(ods := if ok then old(disk).ods - {hash} else old(disk).ods)
      ensures faults >= old(faults) && (!ok ==> faults > old(faults))
    {
      if * {
        faults := faults + 1;
        return false;
      }
      RemovedFileOk(disk, hash, hashOf);
      disk := disk.(ods := disk.ods - {hash});
      ok := true;
    }

    method RemoveQ4File(hash: Hash) returns (ok: bool)
      requires Valid()
      modifies this`disk, this`faults
      ensures Valid() && disk == old(disk).(q4 := if ok then old(disk).q4 - {hash} else old(disk).q4)
      ensures faults >= old(faults) && (!ok ==> faults > old(faults))
    {
      if * {
        faults := faults + 1;
        return false;
      }
      PathsDoNotMatter(disk, disk.(q4 := disk.q4 - {hash}), hashOf);
      disk := disk.(q4 := disk.q4 - {hash});
      ok := true;
    }

    // -------------------------------------------------------------- the cache

    /** GetOrLoad: puts the data in the cache, unless there is some already, and may evict another height. */
    method CacheLoad(height: nat, hash: Hash)
      requires Valid() && hash == hashOf(height)
      modifies this`cache, this`faults
      ensures Valid() && forall k :: k in cache && k != height ==> k in old(cache)
      ensures faults >= old(faults) && (faults == old(faults) ==> height in cache)
    {
      if * {
        faults := faults + 1;
        return;
      }
      if height !in cache {
        cache := cache[height := hash];
      }
      if * {
        var evicted: set<nat> := *;
        cache := cache - (evicted - {height});
      }
    }

    method CacheRemove(height: nat) returns (ok: bool)
      requires Valid()
      modifies this`cache, this`faults
      ensures Valid() && cache == if ok then old(cache) - {height} else old(cache)
      ensures faults >= old(faults) && (!ok ==> faults > old(faults))
    {
      if * {
        faults := faults + 1;
        return false;
      }
      cache := cache - {height};
      ok := true;
    }

    // -------------------------------------------------------------- removing

    /** What removing may change. */
    ghost predicate Shrunk(d: Disk, c: map<nat, Hash>, height: nat)
      reads this
    {
      && OnlyTouches(d, disk, height) && disk.inodes == d.inodes && KeepsOtherFiles(d, disk, hashOf(height))
      && disk.ods.Keys <= d.ods.Keys && disk.links.Keys <= d.links.Keys && cache.Keys <= c.Keys
      && forall k :: k in c && k != height ==> k in cache
    }

    /** removeODS: the cache entry, the link and, unless the block is empty, the file. */
    method RemoveODS(height: nat, hash: Hash) returns (ok: bool)
      requires Valid() && hash == hashOf(height)
      modifies this
      ensures Valid() && Shrunk(old(disk), old(cache), height) && disk.q4 == old(disk).q4
      ensures ok ==> height !in cache && height !in disk.links
      ensures ok && hash != EmptyHash ==> hash !in disk.ods
      ensures faults >= old(faults) && (!ok ==> faults > old(faults))
    {
      ok := CacheRemove(height);
      if !ok {
        return;
      }
      ok := RemoveLink(height);
      if !ok {
        return;
      }
      if hash == EmptyHash {
        return;
      }
      ok := RemoveODSFile(hash);
    }

    method RemoveQ4(height: nat, hash: Hash) returns (ok: bool)
      requires Valid() && hash == hashOf(height)
      modifies this
      ensures Valid() && Shrunk(old(disk), old(cache), height) && disk == old(disk).(q4 := disk.q4)
      ensures ok && hash != EmptyHash ==> height !in cache && hash !in disk.q4
      ensures faults >= old(faults) && (!ok ==> faults > old(faults))
    {
      if hash == EmptyHash {
        return true;
      }
      ok := CacheRemove(height);
      if !ok {
        return;
      }
      ok := RemoveQ4File(hash);
    }

    method RemoveODSQ4(height: nat, hash: Hash) returns (ok: bool)
      requires Valid() && hash == hashOf(height)
      modifies this
      ensures Valid() && Shrunk(old(disk), old(cache), height)
      ensures ok ==> height !in cache && height !in disk.links
      ensures ok && hash != EmptyHash ==> hash !in disk.ods && hash !in disk.q4
      ensures faults >= old(faults) && (!ok ==> faults > old(faults))
    {
      ok := RemoveODS(height, hash);
      if !ok {
        return;
      }
      ghost var d, c := disk, cache;
      ok := RemoveQ4(height, hash);
      TouchesTwice(old(disk), d, disk, height);
      FilesKeptTwice(old(disk), d, disk, hash);
    }

    // -------------------------------------------------------------- putting

    /** Both files, written side by side; that one of them exists outweighs any other error. */
    method CreateODSQ4(hash: Hash) returns (r: Outcome)
      requires Valid() && hash != EmptyHash
      modifies this`disk, this`faults
      ensures Valid() && disk.links == old(disk).links && KeepsInodes(old(disk), disk) && KeepsOtherFiles(old(disk), disk, hash)
      ensures hash in old(disk).ods ==> disk == old(disk).(q4 := disk.q4) && r == Exists
      ensures r == Done ==> HasQ4(disk, hash)
      ensures r == Exists ==> hash in old(disk).ods || hash in old(disk).q4
      ensures faults >= old(faults) && (r == Failed ==> faults > old(faults))
      ensures r == Done ==> hash in disk.ods && disk.inodes[disk.ods[hash]] == File(hash, true)
    {
      var q := CreateQ4(hash);
      ghost var d := disk;
      var o := CreateODS(hash);
      FilesKeptTwice(old(disk), d, disk, hash);
      r := if o == Exists || q == Exists then Exists else if o == Failed || q == Failed then Failed else Done;
    }

    /** The size on disk is that of the whole file. Being unable to tell counts as no. */
    method SizeIsValid(hash: Hash, withQ4: bool) returns (ok: bool)
      modifies this`faults
      ensures faults >= old(faults)
      ensures ok ==> hash in disk.ods && disk.ods[hash] in disk.inodes && disk.inodes[disk.ods[hash]].complete
      ensures ok && withQ4 ==> HasQ4(disk, hash)
    {
      if * {
        faults := faults + 1;
        return false;
      }
      ok := hash in disk.ods && disk.ods[hash] in disk.inodes && disk.inodes[disk.ods[hash]].complete;
      ok := ok && (withQ4 ==> hash in disk.q4 && disk.q4[hash]);
    }

    /** What putting a height may change besides its own link and file. */
    ghost predicate Moved(d: Disk, c: map<nat, Hash>, height: nat)
      reads this
    {
      && OnlyTouches(d, disk, height) && KeepsOtherFiles(d, disk, hashOf(height))
      && (forall k :: k in cache && k != height ==> k in c)
    }

    /** A new link for the height may not appear. */
    ghost predicate NoNewLink(d: Disk, height: nat)
      reads this
    {
      height in disk.links ==> height in d.links
    }

    lemma MovedTwice(d: Disk, c: map<nat, Hash>, d1: Disk, c1: map<nat, Hash>, height: nat)
      requires OnlyTouches(d, d1, height) && KeepsOtherFiles(d, d1, hashOf(height)) && (forall k :: k in c1 && k != height ==> k in c)
      requires Moved(d1, c1, height)
      ensures Moved(d, c, height)
    {
      TouchesTwice(d, d1, disk, height);
      FilesKeptTwice(d, d1, disk, hashOf(height));
    }

    /** Files left incomplete by an earlier attempt are removed, with the link, and written anew. */
    method ValidateAndRecover(height: nat, hash: Hash, withQ4: bool) returns (ok: bool)
      requires Valid() && hash == hashOf(height) != EmptyHash
      modifies this
      ensures Valid() && Moved(old(disk), old(cache), height) && NoNewLink(old(disk), height)
      ensures ok ==> hash in disk.ods && disk.inodes[disk.ods[hash]].complete && (withQ4 ==> HasQ4(disk, hash))
      ensures ok ==> height in disk.links ==> disk.links == old(disk).links
      ensures faults >= old(faults) && (!ok ==> faults > old(faults))
    {
      ok := SizeIsValid(hash, withQ4);
      if ok {
        return;
      }
      var r: Outcome;
      if withQ4 {
        ok := RemoveODSQ4(height, hash);
        if !ok {
          return;
        }
        ghost var d, c := disk, cache;
        r := CreateODSQ4(hash);
        MovedTwice(old(disk), old(cache), d, c, height);
      } else {
        ok := RemoveODS(height, hash);
        if !ok {
          return;
        }
        ghost var d, c := disk, cache;
        r := CreateODS(hash);
        MovedTwice(old(disk), old(cache), d, c, height);
      }
      ok := r == Done;
    }

    /** Nothing of the block is left: no link, no file, no cache entry. */
    ghost predicate Gone(height: nat, hash: Hash, withQ4: bool)
      reads this
    {
      height !in disk.links && height !in cache && hash !in disk.ods && (withQ4 ==> hash !in disk.q4)
    }

    /** Undoing a put that failed. */
    method RollBack(height: nat, hash: Hash, withQ4: bool) returns (ok: bool)
      requires Valid() && hash == hashOf(height) != EmptyHash
      modifies this
      ensures Valid() && Moved(old(disk), old(cache), height) && NoNewLink(old(disk), height)
      ensures ok ==> Gone(height, hash, withQ4)
      ensures faults >= old(faults) && (!ok ==> faults > old(faults))
    {
      if withQ4 {
        ok := RemoveODSQ4(height, hash);
      } else {
        ok := RemoveODS(height, hash);
      }
    }

    /** The files are there and complete afterwards, or the attempt is undone or given up. */
    method EnsureFiles(height: nat, hash: Hash, withQ4: bool) returns (r: PutResult)
      requires Valid() && hash == hashOf(height) != EmptyHash
      modifies this
      ensures Valid() && Moved(old(disk), old(cache), height) && NoNewLink(old(disk), height)
      ensures r.Ok() ==> hash in disk.ods && disk.inodes[disk.ods[hash]].complete && (withQ4 ==> HasQ4(disk, hash))
      ensures r.Ok() ==> height in disk.links ==> disk.links == old(disk).links
      ensures r.Undone() ==> Gone(height, hash, withQ4)
      ensures faults >= old(faults) && (!r.Ok() ==> faults > old(faults))
    {
      var created: Outcome;
      if withQ4 {
        created := CreateODSQ4(hash);
      } else {
        created := CreateODS(hash);
      }
      ghost var d, c := disk, cache;
      if created == Failed {
        var undone := RollBack(height, hash, withQ4);
        MovedTwice(old(disk), old(cache), d, c, height);
        return CreateFailed(undone);
      }
      if created == Exists {
        var ok := ValidateAndRecover(height, hash, withQ4);
        MovedTwice(old(disk), old(cache), d, c, height);
        if !ok {
          return RecoverFailed;
        }
      }
      r := Stored;
    }

    /** createODSQ4File and createODSFile. That both file and link exist is a success. */
    method CreateFile(height: nat, hash: Hash, withQ4: bool) returns (r: PutResult)
      requires Valid() && hash == hashOf(height) != EmptyHash
      modifies this
      ensures Valid() && Moved(old(disk), old(cache), height)
      ensures if r.Ok() then height in disk.links else NoNewLink(old(disk), height)
      ensures r.Ok() && withQ4 ==> HasQ4(disk, hash)
      ensures r.AlreadyStored? ==> disk.links == old(disk).links
      ensures r.Undone() ==> Gone(height, hash, withQ4)
      ensures faults >= old(faults) && (!r.Ok() ==> faults > old(faults))
    {
      r := EnsureFiles(height, hash, withQ4);
      if !r.Ok() {
        return;
      }
      ghost var d, c := disk, cache;
      var linked := LinkHeight(hash, height);
      MovedTwice(old(disk), old(cache), d, c, height);
      if linked == Failed {
        var undone := RollBack(height, hash, withQ4);
        MovedTwice(old(disk), old(cache), d, c, height);
        return LinkFailed(undone);
      }
      r := if linked == Exists then AlreadyStored else Stored;
    }

    /**
     Stores a block. Afterwards its height is readable, or it failed and there is no link that was not
     there before; no other height is affected either way. An attempt that was undone leaves nothing, and
     without a fault there is no failure.
     */
    method Put(height: nat, hash: Hash, withQ4: bool) returns (r: PutResult)
      requires Valid() && hash == hashOf(height)
      modifies this
      ensures Valid() && Moved(old(disk), old(cache), height)
      ensures if r.Ok() then height in disk.links else NoNewLink(old(disk), height)
      ensures r.Ok() && withQ4 && hash != EmptyHash ==> HasQ4(disk, hash)
      ensures r.AlreadyStored? ==> disk.links == old(disk).links
      ensures r.Undone() ==> Gone(height, hash, withQ4)
      ensures faults >= old(faults) && (!r.Ok() ==> faults > old(faults))
    {
      if hash == EmptyHash {
        var linked := LinkHeight(hash, height);
        return match linked case Done => Stored case Exists => AlreadyStored case Failed => LinkFailed(false);
      }
      CacheLoad(height, hash);
      ghost var d, c := disk, cache;
      r := CreateFile(height, hash, withQ4);
      MovedTwice(old(disk), old(cache), d, c, height);
    }

    /**
     NewStore writes the file of the empty block anew. What an earlier process left behind may be
     any files named after their data and links to complete ones.
     */
    method PopulateEmptyFile() returns (ok: bool)
      requires FilesOk(disk) && cache == map[] && forall height :: LinkOk(disk, height, hashOf(height))
      modifies this`disk, this`faults
      ensures disk.links == old(disk).links && KeepsInodes(old(disk), disk)
      ensures ok ==> Valid()
      ensures faults >= old(faults) && (!ok ==> faults > old(faults))
    {
      if * {
        faults := faults + 1;
        return false;
      }
      disk := disk.(ods := disk.ods - {EmptyHash}, q4 := disk.q4 - {EmptyHash});
      if * {
        faults := faults + 1;
        return false;
      }
      disk := WithODS(disk, EmptyHash, true).(q4 := disk.q4[EmptyHash := true]);
      forall height ensures LinkOk(disk, height, hashOf(height)) {
        assert LinkOk(old(disk), height, hashOf(height));
      }
      ok := true;
    }

    // -------------------------------------------------------------- reading

    /** From the cache, or else through the link. */
    method GetByHeight(height: nat) returns (r: Option<Hash>)
      requires Valid()
      ensures r == if height in cache || height in disk.links then Some(hashOf(height)) else None
    {
      if height in cache {
        return Some(cache[height]);
      }
      LinksResolve(disk, hashOf, height);
      var file := Read(disk, height);
      r := if file.None? then None else Some(file.value.hash);
    }

    method HasByHeight(height: nat) returns (r: bool)
      requires Valid()
      ensures r <==> height in cache || height in disk.links
    {
      if height in cache {
        return true;
      }
      LinksResolve(disk, hashOf, height);
      r := Read(disk, height).Some?;
    }

    // -------------------------------------------------------------- sequences of calls

    /** One call of those below. */
    method Execute(op: Op)
      requires Valid() && (!op.EvictOp? ==> op.hash == hashOf(op.height))
      modifies this
      ensures Valid() && faults >= old(faults)
      ensures if op.EvictOp? then disk == old(disk) else OnlyTouches(old(disk), disk, op.height) && KeepsOtherFiles(old(disk), disk, op.hash)
      ensures op.RemoveQ4Op? ==> disk.links == old(disk).links
      ensures op.PutOp? && faults == old(faults) ==> op.height in disk.links
    {
      match op
      case PutOp(height, hash, withQ4) =>
        var r := Put(height, hash, withQ4);
      case RemoveODSQ4Op(height, hash) =>
        var ok := RemoveODSQ4(height, hash);
      case RemoveQ4Op(height, hash) =>
        var ok := RemoveQ4(height, hash);
      case EvictOp(height) =>
        cache := cache - {height};
    }

    /**
     Runs any calls in any order that do not remove `kept`. It stays linked to all of its original square,
     whatever fails, unless it is itself put again and that fails. Its fourth quadrant stays too, unless a
     call concerns the same data, whose file for that quadrant is shared.
     */
    method Run(ops: seq<Op>, kept: nat)
      requires Valid() && kept in disk.links
      requires forall i :: 0 <= i < |ops| && !ops[i].EvictOp? ==> ops[i].hash == hashOf(ops[i].height)
      requires forall i :: 0 <= i < |ops| && ops[i].RemoveODSQ4Op? ==> ops[i].height != kept
      modifies this
      ensures Valid()
      ensures faults == old(faults) || (forall i :: 0 <= i < |ops| && ops[i].PutOp? ==> ops[i].height != kept) ==>
        kept in disk.links && Read(disk, kept) == Some(File(hashOf(kept), true))
      ensures old(HasQ4(disk, hashOf(kept))) && (forall i :: 0 <= i < |ops| && !ops[i].EvictOp? ==> ops[i].hash != hashOf(kept)) ==>
        HasQ4(disk, hashOf(kept))
    {
      ghost var putAgain := exists i :: 0 <= i < |ops| && ops[i].PutOp? && ops[i].height == kept;
      ghost var sharesFile := exists i :: 0 <= i < |ops| && !ops[i].EvictOp? && ops[i].hash == hashOf(kept);
      for i := 0 to |ops|
        invariant Valid() && faults >= old(faults)
        invariant faults == old(faults) || !putAgain ==> kept in disk.links
        invariant old(HasQ4(disk, hashOf(kept))) && !sharesFile ==> HasQ4(disk, hashOf(kept))
      {
        ghost var before := disk;
        Execute(ops[i]);
        assert !ops[i].EvictOp? && ops[i].hash != hashOf(kept) ==> SameFiles(before, disk, hashOf(kept));
      }
      LinksResolve(disk, hashOf, kept);
    }
  }

  datatype Op =
    | PutOp(height: nat, hash: Hash, withQ4: bool)
    | RemoveODSQ4Op(height: nat, hash: Hash)
    | RemoveQ4Op(height: nat, hash: Hash)
    | EvictOp(height: nat)
}
