/** The encrypted record store, one file a record, committed by rename. */
module AppStore {
  import opened Wrappers
  import opened Devices
  import opened Order
  import opened RecordNames
  import opened FileTree

  datatype Error = InvalidNamespace | Storage

  /**
   What the file system does to one put. `renames(a)` says whether the rename
   is let through at attempt `a`; `partial` is what a failed write leaves behind.
   */
  datatype Faults = Faults(
    mkdirFails: bool,
    createFails: bool,
    writeFails: bool,
    partial: Bytes,
    renames: nat -> bool,
    cleanupFails: bool)

  /** What it does to one listing, entry by entry. */
  datatype ListFaults = ListFaults(
    dirFails: bool,
    entryFails: string -> bool,
    typeHidden: string -> bool,
    readFails: string -> bool)

  /** How far the removal of a directory gets. */
  datatype Removal = Whole | Stopped(removed: set<string>)

  /** Some attempt within the bound is let through. */
  ghost predicate Commits(faults: Faults) {
    exists a: nat :: a < COMMIT_ATTEMPTS && faults.renames(a)
  }

  lemma TwentyTries(faults: Faults)
    ensures Commits(faults) <==> exists a: nat :: a < 20 && faults.renames(a)
  {
  }

  /** A file can be renamed onto a file or onto nothing. The empty name is the directory itself. */
  predicate CanReplace(entries: Entries, name: string) {
    name != "" && (name in entries ==> entries[name].File?)
  }

  class FsAppStore {
    const cipher: Cipher
    const pid: nat
    var dirs: Tree
    var seqNo: nat

    /** What has been stored, as the callers understand it. */
    ghost var records: Records

    ghost predicate Valid()
      reads this
    {
      Sound(cipher) && Represents(cipher, dirs, records)
    }

    /** Opens whatever an earlier process left under the root. */
    constructor (cipher: Cipher, pid: nat, dirs: Tree, ghost records: Records)
      requires Sound(cipher) && Represents(cipher, dirs, records)
      ensures Valid() && this.cipher == cipher && this.pid == pid
      ensures this.dirs == dirs && this.records == records && seqNo == 0
    {
      this.cipher, this.pid, this.dirs, this.seqNo := cipher, pid, dirs, 0;
      this.records := records;
    }

    ghost function NextTemp(key: Key): string
      reads this`seqNo
    {
      TempName(HexEncode(key), pid, seqNo)
    }

    predicate IsDirectory(ns: string)
      reads this`dirs
    {
      ns in dirs && dirs[ns].Directory?
    }

    /** Something that is not a record's file stands at the record's path, or at its directory's. */
    predicate Blocked(ns: string, key: Key)
      reads this`dirs
    {
      ns in dirs && (dirs[ns].PlainFile? || key == [] ||
                     (HexEncode(key) in dirs[ns].entries && dirs[ns].entries[HexEncode(key)].Subdirectory?))
    }

    /** Blocked is there and not a file: neither a record can be read from there nor its absence be told. */
    lemma BlockedIff(ns: string, key: Key)
      ensures ns !in dirs ==> !Blocked(ns, key)
      ensures ns in dirs && !IsDirectory(ns) ==> Blocked(ns, key)
      ensures IsDirectory(ns) && HexEncode(key) == "" ==> Blocked(ns, key)
      ensures IsDirectory(ns) && HexEncode(key) != "" ==>
              (Blocked(ns, key) <==> HexEncode(key) in EntriesAt(dirs, ns) && FileAt(dirs, ns, HexEncode(key)) == None)
    {
      RecordNameIsNotDotted(key);
    }

    // ------------------------------------------------------------- put

    /** Creates the temporary and writes it whole, or cleans up after itself. */
    method WriteTmp(ns: string, tmp: string, bytes: Bytes, faults: Faults) returns (ok: bool)
      requires IsDirectory(ns)
      modifies this`dirs
      ensures ok <==> tmp !in EntriesAt(old(dirs), ns) && !faults.createFails && !faults.writeFails
      ensures ok ==> dirs == old(dirs)[ns := Directory(EntriesAt(old(dirs), ns)[tmp := File(bytes)])]
      ensures !ok ==> LeavesAtMost(old(dirs), dirs, ns, tmp, faults.cleanupFails)
    {
      var entries := dirs[ns].entries;
      if faults.createFails || tmp in entries {
        return false;
      }
      if faults.writeFails {
        if faults.cleanupFails {
          dirs := dirs[ns := Directory(entries[tmp := File(faults.partial)])];
        }
        return false;
      }
      dirs := dirs[ns := Directory(entries[tmp := File(bytes)])];
      ok := true;
    }

    /** The rename, tried twenty times. */
    method Commit(ns: string, tmp: string, name: string, faults: Faults) returns (ok: bool)
      requires IsDirectory(ns) && tmp in dirs[ns].entries && tmp != name
      modifies this`dirs
      ensures ok <==> CanReplace(EntriesAt(old(dirs), ns), name) && Commits(faults)
      ensures dirs == if !ok then old(dirs) else
                old(dirs)[ns := Directory((EntriesAt(old(dirs), ns) - {tmp})[name := EntriesAt(old(dirs), ns)[tmp]])]
    {
      var entries := dirs[ns].entries;
      var attempt := 0;
      while attempt < COMMIT_ATTEMPTS
        invariant 0 <= attempt <= COMMIT_ATTEMPTS
        invariant dirs == old(dirs)
        invariant CanReplace(entries, name) ==> forall a: nat :: a < attempt ==> !faults.renames(a)
      {
        if faults.renames(attempt) && CanReplace(entries, name) {
          dirs := dirs[ns := Directory((entries - {tmp})[name := entries[tmp]])];
          return true;
        }
        attempt := attempt + 1;
      }
      ok := false;
    }

    /**
     Temporary, fsync, rename with bounded retry. On success the temporary has
     become the record; on failure it is gone, unless removing it fails too.
     */
    method WritePrivate(ns: string, name: string, bytes: Bytes, faults: Faults) returns (ok: bool)
      requires IsDirectory(ns) && '.' !in name
      modifies this`dirs, this`seqNo
      ensures seqNo == old(seqNo) + 1
      ensures var tmp, entries := TempName(name, pid, old(seqNo)), EntriesAt(old(dirs), ns);
              && (ok <==> && tmp !in entries && !faults.createFails && !faults.writeFails
                          && CanReplace(entries, name) && Commits(faults))
              && (ok ==> dirs == old(dirs)[ns := Directory(entries[name := File(bytes)])])
              && (!ok ==> LeavesAtMost(old(dirs), dirs, ns, tmp, faults.cleanupFails))
    {
      ghost var was := dirs;
      var entries := dirs[ns].entries;
      var tmp := TempName(name, pid, seqNo);
      TempNameIsDotted(name, pid, seqNo);
      seqNo := seqNo + 1;
      ok := WriteTmp(ns, tmp, bytes, faults);
      if !ok {
        return;
      }
      ok := Commit(ns, tmp, name, faults);
      if ok {
        assert (entries[tmp := File(bytes)] - {tmp})[name := File(bytes)] == entries[name := File(bytes)];
      } else if !faults.cleanupFails {
        assert entries[tmp := File(bytes)] - {tmp} == entries;
        dirs := dirs[ns := Directory(dirs[ns].entries - {tmp})];
        assert dirs == was;
      }
    }

    method MakeDir(ns: string) returns (ok: bool)
      modifies this`dirs
      ensures ok == (ns in old(dirs) ==> old(dirs)[ns].Directory?)
      ensures dirs == if ns in old(dirs) then old(dirs) else old(dirs)[ns := Directory(map[])]
      ensures SameEntries(old(dirs), dirs)
    {
      if ns in dirs {
        return dirs[ns].Directory?;
      }
      dirs := dirs[ns := Directory(map[])];
      ok := true;
    }

    /** The one statement a put makes: it replaced this record, or it changed none. */
    method Put(ns: string, key: Key, value: Bytes, nonce: Bytes, faults: Faults) returns (r: Result<(), Error>)
      requires Valid()
      modifies this
      ensures Valid()
      ensures r.Ok? ==> records == old(records)[(ns, key) := value]
      ensures r.Err? ==> records == old(records)
      ensures r == Err(InvalidNamespace) <==> !ValidNamespace(ns)
      ensures r.Ok? <==>
              && ValidNamespace(ns)
              && key != []
              && cipher.seal(nonce, value).Some?
              && !faults.mkdirFails && !faults.createFails && !faults.writeFails && Commits(faults)
              && !old(Blocked(ns, key))
              && old(NextTemp(key)) !in EntriesAt(old(dirs), ns)
      ensures SameFilesBut(old(dirs), dirs, ns, if r.Ok? then HexEncode(key) else old(NextTemp(key)))
      ensures Tidy(old(dirs)) && !faults.cleanupFails ==> Tidy(dirs)
    {
      if !ValidNamespace(ns) {
        return Err(InvalidNamespace);
      }
      var sealed := cipher.seal(nonce, value);
      if sealed.None? || faults.mkdirFails {
        return Err(Storage);
      }
      if key == [] && !IsDirectory(ns) {
        // The temporary's name lies in a directory that nothing has made.
        seqNo := seqNo + 1;
        return Err(Storage);
      }
      var made := MakeDir(ns);
      if !made {
        return Err(Storage);
      }
      RecordNameIsNotDotted(key);
      TempNameIsDotted(HexEncode(key), pid, seqNo);
      KeyOfDotted(NextTemp(key));
      KeyOfRecordName(key);
      ghost var base, tmp := dirs, NextTemp(key);
      var name := EncodeKey(key);
      var ok := WritePrivate(ns, name, sealed.value, faults);
      if ok {
        FileWritten(old(dirs), base, dirs, ns, name, sealed.value);
        WriteSets(cipher, old(dirs), dirs, records, ns, key, sealed.value, value);
        records := records[(ns, key) := value];
        return Ok(());
      }
      FileNotWritten(old(dirs), base, dirs, ns, tmp, faults.cleanupFails);
      NonRecordKeeps(cipher, old(dirs), dirs, records, ns, tmp);
      r := Err(Storage);
    }

    /** A put cut short by a crash before its rename: it leaves a temporary with some of the bytes. */
    method InterruptedPut(ns: string, key: Key, written: Bytes)
      requires Valid() && ValidNamespace(ns)
      requires if ns in dirs then dirs[ns].Directory? else key != []
      requires NextTemp(key) !in EntriesAt(dirs, ns)
      modifies this
      ensures Valid() && records == old(records)
      ensures FileAt(dirs, ns, old(NextTemp(key))) == Some(written)
      ensures SameFilesBut(old(dirs), dirs, ns, old(NextTemp(key)))
    {
      var _ := MakeDir(ns);
      var tmp := TempName(HexEncode(key), pid, seqNo);
      TempNameIsDotted(HexEncode(key), pid, seqNo);
      KeyOfDotted(tmp);
      seqNo := seqNo + 1;
      ghost var base := dirs;
      dirs := dirs[ns := Directory(dirs[ns].entries[tmp := File(written)])];
      FileWritten(old(dirs), base, dirs, ns, tmp, written);
      NonRecordKeeps(cipher, old(dirs), dirs, records, ns, tmp);
    }

    // ------------------------------------------------------------- get

    /** Holds of any tree, tampered with or not: a record that is there is never reported absent. */
    method Get(ns: string, key: Key, readFails: bool) returns (r: Result<Option<Bytes>, Error>)
      ensures r == Err(InvalidNamespace) <==> !ValidNamespace(ns)
      ensures r == Ok(None) <==>
              ValidNamespace(ns) && !readFails && !Blocked(ns, key) && FileAt(dirs, ns, HexEncode(key)) == None
      ensures r.Ok? && r.value.Some? <==>
              ValidNamespace(ns) && !readFails && !Blocked(ns, key) && Opens(cipher, dirs, ns, HexEncode(key))
      ensures r.Ok? && r.value.Some? ==> r.value == cipher.open(FileAt(dirs, ns, HexEncode(key)).value)
      ensures Valid() ==>
              r == if !ValidNamespace(ns) then Err(InvalidNamespace)
                   else if readFails || Blocked(ns, key) then Err(Storage)
                   else Ok(if (ns, key) in records then Some(records[(ns, key)]) else None)
    {
      if !ValidNamespace(ns) {
        return Err(InvalidNamespace);
      }
      var name := EncodeKey(key);
      if Valid() {
        PresentIffRecorded(cipher, dirs, records, ns, key);
      }
      if readFails {
        return Err(Storage);
      }
      if ns !in dirs {
        return Ok(None);
      }
      if Blocked(ns, key) {
        // Reading a directory fails, and so does looking below a plain file, neither with "not found".
        return Err(Storage);
      }
      var file := FileAt(dirs, ns, name);
      if file.None? {
        return Ok(None);
      }
      var value := cipher.open(file.value);
      r := if value.Some? then Ok(value) else Err(Storage);
    }

    // ------------------------------------------------------------ list

    /** Nothing stops at this entry. */
    ghost predicate Passes(ns: string, name: string, faults: ListFaults)
      reads this`dirs
    {
      && !faults.entryFails(name)
      && (name in Visible(dirs, ns, faults.typeHidden) ==> !faults.readFails(name) && Opens(cipher, dirs, ns, name))
    }

    /** Nothing stops the listing: each entry is read, and each visible file is read and opens. */
    ghost predicate Listable(ns: string, faults: ListFaults)
      reads this`dirs
    {
      && !faults.dirFails
      && (ns in dirs ==> dirs[ns].Directory?)
      && (forall name :: name in EntriesAt(dirs, ns) ==> Passes(ns, name, faults))
    }

    /** Walks the entries in whatever order they come, until something fails. */
    method Collect(ns: string, faults: ListFaults) returns (out: Option<seq<(Key, Bytes)>>)
      requires IsDirectory(ns)
      ensures out.Some? <==> forall name :: name in EntriesAt(dirs, ns) ==> Passes(ns, name, faults)
      ensures out.Some? ==> Elements(out.value) == Listed(cipher, dirs, ns, Visible(dirs, ns, faults.typeHidden))
      ensures out.Some? && NoAliases(dirs, ns) ==> Distinct(out.value)
    {
      var entries := Enumerate(dirs[ns].entries.Keys);
      ghost var visible := Visible(dirs, ns, faults.typeHidden);
      var found: seq<(Key, Bytes)> := [];
      var i := 0;
      while i < |entries|
        invariant 0 <= i <= |entries|
        invariant forall name :: name in Elements(entries[..i]) ==> Passes(ns, name, faults)
        invariant Elements(found) == Listed(cipher, dirs, ns, visible * Elements(entries[..i]))
        invariant NoAliases(dirs, ns) ==> Distinct(found)
      {
        TakeOneMore(entries, i);
        var got := ReadEntry(ns, entries[i], faults);
        if got.None? {
          return None;
        }
        if got.value.Some? {
          ListOneMore(ns, visible * Elements(entries[..i]), entries[i]);
          AppendOne(found, PairAt(cipher, dirs, ns, entries[i]));
          assert visible * Elements(entries[..i + 1]) == visible * Elements(entries[..i]) + {entries[i]};
          found := found + [got.value.value];
        } else {
          assert visible * Elements(entries[..i + 1]) == visible * Elements(entries[..i]);
        }
        i := i + 1;
      }
      assert entries[..i] == entries;
      assert visible * Elements(entries) == visible;
      out := Some(found);
    }

    /** One entry of a listing: a pair, nothing to show, or a failure. */
    method ReadEntry(ns: string, name: string, faults: ListFaults) returns (r: Option<Option<(Key, Bytes)>>)
      requires name in EntriesAt(dirs, ns)
      ensures r.Some? <==> Passes(ns, name, faults)
      ensures r.Some? ==> (r.value.Some? <==> name in Visible(dirs, ns, faults.typeHidden))
      ensures r.Some? && r.value.Some? ==> r.value.value == PairAt(cipher, dirs, ns, name)
    {
      if faults.entryFails(name) {
        return None;
      }
      var file, key := FileAt(dirs, ns, name), KeyOf(name);
      if file.None? || faults.typeHidden(name) || key.None? {
        return Some(None);
      }
      if faults.readFails(name) {
        return None;
      }
      var value := cipher.open(file.value);
      r := if value.Some? then Some(Some((key.value, value.value))) else None;
    }

    lemma ListOneMore(ns: string, names: set<string>, name: string)
      requires KeyOf(name).Some? && Opens(cipher, dirs, ns, name)
      ensures Listed(cipher, dirs, ns, names + {name}) == Listed(cipher, dirs, ns, names) + {PairAt(cipher, dirs, ns, name)}
      ensures NoAliases(dirs, ns) && name !in names ==> PairAt(cipher, dirs, ns, name) !in Listed(cipher, dirs, ns, names)
    {
    }

    /**
     The files of the namespace that read as keys, in ascending key order, or an
     error as soon as one cannot be read or opened. Over a tree that stands for
     records it is the records, but for those whose type could not be told.
     */
    method List(ns: string, faults: ListFaults) returns (r: Result<seq<(Key, Bytes)>, Error>)
      ensures r == Err(InvalidNamespace) <==> !ValidNamespace(ns)
      ensures r.Ok? <==> ValidNamespace(ns) && Listable(ns, faults)
      ensures r.Ok? ==> Elements(r.value) == Listed(cipher, dirs, ns, Visible(dirs, ns, faults.typeHidden))
      ensures r.Ok? ==> KeysNeverDescend(r.value)
      ensures r.Ok? && NoAliases(dirs, ns) ==> KeysAscend(r.value)
      ensures r.Ok? && Valid() ==>
              && KeysAscend(r.value)
              && forall key: Key, value ::
                   (key, value) in r.value <==>
                   (ns, key) in records && records[(ns, key)] == value && !faults.typeHidden(HexEncode(key))
      ensures Valid() ==> (r.Ok? <==>
              && ValidNamespace(ns) && !faults.dirFails && (ns in dirs ==> dirs[ns].Directory?)
              && (forall name :: name in EntriesAt(dirs, ns) ==> !faults.entryFails(name))
              && (forall key: Key :: (ns, key) in records ==>
                    faults.typeHidden(HexEncode(key)) || !faults.readFails(HexEncode(key))))
    {
      if !ValidNamespace(ns) {
        return Err(InvalidNamespace);
      }
      if Valid() {
        ListedIsRecords(cipher, dirs, records, ns, faults.typeHidden);
        ListableOverRecords(ns, faults);
      }
      if faults.dirFails {
        return Err(Storage);
      }
      if ns !in dirs {
        assert Visible(dirs, ns, faults.typeHidden) == {};
        return Ok([]);
      }
      if dirs[ns].PlainFile? {
        return Err(Storage);
      }
      var found := Collect(ns, faults);
      if found.None? {
        return Err(Storage);
      }
      if NoAliases(dirs, ns) {
        PairLessOrders(Elements(found.value));
      }
      PairLessSorts();
      var out := Sort(PairLess, found.value);
      SortedKeys(out);
      if Valid() {
        ListedPairs(ns, faults.typeHidden, out);
      }
      r := Ok(out);
    }

    lemma ListedPairs(ns: string, typeHidden: string -> bool, out: seq<(Key, Bytes)>)
      requires Valid()
      requires Elements(out) == Listed(cipher, dirs, ns, Visible(dirs, ns, typeHidden))
      ensures forall key: Key, value ::
                (key, value) in out <==>
                (ns, key) in records && records[(ns, key)] == value && !typeHidden(HexEncode(key))
    {
      ListedIsRecords(cipher, dirs, records, ns, typeHidden);
      forall key: Key, value
        ensures (key, value) in out <==>
                (ns, key) in records && records[(ns, key)] == value && !typeHidden(HexEncode(key))
      {
        assert (key, value) in out <==> (key, value) in Elements(out);
      }
    }

    /** Over a tree that stands for records, the visible files are theirs, and only reading them can fail. */
    lemma ListableOverRecords(ns: string, faults: ListFaults)
      requires Valid()
      ensures Listable(ns, faults) <==>
              && !faults.dirFails && (ns in dirs ==> dirs[ns].Directory?)
              && (forall name :: name in EntriesAt(dirs, ns) ==> !faults.entryFails(name))
              && (forall key: Key :: (ns, key) in records ==>
                    faults.typeHidden(HexEncode(key)) || !faults.readFails(HexEncode(key)))
    {
      ListedIsRecords(cipher, dirs, records, ns, faults.typeHidden);
      forall name | name in Visible(dirs, ns, faults.typeHidden)
        ensures NamesRecord(records, ns, name)
      {
      }
      forall key: Key | (ns, key) in records && !faults.typeHidden(HexEncode(key))
        ensures HexEncode(key) in Visible(dirs, ns, faults.typeHidden)
      {
        PresentIffRecorded(cipher, dirs, records, ns, key);
        KeyOfRecordName(key);
      }
    }

    // ------------------------------------------------------ namespaces

    /**
     The non-empty directories that match, in order, but for those that could
     not be looked at. When all could, they are the namespaces holding a record
     unless some directory holds nothing but other things.
     */
    method Namespaces(prefix: string, rootFails: bool, hidden: string -> bool) returns (r: Result<seq<string>, Error>)
      ensures r == Err(Storage) <==> rootFails
      ensures r.Ok? <==> !rootFails
      ensures r.Ok? ==> NamesAscend(r.value)
      ensures r.Ok? ==> forall ns :: ns in r.value <==>
                ns in dirs && prefix <= ns && EntriesAt(dirs, ns) != map[] && !hidden(ns)
      ensures r.Ok? && Valid() && (forall ns :: !hidden(ns)) ==>
              (Elements(r.value) == Holding(records, prefix)
               <==> forall ns :: ns in dirs && prefix <= ns ==> !Recordless(dirs, ns))
      ensures r.Ok? && Valid() && (forall ns :: !hidden(ns)) && Tidy(dirs) ==> Elements(r.value) == Holding(records, prefix)
    {
      if rootFails {
        return Err(Storage);
      }
      var out := Directories(prefix, hidden);
      StringLessOrders(Elements(out));
      out := Sort(StringLess, out);
      AscendingNames(out);
      assert forall ns :: ns in out <==> ns in Seen(dirs, prefix, hidden) by {
        assert forall ns :: ns in out <==> ns in Elements(out);
      }
      if Valid() {
        PopulatedIsHoldingPlusRecordless(cipher, dirs, records, prefix);
      }
      r := Ok(out);
    }

    /** Walks the root in whatever order its entries come. */
    method Directories(prefix: string, hidden: string -> bool) returns (out: seq<string>)
      ensures Distinct(out) && Elements(out) == Seen(dirs, prefix, hidden)
    {
      var entries := Enumerate(dirs.Keys);
      ghost var seen := Seen(dirs, prefix, hidden);
      out := [];
      var i := 0;
      while i < |entries|
        invariant 0 <= i <= |entries|
        invariant Distinct(out)
        invariant Elements(out) == seen * Elements(entries[..i])
      {
        var name := entries[i];
        TakeOneMore(entries, i);
        if !hidden(name) && prefix <= name && EntriesAt(dirs, name) != map[] {
          AppendOne(out, name);
          assert name in seen;
          out := out + [name];
        }
        i := i + 1;
      }
      assert entries[..i] == entries;
      assert seen <= dirs.Keys;
    }

    // --------------------------------------------------------- removal

    method Delete(ns: string, key: Key, removeFails: bool) returns (r: Result<bool, Error>)
      requires Valid()
      modifies this
      ensures Valid()
      ensures r == if !ValidNamespace(ns) then Err(InvalidNamespace)
                   else if removeFails || old(Blocked(ns, key)) then Err(Storage)
                   else Ok((ns, key) in old(records))
      ensures records == if r == Ok(true) then old(records) - {(ns, key)} else old(records)
      ensures r != Ok(true) ==> dirs == old(dirs)
      ensures SameFilesBut(old(dirs), dirs, ns, HexEncode(key))
      ensures Tidy(old(dirs)) ==> Tidy(dirs)
    {
      if !ValidNamespace(ns) {
        return Err(InvalidNamespace);
      }
      if removeFails || Blocked(ns, key) {
        return Err(Storage);
      }
      PresentIffRecorded(cipher, dirs, records, ns, key);
      var name := EncodeKey(key);
      if ns !in dirs || name !in dirs[ns].entries {
        return Ok(false);
      }
      dirs := dirs[ns := Directory(dirs[ns].entries - {name})];
      OneRemoved(cipher, old(dirs), dirs, records, ns, key);
      records := records - {(ns, key)};
      r := Ok(true);
    }

    /**
     Removes the namespace, or stops after removing some of it: then this
     namespace has lost exactly the records whose files went, and no other any.
     */
    method Clear(ns: string, removal: Removal) returns (r: Result<(), Error>)
      requires Valid()
      modifies this
      ensures Valid()
      ensures r == if !ValidNamespace(ns) then Err(InvalidNamespace)
                   else if removal.Stopped? || (ns in old(dirs) && old(dirs)[ns].PlainFile?) then Err(Storage)
                   else Ok(())
      ensures r.Ok? ==> records == map x | x in old(records) && x.0 != ns :: old(records)[x]
      ensures r.Err? ==> records == if ValidNamespace(ns) && removal.Stopped?
                                    then Without(old(records), ns, removal.removed) else old(records)
      ensures forall n, m :: n != ns ==> FileAt(dirs, n, m) == FileAt(old(dirs), n, m)
      ensures Tidy(old(dirs)) ==> Tidy(dirs)
    {
      if !ValidNamespace(ns) {
        return Err(InvalidNamespace);
      }
      if removal.Stopped? {
        if IsDirectory(ns) {
          dirs := dirs[ns := Directory(dirs[ns].entries - removal.removed)];
        }
        FilesRemoved(old(dirs), dirs, ns, removal.removed);
        RemovalForgets(cipher, old(dirs), dirs, records, ns, removal.removed);
        records := Without(records, ns, removal.removed);
        return Err(Storage);
      }
      if ns in dirs && dirs[ns].PlainFile? {
        return Err(Storage);
      }
      WithoutAll(cipher, dirs, records, ns);
      dirs := dirs - {ns};
      FilesRemoved(old(dirs), dirs, ns, EntriesAt(old(dirs), ns).Keys);
      RemovalForgets(cipher, old(dirs), dirs, records, ns, EntriesAt(old(dirs), ns).Keys);
      records := map x | x in records && x.0 != ns :: records[x];
      r := Ok(());
    }
  }
}
