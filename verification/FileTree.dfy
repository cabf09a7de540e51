/**
 The directory tree under a store's root, and when it stands for a set of
 records. Beside the records there may be temporaries that an interrupted put
 left behind, and anything else that is not a file named like a record.
 */
module FileTree {
  import opened Wrappers
  import opened Devices
  import opened Order
  import opened RecordNames

  type Bytes = seq<byte>

  /** How often a commit tries its rename. */
  const COMMIT_ATTEMPTS := 20

  datatype Entry = File(bytes: Bytes) | Subdirectory

  type Entries = map<string, Entry>

  /** What a name directly under the root is. */
  datatype Place = Directory(entries: Entries) | PlainFile

  type Tree = map<string, Place>

  function EntriesAt(t: Tree, ns: string): Entries {
    if ns in t && t[ns].Directory? then t[ns].entries else map[]
  }

  function FileAt(t: Tree, ns: string, name: string): Option<Bytes> {
    var entries := EntriesAt(t, ns);
    if name in entries && entries[name].File? then Some(entries[name].bytes) else None
  }

  /** What a store promises to be: a value for each (namespace, key). */
  type Records = map<(string, Key), Bytes>

  /** Authenticated encryption under the store's key: a nonce and a plaintext in, sealed bytes out. */
  datatype Cipher = Cipher(seal: (Bytes, Bytes) -> Option<Bytes>, open: Bytes -> Option<Bytes>)

  ghost predicate Sound(c: Cipher) {
    forall nonce: Bytes, value: Bytes ::
      c.seal(nonce, value).Some? ==> c.open(c.seal(nonce, value).value) == Some(value)
  }

  /** The key a file name stands for, if `list` would take it for a record. */
  function KeyOf(name: string): Option<Key> {
    match HexDecode(name)
    case Some(b) => if ValidUtf8(b) then Some(b) else None
    case None => None
  }

  lemma KeyOfRecordName(key: Key)
    ensures KeyOf(HexEncode(key)) == Some(key)
  {
    DecodeAfterEncode(key);
  }

  lemma KeyOfDotted(name: string)
    requires '.' in name
    ensures KeyOf(name) == None
  {
    DottedNeverDecodes(name);
  }

  /** Every file named like a record is that record, and every record has its file. */
  ghost predicate Represents(c: Cipher, t: Tree, records: Records) {
    && (forall ns, name :: FileAt(t, ns, name).Some? ==> KeyOf(name) == None || NamesRecord(records, ns, name))
    && (forall r :: r in records ==> Stored(c, t, r, records[r]))
  }

  ghost predicate NamesRecord(records: Records, ns: string, name: string) {
    var key := KeyOf(name);
    key.Some? && HexEncode(key.value) == name && (ns, key.value) in records
  }

  ghost predicate Stored(c: Cipher, t: Tree, r: (string, Key), value: Bytes) {
    var file := FileAt(t, r.0, HexEncode(r.1));
    r.1 != [] && file.Some? && c.open(file.value) == Some(value)
  }

  /** A record's file is there exactly when the record is, and holds its value. */
  lemma PresentIffRecorded(c: Cipher, t: Tree, records: Records, ns: string, key: Key)
    requires Represents(c, t, records)
    ensures key != [] ==> (FileAt(t, ns, HexEncode(key)).Some? <==> (ns, key) in records)
    ensures (ns, key) in records ==> Stored(c, t, (ns, key), records[(ns, key)])
  {
    KeyOfRecordName(key);
  }

  /** The files are the same except, perhaps, one. */
  ghost predicate SameFilesBut(t: Tree, t': Tree, ns: string, name: string) {
    forall n, m :: n != ns || m != name ==> FileAt(t', n, m) == FileAt(t, n, m)
  }

  /** The directories hold the same: at most an empty one is new. */
  ghost predicate SameEntries(t: Tree, t': Tree) {
    forall n :: EntriesAt(t', n) == EntriesAt(t, n)
  }

  /** Nothing but files named like records. */
  ghost predicate Tidy(t: Tree) {
    forall ns, name :: name in EntriesAt(t, ns) ==> FileAt(t, ns, name).Some? && KeyOf(name).Some?
  }

  /** Nothing has changed, unless cleaning up failed and the temporary is still there. */
  ghost predicate LeavesAtMost(t: Tree, t': Tree, ns: string, tmp: string, cleanupFails: bool) {
    || t' == t
    || (cleanupFails && tmp !in EntriesAt(t, ns) && FileAt(t', ns, tmp).Some? &&
        t' == t[ns := Directory(EntriesAt(t, ns)[tmp := File(FileAt(t', ns, tmp).value)])])
  }

  lemma FileWritten(t0: Tree, t: Tree, t': Tree, ns: string, name: string, bytes: Bytes)
    requires SameEntries(t0, t) && t' == t[ns := Directory(EntriesAt(t, ns)[name := File(bytes)])]
    ensures SameFilesBut(t0, t', ns, name) && FileAt(t', ns, name) == Some(bytes)
    ensures Tidy(t0) && KeyOf(name).Some? ==> Tidy(t')
  {
    assert forall n :: n != ns ==> EntriesAt(t', n) == EntriesAt(t0, n);
  }

  lemma FileNotWritten(t0: Tree, t: Tree, t': Tree, ns: string, tmp: string, cleanupFails: bool)
    requires SameEntries(t0, t) && LeavesAtMost(t, t', ns, tmp, cleanupFails)
    ensures SameFilesBut(t0, t', ns, tmp)
    ensures Tidy(t0) && !cleanupFails ==> Tidy(t')
  {
    if t' != t {
      FileWritten(t0, t, t', ns, tmp, FileAt(t', ns, tmp).value);
    } else {
      assert forall n, m :: FileAt(t, n, m) == FileAt(t0, n, m);
    }
  }

  lemma FilesRemoved(t: Tree, t': Tree, ns: string, names: set<string>)
    requires forall n :: EntriesAt(t', n) == if n == ns then EntriesAt(t, n) - names else EntriesAt(t, n)
    ensures forall n, m :: FileAt(t', n, m) == if n == ns && m in names then None else FileAt(t, n, m)
    ensures Tidy(t) ==> Tidy(t')
  {
  }

  /** Renaming a sealed value onto a record's name is the record's new value. */
  lemma WriteSets(c: Cipher, t: Tree, t': Tree, records: Records, ns: string, key: Key, sealed: Bytes, value: Bytes)
    requires Represents(c, t, records) && key != []
    requires SameFilesBut(t, t', ns, HexEncode(key)) && FileAt(t', ns, HexEncode(key)) == Some(sealed)
    requires c.open(sealed) == Some(value)
    ensures Represents(c, t', records[(ns, key) := value])
  {
    var records' := records[(ns, key) := value];
    KeyOfRecordName(key);
    forall r | r in records'
      ensures Stored(c, t', r, records'[r])
    {
      if r != (ns, key) {
        assert Stored(c, t, r, records[r]);
        if HexEncode(r.1) == HexEncode(key) {
          EncodeInjective(r.1, key);
        }
      }
    }
    forall n, name | FileAt(t', n, name).Some? && KeyOf(name) != None
      ensures NamesRecord(records', n, name)
    {
      if n != ns || name != HexEncode(key) {
        assert FileAt(t, n, name).Some?;
      }
    }
  }

  /** A file that is not named like a record, whatever is in it, is not one. */
  lemma NonRecordKeeps(c: Cipher, t: Tree, t': Tree, records: Records, ns: string, name: string)
    requires Represents(c, t, records)
    requires KeyOf(name) == None && SameFilesBut(t, t', ns, name)
    ensures Represents(c, t', records)
  {
    forall r | r in records
      ensures Stored(c, t', r, records[r])
    {
      assert Stored(c, t, r, records[r]);
      KeyOfRecordName(r.1);
    }
    forall n, m | FileAt(t', n, m).Some? && KeyOf(m) != None
      ensures NamesRecord(records, n, m)
    {
      assert FileAt(t, n, m).Some?;
    }
  }

  /** The records left when some names of one namespace are gone. */
  ghost function Without(records: Records, ns: string, names: set<string>): Records {
    map r | r in records && !(r.0 == ns && HexEncode(r.1) in names) :: records[r]
  }

  lemma RemovalForgets(c: Cipher, t: Tree, t': Tree, records: Records, ns: string, names: set<string>)
    requires Represents(c, t, records)
    requires forall n, m :: FileAt(t', n, m) == if n == ns && m in names then None else FileAt(t, n, m)
    ensures Represents(c, t', Without(records, ns, names))
  {
    forall r | r in Without(records, ns, names)
      ensures Stored(c, t', r, records[r])
    {
      assert Stored(c, t, r, records[r]);
    }
    forall n, m | FileAt(t', n, m).Some? && KeyOf(m) != None
      ensures NamesRecord(Without(records, ns, names), n, m)
    {
      assert FileAt(t, n, m).Some?;
    }
  }

  lemma WithoutOne(records: Records, ns: string, key: Key)
    ensures Without(records, ns, {HexEncode(key)}) == records - {(ns, key)}
  {
    forall r | r in records && HexEncode(r.1) == HexEncode(key)
      ensures r.1 == key
    {
      EncodeInjective(r.1, key);
    }
  }

  lemma OneRemoved(c: Cipher, t: Tree, t': Tree, records: Records, ns: string, key: Key)
    requires Represents(c, t, records) && ns in t && t[ns].Directory?
    requires t' == t[ns := Directory(t[ns].entries - {HexEncode(key)})]
    ensures Represents(c, t', records - {(ns, key)})
    ensures SameFilesBut(t, t', ns, HexEncode(key))
    ensures Tidy(t) ==> Tidy(t')
  {
    FilesRemoved(t, t', ns, {HexEncode(key)});
    RemovalForgets(c, t, t', records, ns, {HexEncode(key)});
    WithoutOne(records, ns, key);
  }

  lemma WithoutAll(c: Cipher, t: Tree, records: Records, ns: string)
    requires Represents(c, t, records)
    ensures Without(records, ns, EntriesAt(t, ns).Keys) == map r | r in records && r.0 != ns :: records[r]
  {
    forall r | r in records
      ensures HexEncode(r.1) in EntriesAt(t, r.0)
    {
      assert Stored(c, t, r, records[r]);
    }
  }

  // ------------------------------------------------------------- listings

  predicate PairLess(a: (Key, Bytes), b: (Key, Bytes)) {
    LexLess(a.0, b.0)
  }

  ghost function RecordsIn(records: Records, ns: string): set<(Key, Bytes)> {
    set r | r in records && r.0 == ns :: (r.1, records[r])
  }

  lemma PairLessOrders(s: set<(Key, Bytes)>)
    requires forall a, b :: a in s && b in s && a.0 == b.0 ==> a == b
    ensures Orders(PairLess, s)
  {
    forall a, b | a in s && b in s
      ensures a == b || PairLess(a, b) || PairLess(b, a)
      ensures !PairLess(a, a)
    {
      LexTotal(a.0, b.0);
    }
    forall a, b, c | PairLess(a, b) && PairLess(b, c)
      ensures PairLess(a, c)
    {
      LexTransitive(a.0, b.0, c.0);
    }
  }

  lemma PairLessSorts()
    ensures Sorts(PairLess)
  {
    forall a: (Key, Bytes)
      ensures !PairLess(a, a)
    {
      LexTotal(a.0, a.0);
    }
    forall a: (Key, Bytes), b: (Key, Bytes), c: (Key, Bytes) | PairLess(a, b) && PairLess(b, c)
      ensures PairLess(a, c)
    {
      LexTransitive(a.0, b.0, c.0);
    }
  }

  /** Ascending by key. */
  ghost predicate KeysAscend(pairs: seq<(Key, Bytes)>) {
    forall i, j :: 0 <= i < j < |pairs| ==> Precedes(pairs[i].0, pairs[j].0)
  }

  /** Ascending by key, but for pairs of one key side by side. */
  ghost predicate KeysNeverDescend(pairs: seq<(Key, Bytes)>) {
    forall i, j :: 0 <= i < j < |pairs| ==> pairs[i].0 == pairs[j].0 || Precedes(pairs[i].0, pairs[j].0)
  }

  lemma SortedKeys(pairs: seq<(Key, Bytes)>)
    ensures Ascending(PairLess, pairs) <==> KeysAscend(pairs)
    ensures NeverDescends(PairLess, pairs) <==> KeysNeverDescend(pairs)
  {
    forall i, j | 0 <= i < j < |pairs|
      ensures PairLess(pairs[i], pairs[j]) <==> Precedes(pairs[i].0, pairs[j].0)
      ensures !PairLess(pairs[j], pairs[i]) <==> pairs[i].0 == pairs[j].0 || Precedes(pairs[i].0, pairs[j].0)
    {
      LexLessIsPrecedes(pairs[i].0, pairs[j].0);
      LexTotal(pairs[i].0, pairs[j].0);
      LexAsymmetric(pairs[i].0, pairs[j].0);
    }
  }

  /** The names a listing takes for records: files that read as keys and whose type could be told. */
  ghost function Visible(t: Tree, ns: string, typeHidden: string -> bool): set<string> {
    set name | name in EntriesAt(t, ns) && FileAt(t, ns, name).Some? && KeyOf(name).Some? && !typeHidden(name)
  }

  ghost predicate Opens(c: Cipher, t: Tree, ns: string, name: string) {
    var file := FileAt(t, ns, name);
    file.Some? && c.open(file.value).Some?
  }

  ghost function PairAt(c: Cipher, t: Tree, ns: string, name: string): (Key, Bytes)
    requires KeyOf(name).Some? && Opens(c, t, ns, name)
  {
    (KeyOf(name).value, c.open(FileAt(t, ns, name).value).value)
  }

  ghost function Listed(c: Cipher, t: Tree, ns: string, names: set<string>): set<(Key, Bytes)> {
    set name | name in names && KeyOf(name).Some? && Opens(c, t, ns, name) :: PairAt(c, t, ns, name)
  }

  /** No two files stand for one key; only names no store writes can. */
  ghost predicate NoAliases(t: Tree, ns: string) {
    forall a, b :: FileAt(t, ns, a).Some? && FileAt(t, ns, b).Some? && KeyOf(a).Some? && KeyOf(a) == KeyOf(b) ==> a == b
  }

  /** Over a tree that stands for records, what can be listed is the namespace's records, and all of them open. */
  lemma ListedIsRecords(c: Cipher, t: Tree, records: Records, ns: string, typeHidden: string -> bool)
    requires Represents(c, t, records)
    ensures NoAliases(t, ns)
    ensures forall name :: name in Visible(t, ns, typeHidden) ==> Opens(c, t, ns, name)
    ensures Listed(c, t, ns, Visible(t, ns, typeHidden))
         == set x | x in RecordsIn(records, ns) && !typeHidden(HexEncode(x.0))
  {
    var names := Visible(t, ns, typeHidden);
    forall name | FileAt(t, ns, name).Some? && KeyOf(name).Some?
      ensures NamesRecord(records, ns, name) && Opens(c, t, ns, name)
      ensures PairAt(c, t, ns, name) in RecordsIn(records, ns)
    {
      var key := KeyOf(name).value;
      assert Stored(c, t, (ns, key), records[(ns, key)]);
    }
    forall x | x in RecordsIn(records, ns) && !typeHidden(HexEncode(x.0))
      ensures x in Listed(c, t, ns, names)
    {
      assert Stored(c, t, (ns, x.0), records[(ns, x.0)]);
      KeyOfRecordName(x.0);
      assert HexEncode(x.0) in names && PairAt(c, t, ns, HexEncode(x.0)) == x;
    }
  }

  /** The tree alone says what is stored, so a reopened store holds what it held. */
  lemma TreeDeterminesRecords(c: Cipher, t: Tree, a: Records, b: Records)
    requires Represents(c, t, a) && Represents(c, t, b)
    ensures a == b
  {
    forall r: (string, Key)
      ensures r in a <==> r in b
      ensures r in a && r in b ==> a[r] == b[r]
    {
      PresentIffRecorded(c, t, a, r.0, r.1);
      PresentIffRecorded(c, t, b, r.0, r.1);
    }
  }

  /** The namespaces that hold a record and match. */
  ghost function Holding(records: Records, prefix: string): set<string> {
    set r | r in records && prefix <= r.0 :: r.0
  }

  /** The directories that are not empty and match: what is actually looked at. */
  function Populated(t: Tree, prefix: string): set<string> {
    set ns | ns in t && prefix <= ns && EntriesAt(t, ns) != map[]
  }

  /** Those of them that could be looked at. */
  ghost function Seen(t: Tree, prefix: string, hidden: string -> bool): set<string> {
    set ns | ns in Populated(t, prefix) && !hidden(ns)
  }

  /** A directory that holds something, and no record: temporaries that outlived their put, or foreign entries. */
  predicate Recordless(t: Tree, ns: string) {
    EntriesAt(t, ns) != map[] && forall name :: name in EntriesAt(t, ns) ==> FileAt(t, ns, name) == None || KeyOf(name) == None
  }

  /** A namespace that holds a record has its file to show for it. */
  lemma HoldersArePopulated(c: Cipher, t: Tree, records: Records, prefix: string, ns: string)
    requires Represents(c, t, records) && ns in Holding(records, prefix)
    ensures ns in Populated(t, prefix) && !Recordless(t, ns)
  {
    var r :| r in records && r.0 == ns;
    assert Stored(c, t, r, records[r]);
    KeyOfRecordName(r.1);
  }

  lemma TheRestAreHolders(c: Cipher, t: Tree, records: Records, prefix: string, ns: string)
    requires Represents(c, t, records) && ns in Populated(t, prefix) && !Recordless(t, ns)
    ensures ns in Holding(records, prefix)
  {
    var name :| name in EntriesAt(t, ns) && FileAt(t, ns, name) != None && KeyOf(name) != None;
    assert NamesRecord(records, ns, name);
    assert (ns, KeyOf(name).value) in records;
  }

  /**
   Looking for non-empty directories finds every namespace that holds a record;
   it finds more exactly when a matching directory holds something else only.
   */
  lemma PopulatedIsHoldingPlusRecordless(c: Cipher, t: Tree, records: Records, prefix: string)
    requires Represents(c, t, records)
    ensures Populated(t, prefix) == Holding(records, prefix) + set ns | ns in t && prefix <= ns && Recordless(t, ns)
    ensures Populated(t, prefix) == Holding(records, prefix)
       <==> forall ns :: ns in t && prefix <= ns ==> !Recordless(t, ns)
  {
    forall ns
      ensures ns in Holding(records, prefix) ==> ns in Populated(t, prefix) && !Recordless(t, ns)
      ensures ns in Populated(t, prefix) && !Recordless(t, ns) ==> ns in Holding(records, prefix)
    {
      if ns in Holding(records, prefix) {
        HoldersArePopulated(c, t, records, prefix, ns);
      } else if ns in Populated(t, prefix) && !Recordless(t, ns) {
        TheRestAreHolders(c, t, records, prefix, ns);
      }
    }
  }
}
