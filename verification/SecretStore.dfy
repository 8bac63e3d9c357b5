/** The local vault: encrypted secret files under one key per cluster, with versions, check-and-set
    writes and archiving. */
module SecretStore {
  import opened Results
  import opened SortedNames
  import opened Texts

  // ---- names

  predicate IsSpace(c: char) {
    c in "\t\n\U{000B}\U{000C}\r \U{0085}\U{00A0}\U{1680}\U{2028}\U{2029}\U{202F}\U{205F}\U{3000}" ||
      '\U{2000}' <= c <= '\U{200A}'
  }

  function TrimLeft(s: string, drop: char -> bool): string {
    if s != [] && drop(s[0]) then TrimLeft(s[1..], drop) else s
  }

  function TrimRight(s: string, drop: char -> bool): string {
    if s != [] && drop(s[|s| - 1]) then TrimRight(s[..|s| - 1], drop) else s
  }

  function Trim(s: string, drop: char -> bool): string { TrimRight(TrimLeft(s, drop), drop) }

  function TrimPrefix(s: string, prefix: string): string {
    if prefix <= s then s[|prefix|..] else s
  }

  function CleanPath(path: string): string {
    var trimmed := TrimPrefix(TrimPrefix(Trim(path, IsSpace), "/"), "v1/");
    Trim(trimmed, c => c == '/')
  }

  predicate BadSegment(s: string) {
    s == "" || s == "." || s == ".." || '\\' in s
  }

  function CleanCluster(cluster: string): Result<string> {
    var id := Trim(cluster, IsSpace);
    if id == "" || id == "." || id == ".." || '/' in id || '\\' in id then Err else Ok(id)
  }

  datatype Place = Place(cluster: string, path: string)

  function CleanPlace(cluster: string, path: string): Result<Place> {
    var id :- CleanCluster(cluster);
    var p := CleanPath(path);
    if p == "" || exists s | s in Split(p, '/') :: BadSegment(s) then Err else Ok(Place(id, p))
  }

  // ---- what is stored

  type Values = map<string, string>

  /** A vault key. Only its identity matters. */
  datatype Key = Key(id: nat)

  /** Ideal authenticated encryption: what was sealed opens with the same key, nonce and path only. */
  datatype Sealed = Seal(key: Key, nonce: nat, values: Values, path: string)

  function Open(s: Sealed, key: Key, nonce: nat, path: string): Result<Values> {
    if s.key == key && s.nonce == nonce && s.path == path then Ok(s.values) else Err
  }

  datatype SecretFile = SecretFile(
    version: int, algorithm: string, nonce: nat, sealed: Sealed, keys: seq<string>, archived: bool)

  datatype FileContent = Decoded(file: SecretFile) | Undecodable

  /** A keyring item: a usable key, or a payload that is refused. */
  datatype KeyItem = VaultKey(key: Key) | Refused

  const AES := "aes-256-gcm"

  // ---- what the store means

  datatype Entry = Entry(version: nat, values: Values, archived: bool)

  type Vault = map<Place, Entry>

  /** Files of the first format have no version and count as version one. */
  function Effective(version: int): nat {
    if version <= 0 then 1 else version
  }

  function Version(v: Vault, at: Place): nat {
    if at in v then v[at].version else 0
  }

  function Wrote(v: Vault, at: Place, values: Values): Vault {
    v[at := Entry(Version(v, at) + 1, values, false)]
  }

  function Marked(v: Vault, at: Place, archived: bool): Vault {
    if at in v then v[at := v[at].(archived := archived)] else v
  }

  /** One secret as it is listed. */
  datatype Listed = Listed(path: string, keys: seq<string>, archived: bool, version: nat)

  /** What the outside world does during one call: which accesses fail, and the random bytes drawn.
      A file write that fails at the directory sync has already replaced the file. */
  datatype World = World(
    readFails: bool, writeFails: bool, syncFails: bool, removeFails: bool,
    keyringReadFails: bool, keyringWriteFails: bool, keyringDeleteFails: bool,
    freshKey: Key, nonce: nat, removed: set<string>)
  {
    predicate Fine() {
      !readFails && !writeFails && !syncFails && !removeFails && !keyringReadFails && !keyringWriteFails &&
        !keyringDeleteFails
    }
  }

  // ---- the meaning of the stored files

  ghost predicate GoodFile(keyring: map<string, KeyItem>, at: Place, c: FileContent) {
    && c.Decoded? && at.cluster in keyring && keyring[at.cluster].VaultKey?
    && c.file.algorithm == AES
    && c.file.sealed == Seal(keyring[at.cluster].key, c.file.nonce, c.file.sealed.values, at.path)
    && SortedOf(c.file.keys, c.file.sealed.values.Keys)
  }

  ghost function EntryOf(c: FileContent): Entry {
    match c
    case Decoded(f) => Entry(Effective(f.version), f.sealed.values, f.archived)
    case Undecodable => Entry(0, map[], false)
  }

  /** What a stored file means; one of the first format, which has no version, counts as version one. */
  lemma FileMeans(keyring: map<string, KeyItem>, files: map<Place, FileContent>, at: Place)
    requires at in files && GoodFile(keyring, at, files[at])
    ensures var f := files[at].file;
            && f.algorithm == "aes-256-gcm"
            && Meaning(files)[at] == Entry(if f.version >= 1 then f.version else 1, f.sealed.values, f.archived)
  {
  }

  ghost function Meaning(files: map<Place, FileContent>): Vault {
    map at | at in files :: EntryOf(files[at])
  }

  lemma MeaningOfWrite(files: map<Place, FileContent>, at: Place, c: FileContent)
    ensures Meaning(files[at := c]) == Meaning(files)[at := EntryOf(c)]
  {
  }

  /** Removing files of one cluster leaves the meaning of all others. */
  lemma MeaningOfRemoval(files: map<Place, FileContent>, left: map<Place, FileContent>, cluster: string)
    requires left.Keys <= files.Keys && forall at :: at in left ==> left[at] == files[at]
    requires forall at :: at in files && at.cluster != cluster ==> at in left
    ensures Without(Meaning(left), cluster) == Without(Meaning(files), cluster)
    ensures (forall at :: at in left ==> at.cluster != cluster) ==> Meaning(left) == Without(Meaning(files), cluster)
  {
  }

  class FileStore {
    var files: map<Place, FileContent>
    var keyring: map<string, KeyItem>
    var keys: map<string, Key>

    /** Every stored secret decrypts under its cluster's keyring key, and cached keys are the keyring's. */
    ghost predicate Valid()
      reads this
    {
      && (forall at :: at in files ==> GoodFile(keyring, at, files[at]))
      && (forall c :: c in keys ==> c in keyring && keyring[c] == VaultKey(keys[c]))
    }

    /** The keyring has a usable key for the cluster, or none. */
    predicate Unlockable(cluster: string)
      reads this`keyring
    {
      cluster in keyring ==> keyring[cluster].VaultKey?
    }

    /** The store's meaning: decrypted values by cluster and path. */
    ghost function Model(): Vault
      reads this`files
    {
      Meaning(files)
    }

    /** A server process starts with no keys in memory. */
    constructor (files: map<Place, FileContent>, keyring: map<string, KeyItem>)
      ensures this.files == files && this.keyring == keyring && keys == map[]
    {
      this.files, this.keyring, keys := files, keyring, map[];
    }

    /** The cluster's key, loaded once and created when absent. */
    method VaultKeyFor(cluster: string, w: World) returns (r: Result<Key>)
      requires Valid()
      modifies this`keys, this`keyring
      ensures Valid()
      ensures r.Ok? ==> cluster in keyring && keyring[cluster] == VaultKey(r.value) &&
                        cluster in keys && keys[cluster] == r.value
      ensures cluster in old(keyring) ==> keyring == old(keyring)
      ensures forall c :: c in old(keyring) ==> c in keyring && keyring[c] == old(keyring)[c]
      ensures forall c :: old(Unlockable(c)) ==> Unlockable(c)
      ensures w.Fine() && old(Unlockable(cluster)) ==> r.Ok?
    {
      if cluster in keys {
        return Ok(keys[cluster]);
      }
      if w.keyringReadFails {
        return Err;
      }
      if cluster !in keyring {
        if w.keyringWriteFails {
          return Err;
        }
        keyring := keyring[cluster := VaultKey(w.freshKey)];
        keys := keys[cluster := w.freshKey];
        return Ok(w.freshKey);
      }
      match keyring[cluster]
      case Refused => return Err;
      case VaultKey(key) =>
        keys := keys[cluster := key];
        return Ok(key);
    }

    /** A write: unconditional without an expected version, otherwise only at that version. */
    method SetSecret(cluster: string, path: string, values: Values, expected: Option<int>, w: World)
      returns (r: Result<bool>)
      requires Valid()
      modifies this
      ensures Valid()
      ensures var place := CleanPlace(cluster, path);
              if place.Ok? && values != map[]
                then WriteOutcome(old(Model()), place.value, values, expected, w, r, Model())
              else r.Err? && Model() == old(Model())
      ensures forall c :: old(Unlockable(c)) ==> Unlockable(c)
      ensures (w.Fine() && values != map[] && CleanPlace(cluster, path).Ok? &&
               old(Unlockable(CleanPlace(cluster, path).value.cluster))) ==> r.Ok?
    {
      var place := CleanPlace(cluster, path);
      if place.Err? || values == map[] {
        return Err;
      }
      r := WriteAt(place.value, values, expected, w);
    }

    method WriteAt(at: Place, values: Values, expected: Option<int>, w: World) returns (r: Result<bool>)
      requires Valid() && values != map[]
      modifies this
      ensures Valid()
      ensures WriteOutcome(old(Model()), at, values, expected, w, r, Model())
      ensures forall c :: old(Unlockable(c)) ==> Unlockable(c)
      ensures w.Fine() && old(Unlockable(at.cluster)) ==> r.Ok?
    {
      if w.readFails {
        return Err;
      }
      var current := if at in files then Effective(files[at].file.version) else 0;
      if expected.Some? && expected.value != current {
        return Ok(false);
      }
      var key := VaultKeyFor(at.cluster, w);
      if key.Err? || w.writeFails {
        return Err;
      }
      PutFile(at, current + 1, values, key.value, w.nonce);
      return if w.syncFails then Err else Ok(true);
    }

    /** Seals the values and replaces the file. */
    method PutFile(at: Place, version: nat, values: Values, key: Key, nonce: nat)
      requires Valid() && version > 0 && at.cluster in keyring && keyring[at.cluster] == VaultKey(key)
      modifies this`files
      ensures Valid() && Model() == old(Model())[at := Entry(version, values, false)]
    {
      var names := SortNames(values.Keys);
      var file := SecretFile(version, AES, nonce, Seal(key, nonce, values, at.path), names, false);
      MeaningOfWrite(files, at, Decoded(file));
      files := files[at := Decoded(file)];
    }

    /** Creating is writing at version zero. */
    method CreateSecret(cluster: string, path: string, values: Values, w: World) returns (r: Result<bool>)
      requires Valid()
      modifies this
      ensures Valid()
      ensures var place := CleanPlace(cluster, path);
              if place.Ok? && values != map[]
                then WriteOutcome(old(Model()), place.value, values, Some(0), w, r, Model())
              else r.Err? && Model() == old(Model())
      ensures forall c :: old(Unlockable(c)) ==> Unlockable(c)
      ensures (w.Fine() && values != map[] && CleanPlace(cluster, path).Ok? &&
               old(Unlockable(CleanPlace(cluster, path).value.cluster))) ==> r.Ok?
    {
      r := SetSecret(cluster, path, values, Some(0), w);
    }

    /** The values last written, unless archived or absent. */
    method GetSecret(cluster: string, path: string, w: World) returns (r: Result<Option<Values>>)
      requires Valid()
      modifies this`keys, this`keyring
      ensures Valid()
      ensures r.Ok? ==> CleanPlace(cluster, path).Ok? && r.value == ReadFrom(Model(), CleanPlace(cluster, path).value)
      ensures forall c :: old(Unlockable(c)) ==> Unlockable(c)
      ensures w.Fine() && CleanPlace(cluster, path).Ok? ==> r.Ok?
    {
      var place := CleanPlace(cluster, path);
      if place.Err? {
        return Err;
      }
      r := ReadAt(place.value, w);
    }

    method ReadAt(at: Place, w: World) returns (r: Result<Option<Values>>)
      requires Valid()
      modifies this`keys, this`keyring
      ensures Valid()
      ensures r.Ok? ==> r.value == ReadFrom(Model(), at)
      ensures forall c :: old(Unlockable(c)) ==> Unlockable(c)
      ensures w.Fine() ==> r.Ok?
    {
      if w.readFails {
        return Err;
      }
      if at !in files || files[at].file.archived {
        return Ok(None);
      }
      var file := files[at].file;
      assert GoodFile(keyring, at, files[at]);
      var key := VaultKeyFor(at.cluster, w);
      if key.Err? {
        return Err;
      }
      var plain := Open(file.sealed, key.value, file.nonce, at.path);
      return Ok(Some(plain.value));
    }

    /** Archiving and restoring keep the values and the version. */
    method SetArchived(cluster: string, path: string, archived: bool, w: World) returns (r: Result<()>)
      requires Valid()
      modifies this`files
      ensures Valid()
      ensures var place := CleanPlace(cluster, path);
              if place.Ok? then
                (r.Ok? || (w.syncFails && Model() != old(Model())) ==>
                  Model() == Marked(old(Model()), place.value, archived)) &&
                (r.Err? && !w.syncFails ==> Model() == old(Model()))
              else r.Err? && Model() == old(Model())
      ensures w.Fine() && CleanPlace(cluster, path).Ok? ==> r.Ok?
    {
      var place := CleanPlace(cluster, path);
      if place.Err? {
        return Err;
      }
      r := MarkAt(place.value, archived, w);
    }

    method MarkAt(at: Place, archived: bool, w: World) returns (r: Result<()>)
      requires Valid()
      modifies this`files
      ensures Valid()
      ensures r.Ok? || (w.syncFails && Model() != old(Model())) ==> Model() == Marked(old(Model()), at, archived)
      ensures r.Err? && !w.syncFails ==> Model() == old(Model())
      ensures w.Fine() ==> r.Ok?
    {
      if w.readFails {
        return Err;
      }
      if at !in files {
        return Ok(());
      }
      if w.writeFails {
        return Err;
      }
      var file := files[at].file.(archived := archived);
      assert GoodFile(keyring, at, files[at]);
      MeaningOfWrite(files, at, Decoded(file));
      files := files[at := Decoded(file)];
      return if w.syncFails then Err else Ok(());
    }

    method DeleteSecret(cluster: string, path: string, w: World) returns (r: Result<()>)
      requires Valid()
      modifies this`files
      ensures Valid()
      ensures if r.Ok? then CleanPlace(cluster, path).Ok? && Model() == old(Model()) - {CleanPlace(cluster, path).value}
              else Model() == old(Model())
      ensures w.Fine() && CleanPlace(cluster, path).Ok? ==> r.Ok?
    {
      var place := CleanPlace(cluster, path);
      if place.Err? {
        return Err;
      }
      r := RemoveAt(place.value, w);
    }

    method RemoveAt(at: Place, w: World) returns (r: Result<()>)
      requires Valid()
      modifies this`files
      ensures Valid()
      ensures Model() == if r.Ok? then old(Model()) - {at} else old(Model())
      ensures w.Fine() ==> r.Ok?
    {
      if at in files && w.removeFails {
        return Err;
      }
      files := files - {at};
      return Ok(());
    }

    /** Files first, then the key: an interrupted removal leaves no file without its key. */
    method DeleteCluster(cluster: string, w: World) returns (r: Result<()>)
      requires Valid()
      modifies this
      ensures Valid()
      ensures if CleanCluster(cluster).Ok? then
                var id := CleanCluster(cluster).value;
                && (r.Ok? ==> id !in keyring && id !in keys && Model() == Without(old(Model()), id))
                && Without(Model(), id) == Without(old(Model()), id)
                && (forall at :: at in Model() ==> at in old(Model()) && Model()[at] == old(Model())[at])
                && keyring - {id} == old(keyring) - {id} && keys - {id} == old(keys) - {id}
              else r.Err? && Model() == old(Model()) && keyring == old(keyring) && keys == old(keys)
    {
      var id := CleanCluster(cluster);
      if id.Err? {
        return Err;
      }
      r := RemoveAll(id.value, w);
    }

    method RemoveAll(id: string, w: World) returns (r: Result<()>)
      requires Valid()
      modifies this
      ensures Valid()
      ensures r.Ok? ==> id !in keyring && id !in keys && Model() == Without(old(Model()), id)
      ensures Without(Model(), id) == Without(old(Model()), id)
      ensures forall at :: at in Model() ==> at in old(Model()) && Model()[at] == old(Model())[at]
      ensures keyring - {id} == old(keyring) - {id} && keys - {id} == old(keys) - {id}
      ensures r.Err? ==> keyring == old(keyring)
      ensures w.Fine() ==> r.Ok?
    {
      var ok := RemoveFiles(id, w);
      if !ok || w.keyringDeleteFails {
        return Err;
      }
      keyring := keyring - {id};
      keys := keys - {id};
      return Ok(());
    }

    method RemoveFiles(id: string, w: World) returns (ok: bool)
      requires Valid()
      modifies this`files
      ensures Valid()
      ensures ok ==> Model() == Without(old(Model()), id) && forall at :: at in files ==> at.cluster != id
      ensures Without(Model(), id) == Without(old(Model()), id)
      ensures forall at :: at in Model() ==> at in old(Model()) && Model()[at] == old(Model())[at]
      ensures w.Fine() ==> ok
    {
      ghost var before := files;
      if w.removeFails {
        files := map at | at in files && !(at.cluster == id && at.path in w.removed) :: files[at];
      } else {
        files := map at | at in files && at.cluster != id :: files[at];
      }
      MeaningOfRemoval(before, files, id);
      return !w.removeFails;
    }

    /** Paths in order, with the names of the values but not the values. */
    method ListSecrets(cluster: string, w: World) returns (r: Result<seq<Listed>>)
      requires Valid()
      ensures r.Ok? ==> CleanCluster(cluster).Ok? && ListingOf(Model(), CleanCluster(cluster).value, r.value)
      ensures w.Fine() && CleanCluster(cluster).Ok? ==> r.Ok?
    {
      var id := CleanCluster(cluster);
      if id.Err? || w.readFails {
        return Err;
      }
      var listed := ListCluster(id.value);
      return Ok(listed);
    }

    method ListCluster(id: string) returns (listed: seq<Listed>)
      requires Valid()
      ensures ListingOf(Model(), id, listed)
    {
      var paths := SortNames(set at | at in files && at.cluster == id :: at.path);
      listed := [];
      for i := 0 to |paths|
        invariant |listed| == i
        invariant forall k :: 0 <= k < i ==> listed[k].path == paths[k] && Describes(Model(), id, listed[k])
      {
        assert paths[i] in paths;
        var at := Place(id, paths[i]);
        assert at in files && GoodFile(keyring, at, files[at]);
        var file := files[at].file;
        listed := listed + [Listed(paths[i], file.keys, file.archived, Effective(file.version))];
      }
      forall at | at in Model() && at.cluster == id
        ensures exists k :: 0 <= k < |listed| && listed[k].path == at.path
      {
        assert at.path in paths;
        var k :| 0 <= k < |paths| && paths[k] == at.path;
        assert listed[k].path == at.path;
      }
    }
  }

  // ---- outcomes, in terms of the meaning

  /** A write succeeds exactly when the versions match, raises the version by one and un-archives; an
      error changes nothing, unless the file was replaced and only its directory sync failed. */
  ghost predicate WriteOutcome(before: Vault, at: Place, values: Values, expected: Option<int>, w: World,
                               r: Result<bool>, after: Vault) {
    var fits := expected.None? || expected.value == Version(before, at);
    match r
    case Ok(written) => written == fits && after == if fits then Wrote(before, at, values) else before
    case Err => after == before || (w.syncFails && fits && after == Wrote(before, at, values))
  }

  function ReadFrom(v: Vault, at: Place): Option<Values> {
    if at in v && !v[at].archived then Some(v[at].values) else None
  }

  ghost function Without(v: Vault, cluster: string): Vault {
    map at | at in v && at.cluster != cluster :: v[at]
  }

  ghost predicate Describes(v: Vault, cluster: string, s: Listed) {
    var at := Place(cluster, s.path);
    at in v && s.version == v[at].version && s.archived == v[at].archived && SortedOf(s.keys, v[at].values.Keys)
  }

  /** The cluster's secrets, each once, in the order of their paths. */
  ghost predicate ListingOf(v: Vault, cluster: string, listed: seq<Listed>) {
    && (forall i, j :: 0 <= i < j < |listed| ==> Less(listed[i].path, listed[j].path))
    && (forall k :: 0 <= k < |listed| ==> Describes(v, cluster, listed[k]))
    && (forall at :: at in v && at.cluster == cluster ==> exists k :: 0 <= k < |listed| && listed[k].path == at.path)
  }
}
