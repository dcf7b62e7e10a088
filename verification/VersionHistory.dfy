/** The version history of generated files: numbered copies that can be put back. */
module VersionHistory {

  import opened Options
  import opened Decimals

  type Bytes = seq<int>

  /** A resource: its kind and its id within the kind. */
  datatype Key = Key(kind: string, id: string)

  /** Files of the versions directory are filed by kind; everything else in the project is elsewhere. */
  datatype Path = InVersions(kind: string, name: string) | Elsewhere(name: string)

  datatype Record = Record(version: nat, file: Path)

  datatype Resource = Resource(current: nat, versions: seq<Record>)

  /** The name of a version's file; the time stamp has no underscore, nor has the extension. */
  function FileName(id: string, n: nat, stamp: string, ext: string): string {
    id + "_v" + Decimal(n) + "_" + (stamp + ext)
  }

  lemma LastUnderscore(a: string, x: string)
    requires '_' !in x
    ensures var s := a + "_" + x; s[|a|] == '_' && forall k :: |a| < k < |s| ==> s[k] != '_'
  {
  }

  lemma AtLastUnderscore(a: string, x: string, b: string, y: string)
    requires a + "_" + x == b + "_" + y && '_' !in x && '_' !in y
    ensures a == b && x == y
  {
    LastUnderscore(a, x);
    LastUnderscore(b, y);
    var s := a + "_" + x;
    assert a == s[..|a|] && b == s[..|b|] && x == s[|a| + 1..] && y == s[|b| + 1..];
  }

  /** Two versions never share a name, whatever their ids: not even ids that look like names. */
  lemma FileNameInjective(a: string, m: nat, s: string, b: string, n: nat, t: string, ext: string)
    requires '_' !in s && '_' !in t && '_' !in ext
    requires FileName(a, m, s, ext) == FileName(b, n, t, ext)
    ensures a == b && m == n
  {
    AtLastUnderscore(a + "_v" + Decimal(m), s + ext, b + "_v" + Decimal(n), t + ext);
    assert a + "_v" + Decimal(m) == a + "_" + ("v" + Decimal(m))
           && b + "_v" + Decimal(n) == b + "_" + ("v" + Decimal(n));
    AtLastUnderscore(a, "v" + Decimal(m), b, "v" + Decimal(n));
    assert Decimal(m) == ("v" + Decimal(m))[1..] && Decimal(n) == ("v" + Decimal(n))[1..];
    DecimalInjective(m, n);
  }

  /** Version numbers of one resource strictly increase, and the current one is none or one of them. */
  predicate Increasing(r: Resource) {
    && (forall i, j :: 0 <= i < j < |r.versions| ==> r.versions[i].version < r.versions[j].version)
    && (forall i :: 0 <= i < |r.versions| ==> r.versions[i].version > 0)
    && (r.current == 0 || exists i :: 0 <= i < |r.versions| && r.versions[i].version == r.current)
  }

  ghost predicate Named(key: Key, rec: Record, ext: string) {
    exists stamp: string :: '_' !in stamp && rec.file == InVersions(key.kind, FileName(key.id, rec.version, stamp, ext))
  }

  ghost predicate AllNamed(resources: map<Key, Resource>, ext: string -> string) {
    forall key, i :: key in resources && 0 <= i < |resources[key].versions| ==>
      Named(key, resources[key].versions[i], ext(key.kind))
  }

  /** No two records share a file. */
  lemma FilesAreDistinct(resources: map<Key, Resource>, ext: string -> string, a: Key, i: nat, b: Key, j: nat)
    requires AllNamed(resources, ext) && '_' !in ext(a.kind) && '_' !in ext(b.kind)
    requires a in resources && i < |resources[a].versions| && b in resources && j < |resources[b].versions|
    requires Increasing(resources[a])
    requires resources[a].versions[i].file == resources[b].versions[j].file
    ensures a == b && i == j
  {
    hide FileName;
    var r, q := resources[a].versions[i], resources[b].versions[j];
    assert Named(a, r, ext(a.kind)) && Named(b, q, ext(b.kind));
    NamedIsInjective(a, r, b, q, ext);
    NumbersDiffer(resources[a], i, if a == b then j else i);
  }

  lemma NumbersDiffer(r: Resource, i: nat, j: nat)
    requires Increasing(r) && i < |r.versions| && j < |r.versions|
    ensures r.versions[i].version == r.versions[j].version <==> i == j
  {
  }

  lemma NamedIsInjective(a: Key, r: Record, b: Key, q: Record, ext: string -> string)
    requires Named(a, r, ext(a.kind)) && Named(b, q, ext(b.kind)) && '_' !in ext(a.kind)
    requires r.file == q.file
    ensures a == b && r.version == q.version
  {
    hide FileName;
    var s: string :| '_' !in s && r.file == InVersions(a.kind, FileName(a.id, r.version, s, ext(a.kind)));
    var t: string :| '_' !in t && q.file == InVersions(b.kind, FileName(b.id, q.version, t, ext(b.kind)));
    FileNameInjective(a.id, r.version, s, b.id, q.version, t, ext(a.kind));
  }

  datatype Outcome = Restored | NoSuchResource | NoSuchVersion | FileMissing | SameFile

  /** What was saved under the record is in its file. */
  predicate Held(files: map<Path, Bytes>, saved: map<(Key, nat), Bytes>, key: Key, rec: Record) {
    (key, rec.version) in saved ==> rec.file in files && files[rec.file] == saved[(key, rec.version)]
  }

  /** Only versions on record were saved. */
  ghost predicate OnRecord(resources: map<Key, Resource>, saved: map<(Key, nat), Bytes>) {
    forall s :: s in saved ==> s.0 in resources && Numbered(resources[s.0], s.1)
  }

  /** The file of a version. */
  ghost predicate Stored(r: Resource, n: nat, file: Path) {
    exists i :: 0 <= i < |r.versions| && r.versions[i] == Record(n, file)
  }

  class VersionManager {
    const ext: string -> string
    var resources: map<Key, Resource>
    var files: map<Path, Bytes>
    /** What each version held when it was added. */
    ghost var saved: map<(Key, nat), Bytes>

    ghost predicate Valid()
      reads this
    {
      && (forall kind :: '_' !in ext(kind))
      && (forall key :: key in resources ==> Increasing(resources[key]))
      && AllNamed(resources, ext)
      && OnRecord(resources, saved)
    }

    /** The bytes of every version that was saved are still in its file. */
    ghost predicate Intact()
      reads this
    {
      AllHeld(resources, files, saved)
    }

    constructor (ext: string -> string, files: map<Path, Bytes>)
      requires forall kind :: '_' !in ext(kind)
      ensures Valid() && Intact() && resources == map[] && this.files == files
    {
      this.ext, this.files := ext, files;
      resources, saved := map[], map[];
    }

    /** `add_version`: one above every number used before, current from now on, the source's bytes kept
    in a file of its own; no version loses its bytes. */
    method AddVersion(key: Key, source: Option<Path>, stamp: string) returns (n: nat)
      requires Valid() && '_' !in stamp
      modifies this
      ensures Valid()
      ensures var was := History(old(resources), key);
              && (forall i :: 0 <= i < |was.versions| ==> was.versions[i].version < n)
              && (n == 1 || exists i :: 0 <= i < |was.versions| && was.versions[i].version == n - 1)
              && resources == old(resources)[key := Resource(n, was.versions + [Record(n, VersionFile(key, n, stamp))])]
      ensures var bytes := if source.Some? && source.value in old(files) then Some(old(files)[source.value]) else None;
              && files == (if bytes.Some? then old(files)[VersionFile(key, n, stamp) := bytes.value] else old(files))
              && saved == (if bytes.Some? then old(saved)[(key, n) := bytes.value] else old(saved))
      ensures forall k, i :: k in old(resources) && 0 <= i < |old(resources)[k].versions| ==>
                var rec := old(resources)[k].versions[i];
                Held(files, saved, k, rec) == Held(old(files), old(saved), k, rec)
      ensures Held(files, saved, key, Record(n, VersionFile(key, n, stamp)))
      ensures Intact() <==> old(Intact())
    {
      hide Increasing, AllNamed, FileName, Held, OnRecord;
      var was := History(resources, key);
      var max := MaxVersion(was.versions);
      n := max + 1;
      var path := VersionFile(key, n, stamp);
      var record := Record(n, path);
      var bytes := if source.Some? && source.value in files then Some(files[source.value]) else None;
      AddKeeps(resources, files, saved, ext, key, record, stamp, bytes);
      if bytes.Some? {
        files := files[path := bytes.value];
        saved := saved[(key, n) := bytes.value];
      }
      resources := resources[key := Resource(n, was.versions + [record])];
    }

    function VersionFile(key: Key, n: nat, stamp: string): Path {
      InVersions(key.kind, FileName(key.id, n, stamp, ext(key.kind)))
    }

    /** `ensure_current_tracked`: adds the current file once, and only when nothing is current. */
    method EnsureCurrentTracked(key: Key, currentFile: Path, stamp: string) returns (n: Option<nat>)
      requires Valid() && '_' !in stamp
      modifies this
      ensures Valid() && (Intact() <==> old(Intact()))
      ensures n.Some? <==> currentFile in old(files) && History(old(resources), key).current == 0
      ensures n.None? ==> resources == old(resources) && files == old(files) && saved == old(saved)
      ensures n.Some? ==>
                var was, file := History(old(resources), key), VersionFile(key, n.value, stamp);
                && (forall i :: 0 <= i < |was.versions| ==> was.versions[i].version < n.value)
                && (n.value == 1 || exists i :: 0 <= i < |was.versions| && was.versions[i].version == n.value - 1)
                && resources == old(resources)[key := Resource(n.value, was.versions + [Record(n.value, file)])]
                && files == old(files)[file := old(files)[currentFile]]
                && saved == old(saved)[(key, n.value) := old(files)[currentFile]]
    {
      if currentFile !in files || History(resources, key).current > 0 {
        return None;
      }
      var v := AddVersion(key, Some(currentFile), stamp);
      return Some(v);
    }

    /** `restore_version`: the bytes of the version's file, which are those it was added with if it still
    holds them, become those of the current file. Only the current file and the current number change,
    so a version loses its bytes only if the current file is its own file and held something else. */
    method RestoreVersion(key: Key, version: nat, currentFile: Path) returns (r: Outcome)
      requires Valid()
      modifies this`resources, this`files
      ensures Valid()
      ensures r.NoSuchResource? <==> key !in old(resources)
      ensures r.NoSuchVersion? <==> key in old(resources) && !Numbered(old(resources)[key], version)
      ensures !r.NoSuchResource? && !r.NoSuchVersion? ==>
                exists file :: Stored(old(resources)[key], version, file)
                  && (r.FileMissing? <==> file !in old(files))
                  && (r.SameFile? <==> file in old(files) && file == currentFile)
                  && (r.Restored? ==> files == old(files)[currentFile := old(files)[file]])
                  && (r.Restored? && old(Held(files, saved, key, Record(version, file))) && (key, version) in saved ==>
                        files[currentFile] == saved[(key, version)])
      ensures !r.Restored? ==> resources == old(resources) && files == old(files)
      ensures r.Restored? ==> resources == old(resources)[key := old(resources)[key].(current := version)]
      ensures forall k, i :: k in old(resources) && 0 <= i < |old(resources)[k].versions| ==>
                var rec := old(resources)[k].versions[i];
                Held(files, saved, k, rec) == if r.Restored? && rec.file == currentFile
                                              then Held(map[currentFile := files[currentFile]], saved, k, rec)
                                              else Held(old(files), saved, k, rec)
      ensures currentFile.Elsewhere? ==> (Intact() <==> old(Intact()))
    {
      hide Increasing, AllNamed, Numbered;
      if key !in resources {
        return NoSuchResource;
      }
      var versions := resources[key].versions;
      var i := 0;
      while i < |versions| && versions[i].version != version
        invariant i <= |versions| && forall j :: 0 <= j < i ==> versions[j].version != version
      {
        i := i + 1;
      }
      NumberedIff(resources[key], version, i);
      if i == |versions| {
        return NoSuchVersion;
      }
      assert Stored(resources[key], version, versions[i].file);
      if versions[i].file !in files {
        return FileMissing;
      }
      if versions[i].file == currentFile {
        return SameFile;
      }
      RestoreKeeps(resources, files, saved, ext, key, version, currentFile, files[versions[i].file]);
      files := files[currentFile := files[versions[i].file]];
      resources := resources[key := resources[key].(current := version)];
      return Restored;
    }
  }

  lemma NumberedIff(r: Resource, n: nat, i: nat)
    requires i <= |r.versions| && forall j :: 0 <= j < i ==> r.versions[j].version != n
    requires i < |r.versions| ==> r.versions[i].version == n
    ensures Numbered(r, n) <==> i < |r.versions|
  {
  }

  /** Restoring over the file of a version with other bytes is how a saved version gets lost. */
  lemma RestoreLosesIff(files: map<Path, Bytes>, saved: map<(Key, nat), Bytes>, resources: map<Key, Resource>,
                        ext: string -> string, currentFile: Path, bytes: Bytes)
    requires AllHeld(resources, files, saved) && AllNamed(resources, ext) && OnRecord(resources, saved)
    ensures !AllHeld(resources, files[currentFile := bytes], saved) <==>
            exists s :: s in saved && Stored(resources[s.0], s.1, currentFile) && saved[s] != bytes
  {
    hide AllNamed, Numbered;
    var after := files[currentFile := bytes];
    if s :| s in saved && Stored(resources[s.0], s.1, currentFile) && saved[s] != bytes {
      var i :| 0 <= i < |resources[s.0].versions| && resources[s.0].versions[i] == Record(s.1, currentFile);
      assert !Held(after, saved, s.0, resources[s.0].versions[i]);
    }
    if !AllHeld(resources, after, saved) {
      var k, i :| k in resources && 0 <= i < |resources[k].versions|
          && !Held(after, saved, k, resources[k].versions[i]);
      var rec := resources[k].versions[i];
      assert Held(files, saved, k, rec);
      assert rec == Record(rec.version, currentFile);
      assert Stored(resources[k], rec.version, currentFile);
      assert (k, rec.version) in saved && saved[(k, rec.version)] != bytes;
    }
  }

  /** One resource after two versions were added. */
  function TwoVersions(key: Key, a: Record, b: Record): map<Key, Resource> {
    Added(Added(map[], key, a), key, b)
  }

  lemma TwoVersionsAre(key: Key, a: Record, b: Record)
    ensures TwoVersions(key, a, b).Keys == {key} && TwoVersions(key, a, b)[key] == Resource(b.version, [a, b])
    ensures Stored(Resource(b.version, [a, b]), b.version, b.file)
    ensures Numbered(Resource(b.version, [a, b]), a.version) && Numbered(Resource(b.version, [a, b]), b.version)
  {
    var r := Resource(b.version, [a, b]);
    assert r.versions[0] == a && r.versions[1] == b;
    assert [] + [a] == [a] && [a] + [b] == [a, b];
  }

  lemma BothHeld(key: Key, a: Record, b: Record, ext: string -> string)
    requires a.version == 1 && b.version == 2 && a.file != b.file
    requires Named(key, a, ext(key.kind)) && Named(key, b, ext(key.kind))
    ensures var resources, saved := TwoVersions(key, a, b), map[(key, 1) := [1], (key, 2) := [2]];
            && AllNamed(resources, ext) && OnRecord(resources, saved) && Increasing(resources[key])
            && AllHeld(resources, map[a.file := [1], b.file := [2]], saved)
  {
    hide Named, Numbered, TwoVersions;
    TwoVersionsAre(key, a, b);
    assert [a, b][0] == a && [a, b][1] == b;
  }

  /** The versions [1] and [2], one restored into the file of the other: both were held, and [2] is gone. */
  lemma RestoreOverVersion(key: Key, stamp: string, ext: string -> string)
    requires '_' !in stamp && '_' !in ext(key.kind)
    ensures var a := Record(1, InVersions(key.kind, FileName(key.id, 1, stamp, ext(key.kind))));
            var b := Record(2, InVersions(key.kind, FileName(key.id, 2, stamp, ext(key.kind))));
            var resources, files := TwoVersions(key, a, b), map[a.file := [1], b.file := [2]];
            var saved := map[(key, 1) := [1], (key, 2) := [2]];
            && AllNamed(resources, ext) && OnRecord(resources, saved) && Increasing(resources[key])
            && AllHeld(resources, files, saved)
            && !AllHeld(resources, files[b.file := files[a.file]], saved)
  {
    var a := Record(1, InVersions(key.kind, FileName(key.id, 1, stamp, ext(key.kind))));
    var b := Record(2, InVersions(key.kind, FileName(key.id, 2, stamp, ext(key.kind))));
    if a.file == b.file {
      FileNameInjective(key.id, 1, stamp, key.id, 2, stamp, ext(key.kind));
    }
    hide FileName, TwoVersions, Stored, AllNamed, AllHeld, OnRecord, Increasing;
    TwoVersionsAre(key, a, b);
    BothHeld(key, a, b, ext);
    var saved := map[(key, 1) := [1], (key, 2) := [2]];
    assert saved[(key, 2)] == [2];
    RestoreLosesIff(map[a.file := [1], b.file := [2]], saved, TwoVersions(key, a, b), ext, b.file, [1]);
  }

  ghost predicate AllHeld(resources: map<Key, Resource>, files: map<Path, Bytes>, saved: map<(Key, nat), Bytes>) {
    forall k, i :: k in resources && 0 <= i < |resources[k].versions| ==>
        Held(files, saved, k, resources[k].versions[i])
  }

  /** The resource as recorded, or one without versions. */
  function History(resources: map<Key, Resource>, key: Key): Resource {
    if key in resources then resources[key] else Resource(0, [])
  }

  method MaxVersion(versions: seq<Record>) returns (max: nat)
    ensures forall i :: 0 <= i < |versions| ==> versions[i].version <= max
    ensures max == 0 || exists i :: 0 <= i < |versions| && versions[i].version == max
  {
    max := 0;
    for i := 0 to |versions|
      invariant forall j :: 0 <= j < i ==> versions[j].version <= max
      invariant max == 0 || exists j :: 0 <= j < i && versions[j].version == max
    {
      if versions[i].version > max {
        max := versions[i].version;
      }
    }
  }

  lemma AddKeeps(resources: map<Key, Resource>, files: map<Path, Bytes>, saved: map<(Key, nat), Bytes>,
                 ext: string -> string, key: Key, record: Record, stamp: string, bytes: Option<Bytes>)
    requires AllNamed(resources, ext) && OnRecord(resources, saved) && forall kind :: '_' !in ext(kind)
    requires forall k :: k in resources ==> Increasing(resources[k])
    requires '_' !in stamp && record.file
             == InVersions(key.kind, FileName(key.id, record.version, stamp, ext(key.kind)))
    requires record.version > 0 && Newest(History(resources, key), record.version)
    ensures var resources' := Added(resources, key, record);
            var files' := if bytes.Some? then files[record.file := bytes.value] else files;
            var saved' := if bytes.Some? then saved[(key, record.version) := bytes.value] else saved;
            && AllNamed(resources', ext) && OnRecord(resources', saved')
            && (forall k :: k in resources' ==> Increasing(resources'[k]))
            && Held(files', saved', key, record)
            && (forall k, i :: k in resources && 0 <= i < |resources[k].versions| ==>
                  var rec := resources[k].versions[i]; Held(files', saved', k, rec) == Held(files, saved, k, rec))
            && (AllHeld(resources', files', saved') <==> AllHeld(resources, files, saved))
  {
    hide FileName, AllNamed, Increasing, Held, OnRecord, AllHeld;
    var was := History(resources, key);
    AddIncreases(was, record);
    AddNames(resources, ext, key, was, record, stamp);
    AddRecords(resources, saved, key, record, bytes);
    AddKeepsBytes(resources, files, saved, ext, key, record, bytes);
    var files' := if bytes.Some? then files[record.file := bytes.value] else files;
    var saved' := if bytes.Some? then saved[(key, record.version) := bytes.value] else saved;
    AddHeld(resources, files, saved, files', saved', key, record);
  }

  function Added(resources: map<Key, Resource>, key: Key, record: Record): map<Key, Resource> {
    resources[key := Resource(record.version, History(resources, key).versions + [record])]
  }

  predicate Newest(was: Resource, n: nat) {
    forall i :: 0 <= i < |was.versions| ==> was.versions[i].version < n
  }

  /** Every earlier record is among the new ones, and the other one is the record added. */
  lemma AddHeld(resources: map<Key, Resource>, files: map<Path, Bytes>, saved: map<(Key, nat), Bytes>,
                files': map<Path, Bytes>, saved': map<(Key, nat), Bytes>, key: Key, record: Record)
    requires Held(files', saved', key, record)
    requires forall k, i :: k in resources && 0 <= i < |resources[k].versions| ==>
               var rec := resources[k].versions[i]; Held(files', saved', k, rec) == Held(files, saved, k, rec)
    ensures AllHeld(Added(resources, key, record), files', saved') <==> AllHeld(resources, files, saved)
  {
    hide Held;
    var after := Added(resources, key, record);
    var was := History(resources, key);
    assert forall i :: 0 <= i < |was.versions| ==> (was.versions + [record])[i] == was.versions[i];
    if AllHeld(after, files', saved') {
      forall k, i | k in resources && 0 <= i < |resources[k].versions|
          ensures Held(files, saved, k, resources[k].versions[i]) {
        assert after[k].versions[i] == resources[k].versions[i];
      }
    }
    if AllHeld(resources, files, saved) {
      forall k, i | k in after && 0 <= i < |after[k].versions| ensures Held(files', saved', k, after[k].versions[i]) {
        if k == key && i == |was.versions| {
          assert after[k].versions[i] == record;
        } else {
          assert after[k].versions[i] == resources[k].versions[i];
        }
      }
    }
  }

  /** A new version's file is no other version's. */
  lemma AddKeepsBytes(resources: map<Key, Resource>, files: map<Path, Bytes>, saved: map<(Key, nat), Bytes>,
                      ext: string -> string, key: Key, record: Record, bytes: Option<Bytes>)
    requires AllNamed(resources, ext) && Named(key, record, ext(key.kind)) && forall kind :: '_' !in ext(kind)
    requires OnRecord(resources, saved) && Newest(History(resources, key), record.version)
    ensures var files' := if bytes.Some? then files[record.file := bytes.value] else files;
            var saved' := if bytes.Some? then saved[(key, record.version) := bytes.value] else saved;
            && Held(files', saved', key, record)
            && forall k, i :: k in resources && 0 <= i < |resources[k].versions| ==>
                 var rec := resources[k].versions[i]; Held(files', saved', k, rec) == Held(files, saved, k, rec)
  {
    hide Named, Numbered;
    NewIsUnsaved(resources, saved, key, record.version);
    forall k, i | k in resources && 0 <= i < |resources[k].versions|
      ensures resources[k].versions[i].file != record.file
              && (k, resources[k].versions[i].version) != (key, record.version)
    {
      var rec := resources[k].versions[i];
      assert Named(k, rec, ext(k.kind));
      if rec.file == record.file {
        NamedIsInjective(k, rec, key, record, ext);
      }
    }
  }

  lemma NewIsUnsaved(resources: map<Key, Resource>, saved: map<(Key, nat), Bytes>, key: Key, n: nat)
    requires OnRecord(resources, saved) && Newest(History(resources, key), n)
    ensures (key, n) !in saved
  {
    NotNumbered(History(resources, key), n);
  }

  lemma NotNumbered(r: Resource, n: nat)
    requires Newest(r, n)
    ensures !Numbered(r, n)
  {
  }

  lemma AddRecords(resources: map<Key, Resource>, saved: map<(Key, nat), Bytes>, key: Key, record: Record,
                   bytes: Option<Bytes>)
    requires OnRecord(resources, saved)
    ensures OnRecord(Added(resources, key, record),
                     if bytes.Some? then saved[(key, record.version) := bytes.value] else saved)
  {
    hide Numbered;
    var was := History(resources, key);
    forall n: nat ensures Numbered(was, n) || n == record.version ==> Numbered(Added(resources, key, record)[key], n) {
      AddNumbers(was, record, n);
    }
  }

  lemma AddIncreases(was: Resource, record: Record)
    requires was.versions == [] || Increasing(was)
    requires record.version > 0 && forall i :: 0 <= i < |was.versions| ==> was.versions[i].version < record.version
    ensures Increasing(Resource(record.version, was.versions + [record]))
  {
    assert (was.versions + [record])[|was.versions|] == record;
  }

  lemma AddNumbers(was: Resource, record: Record, n: nat)
    ensures Numbered(was, n) || n == record.version ==> Numbered(Resource(record.version, was.versions + [record]), n)
  {
    var v := was.versions + [record];
    assert v[|was.versions|] == record;
    assert forall i :: 0 <= i < |was.versions| ==> v[i] == was.versions[i];
  }

  lemma AddNames(resources: map<Key, Resource>, ext: string -> string, key: Key, was: Resource, record: Record,
                 stamp: string)
    requires AllNamed(resources, ext) && was == History(resources, key) && '_' !in stamp
    requires record.file == InVersions(key.kind, FileName(key.id, record.version, stamp, ext(key.kind)))
    ensures AllNamed(resources[key := Resource(record.version, was.versions + [record])], ext)
  {
    hide FileName;
    var resources' := resources[key := Resource(record.version, was.versions + [record])];
    forall k, i | k in resources' && 0 <= i < |resources'[k].versions|
      ensures Named(k, resources'[k].versions[i], ext(k.kind))
    {
      if k in resources && i < |resources[k].versions| {
        assert Named(k, resources[k].versions[i], ext(k.kind));
      } else {
        assert resources'[k].versions[i] == record;
      }
    }
  }

  lemma RestoreKeeps(resources: map<Key, Resource>, files: map<Path, Bytes>, saved: map<(Key, nat), Bytes>,
                     ext: string -> string, key: Key, version: nat, currentFile: Path, bytes: Bytes)
    requires AllNamed(resources, ext) && OnRecord(resources, saved)
    requires forall k :: k in resources ==> Increasing(resources[k])
    requires key in resources && Numbered(resources[key], version)
    ensures var resources' := resources[key := resources[key].(current := version)];
            && AllNamed(resources', ext) && OnRecord(resources', saved)
            && (forall k :: k in resources' ==> Increasing(resources'[k]))
            && (currentFile.Elsewhere? ==>
                  (AllHeld(resources', files[currentFile := bytes], saved) <==> AllHeld(resources, files, saved)))
  {
    hide Named, Held, Numbered, AllHeld;
    var resources' := resources[key := resources[key].(current := version)];
    assert forall k :: k in resources ==> resources'[k].versions == resources[k].versions;
    assert AllNamed(resources', ext);
    RestoredIncreases(resources[key], version);
    forall s | s in saved ensures s.0 in resources' && Numbered(resources'[s.0], s.1) {
      SameNumbers(resources[s.0], resources'[s.0], s.1);
    }
    if currentFile.Elsewhere? {
      RestoreElsewhere(resources, files, saved, ext, currentFile, bytes);
      SameHeld(resources, resources', files[currentFile := bytes], saved);
    }
  }

  lemma RestoredIncreases(r: Resource, n: nat)
    requires Increasing(r) && Numbered(r, n)
    ensures Increasing(r.(current := n))
  {
  }

  lemma SameHeld(resources: map<Key, Resource>, resources': map<Key, Resource>, files: map<Path, Bytes>,
                 saved: map<(Key, nat), Bytes>)
    requires resources.Keys == resources'.Keys
    requires forall k :: k in resources ==> resources'[k].versions == resources[k].versions
    ensures AllHeld(resources', files, saved) <==> AllHeld(resources, files, saved)
  {
    hide Held;
  }

  /** No version lives outside the versions directory. */
  lemma RestoreElsewhere(resources: map<Key, Resource>, files: map<Path, Bytes>, saved: map<(Key, nat), Bytes>,
                         ext: string -> string, currentFile: Path, bytes: Bytes)
    requires AllNamed(resources, ext) && currentFile.Elsewhere?
    ensures AllHeld(resources, files[currentFile := bytes], saved) <==> AllHeld(resources, files, saved)
  {
    hide FileName;
    forall k, i | k in resources && 0 <= i < |resources[k].versions|
      ensures Held(files[currentFile := bytes], saved, k, resources[k].versions[i])
              == Held(files, saved, k, resources[k].versions[i])
    {
      assert Named(k, resources[k].versions[i], ext(k.kind));
    }
  }

  lemma SameNumbers(r: Resource, q: Resource, n: nat)
    requires r.versions == q.versions
    ensures Numbered(r, n) == Numbered(q, n)
  {
  }

  predicate Numbered(r: Resource, n: nat) {
    exists i :: 0 <= i < |r.versions| && r.versions[i].version == n
  }
}
