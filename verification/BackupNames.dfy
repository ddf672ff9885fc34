/**
 Deleting a backup by any string. The path to remove is joined and normalized, while the dependency guard
 compares the string as it was given.
 */
module BackupNames {
  import opened Wrappers
  import opened JsText
  import opened ImageStore
  import opened BackupPaths
  import opened BackupChains
  import opened BackupInvariant
  import opened BackupScenarios

  // ----- joining paths -----

  /** The segments of an absolute path without empty ones, "." and "..". */
  function Resolve(parts: seq<string>): seq<string> {
    if parts == [] then []
    else
      var front, last := Resolve(parts[..|parts| - 1]), parts[|parts| - 1];
      if last == "" || last == "." then front
      else if last != ".." then front + [last]
      else if front == [] then []
      else front[..|front| - 1]
  }

  function Absolute(segments: seq<string>): string {
    if segments == [] then "" else Absolute(segments[..|segments| - 1]) + "/" + segments[|segments| - 1]
  }

  /** `join(dir, name)`. */
  function Located(dir: string, name: string): string {
    Absolute(Resolve(Split(dir + "/" + name, '/')))
  }

  /** The directory is written as `join` writes it. */
  predicate Canonical(dir: string) {
    Absolute(Resolve(Split(dir, '/'))) == dir
  }

  /** An id that is one path segment and stays one. */
  predicate Plain(name: string) {
    IsSegment(name) && name != "." && name != ".."
  }

  lemma ResolveSkips(parts: seq<string>, last: string)
    ensures last == "" || last == "." ==> Resolve(parts + [last]) == Resolve(parts)
    ensures Plain(last) ==> Resolve(parts + [last]) == Resolve(parts) + [last]
  {
    assert (parts + [last])[..|parts|] == parts;
  }

  lemma LocatedSplit(dir: string, name: string)
    ensures Located(dir, name) == Absolute(Resolve(Split(dir, '/') + Split(name, '/')))
  {
    assert dir + "/" + name == dir + ['/'] + name;
    SplitConcat(dir, name, '/');
  }

  /** The segments of the directory and of one plain name. */
  lemma ResolvePlain(parts: seq<string>, id: string)
    requires Plain(id)
    ensures Absolute(Resolve(parts + [id])) == Absolute(Resolve(parts)) + "/" + id
    ensures Resolve(parts + [id, ""]) == Resolve(parts + [id]) && Resolve(parts + [".", id]) == Resolve(parts + [id])
  {
    assert parts + [id, ""] == (parts + [id]) + [""] && parts + [".", id] == (parts + ["."]) + [id];
    ResolveSkips(parts, id);
    ResolveSkips(parts + [id], "");
    ResolveSkips(parts, ".");
    ResolveSkips(parts + ["."], id);
    hide Resolve;
    assert (Resolve(parts) + [id])[..|Resolve(parts)|] == Resolve(parts);
  }

  lemma SplitAliases(id: string)
    requires Plain(id)
    ensures Split(id, '/') == [id] && Split(id + "/", '/') == [id, ""] && Split("./" + id, '/') == [".", id]
  {
    SplitNoSep(id, '/');
    SplitNoSep("", '/');
    SplitAtSep(id, "", '/');
    SplitAtSep(".", id, '/');
    hide Split;
    assert id + "/" == id + ['/'] + "" && "./" + id == "." + ['/'] + id;
  }

  /** The directory of a backup, and other ways to name it. */
  lemma LocatedPlain(dir: string, id: string)
    requires Canonical(dir) && Plain(id)
    ensures Located(dir, id) == dir + "/" + id
    ensures Located(dir, id + "/") == dir + "/" + id && Located(dir, "./" + id) == dir + "/" + id
  {
    LocatedSplit(dir, id);
    LocatedSplit(dir, id + "/");
    LocatedSplit(dir, "./" + id);
    SplitAliases(id);
    ResolvePlain(Split(dir, '/'), id);
    CanonicalMeans(dir);
    hide Resolve, Split, Canonical, Located, Absolute;
  }

  lemma CanonicalMeans(dir: string)
    requires Canonical(dir)
    ensures Absolute(Resolve(Split(dir, '/'))) == dir
  {
  }

  /** The empty name and "." name the directory of all backups. */
  lemma LocatedWhole(dir: string)
    requires Canonical(dir)
    ensures Located(dir, "") == dir && Located(dir, ".") == dir
  {
    LocatedSplit(dir, "");
    LocatedSplit(dir, ".");
    SplitNoSep("", '/');
    SplitNoSep(".", '/');
    ResolveSkips(Split(dir, '/'), "");
    ResolveSkips(Split(dir, '/'), ".");
    hide Resolve, Split;
    CanonicalMeans(dir);
  }

  /** ".." leads one directory up, and a name inside a backup's directory stays there. */
  lemma LocatedUp(dir: string, id: string)
    requires Canonical(dir) && Plain(id)
    ensures Located(dir + "/" + id, "..") == dir
  {
    var parts := Split(dir, '/');
    assert dir + "/" + id == dir + ['/'] + id;
    SplitConcat(dir, id, '/');
    LocatedSplit(dir + "/" + id, "..");
    SplitNoSep(id, '/');
    SplitNoSep("..", '/');
    CanonicalMeans(dir);
    ResolveUp(parts, id);
    hide Split, Canonical, Located, Resolve, Absolute;
    assert parts + [id] + [".."] == parts + [id, ".."];
  }

  lemma LocatedInside(dir: string, id: string, name: string)
    requires Canonical(dir) && Plain(id) && Plain(name)
    ensures Located(dir, id + "/" + name) == dir + "/" + id + "/" + name
  {
    var parts := Split(dir, '/');
    LocatedSplit(dir, id + "/" + name);
    SplitNoSep(name, '/');
    SplitAtSep(id, name, '/');
    assert id + "/" + name == id + ['/'] + name;
    CanonicalMeans(dir);
    ResolvePlain(parts, id);
    ResolvePlain(parts + [id], name);
    hide Split, Canonical, Located, Resolve, Absolute;
    assert parts + ([id] + [name]) == parts + [id] + [name];
  }

  lemma ResolveUp(parts: seq<string>, id: string)
    requires Plain(id)
    ensures Resolve(parts + [id, ".."]) == Resolve(parts)
  {
    ResolveSkips(parts, id);
    var all := parts + [id, ".."];
    assert all[..|all| - 1] == parts + [id];
  }

  // ----- deleting by name -----

  predicate Within(at: string, path: string) {
    path == at || at + "/" <= path
  }

  function ManifestFile(dir: string, id: string): string {
    BackupDir(dir, id) + "backup.json"
  }

  function LostIds(v: Vault, at: string): set<string> {
    set id | id in v.manifests && Within(at, ManifestFile(v.dir, id))
  }

  function LostPaths(v: Vault, at: string): set<string> {
    set p | p in v.files && Within(at, p)
  }

  /** How far a removal got that failed: these manifests and files are gone, if they were to go. */
  datatype Loss = Loss(ids: set<string>, paths: set<string>)

  function GoneIds(v: Vault, at: string, failure: Option<Loss>): set<string> {
    if failure.Some? then LostIds(v, at) * failure.value.ids else LostIds(v, at)
  }

  function GonePaths(v: Vault, at: string, failure: Option<Loss>): set<string> {
    if failure.Some? then LostPaths(v, at) * failure.value.paths else LostPaths(v, at)
  }

  /** `deleteBackup` on any string; the removal may fail after any part of it. */
  function DeleteNamed(v: Vault, name: string, failure: Option<Loss>): (Vault, Deletion) {
    var at := Located(v.dir, name);
    if LostIds(v, at) == {} && LostPaths(v, at) == {} then (v, NotFound)
    else if HasDependent(v, name) then (v, Dependency)
    else (Without(v, GoneIds(v, at, failure), GonePaths(v, at, failure)), if failure.Some? then IoError else Deleted)
  }

  /** Whatever the name and the failure, the vault stays sound exactly when nothing that a remaining completed backup needs went. */
  lemma NamedDeleteKeepsInvIff(v: Vault, name: string, failure: Option<Loss>)
    requires Inv(v)
    ensures var at, r := Located(v.dir, name), DeleteNamed(v, name, failure);
      Inv(r.0) <==> (r.1.Deleted? || r.1.IoError? ==> AllSpared(v, GoneIds(v, at, failure), GonePaths(v, at, failure)))
  {
    var at := Located(v.dir, name);
    LossKeepsInvIff(v, GoneIds(v, at, failure), GonePaths(v, at, failure));
  }

  lemma NoBackupAtSegment(dir: string, id: string, other: string)
    ensures Under(dir, other, dir + "/" + id) ==> !IsSegment(id)
  {
    if Under(dir, other, dir + "/" + id) {
      var n := |other|;
      assert BackupDir(dir, other)[|dir| + 1 + n] == '/';
      assert (dir + "/" + id)[|dir| + 1 + n] == id[n];
      assert id[n] in id;
    }
  }

  /** Every backup's directory is named by a plain id, and is no file. */
  predicate PlainlyNamed(v: Vault) {
    Canonical(v.dir) && forall id :: id in v.manifests ==> Plain(id) && v.dir + "/" + id !in v.files
  }

  /** At the directory of one backup lie its manifest and its files. */
  lemma LostAtSegment(v: Vault, id: string)
    requires (forall x :: x in v.manifests ==> IsSegment(x)) && IsSegment(id) && v.dir + "/" + id !in v.files
    ensures var at := v.dir + "/" + id;
      && LostPaths(v, at) == FilesUnder(v, id)
      && LostIds(v, at) == (if id in v.manifests then {id} else {})
  {
    var at := v.dir + "/" + id;
    assert at + "/" == BackupDir(v.dir, id);
    forall x | x in v.manifests ensures Within(at, ManifestFile(v.dir, x)) <==> x == id {
      NoBackupAtSegment(v.dir, id, x);
      assert Under(v.dir, x, ManifestFile(v.dir, x));
      if Under(v.dir, id, ManifestFile(v.dir, x)) { UnderOneBackup(v.dir, id, x, ManifestFile(v.dir, x)); }
    }
  }

  /** A removal that fails, if it fails, before anything is gone. */
  function AllOrNothing(ioFails: bool): Option<Loss> {
    if ioFails then Some(Loss({}, {})) else None
  }

  /** For the plain name of a backup this is the delete of that backup. */
  lemma NamedDeleteIsDelete(v: Vault, id: string, ioFails: bool)
    requires (forall x :: x in v.manifests ==> IsSegment(x)) && Canonical(v.dir) && Plain(id) && v.dir + "/" + id !in v.files
    ensures DeleteNamed(v, id, AllOrNothing(ioFails)) == Delete(v, id, ioFails)
  {
    LocatedPlain(v.dir, id);
    LostAtSegment(v, id);
    DeleteIsLoss(v, id);
    assert DirectoryExists(v, id) <==> LostIds(v, v.dir + "/" + id) != {} || LostPaths(v, v.dir + "/" + id) != {} by {
      if exists p :: p in v.files && Under(v.dir, id, p) {
        var p :| p in v.files && Under(v.dir, id, p);
        assert p in LostPaths(v, v.dir + "/" + id);
      }
      if LostPaths(v, v.dir + "/" + id) != {} {
        var p :| p in LostPaths(v, v.dir + "/" + id);
        assert p in v.files && Under(v.dir, id, p);
      }
    }
    hide Located, Within, Under, HasDependent;
    var at := v.dir + "/" + id;
    assert id !in v.manifests ==> v.manifests - {id} == v.manifests - {};
    if ioFails {
      assert GoneIds(v, at, AllOrNothing(true)) == {} && GonePaths(v, at, AllOrNothing(true)) == {};
      assert v.manifests - {} == v.manifests && v.files - {} == v.files;
    }
  }

  /** For the plain name of a backup that may be deleted a removal that fails is a partial delete. */
  lemma FailedDeleteIsPartial(v: Vault, id: string, loss: Loss)
    requires Inv(v) && Canonical(v.dir) && Plain(id) && v.dir + "/" + id !in v.files
    requires DirectoryExists(v, id) && !HasDependent(v, id)
    ensures DeleteNamed(v, id, Some(loss)) == (PartialDelete(v, id, loss.paths, id in loss.ids), IoError)
  {
    SegmentIds(v);
    LocatedPlain(v.dir, id);
    LostAtSegment(v, id);
    NamedDeleteIsDelete(v, id, true);
    var at := v.dir + "/" + id;
    hide Inv, Located, Within, Under, HasDependent, DirectoryExists;
    assert v.files - GonePaths(v, at, Some(loss)) == v.files - set p | p in loss.paths && Under(v.dir, id, p);
    assert v.manifests - GoneIds(v, at, Some(loss)) == v.manifests - if id in loss.ids then {id} else {};
  }

  /**
   Another name of a backup's directory removes the backup whoever depends on it: afterwards the vault is
   sound exactly when no other completed INCREMENTAL stands on it.
   */
  lemma AliasKeepsInvIff(v: Vault, name: string, id: string)
    requires Inv(v) && IsSegment(id) && id in v.manifests && v.dir + "/" + id !in v.files
    requires Located(v.dir, name) == v.dir + "/" + id && !HasDependent(v, name)
    ensures var r := DeleteNamed(v, name, None);
      && r.1.Deleted? && r.0.manifests == v.manifests - {id}
      && (Inv(r.0) <==> forall x :: x in v.manifests && x != id && IsCompleted(v, x) && v.manifests[x].kind.Incremental? ==>
                          v.manifests[x].parent != Some(id))
  {
    SegmentIds(v);
    LostAtSegment(v, id);
    hide Inv, Located, Within, HasDependent, AllSpared, FilesUnder, LostIds, LostPaths;
    LossKeepsInvIff(v, {id}, FilesUnder(v, id));
    AllSparedIff(v, id);
  }

  lemma AllSparedIff(v: Vault, id: string)
    requires Inv(v) && IsSegment(id)
    ensures AllSpared(v, {id}, FilesUnder(v, id))
      <==> forall x :: x in v.manifests && x != id && IsCompleted(v, x) && v.manifests[x].kind.Incremental? ==>
             v.manifests[x].parent != Some(id)
  {
    hide Inv, Spared, FilesUnder;
    forall x | x in v.manifests && x != id
      ensures Spared(v, {id}, FilesUnder(v, id), x)
        <==> (IsCompleted(v, x) && v.manifests[x].kind.Incremental? ==> v.manifests[x].parent != Some(id))
    {
      SparedBesides(v, id, x);
    }
  }

  lemma SegmentIds(v: Vault)
    requires Inv(v)
    ensures forall x :: x in v.manifests ==> IsSegment(x)
  {
    forall x | x in v.manifests ensures IsSegment(x) { assert Healthy(v, x); }
  }

  lemma SparedBesides(v: Vault, id: string, x: string)
    requires Inv(v) && IsSegment(id) && x in v.manifests && x != id
    ensures Spared(v, {id}, FilesUnder(v, id), x)
      <==> (IsCompleted(v, x) && v.manifests[x].kind.Incremental? ==> v.manifests[x].parent != Some(id))
  {
    OthersSpared(v, id, {}, FilesUnder(v, id));
    assert Spared(v, {}, FilesUnder(v, id), x);
    assert Healthy(v, x);
  }

  /** A name of the whole directory removes every backup of the VM. */
  lemma WholeDirectoryGoes(v: Vault, name: string)
    requires Located(v.dir, name) == v.dir && v.manifests != map[] && !HasDependent(v, name)
    ensures var r := DeleteNamed(v, name, None);
      && r.1.Deleted? && r.0.manifests == map[]
      && forall id, p :: Under(v.dir, id, p) ==> p !in r.0.files
  {
    var id0 :| id0 in v.manifests;
    forall id ensures Within(v.dir, ManifestFile(v.dir, id)) {
      assert v.dir + "/" <= ManifestFile(v.dir, id);
    }
    assert id0 in LostIds(v, v.dir);
    forall id, p | Under(v.dir, id, p) ensures Within(v.dir, p) {
      assert v.dir + "/" <= BackupDir(v.dir, id) <= p;
    }
  }

  /** The empty id and "." are such names. */
  lemma EmptyIdRemovesAll(v: Vault)
    requires Canonical(v.dir) && v.manifests != map[] && !HasDependent(v, "") && !HasDependent(v, ".")
    ensures DeleteNamed(v, "", None).1.Deleted? && DeleteNamed(v, "", None).0.manifests == map[]
    ensures DeleteNamed(v, ".", None).1.Deleted? && DeleteNamed(v, ".", None).0.manifests == map[]
  {
    LocatedWhole(v.dir);
    hide Located, DeleteNamed, HasDependent;
    WholeDirectoryGoes(v, "");
    WholeDirectoryGoes(v, ".");
  }

  /** What the vault holds after both. */
  lemma PairHolds(v: Vault, content: Clusters, full: string, inc: string)
    requires v.dir + "/" + full !in v.files && IsSegment(full) && full != inc && full !in v.manifests && inc !in v.manifests
    ensures var w := WithPair(v, content, full, inc);
      && w.dir == v.dir && w.dir + "/" + full !in w.files
      && w.manifests.Keys == v.manifests.Keys + {full, inc} && IsCompleted(w, inc) && w.manifests[inc].kind.Incremental?
      && w.manifests[inc].parent == Some(full) && w.manifests[inc].id == inc && w.manifests[full].parent == None
      && forall x :: x in v.manifests ==> w.manifests[x] == v.manifests[x]
  {
    DiskIsNoSegment(v.dir, full, full);
    DiskIsNoSegment(v.dir, full, inc);
    hide PathOf;
  }

  lemma DiskIsNoSegment(dir: string, id: string, other: string)
    requires IsSegment(id)
    ensures PathOf(dir, other, 0, false) != dir + "/" + id
  {
    NoBackupAtSegment(dir, id, other);
    assert Under(dir, other, PathOf(dir, other, 0, false));
  }

  /** By the name of its manifest a backup loses its manifest and no file. */
  lemma ManifestNameForgets(v: Vault, id: string)
    requires Inv(v) && Canonical(v.dir) && Plain(id) && id in v.manifests && !HasDependent(v, id + "/backup.json")
    requires forall p :: p in v.files ==> !Within(v.dir + "/" + id + "/backup.json", p)
    ensures DeleteNamed(v, id + "/backup.json", None) == (v.(manifests := v.manifests - {id}), Deleted)
  {
    var at := v.dir + "/" + id + "/backup.json";
    assert IsSegment("backup.json") && id + "/" + "backup.json" == id + "/backup.json";
    assert v.dir + "/" + id + "/" + "backup.json" == at;
    LocatedInside(v.dir, id, "backup.json");
    SegmentIds(v);
    assert at == ManifestFile(v.dir, id);
    hide Inv, Located, HasDependent, Resolve;
    forall x | x in v.manifests ensures Within(at, ManifestFile(v.dir, x)) <==> x == id {
      assert Under(v.dir, x, ManifestFile(v.dir, x)) && Under(v.dir, id, at);
      if Within(at, ManifestFile(v.dir, x)) {
        assert Under(v.dir, id, ManifestFile(v.dir, x));
        UnderOneBackup(v.dir, id, x, ManifestFile(v.dir, x));
      }
    }
    assert LostIds(v, at) == {id} && LostPaths(v, at) == {};
    assert v.files - {} == v.files;
  }

  /** A FULL backup and an INCREMENTAL on it: by its name the first is protected, with a slash behind it is not. */
  lemma TrailingSlashRemovesParent(v: Vault, src: string, content: Clusters, full: string, inc: string)
    requires Inv(v) && Canonical(v.dir) && Plain(full) && v.dir + "/" + full !in v.files && !HasDependent(v, full + "/")
    requires OutsideBackups(v, src) && src in v.files && v.files[src] == Qcow(content, None)
    requires Fresh(v, full) && Fresh(v, inc) && full != inc
    ensures var w := TakePair(v, src, full, inc);
      && Inv(w) && DeleteNamed(w, full, None).1.Dependency?
      && DeleteNamed(w, full + "/", None).1.Deleted? && !Inv(DeleteNamed(w, full + "/", None).0)
  {
    var w := TakePair(v, src, full, inc);
    AfterPair(v, src, content, full, inc);
    PairHolds(v, content, full, inc);
    LocatedPlain(v.dir, full);
    SegmentIds(w);
    hide Inv, Fresh, OutsideBackups, TakePair, WithPair, Located, Canonical;
    NamedDeleteIsDelete(w, full, false);
    assert full + "/" != full;
    assert !HasDependent(w, full + "/");
    assert HasDependent(w, full);
    AliasKeepsInvIff(w, full + "/", full);
  }
}
