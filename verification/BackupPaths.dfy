/** Names under a VM's backup directory: one directory per backup, one file per disk. */
module BackupPaths {
  import opened JsText

  /** A name that fits in one path segment. */
  predicate IsSegment(s: string) {
    s != "" && '/' !in s
  }

  function FileName(disk: nat, gz: bool): string {
    "disk-" + Digits(disk) + (if gz then ".qcow2.gz" else ".qcow2")
  }

  function BackupDir(dir: string, id: string): string {
    dir + "/" + id + "/"
  }

  function PathOf(dir: string, id: string, disk: nat, gz: bool): string {
    BackupDir(dir, id) + FileName(disk, gz)
  }

  /** The file lies in the directory of backup `id`. */
  predicate Under(dir: string, id: string, path: string) {
    BackupDir(dir, id) <= path
  }

  lemma FileNameIsSegment(disk: nat, gz: bool)
    ensures IsSegment(FileName(disk, gz))
  {
    DigitsPlain(disk, '/');
  }

  lemma PathsDiffer(dir: string, id: string, i: nat, j: nat, gz: bool)
    requires i != j
    ensures PathOf(dir, id, i, gz) != PathOf(dir, id, j, gz)
  {
    if PathOf(dir, id, i, gz) == PathOf(dir, id, j, gz) {
      var n := |BackupDir(dir, id)|;
      assert PathOf(dir, id, i, gz)[n..] == FileName(i, gz) && PathOf(dir, id, j, gz)[n..] == FileName(j, gz);
      var a, b := FileName(i, gz), FileName(j, gz);
      var tail := if gz then 9 else 6;
      assert a[5..|a| - tail] == Digits(i) && b[5..|b| - tail] == Digits(j);
      DigitsInjective(i, j);
    }
  }

  // ----- segments of a path -----

  lemma SplitConcat(a: string, b: string, sep: char)
    ensures Split(a + [sep] + b, sep) == Split(a, sep) + Split(b, sep)
  {
    var front, back := Split(a, sep), Split(b, sep);
    SplitParts(a, sep);
    SplitParts(b, sep);
    JoinConcat(front, back, [sep]);
    SplitJoin(front + back, sep);
  }

  /** `basename`. */
  function Basename(path: string): string {
    var parts := Split(path, '/');
    parts[|parts| - 1]
  }

  /** `basename` of `dirname`; a bare file name lies in ".". */
  function ParentName(path: string): string {
    var parts := Split(path, '/');
    if |parts| < 2 then "." else parts[|parts| - 2]
  }

  lemma PathSegments(dir: string, id: string, disk: nat, gz: bool)
    requires IsSegment(id)
    ensures ParentName(PathOf(dir, id, disk, gz)) == id
    ensures Basename(PathOf(dir, id, disk, gz)) == FileName(disk, gz)
  {
    var file := FileName(disk, gz);
    FileNameIsSegment(disk, gz);
    var tail := id + ['/'] + file;
    assert PathOf(dir, id, disk, gz) == dir + ['/'] + tail;
    SplitConcat(dir, tail, '/');
    SplitAtSep(id, file, '/');
    SplitNoSep(file, '/');
    assert Split(tail, '/') == [id, file];
  }

  lemma UnderSegment(dir: string, id: string, path: string)
    requires IsSegment(id) && Under(dir, id, path)
    ensures |Split(path, '/')| > |Split(dir, '/')| && Split(path, '/')[|Split(dir, '/')|] == id
  {
    var rest := path[|BackupDir(dir, id)|..];
    assert path == BackupDir(dir, id) + rest;
    assert path == dir + ['/'] + (id + ['/'] + rest);
    SplitConcat(dir, id + ['/'] + rest, '/');
    SplitAtSep(id, rest, '/');
  }

  /** A file lies in the directory of one backup only. */
  lemma UnderOneBackup(dir: string, a: string, b: string, path: string)
    requires IsSegment(a) && IsSegment(b) && Under(dir, a, path) && Under(dir, b, path)
    ensures a == b
  {
    UnderSegment(dir, a, path);
    UnderSegment(dir, b, path);
  }
}
