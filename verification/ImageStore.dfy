/**
 Disk images on a file system: qcow2 overlays that read through to a backing file,
 standalone images, and gzip blobs.
 */
module ImageStore {
  import opened Wrappers

  /** The allocated clusters of an image. */
  type Clusters = map<nat, int>

  datatype Image =
    | Qcow(clusters: Clusters, backing: Option<string>)
    | Gz(inner: Image)

  type Files = map<string, Image>

  /**
   What a guest sees through the backing chain that starts at `path`: a cluster comes from the
   topmost image that allocates it. `None` when a link is missing, compressed or part of a cycle.
   */
  function ContentVia(files: Files, path: string, visited: set<string>): Option<Clusters>
    decreases files.Keys - visited
  {
    if path !in files || path in visited || files[path].Gz? then None
    else
      var image := files[path];
      if image.backing.None? then Some(image.clusters)
      else Over(ContentVia(files, image.backing.value, visited + {path}), image.clusters)
  }

  function Content(files: Files, path: string): Option<Clusters> {
    ContentVia(files, path, {})
  }

  /** Each image of the chain stands on the next, and the last one on nothing. */
  predicate IsBackingChain(files: Files, paths: seq<string>) {
    && paths != [] && (forall i :: 0 <= i < |paths| ==> paths[i] in files && files[paths[i]].Qcow?)
    && (forall i, j :: 0 <= i < j < |paths| ==> paths[i] != paths[j])
    && (forall i :: 0 <= i < |paths| - 1 ==> files[paths[i]].backing == Some(paths[i + 1]))
    && files[paths[|paths| - 1]].backing.None?
  }

  /** Image `i` of the chain is the first that allocates the cluster. */
  predicate FirstWith(files: Files, paths: seq<string>, i: int, c: nat)
    requires forall i :: 0 <= i < |paths| ==> paths[i] in files && files[paths[i]].Qcow?
  {
    0 <= i < |paths| && c in files[paths[i]].clusters && forall j :: 0 <= j < i ==> c !in files[paths[j]].clusters
  }

  /** A cluster is read from the first image of the chain that allocates it, and from none if none does. */
  lemma {:induction false} ReadsFirstAllocated(files: Files, paths: seq<string>, visited: set<string>, c: nat)
    requires IsBackingChain(files, paths) && forall i :: 0 <= i < |paths| ==> paths[i] !in visited
    ensures ContentVia(files, paths[0], visited).Some?
    ensures var content := ContentVia(files, paths[0], visited).value;
      && (forall i :: FirstWith(files, paths, i, c) ==> c in content && content[c] == files[paths[i]].clusters[c])
      && ((forall j :: 0 <= j < |paths| ==> c !in files[paths[j]].clusters) ==> c !in content)
    decreases |paths|
  {
    if |paths| > 1 {
      var rest := paths[1..];
      assert forall i :: 0 <= i < |rest| ==> rest[i] == paths[i + 1];
      ReadsFirstAllocated(files, rest, visited + {paths[0]}, c);
      if forall j :: 0 <= j < |paths| ==> c !in files[paths[j]].clusters {
        assert forall j :: 0 <= j < |rest| ==> c !in files[rest[j]].clusters;
      }
      var content := ContentVia(files, paths[0], visited).value;
      forall i | FirstWith(files, paths, i, c)
        ensures c in content && content[c] == files[paths[i]].clusters[c]
      {
        if i > 0 {
          assert rest[i - 1] == paths[i];
          assert forall j :: 0 <= j < i - 1 ==> rest[j] == paths[j + 1] && c !in files[paths[j + 1]].clusters;
          assert FirstWith(files, rest, i - 1, c);
        }
      }
    }
  }

  /** Clusters laid over what is below them. */
  function Over(below: Option<Clusters>, clusters: Clusters): Option<Clusters> {
    if below.None? then None else Some(below.value + clusters)
  }

  /** The paths an image may read: its own backing pointer, inside a gzip blob or not. */
  function BackingOf(image: Image): Option<string> {
    match image
    case Qcow(_, backing) => backing
    case Gz(inner) => BackingOf(inner)
  }

  /** Nothing outside `private` reads a file of `private`. */
  predicate Private(files: Files, private: set<string>) {
    forall p :: p in files && p !in private && BackingOf(files[p]).Some? ==> BackingOf(files[p]).value !in private
  }

  /** The two stores hold the same files outside `private`. */
  ghost predicate AgreeOutside(a: Files, b: Files, private: set<string>) {
    && (forall p :: p !in private ==> (p in a <==> p in b))
    && (forall p :: p !in private && p in a && p in b ==> a[p] == b[p])
  }

  /** What lies in private files does not matter to a chain that starts outside them. */
  lemma {:induction false} FrameOutside(
    a: Files, b: Files, private: set<string>, path: string, va: set<string>, vb: set<string>)
    requires AgreeOutside(a, b, private) && Private(a, private) && path !in private
    requires forall p :: p !in private ==> (p in va <==> p in vb)
    ensures ContentVia(a, path, va) == ContentVia(b, path, vb)
    decreases a.Keys - va
  {
    if path in a && path !in va && a[path].Qcow? && a[path].backing.Some? {
      assert BackingOf(a[path]) == a[path].backing;
      FrameOutside(a, b, private, a[path].backing.value, va + {path}, vb + {path});
    }
  }

  /** The value of a cluster; unallocated clusters read as zero. */
  function ReadCluster(clusters: Clusters, c: nat): int {
    if c in clusters then clusters[c] else 0
  }
}
