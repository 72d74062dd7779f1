/** The two-level resolution cache behind `SystemWorld::slot`: path to identity
    (`hashes`, successes and failures alike) and identity to slot (`paths`). */
module Resolution {
  import opened Wrappers
  import opened Paths
  import opened Files
  import opened Registry

  newtype u128 = x: int | 0 <= x < 0x1_0000_0000_0000_0000_0000_0000_0000_0000

  /** The identity of a file-system entity, the same for every path reaching it. */
  datatype PathHash = PathHash(value: u128)

  /** The per-identity data: the resolved file id and the file's bytes, each computed
      at most once. */
  datatype PathSlot = PathSlot(source: Cell<FileResult<FileId>>, buffer: Cell<FileResult<Bytes>>)

  /** `PathSlot::default()`: both cells empty. */
  const EmptySlot: PathSlot := PathSlot(Empty, Empty)

  type Hashes = map<Path, FileResult<PathHash>>
  type Slots = map<PathHash, PathSlot>

  /** The outcome of one `slot` call: the identity of the slot reached (or the error)
      and the two caches afterwards. */
  datatype Lookup = Lookup(result: FileResult<PathHash>, hashes: Hashes, paths: Slots)

  /** The key under which a miss also records its result: the normalised canonical path. */
  function CanonicalKey(path: Path, canonicalize: Path -> Option<Path>): Option<Path>
  {
    match canonicalize(path)
    case None => None
    case Some(canon) => Some(Normalized(canon))
  }

  /** What `slot(path)` does to the caches, with `identify` standing for `PathHash::new`
      and `canonicalize` for `Path::canonicalize` (its error is discarded). */
  function SlotLookup(hashes: Hashes, paths: Slots, path: Path,
                      identify: Path -> FileResult<PathHash>,
                      canonicalize: Path -> Option<Path>): (r: Lookup)
    // a hit returns the cached outcome, success or failure, and leaves `hashes` alone
    ensures path in hashes ==> r.result == hashes[path] && r.hashes == hashes
    // a miss records the computed outcome under the path and under its canonical key
    ensures path !in hashes ==> r.result == identify(path)
    ensures path in r.hashes && r.hashes[path] == r.result
    ensures path !in hashes ==>
              (forall k :: k in r.hashes <==>
                 k in hashes || k == path || CanonicalKey(path, canonicalize) == Some(k))
              && (CanonicalKey(path, canonicalize).Some? ==>
                    r.hashes[CanonicalKey(path, canonicalize).value] == r.result)
              && (forall k :: k in hashes && k != path && CanonicalKey(path, canonicalize) != Some(k)
                    ==> r.hashes[k] == hashes[k])
    // a failure leaves `paths` alone
    ensures r.result.Err? ==> r.paths == paths
    // a success reaches the existing slot of its identity, or a fresh empty one
    ensures r.result.Ok? ==>
              && r.paths.Keys == paths.Keys + {r.result.value}
              && r.paths[r.result.value] == (if r.result.value in paths then paths[r.result.value] else EmptySlot)
              && (forall h :: h in paths ==> r.paths[h] == paths[h])
  {
    var (hash, hashes') :=
      if path in hashes then (hashes[path], hashes)
      else
        var h := identify(path);
        var withCanon := match CanonicalKey(path, canonicalize)
                         case None => hashes
                         case Some(key) => hashes[key := h];
        (h, withCanon[path := h]);
    match hash
    case Err(_) => Lookup(hash, hashes', paths)
    case Ok(h) => Lookup(hash, hashes', if h in paths then paths else paths[h := EmptySlot])
  }

  /** Every cached successful identity has its slot. */
  ghost predicate Covered(hashes: Hashes, paths: Slots)
  {
    forall p :: p in hashes && hashes[p].Ok? ==> hashes[p].value in paths
  }

  lemma SlotKeepsCovered(hashes: Hashes, paths: Slots, path: Path,
                         identify: Path -> FileResult<PathHash>,
                         canonicalize: Path -> Option<Path>)
    requires Covered(hashes, paths)
    ensures var r := SlotLookup(hashes, paths, path, identify, canonicalize);
            Covered(r.hashes, r.paths)
  {
  }

  /** A repeated call on the same path is answered from the caches: the same outcome,
      caches unchanged, whatever the file system would now say. */
  lemma SlotMemoised(hashes: Hashes, paths: Slots, path: Path,
                     identify: Path -> FileResult<PathHash>,
                     canonicalize: Path -> Option<Path>,
                     identify': Path -> FileResult<PathHash>,
                     canonicalize': Path -> Option<Path>)
    ensures var r := SlotLookup(hashes, paths, path, identify, canonicalize);
            var r' := SlotLookup(r.hashes, r.paths, path, identify', canonicalize');
            r' == r
  {
  }

  /** Two spellings resolving to the same identity share one slot: the second call finds
      the slot the first one reached and changes nothing in `paths`. */
  lemma SharedSlot(hashes: Hashes, paths: Slots, p: Path, q: Path,
                   identify: Path -> FileResult<PathHash>,
                   canonicalize: Path -> Option<Path>)
    requires q !in hashes
    requires SlotLookup(hashes, paths, p, identify, canonicalize).result.Ok?
    requires identify(q) == SlotLookup(hashes, paths, p, identify, canonicalize).result
    ensures var r := SlotLookup(hashes, paths, p, identify, canonicalize);
            var r' := SlotLookup(r.hashes, r.paths, q, identify, canonicalize);
            r'.result == r.result && r'.paths == r.paths
  {
  }

  /** A path whose canonical form was recorded by an earlier miss is a hit afterwards,
      even though it was never looked up itself. */
  lemma CanonicalSpellingHits(hashes: Hashes, paths: Slots, p: Path, q: Path,
                              identify: Path -> FileResult<PathHash>,
                              canonicalize: Path -> Option<Path>,
                              identify': Path -> FileResult<PathHash>)
    requires p !in hashes
    requires CanonicalKey(p, canonicalize) == Some(q)
    ensures var r := SlotLookup(hashes, paths, p, identify, canonicalize);
            var r' := SlotLookup(r.hashes, r.paths, q, identify', canonicalize);
            r'.result == r.result && r'.paths == r.paths
  {
  }
}
