/** `SystemWorld`: the caches, the source registry and the font slots behind the
    compiler-facing accessors, and the reset/insert/main prologue of `compile`. */
module World {
  import opened Wrappers
  import opened Paths
  import opened Files
  import opened Registry
  import opened Resolution
  import opened Fonts

  /** The library definitions handed to the compiler, built once outside this model. */
  datatype Library = Library(definitions: seq<string>)

  /** The virtual file the markup of a compile call is registered under. */
  const MarkupPath: Path := [Normal("MARKUP.tsp")]
  const MarkupId: FileId := FileId(None, MarkupPath)

  /** `Source::detached("detached")`, the main source before the first compile. */
  const DetachedMain: Source := Source(Detached, "detached")

  class SystemWorld {
    const root: Path
    const library: Library
    const book: seq<FontInfo>
    var fonts: seq<FontSlot>
    var hashes: Hashes
    var paths: Slots
    var sources: seq<Source>
    var main: Source

    /** Font slot k belongs to book entry k. */
    ghost predicate Valid()
      reads this
    {
      |book| == |fonts|
    }

    /** `SystemWorld::new`: search the system directories, then the extra directories,
        then the extra files, and start with empty caches and a detached main source. */
    constructor (root: Path, fontPaths: seq<Path>, fontFiles: seq<Path>, systemDirs: seq<Path>,
                 library: Library, walk: Walk, probe: Probe)
      ensures Valid()
      ensures this.root == root && this.library == library
      ensures Catalog(book, fonts)
           == Join(Join(DirsCatalog(systemDirs, walk, probe), DirsCatalog(fontPaths, walk, probe)),
                   FilesCatalog(fontFiles, probe))
      ensures forall k :: 0 <= k < |fonts| ==> fonts[k].font == Empty
      ensures hashes == map[] && paths == map[] && sources == [] && main == DetachedMain
    {
      ghost var system := DirsCatalog(systemDirs, walk, probe);
      ghost var extra := DirsCatalog(fontPaths, walk, probe);
      ghost var files := FilesCatalog(fontFiles, probe);
      var searcher := new FontSearcher();
      searcher.SearchDirs(systemDirs, walk, probe);
      assert searcher.Current() == system;
      searcher.SearchDirs(fontPaths, walk, probe);
      searcher.SearchFiles(fontFiles, probe);
      JoinLockStep(system, extra);
      JoinLockStep(Join(system, extra), files);
      assert LockStep(searcher.Current());
      this.root := root;
      this.library := library;
      book := searcher.book;
      fonts := searcher.fonts;
      hashes := map[];
      paths := map[];
      sources := [];
      main := DetachedMain;
    }

    /** `slot`: the identity of the slot shared by every spelling of `path`, creating an
        empty slot the first time an identity is seen; a hashing failure is cached and
        returned without touching `paths`. */
    method Slot(path: Path, identify: Path -> FileResult<PathHash>, canonicalize: Path -> Option<Path>)
      returns (r: FileResult<PathHash>)
      modifies this`hashes, this`paths
      ensures var o := SlotLookup(old(hashes), old(paths), path, identify, canonicalize);
              r == o.result && hashes == o.hashes && paths == o.paths
      ensures r.Ok? ==> r.value in paths
    {
      var hash: FileResult<PathHash>;
      if path in hashes {
        hash := hashes[path];
      } else {
        hash := identify(path);
        var canon := canonicalize(path);
        if canon.Some? {
          var key := Normalize(canon.value);
          hashes := hashes[key := hash];
        }
        hashes := hashes[path := hash];
      }
      if hash.Err? {
        return hash;
      }
      if hash.value !in paths {
        paths := paths[hash.value := EmptySlot];
      }
      r := hash;
    }

    /** `insert`: appends one source under the path's identity and returns it; earlier
        entries stay as they are. */
    method Insert(path: Path, text: string) returns (id: FileId)
      modifies this`sources
      ensures id == FileId(None, path)
      ensures sources == old(sources) + [Source(id, text)]
    {
      id := FileId(None, path);
      sources := sources + [Source(id, text)];
    }

    /** `reset`: clears the registry and both caches; fonts, book, root and library are
        outside its frame. */
    method Reset()
      modifies this`sources, this`hashes, this`paths
      ensures sources == [] && hashes == map[] && paths == map[]
    {
      sources := [];
      hashes := map[];
      paths := map[];
    }

    /** `World::source`: the first registered source with this id, else `NotSource`. */
    function SourceFor(id: FileId): (r: FileResult<Source>)
      reads this
      ensures r.Ok? ==> r.value in sources && r.value.id == id
      ensures r.Err? <==> forall s :: s in sources ==> s.id != id
      ensures r.Err? ==> r.error == NotSource
    {
      FindSource(sources, id)
    }

    /** `World::file`: the UTF-8 bytes of the registered source's text, with the same
        failure as `SourceFor`. */
    function FileFor(id: FileId): (r: FileResult<Bytes>)
      reads this
      ensures r.Ok? <==> SourceFor(id).Ok?
      ensures r.Ok? ==> r.value == Utf8(SourceFor(id).value.text)
      ensures r.Err? ==> r.error == NotSource
    {
      var s :- SourceFor(id);
      Ok(Utf8(s.text))
    }

    /** `World::font`: decodes the font of slot `id` on the first call and answers every
        later call from the slot's cell. Indexing past the slots panics in lib.rs. */
    method FontAt(id: nat, fs: FileSystem, parses: Parser) returns (f: Option<Font>)
      requires Valid() && id < |book|
      modifies this`fonts
      ensures Valid()
      ensures |fonts| == |old(fonts)|
      ensures (f, fonts[id]) == GetFont(old(fonts[id]), fs, parses)
      ensures forall k :: 0 <= k < |fonts| && k != id ==> fonts[k] == old(fonts[k])
      ensures old(fonts[id].font).Full? ==> f == old(fonts[id].font.value) && fonts == old(fonts)
    {
      var slot := fonts[id];
      match slot.font
      case Full(cached) =>
        f := cached;
      case Empty =>
        f := LoadFont(slot, fs, parses);
        fonts := fonts[id := slot.(font := Full(f))];
    }

    /** The first lines of `compile`: reset, register the markup as `MARKUP.tsp`, and make
        that source the main one. Nothing registered before is reachable afterwards. */
    method BeginCompile(markup: string)
      modifies this`sources, this`hashes, this`paths, this`main
      ensures sources == [Source(MarkupId, markup)] && main == Source(MarkupId, markup)
      ensures hashes == map[] && paths == map[]
      ensures SourceFor(MarkupId) == Ok(main)
      ensures forall id :: id != MarkupId ==> SourceFor(id) == Err(NotSource)
    {
      Reset();
      var id := Insert(MarkupPath, markup);
      var found := SourceFor(id);
      main := found.value;
    }
  }

  /** Every face the constructor catalogues is found where its slot says: book entry k is
      record `fonts[k].index` of file `fonts[k].path`, provided no searched file holds
      2^32 faces or more. */
  lemma {:induction false} ConstructedCatalogIndexed(systemDirs: seq<Path>, fontPaths: seq<Path>,
                                                     fontFiles: seq<Path>, walk: Walk, probe: Probe)
    requires DirsFit(systemDirs, walk, probe) && DirsFit(fontPaths, walk, probe)
    requires RecordsFit(fontFiles, probe)
    ensures Indexed(Join(Join(DirsCatalog(systemDirs, walk, probe), DirsCatalog(fontPaths, walk, probe)),
                         FilesCatalog(fontFiles, probe)), probe)
  {
    DirsIndexed(systemDirs, walk, probe);
    DirsIndexed(fontPaths, walk, probe);
    FilesIndexed(fontFiles, probe);
    JoinIndexed(DirsCatalog(systemDirs, walk, probe), DirsCatalog(fontPaths, walk, probe), probe);
    JoinIndexed(Join(DirsCatalog(systemDirs, walk, probe), DirsCatalog(fontPaths, walk, probe)),
                FilesCatalog(fontFiles, probe), probe);
  }
}
