/** Font discovery (`FontSearcher`) and the lazily decoded font slot. The memory map and
    `FontInfo::iter` are given as a probe from a path to the records found in the file,
    the recursive directory walk as a function from a directory to its entries in walk
    order, and `Font::new` as the test whether a face parses. */
module Fonts {
  import opened Wrappers
  import opened Paths
  import opened Files

  newtype u32 = x: int | 0 <= x < 0x1_0000_0000

  /** Metadata of one face as the font book stores it. */
  datatype FontInfo = FontInfo(family: string, style: string)

  /** A decoded face: the whole file's bytes and the face's index in it. */
  datatype Font = Font(data: Bytes, index: u32)

  /** Where a face lives, and its compute-once decoded value. */
  datatype FontSlot = FontSlot(path: Path, index: u32, font: Cell<Option<Font>>)

  /** `File::open`, `Mmap::map` and `FontInfo::iter`: `None` when the file cannot be
      opened or mapped, otherwise the records in the order the iterator yields them. */
  type Probe = Path -> Option<seq<FontInfo>>

  /** The walk below a directory, following links, siblings sorted by file name;
      `None` stands for an entry the walk could not read. */
  type Walk = Path -> seq<Option<Path>>

  /** `Font::new`: whether the face at an index of some bytes parses. */
  type Parser = (Bytes, u32) -> bool

  // ---- the extension filter of search_dir ----

  const FontExtensions: set<string> := {"ttf", "otf", "TTF", "OTF", "ttc", "otc", "TTC", "OTC"}

  predicate IsFontFile(p: Path)
  {
    Extension(p).Some? && Extension(p).value in FontExtensions
  }

  /** A path is admitted exactly when its last component is a name made of a non-empty
      stem, a dot and one of the eight spellings. */
  lemma FontFileCharacterized(p: Path)
    ensures IsFontFile(p) <==>
              |p| > 0 && p[|p| - 1].Normal?
              && exists stem, e :: e in FontExtensions && stem != "" && p[|p| - 1].name == stem + "." + e
  {
    if |p| > 0 && p[|p| - 1].Normal? {
      var name := p[|p| - 1].name;
      if name == ".." {
        assert !IsFontFile(p);
        forall stem, e | e in FontExtensions && stem != ""
          ensures name != stem + "." + e
        {
          assert |stem + "." + e| >= 5;
        }
      } else {
        forall e | e in FontExtensions ensures '.' !in e { }
        if IsFontFile(p) {
          var e := Extension(p).value;
          ExtensionCharacterized(name, e);
        }
        if exists stem, e :: e in FontExtensions && stem != "" && name == stem + "." + e {
          var stem, e :| e in FontExtensions && stem != "" && name == stem + "." + e;
          ExtensionCharacterized(name, e);
        }
      }
    }
  }

  /** The lower- and upper-case spellings are admitted. */
  lemma ExtensionSpellingsAdmitted()
    ensures IsFontFile([Normal("Arial.ttf")])
    ensures IsFontFile([Root, Normal("fonts"), Normal("Noto.TTC")])
  {
    LastDotAt("Arial.ttf", 5);
    LastDotAt("Noto.TTC", 4);
  }

  /** Mixed casings are refused. */
  lemma MixedCaseRefused()
    ensures !IsFontFile([Normal("Arial.Ttf")])
    ensures !IsFontFile([Normal("Arial.tTF")])
  {
    RefusedAt("Arial.Ttf", 5);
    RefusedAt("Arial.tTF", 5);
  }

  /** A name that is only a dot and an extension, a name without a dot, another
      extension, and a path ending in `..` are refused. */
  lemma OtherNamesRefused()
    ensures !IsFontFile([Normal(".ttf")])
    ensures !IsFontFile([Normal("ttf")])
    ensures !IsFontFile([Normal("Arial.woff")])
    ensures !IsFontFile([Normal("Arial.ttf"), Parent])
  {
    LastDotAt(".ttf", 0);
    assert LastDot("ttf") == None;
    RefusedAt("Arial.woff", 5);
    assert FileName([Normal("Arial.ttf"), Parent]) == None;
  }

  /** A name whose last dot is at `k` and whose text after it is none of the eight
      spellings is refused. */
  lemma RefusedAt(name: string, k: nat)
    requires 0 < k < |name| && name[k] == '.'
    requires forall j :: k < j < |name| ==> name[j] != '.'
    requires name[k + 1..] !in FontExtensions
    ensures !IsFontFile([Normal(name)])
  {
    LastDotAt(name, k);
  }

  // ---- catalogs: the font book and the font slots, in lock-step ----

  datatype Catalog = Catalog(book: seq<FontInfo>, fonts: seq<FontSlot>)

  const NoFonts: Catalog := Catalog([], [])

  function Join(a: Catalog, b: Catalog): Catalog
  {
    Catalog(a.book + b.book, a.fonts + b.fonts)
  }

  lemma JoinAssociative(a: Catalog, b: Catalog, c: Catalog)
    ensures Join(Join(a, b), c) == Join(a, Join(b, c))
  {
  }

  /** Book entry k and slot k describe the same face, and no slot is decoded yet. */
  predicate LockStep(c: Catalog)
  {
    |c.book| == |c.fonts| && forall k :: 0 <= k < |c.fonts| ==> c.fonts[k].font == Empty
  }

  lemma JoinLockStep(a: Catalog, b: Catalog)
    requires LockStep(a) && LockStep(b)
    ensures LockStep(Join(a, b))
  {
  }

  /** Slot k names the file and the index at which book entry k was found. */
  ghost predicate Indexed(c: Catalog, probe: Probe)
  {
    && LockStep(c)
    && forall k :: 0 <= k < |c.book| ==>
         && probe(c.fonts[k].path).Some?
         && c.fonts[k].index as int < |probe(c.fonts[k].path).value|
         && c.book[k] == probe(c.fonts[k].path).value[c.fonts[k].index]
  }

  function Records(path: Path, probe: Probe): seq<FontInfo>
  {
    match probe(path)
    case None => []
    case Some(records) => records
  }

  /** The i-th face of a file gets index `i as u32`, which wraps modulo 2^32. */
  function SlotsFor(path: Path, n: nat): seq<FontSlot>
  {
    seq(n, i => FontSlot(path, (i % 0x1_0000_0000) as u32, Empty))
  }

  /** What `search_file(path)` appends: one book entry and one empty slot per record. */
  function FileCatalog(path: Path, probe: Probe): (c: Catalog)
    ensures LockStep(c)
    ensures probe(path).None? ==> c == NoFonts
  {
    Catalog(Records(path, probe), SlotsFor(path, |Records(path, probe)|))
  }

  /** What `search_dir` appends for one walk entry. */
  function EntryCatalog(entry: Option<Path>, probe: Probe): Catalog
  {
    match entry
    case None => NoFonts
    case Some(p) => if IsFontFile(p) then FileCatalog(p, probe) else NoFonts
  }

  /** What `search_dir` appends for a whole walk, entry after entry. */
  function DirCatalog(entries: seq<Option<Path>>, probe: Probe): (c: Catalog)
    ensures LockStep(c)
  {
    if entries == [] then NoFonts
    else Join(DirCatalog(entries[..|entries| - 1], probe), EntryCatalog(entries[|entries| - 1], probe))
  }

  /** The font files among the walk entries, readable entries only, in walk order. */
  function FontFiles(entries: seq<Option<Path>>): (files: seq<Path>)
    ensures forall f :: f in files ==> IsFontFile(f) && Some(f) in entries
    ensures forall i :: 0 <= i < |entries| && entries[i].Some? && IsFontFile(entries[i].value)
              ==> entries[i].value in files
  {
    if entries == [] then []
    else
      var last := entries[|entries| - 1];
      var init := FontFiles(entries[..|entries| - 1]);
      assert forall i :: 0 <= i < |entries| - 1 ==> entries[..|entries| - 1][i] == entries[i];
      if last.Some? && IsFontFile(last.value) then init + [last.value] else init
  }

  /** What searching a list of files in order appends. */
  function FilesCatalog(files: seq<Path>, probe: Probe): (c: Catalog)
    ensures LockStep(c)
  {
    if files == [] then NoFonts
    else Join(FilesCatalog(files[..|files| - 1], probe), FileCatalog(files[|files| - 1], probe))
  }

  /** What searching a list of directories in order appends. */
  function DirsCatalog(dirs: seq<Path>, walk: Walk, probe: Probe): (c: Catalog)
    ensures LockStep(c)
  {
    if dirs == [] then NoFonts
    else Join(DirsCatalog(dirs[..|dirs| - 1], walk, probe), DirCatalog(walk(dirs[|dirs| - 1]), probe))
  }

  /** Searching a directory is searching its admitted files one after the other: walk
      errors and other extensions contribute nothing, and the order is the walk's. */
  lemma {:induction false} DirIsFilesInWalkOrder(entries: seq<Option<Path>>, probe: Probe)
    ensures DirCatalog(entries, probe) == FilesCatalog(FontFiles(entries), probe)
  {
    if entries != [] {
      var init := entries[..|entries| - 1];
      var last := entries[|entries| - 1];
      DirIsFilesInWalkOrder(init, probe);
      if last.Some? && IsFontFile(last.value) {
        var fs := FontFiles(init) + [last.value];
        assert fs[..|fs| - 1] == FontFiles(init);
      } else {
        assert Join(DirCatalog(init, probe), NoFonts) == DirCatalog(init, probe);
      }
    }
  }

  lemma JoinIndexed(a: Catalog, b: Catalog, probe: Probe)
    requires Indexed(a, probe) && Indexed(b, probe)
    ensures Indexed(Join(a, b), probe)
  {
  }

  /** A file holding fewer than 2^32 faces: slot i carries index i. */
  lemma FileIndexed(path: Path, probe: Probe)
    requires |Records(path, probe)| < 0x1_0000_0000
    ensures FileCatalog(path, probe).book == Records(path, probe)
    ensures forall k :: 0 <= k < |FileCatalog(path, probe).fonts| ==>
              FileCatalog(path, probe).fonts[k].path == path && FileCatalog(path, probe).fonts[k].index as int == k
    ensures Indexed(FileCatalog(path, probe), probe)
  {
    var c := FileCatalog(path, probe);
    forall k | 0 <= k < |c.book|
      ensures c.fonts[k].path == path && c.fonts[k].index as int == k
    {
      assert k % 0x1_0000_0000 == k;
    }
  }

  ghost predicate RecordsFit(files: seq<Path>, probe: Probe)
  {
    forall f :: f in files ==> |Records(f, probe)| < 0x1_0000_0000
  }

  /** Book entry k of a searched directory is record `fonts[k].index` of file
      `fonts[k].path`. */
  lemma {:induction false} DirIndexed(entries: seq<Option<Path>>, probe: Probe)
    requires RecordsFit(FontFiles(entries), probe)
    ensures Indexed(DirCatalog(entries, probe), probe)
  {
    DirIsFilesInWalkOrder(entries, probe);
    FilesIndexed(FontFiles(entries), probe);
  }

  lemma {:induction false} FilesIndexed(files: seq<Path>, probe: Probe)
    requires RecordsFit(files, probe)
    ensures Indexed(FilesCatalog(files, probe), probe)
  {
    if files != [] {
      var init := files[..|files| - 1];
      assert RecordsFit(init, probe);
      FilesIndexed(init, probe);
      FileIndexed(files[|files| - 1], probe);
      JoinIndexed(FilesCatalog(init, probe), FileCatalog(files[|files| - 1], probe), probe);
    }
  }

  /** Every file a search of these directories reaches holds fewer than 2^32 faces. */
  ghost predicate DirsFit(dirs: seq<Path>, walk: Walk, probe: Probe)
  {
    forall d :: d in dirs ==> RecordsFit(FontFiles(walk(d)), probe)
  }

  /** After searching directories, book entry k is record `fonts[k].index` of file
      `fonts[k].path`. */
  lemma {:induction false} DirsIndexed(dirs: seq<Path>, walk: Walk, probe: Probe)
    requires DirsFit(dirs, walk, probe)
    ensures Indexed(DirsCatalog(dirs, walk, probe), probe)
  {
    if dirs != [] {
      var init := dirs[..|dirs| - 1];
      assert DirsFit(init, walk, probe);
      DirsIndexed(init, walk, probe);
      DirIndexed(walk(dirs[|dirs| - 1]), probe);
      JoinIndexed(DirsCatalog(init, walk, probe), DirCatalog(walk(dirs[|dirs| - 1]), probe), probe);
    }
  }

  // ---- the searcher ----

  /** Accumulates the font book and the font slots. */
  class FontSearcher {
    var book: seq<FontInfo>
    var fonts: seq<FontSlot>

    function Current(): Catalog
      reads this
    {
      Catalog(book, fonts)
    }

    /** `FontSearcher::new`: an empty book and no slots. */
    constructor ()
      ensures Current() == NoFonts
    {
      book := [];
      fonts := [];
    }

    /** `search_file`: appends one record and one empty slot per face of the file, in
        the iterator's order; nothing when the file cannot be opened or mapped. */
    method SearchFile(path: Path, probe: Probe)
      modifies this
      ensures Current() == Join(old(Current()), FileCatalog(path, probe))
    {
      match probe(path)
      case None =>
      case Some(infos) =>
        for i := 0 to |infos|
          invariant book == old(book) + infos[..i]
          invariant fonts == old(fonts) + SlotsFor(path, i)
        {
          assert infos[..i + 1] == infos[..i] + [infos[i]];
          assert SlotsFor(path, i + 1) == SlotsFor(path, i) + [FontSlot(path, (i % 0x1_0000_0000) as u32, Empty)];
          book := book + [infos[i]];
          fonts := fonts + [FontSlot(path, (i % 0x1_0000_0000) as u32, Empty)];
        }
        assert infos[..|infos|] == infos;
    }

    /** `search_dir`: visits the walk's entries in order, skips unreadable ones, and
        searches every file whose extension is one of the eight font spellings. */
    method SearchDir(path: Path, walk: Walk, probe: Probe)
      modifies this
      ensures Current() == Join(old(Current()), DirCatalog(walk(path), probe))
    {
      var entries := walk(path);
      for i := 0 to |entries|
        invariant Current() == Join(old(Current()), DirCatalog(entries[..i], probe))
      {
        assert entries[..i + 1][..i] == entries[..i];
        ghost var done := DirCatalog(entries[..i], probe);
        assert DirCatalog(entries[..i + 1], probe) == Join(done, EntryCatalog(entries[i], probe));
        JoinAssociative(old(Current()), done, EntryCatalog(entries[i], probe));
        var entry := entries[i];
        if entry.Some? && IsFontFile(entry.value) {
          SearchFile(entry.value, probe);
        } else {
          assert Join(Current(), NoFonts) == Current();
        }
      }
      assert entries[..|entries|] == entries;
    }

    /** `search_dir` on each directory of a list, in order. */
    method SearchDirs(dirs: seq<Path>, walk: Walk, probe: Probe)
      modifies this
      ensures Current() == Join(old(Current()), DirsCatalog(dirs, walk, probe))
    {
      for i := 0 to |dirs|
        invariant Current() == Join(old(Current()), DirsCatalog(dirs[..i], walk, probe))
      {
        assert dirs[..i + 1][..i] == dirs[..i];
        JoinAssociative(old(Current()), DirsCatalog(dirs[..i], walk, probe), DirCatalog(walk(dirs[i]), probe));
        SearchDir(dirs[i], walk, probe);
      }
      assert dirs[..|dirs|] == dirs;
    }

    /** `search_file` on each file of a list, in order. */
    method SearchFiles(files: seq<Path>, probe: Probe)
      modifies this
      ensures Current() == Join(old(Current()), FilesCatalog(files, probe))
    {
      for i := 0 to |files|
        invariant Current() == Join(old(Current()), FilesCatalog(files[..i], probe))
      {
        assert files[..i + 1][..i] == files[..i];
        JoinAssociative(old(Current()), FilesCatalog(files[..i], probe), FileCatalog(files[i], probe));
        SearchFile(files[i], probe);
      }
      assert files[..|files|] == files;
    }
  }

  // ---- lazy decoding ----

  /** The first-call computation of `World::font`: read the whole file and parse the
      face at the slot's index; either failure gives `None`. */
  function LoadFont(slot: FontSlot, fs: FileSystem, parses: Parser): (f: Option<Font>)
    ensures Read(fs, slot.path).Err? ==> f == None
    ensures f.Some? <==> Read(fs, slot.path).Ok? && parses(Read(fs, slot.path).value, slot.index)
    ensures f.Some? ==> f.value == Font(Read(fs, slot.path).value, slot.index)
  {
    match Read(fs, slot.path)
    case Err(_) => None
    case Ok(data) => if parses(data, slot.index) then Some(Font(data, slot.index)) else None
  }

  /** `get_or_init` on the slot's cell: the value returned and the slot afterwards. */
  function GetFont(slot: FontSlot, fs: FileSystem, parses: Parser): (r: (Option<Font>, FontSlot))
    ensures r.1 == slot.(font := Full(r.0))
    ensures slot.font.Full? ==> r.0 == slot.font.value
    ensures slot.font.Empty? ==> r.0 == LoadFont(slot, fs, parses)
  {
    match slot.font
    case Full(f) => (f, slot)
    case Empty => var f := LoadFont(slot, fs, parses); (f, slot.(font := Full(f)))
  }

  /** Once a slot has been asked for its font, later calls return the same value, a
      cached absence included, whatever the file system or parser would now say. */
  lemma FontMemoised(slot: FontSlot, fs: FileSystem, parses: Parser, fs': FileSystem, parses': Parser)
    ensures var (f, s) := GetFont(slot, fs, parses);
            GetFont(s, fs', parses') == (f, s)
  {
  }
}
